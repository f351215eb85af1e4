/** `extract_string_from_printout` of beratools/tools/common.py: pick, from the
    shell-style tokens of a tool's printout, the first token that contains a
    key (the first token when none does) and strip its surrounding
    whitespace. Tokenising the printout (`shlex.split`) is not modelled: the
    tokens are the input. */
module Printout {
  import opened Wrappers
  import opened Geo

  /** The number of leading whitespace characters of `s`. */
  function LeadingSpaces(s: string): (k: nat)
    ensures k <= |s|
    ensures forall i :: 0 <= i < k ==> IsSpace(s[i])
    ensures k == |s| || !IsSpace(s[k])
  {
    if s != [] && IsSpace(s[0]) then 1 + LeadingSpaces(s[1..]) else 0
  }

  /** The number of trailing whitespace characters of `s`. */
  function TrailingSpaces(s: string): (k: nat)
    ensures k <= |s|
    ensures forall i :: |s| - k <= i < |s| ==> IsSpace(s[i])
    ensures k == |s| || !IsSpace(s[|s| - k - 1])
  {
    if s != [] && IsSpace(s[|s| - 1]) then 1 + TrailingSpaces(s[..|s| - 1]) else 0
  }

  /** `str.strip()`: `s` without its leading and trailing whitespace. */
  function Strip(s: string): string {
    var a := LeadingSpaces(s);
    if a == |s| then [] else s[a..|s| - TrailingSpaces(s)]
  }

  /** `Strip` removes exactly the whitespace at both ends: what remains is a
      middle slice of `s` that neither starts nor ends with whitespace, and
      everything cut away is whitespace. */
  lemma StripMeaning(s: string)
    ensures var r := Strip(s);
      && (r == [] <==> forall i :: 0 <= i < |s| ==> IsSpace(s[i]))
      && (r != [] ==> !IsSpace(r[0]) && !IsSpace(r[|r| - 1]))
      && exists a, b :: 0 <= a <= b <= |s| && r == s[a..b]
           && (forall i :: 0 <= i < a ==> IsSpace(s[i]))
           && (forall i :: b <= i < |s| ==> IsSpace(s[i]))
  {
    var a := LeadingSpaces(s);
    if a == |s| {
      assert Strip(s) == s[a..a];
    } else {
      var t := TrailingSpaces(s);
      assert !IsSpace(s[a]);
      assert a < |s| - t;
      var r := Strip(s);
      assert r == s[a..|s| - t];
      assert r[0] == s[a] && r[|r| - 1] == s[|s| - t - 1];
    }
  }

  /** Stripping twice strips nothing more. */
  lemma StripIdempotent(s: string)
    ensures Strip(Strip(s)) == Strip(s)
  {
    StripMeaning(s);
    var r := Strip(s);
    if r != [] {
      assert LeadingSpaces(r) == 0;
      assert TrailingSpaces(r) == 0;
      assert r[0..|r|] == r;
    }
  }

  /** The index the search settles on, scanning from `i`: the first token at
      or after `i` that contains `key`, or 0 when there is none. */
  function MatchFrom(tokens: seq<string>, key: string, i: nat): (k: nat)
    requires i <= |tokens|
    ensures (exists j :: i <= j < |tokens| && Contains(tokens[j], key)) ==>
              i <= k < |tokens| && Contains(tokens[k], key) && forall j :: i <= j < k ==> !Contains(tokens[j], key)
    ensures (forall j :: i <= j < |tokens| ==> !Contains(tokens[j], key)) ==> k == 0
    decreases |tokens| - i
  {
    if i == |tokens| then 0
    else if Contains(tokens[i], key) then i
    else MatchFrom(tokens, key, i + 1)
  }

  /** The extracted string; `None` where indexing the empty token list raises. */
  function ExtractString(tokens: seq<string>, key: string): Option<string> {
    if tokens == [] then None else Some(Strip(tokens[MatchFrom(tokens, key, 0)]))
  }

  /** What the extraction returns: the stripped first token that contains the
      key and, when no token contains it, the stripped first token. */
  lemma {:induction false} ExtractStringMeaning(tokens: seq<string>, key: string)
    ensures ExtractString(tokens, key).None? <==> tokens == []
    ensures forall k :: 0 <= k < |tokens| && Contains(tokens[k], key)
              && (forall j :: 0 <= j < k ==> !Contains(tokens[j], key))
              ==> ExtractString(tokens, key) == Some(Strip(tokens[k]))
    ensures (tokens != [] && forall j :: 0 <= j < |tokens| ==> !Contains(tokens[j], key))
              ==> ExtractString(tokens, key) == Some(Strip(tokens[0]))
  {
    if tokens != [] {
      var m := MatchFrom(tokens, key, 0);
      forall k | 0 <= k < |tokens| && Contains(tokens[k], key) && (forall j :: 0 <= j < k ==> !Contains(tokens[j], key))
        ensures m == k
      {
        assert 0 <= k < |tokens| && Contains(tokens[k], key);
      }
    }
  }

  /** The empty key is contained in every token, so it selects the first one. */
  lemma EmptyKeyPicksFirst(tokens: seq<string>)
    requires tokens != []
    ensures ExtractString(tokens, "") == Some(Strip(tokens[0]))
  {
    assert OccursAt(tokens[0], "", 0);
  }

  /** `extract_string_from_printout`: the enumerate loop with its `break`. */
  method ExtractStringFromPrintout(tokens: seq<string>, key: string) returns (r: Option<string>)
    ensures r == ExtractString(tokens, key)
  {
    var index := 0;
    var i := 0;
    while i < |tokens|
      invariant 0 <= i <= |tokens|
      invariant index == 0
      invariant forall j :: 0 <= j < i ==> !Contains(tokens[j], key)
    {
      if Contains(tokens[i], key) {
        index := i;
        break;
      }
      i := i + 1;
    }
    if tokens == [] {
      return None;
    }
    r := Some(Strip(tokens[index]));
  }
}
