/** The value-normalisation loop of `check_arguments` in
    beratools/utility/spatial_common.py: every tool argument whose text is
    "false" or "true", in any letter case, becomes the boolean; `verbose` is
    set only by the exact text "True". Parsing the command line and the JSON
    document is not modelled: the decoded argument dictionary is the input. */
module Arguments {
  import opened Wrappers
  import opened Geo

  /** The parsed command line: the (possibly absent) `--input` dictionary
      and the `--verbose` text. */
  datatype Args = Args(input: map<string, Value>, verbose: bool)

  /** One argument value after normalisation; `None` where `.lower()` raises
      because the value is not a string. */
  function Normalise(v: Value): (r: Option<Value>)
    ensures r.None? <==> !v.Str?
    ensures v.Str? && Lower(v.s) == "false" ==> r == Some(Bool(false))
    ensures v.Str? && Lower(v.s) == "true" ==> r == Some(Bool(true))
    ensures v.Str? && Lower(v.s) != "false" && Lower(v.s) != "true" ==> r == Some(v)
  {
    if !v.Str? then None
    else if Lower(v.s) == "false" then Some(Bool(false))
    else if Lower(v.s) == "true" then Some(Bool(true))
    else Some(v)
  }

  predicate AllText(input: map<string, Value>) {
    forall k :: k in input ==> input[k].Str?
  }

  /** The whole dictionary normalised; `None` when some value is not text. */
  function NormaliseAll(input: map<string, Value>): (r: Option<map<string, Value>>)
    ensures r.Some? <==> AllText(input)
    ensures r.Some? ==> r.value.Keys == input.Keys
    ensures r.Some? ==> forall k :: k in input ==> Some(r.value[k]) == Normalise(input[k])
  {
    if AllText(input) then Some(map k | k in input :: Normalise(input[k]).value) else None
  }

  /** Normalised dictionaries are made of booleans and of text that reads
      neither "true" nor "false", so a second normalisation fails exactly
      when the first one found a boolean. */
  lemma NormaliseAllBooleans(input: map<string, Value>)
    requires AllText(input)
    ensures var m := NormaliseAll(input).value;
      && (forall k :: k in m ==> m[k].Bool? || (m[k].Str? && Lower(m[k].s) != "false" && Lower(m[k].s) != "true"))
      && (NormaliseAll(m).Some? <==> forall k :: k in input ==> Lower(input[k].s) != "false" && Lower(input[k].s) != "true")
  {
    var m := NormaliseAll(input).value;
    if NormaliseAll(m).Some? {
      forall k | k in input
        ensures Lower(input[k].s) != "false" && Lower(input[k].s) != "true"
      {
        assert m[k].Str?;
      }
    }
  }

  /** `check_arguments` after parsing: `None` where iterating a missing input
      or lowering a non-text value raises. */
  function CheckArguments(input: Option<map<string, Value>>, verbose: Option<string>): (r: Option<Args>)
    ensures r.Some? <==> input.Some? && AllText(input.value)
    ensures r.Some? ==> r.value.input.Keys == input.value.Keys
  {
    if input.None? then None
    else match NormaliseAll(input.value)
      case None => None
      case Some(m) => Some(Args(m, verbose == Some("True")))
  }

  /** `verbose` holds only for the exact text "True". */
  lemma VerboseOnlyForTrue(input: map<string, Value>, verbose: Option<string>)
    requires AllText(input)
    ensures CheckArguments(Some(input), verbose).Some?
    ensures CheckArguments(Some(input), verbose).value.verbose <==> verbose == Some("True")
  {
  }

  /** The loop of `check_arguments`: the values are rewritten in place, one
      key at a time; a non-text value stops it with an exception. */
  method CheckArgumentsLoop(input: Option<map<string, Value>>, verbose: Option<string>) returns (r: Option<Args>)
    ensures r == CheckArguments(input, verbose)
  {
    if input.None? {
      return None;
    }
    var args := input.value;
    var todo := args.Keys;
    while todo != {}
      invariant todo <= input.value.Keys && args.Keys == input.value.Keys
      invariant forall k :: k in input.value ==>
        if k in todo then args[k] == input.value[k] else Some(args[k]) == Normalise(input.value[k])
      decreases |todo|
    {
      var k :| k in todo;
      var v := args[k];
      if !v.Str? {
        return None;
      }
      if Lower(v.s) == "false" {
        args := args[k := Bool(false)];
      } else if Lower(v.s) == "true" {
        args := args[k := Bool(true)];
      }
      assert Some(args[k]) == Normalise(input.value[k]);
      todo := todo - {k};
    }
    assert AllText(input.value) by {
      forall k | k in input.value ensures input.value[k].Str? {
        assert Normalise(input.value[k]).Some?;
      }
    }
    ghost var m := NormaliseAll(input.value).value;
    assert m.Keys == args.Keys && forall k :: k in m ==> Some(m[k]) == Some(args[k]);
    assert args == m;
    r := Some(Args(args, verbose == Some("True")));
  }
}
