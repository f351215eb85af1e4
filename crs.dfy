/** `compare_crs` of beratools/utility/spatial_common.py (the same decision
    tree is copied in beratools/tools/common.py): whether two spatial
    references may be processed together. A spatial reference is the record
    of what the decision reads from its normalised form; whether two of them
    share a geographic coordinate system is a relation the caller supplies. */
module CrsCheck {
  import opened Wrappers

  /** A spatial reference as the decision sees it: whether it is compound,
      its name, the name of its coordinate operation and that of its first
      sub-CRS (`None` where that operation is missing and reading its name
      raises). */
  datatype Crs = Crs(isCompound: bool, name: string, opName: Option<string>, subOpName: Option<string>)

  /** What a call does: return a boolean, stop the process (`exit()`), or
      raise. */
  datatype Outcome = Returns(b: bool) | Exit | Raised

  /** The projection name the decision compares: that of the first sub-CRS
      of a compound reference, otherwise that of the reference itself. */
  function ProjName(c: Crs): Option<string> {
    if c.isCompound then c.subOpName else c.opName
  }

  /** The decision as written. The branch for the destination tests the
      source's name against "unnamed" (spatial_common.py line 172). */
  function CompareCrs(org: Option<Crs>, dst: Option<Crs>, sameGeogCS: (Crs, Crs) -> bool): (r: Outcome)
    ensures r == Returns(true) ==>
      org.Some? && dst.Some? &&
      (sameGeogCS(org.value, dst.value) ||
       (ProjName(org.value).Some? && ProjName(org.value) == ProjName(dst.value) && org.value.name == dst.value.name))
  {
    if org.None? || dst.None? then Returns(false)
    else
      var o, d := org.value, dst.value;
      if sameGeogCS(o, d) then Returns(true)
      else if !o.isCompound && o.name == "unnamed" then Returns(false)
      else if ProjName(o).None? then Raised
      else if !d.isCompound && o.name == "unnamed" then Returns(false)
      else if ProjName(d).None? then Raised
      else if ProjName(o) != ProjName(d) then Returns(false)
      else if o.name == d.name then Returns(true)
      else Exit
  }

  /** The outcomes of the decision as written, each characterised: a missing
      reference gives False; a shared geographic system gives True without
      names or projections being read; otherwise True needs equal,
      readable projection names and equal CRS names, and equal projection
      names with different CRS names stop the process. A source named
      "unnamed" passes only when both references are compound. */
  lemma CompareCrsOutcomes(org: Option<Crs>, dst: Option<Crs>, sameGeogCS: (Crs, Crs) -> bool)
    ensures org.None? || dst.None? ==> CompareCrs(org, dst, sameGeogCS) == Returns(false)
    ensures org.Some? && dst.Some? && sameGeogCS(org.value, dst.value) ==> CompareCrs(org, dst, sameGeogCS) == Returns(true)
    ensures CompareCrs(org, dst, sameGeogCS) == Returns(true) <==>
      org.Some? && dst.Some? &&
      (sameGeogCS(org.value, dst.value) ||
       (ProjName(org.value).Some? && ProjName(org.value) == ProjName(dst.value)
        && org.value.name == dst.value.name
        && (org.value.name != "unnamed" || (org.value.isCompound && dst.value.isCompound))))
    ensures CompareCrs(org, dst, sameGeogCS) == Exit <==>
      org.Some? && dst.Some? && !sameGeogCS(org.value, dst.value)
      && (org.value.name != "unnamed" || (org.value.isCompound && dst.value.isCompound))
      && ProjName(org.value).Some? && ProjName(org.value) == ProjName(dst.value)
      && org.value.name != dst.value.name
  {
  }

  /** A non-compound source named "unnamed" is rejected unless it shares the
      destination's geographic system. */
  lemma UnnamedSourceRejected(o: Crs, d: Crs, sameGeogCS: (Crs, Crs) -> bool)
    requires !o.isCompound && o.name == "unnamed" && !sameGeogCS(o, d)
    ensures CompareCrs(Some(o), Some(d), sameGeogCS) == Returns(false)
  {
  }

  /** A counterexample to the destination test: a source and a destination
      on the same projection, the destination non-compound and "unnamed".
      As written, the call stops the process; with the arguments swapped it
      returns False. */
  lemma UnnamedDestinationNotRejected()
    ensures var o := Crs(false, "NAD83 / UTM zone 10N", Some("UTM zone 10N"), None);
      var d := Crs(false, "unnamed", Some("UTM zone 10N"), None);
      var never := (a: Crs, b: Crs) => false;
      && CompareCrs(Some(o), Some(d), never) == Exit
      && CompareCrs(Some(d), Some(o), never) == Returns(false)
  {
  }

  /** The decision with the destination branch testing the destination's
      own name. */
  function CompareCrsIntended(org: Option<Crs>, dst: Option<Crs>, sameGeogCS: (Crs, Crs) -> bool): (r: Outcome)
    ensures r == Returns(true) ==>
      org.Some? && dst.Some? &&
      (sameGeogCS(org.value, dst.value) ||
       (ProjName(org.value).Some? && ProjName(org.value) == ProjName(dst.value) && org.value.name == dst.value.name
        && (org.value.name != "unnamed" || (org.value.isCompound && dst.value.isCompound))))
  {
    if org.None? || dst.None? then Returns(false)
    else
      var o, d := org.value, dst.value;
      if sameGeogCS(o, d) then Returns(true)
      else if !o.isCompound && o.name == "unnamed" then Returns(false)
      else if ProjName(o).None? then Raised
      else if !d.isCompound && d.name == "unnamed" then Returns(false)
      else if ProjName(d).None? then Raised
      else if ProjName(o) != ProjName(d) then Returns(false)
      else if o.name == d.name then Returns(true)
      else Exit
  }

  /** Corrected, the decision treats both references alike: an unnamed
      non-compound destination is rejected like an unnamed source, and
      whenever neither order raises, swapping the arguments does not change
      the outcome (for a symmetric geographic-system relation). */
  lemma CompareCrsIntendedSymmetric(o: Crs, d: Crs, sameGeogCS: (Crs, Crs) -> bool)
    requires sameGeogCS(o, d) == sameGeogCS(d, o)
    ensures !d.isCompound && d.name == "unnamed" && !sameGeogCS(o, d) ==>
      CompareCrsIntended(Some(o), Some(d), sameGeogCS) in {Returns(false), Raised}
    ensures CompareCrsIntended(Some(o), Some(d), sameGeogCS) != Raised && CompareCrsIntended(Some(d), Some(o), sameGeogCS) != Raised ==>
      CompareCrsIntended(Some(o), Some(d), sameGeogCS) == CompareCrsIntended(Some(d), Some(o), sameGeogCS)
  {
  }

  /** The two versions differ only where the destination is non-compound
      and exactly one of the two references is named "unnamed". */
  lemma CompareCrsIntendedAgrees(org: Option<Crs>, dst: Option<Crs>, sameGeogCS: (Crs, Crs) -> bool)
    requires org.None? || dst.None? || dst.value.isCompound
             || ((org.value.name == "unnamed") == (dst.value.name == "unnamed"))
    ensures CompareCrsIntended(org, dst, sameGeogCS) == CompareCrs(org, dst, sameGeogCS)
  {
  }
}
