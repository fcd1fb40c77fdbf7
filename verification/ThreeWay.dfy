/** The three-way disposition of one changed path: what becomes of content and mode. */
module ThreeWay {
  import opened Wrappers
  import opened Rows

  /** `git merge-file` on normalized texts: merged text and conflict count. */
  type Merge = (string, string, string) -> (string, nat)

  /** The laws of a three-way merge: a side equal to the base yields the other, equal sides yield both. */
  ghost predicate MergeLaws(merge: Merge) {
    forall b: string, x: string ::
      merge(b, b, x) == (x, 0) && merge(b, x, b) == (x, 0) && merge(b, x, x) == (x, 0)
  }

  /** One version of the path: normalized text and mode. */
  datatype Version = Version(text: string, mode: string)

  datatype Verdict = Verdict(status: Status, conflicts: nat, mergedMode: Option<string>, merged: Option<string>)

  function ModeOf(v: Option<Version>): Option<string> {
    if v.Some? then Some(v.value.mode) else None
  }

  function Plain(status: Status): Verdict {
    Verdict(status, 0, None, None)
  }

  /** Base, fork and upstream version of the path; None where the side has no file. */
  function Decide(b: Option<Version>, o: Option<Version>, t: Option<Version>, merge: Merge): Verdict {
    if t.None? then
      if o.None? then Plain(AlreadyAbsent)
      else if b.Some? && o.value.text == b.value.text && o.value.mode == b.value.mode then Plain(DeleteClean)
      else Plain(DeleteModify)
    else if o.None? then
      if b.None? then Verdict(AddClean, 0, Some(t.value.mode), Some(t.value.text)) else Plain(ModifyDelete)
    else if o.value.mode != t.value.mode && ModeOf(o) != ModeOf(b) && ModeOf(t) != ModeOf(b) then
      Plain(ModeConflict)
    else
      var (text, count) := merge(if b.Some? then b.value.text else "", o.value.text, t.value.text);
      Verdict(
        if count > 0 then (if b.None? then AddAddConflict else Conflict) else (if b.None? then AddAddEqual else Clean),
        count,
        Some(if ModeOf(o) == ModeOf(b) then t.value.mode else o.value.mode),
        Some(text))
  }

  const APPLYABLE: set<Status> := {Clean, AddClean, DeleteClean, AddAddEqual}

  /** A change made only upstream is taken whole, content and mode. */
  lemma UpstreamOnly(b: Version, t: Version, merge: Merge)
    requires MergeLaws(merge)
    ensures Decide(Some(b), Some(b), Some(t), merge) == Verdict(Clean, 0, Some(t.mode), Some(t.text))
    ensures Decide(Some(b), Some(b), None, merge).status == DeleteClean
    ensures Decide(None, None, Some(t), merge) == Verdict(AddClean, 0, Some(t.mode), Some(t.text))
  {
    assert merge(b.text, b.text, t.text) == (t.text, 0);
  }

  /** A change made only in the fork survives whole, content and mode. */
  lemma ForkOnly(b: Version, o: Version, merge: Merge)
    requires MergeLaws(merge)
    ensures Decide(Some(b), Some(o), Some(b), merge) == Verdict(Clean, 0, Some(o.mode), Some(o.text))
    ensures Decide(Some(b), None, Some(b), merge).status == ModifyDelete
    ensures Decide(None, Some(o), None, merge).status == DeleteModify
  {
    assert merge(b.text, o.text, b.text) == (o.text, 0);
  }

  /** The same change on both sides is kept; adding the same file twice is no conflict. */
  lemma BothSides(b: Option<Version>, v: Version, merge: Merge)
    requires MergeLaws(merge)
    ensures var r := Decide(b, Some(v), Some(v), merge);
            && r.status == (if b.None? then AddAddEqual else Clean) && r.conflicts == 0
            && r.merged == Some(v.text) && r.mergedMode == Some(v.mode)
  {
    var base := if b.Some? then b.value.text else "";
    assert merge(base, v.text, v.text) == (v.text, 0);
  }

  /** Content and mode merge independently: upstream's text with the fork's mode, and the reverse. */
  lemma ContentAndModeApart(b: Version, text: string, mode: string, merge: Merge)
    requires MergeLaws(merge)
    ensures Decide(Some(b), Some(Version(b.text, mode)), Some(Version(text, b.mode)), merge)
         == Verdict(Clean, 0, Some(mode), Some(text))
    ensures Decide(Some(b), Some(Version(text, b.mode)), Some(Version(b.text, mode)), merge)
         == Verdict(Clean, 0, Some(mode), Some(text))
  {
    assert merge(b.text, b.text, text) == (text, 0) && merge(b.text, text, b.text) == (text, 0);
  }

  /** A fork file is deleted only when its normalized text and its mode are still the base's. */
  lemma DeletesOnlyUnedited(b: Option<Version>, o: Option<Version>, t: Option<Version>, merge: Merge)
    ensures Decide(b, o, t, merge).status == DeleteClean <==> t.None? && o.Some? && o == b
  {}

  /** The mode m is one side's mode and honours every change of mode against the base. */
  predicate Honours(b: Option<Version>, o: Version, t: Version, m: string) {
    && (m == o.mode || m == t.mode)
    && (Some(o.mode) != ModeOf(b) ==> m == o.mode)
    && (Some(t.mode) != ModeOf(b) ==> m == t.mode)
  }

  /** A row with both sides is a mode conflict exactly when no mode honours both sides' changes; otherwise
      the row carries the only mode that does. */
  lemma ModesMerge(b: Option<Version>, o: Version, t: Version, merge: Merge)
    ensures var r := Decide(b, Some(o), Some(t), merge);
            && (r.status == ModeConflict <==> forall m :: !Honours(b, o, t, m))
            && (r.status != ModeConflict ==> forall m :: r.mergedMode == Some(m) <==> Honours(b, o, t, m))
  {
    var r := Decide(b, Some(o), Some(t), merge);
    if r.status != ModeConflict {
      assert Honours(b, o, t, r.mergedMode.value);
    }
  }

  /** Every applyable disposition but a deletion carries a conflict-free candidate that merges the
      fork's text, when there is one, and upstream's; every deletion carries none. */
  lemma ApplyableCarriesMerge(b: Option<Version>, o: Option<Version>, t: Option<Version>, merge: Merge)
    requires Decide(b, o, t, merge).status in APPLYABLE
    ensures var r := Decide(b, o, t, merge);
            && r.conflicts == 0
            && (r.status == DeleteClean <==> t.None?) && (r.status == DeleteClean <==> r.merged.None?)
            && (r.status == AddClean <==> t.Some? && o.None?)
            && (t.Some? ==> r.mergedMode.Some?)
            && (t.Some? && o.None? ==> b.None? && r.merged == Some(t.value.text))
            && (t.Some? && o.Some? ==>
                 merge(if b.Some? then b.value.text else "", o.value.text, t.value.text) == (r.merged.value, 0))
  {}

  /** A merge over an empty base that notices two different nonempty texts. */
  ghost predicate SeesDifference(merge: Merge) {
    forall x: string, y: string :: x != "" && y != "" && x != y ==> merge("", x, y).1 > 0
  }

  /** `add_add_equal` means that the modes agree and that the texts do, or one of the two is empty. */
  lemma AddAddEqualMeaning(o: Version, t: Version, merge: Merge)
    requires MergeLaws(merge) && SeesDifference(merge)
    ensures Decide(None, Some(o), Some(t), merge).status == AddAddEqual <==>
            o.mode == t.mode && (o.text == t.text || o.text == "" || t.text == "")
  {
    AddAddEqualCases(o, t, merge);
    assert o.text != "" && t.text != "" && o.text != t.text ==> merge("", o.text, t.text).1 > 0;
  }

  /** What the row carries in those cases, from the merge laws alone: the text that is not empty. */
  lemma AddAddEqualCases(o: Version, t: Version, merge: Merge)
    requires MergeLaws(merge)
    ensures o.mode == t.mode && (o.text == t.text || o.text == "" || t.text == "") ==>
            Decide(None, Some(o), Some(t), merge)
            == Verdict(AddAddEqual, 0, Some(o.mode), Some(if o.text == "" then t.text else o.text))
  {
    assert merge("", "", t.text) == (t.text, 0) && merge("", o.text, "") == (o.text, 0);
    assert merge("", o.text, o.text) == (o.text, 0);
  }

  /** So `add_add_equal` does not mean equal: an empty file on either side yields to the other's text. */
  lemma AddAddEqualIsNotEquality(text: string, mode: string, merge: Merge)
    requires MergeLaws(merge) && text != ""
    ensures Decide(None, Some(Version("", mode)), Some(Version(text, mode)), merge)
         == Verdict(AddAddEqual, 0, Some(mode), Some(text))
    ensures Decide(None, Some(Version(text, mode)), Some(Version("", mode)), merge)
         == Verdict(AddAddEqual, 0, Some(mode), Some(text))
  {
    AddAddEqualCases(Version("", mode), Version(text, mode), merge);
    AddAddEqualCases(Version(text, mode), Version("", mode), merge);
  }
}
