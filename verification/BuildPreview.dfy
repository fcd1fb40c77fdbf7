/** `build_preview`: one row per changed path, classified, then checked for path conflicts. */
module BuildPreview {
  import opened Wrappers
  import opened Decimal
  import opened Paths
  import opened Preview
  import opened Rows
  import opened Conflicts
  import opened ThreeWay
  import opened PreviewInputs
  import opened Dispositions

  // ---- Artifact names ------------------------------------------------------------------

  function MergedName(index: nat): string {
    "files/" + Padded(index, 5) + "/merged.txt"
  }

  lemma MergedNameInjective(i: nat, j: nat)
    requires MergedName(i) == MergedName(j)
    ensures i == j
  {
    var n := |MergedName(i)|;
    assert Padded(i, 5) == MergedName(i)[6..n - 11] && Padded(j, 5) == MergedName(j)[6..n - 11];
    PaddedInjective(i, j, 5);
  }

  // ---- Rows ----------------------------------------------------------------------------

  function Initial(v: Verdict, index: nat): Outcome {
    Outcome(v.status, [], v.conflicts, v.mergedMode, if v.merged.Some? then Some(MergedName(index)) else None)
  }

  /** The row records its delta faithfully. */
  ghost predicate Records(inp: Inputs, d: Delta, row: Row) {
    && row.forkPath == inp.forkPath(d.path) && row.oursPath == inp.OursPath(d) && row.objects == inp.ObjectsOf(d)
    && row.oldForkPath == (if d.oldPath.Some? then Some(inp.forkPath(d.oldPath.value)) else None)
  }

  /** The outcomes of the first n rows before path conflicts. */
  ghost function InitialsUpTo(inp: Inputs, n: nat): (outcomes: seq<Outcome>)
    requires n <= |inp.deltas|
    ensures |outcomes| == n
  {
    if n == 0 then [] else InitialsUpTo(inp, n - 1) + [Initial(inp.VerdictOf(inp.deltas[n - 1]), n - 1)]
  }

  ghost function Initials(inp: Inputs): seq<Outcome> {
    InitialsUpTo(inp, |inp.deltas|)
  }

  lemma {:induction false} InitialsAt(inp: Inputs, n: nat, i: nat)
    requires i < n <= |inp.deltas|
    ensures InitialsUpTo(inp, n)[i] == Initial(inp.VerdictOf(inp.deltas[i]), i)
  {
    if i < n - 1 { InitialsAt(inp, n - 1, i); }
  }

  /** The merged candidates of the first n rows. */
  ghost function Candidates(inp: Inputs, n: nat): map<string, string>
    requires n <= |inp.deltas|
  {
    if n == 0 then map[]
    else
      Saved(Candidates(inp, n - 1), inp.VerdictOf(inp.deltas[n - 1]), n - 1)
  }

  lemma {:induction false} CandidateAt(inp: Inputs, n: nat)
    requires n <= |inp.deltas|
    ensures forall i :: 0 <= i < n && inp.VerdictOf(inp.deltas[i]).merged.Some? ==>
              && MergedName(i) in Candidates(inp, n)
              && Candidates(inp, n)[MergedName(i)] == inp.VerdictOf(inp.deltas[i]).merged.value
  {
    if n > 0 {
      CandidateAt(inp, n - 1);
      forall i | 0 <= i < n - 1 ensures MergedName(i) != MergedName(n - 1) {
        if MergedName(i) == MergedName(n - 1) { MergedNameInjective(i, n - 1); }
      }
    }
  }

  lemma InitialsOwn(inp: Inputs)
    ensures OwnArtifacts(Initials(inp), Candidates(inp, |inp.deltas|))
  {
    CandidateAt(inp, |inp.deltas|);
    var was := Initials(inp);
    forall i | 0 <= i < |was| ensures was[i] == Initial(inp.VerdictOf(inp.deltas[i]), i) {
      InitialsAt(inp, |inp.deltas|, i);
    }
    forall i, j | 0 <= i < j < |was| && was[i].merged.Some? ensures was[i].merged != was[j].merged {
      if was[i].merged == was[j].merged { MergedNameInjective(i, j); }
    }
  }

  /** The text branch: content and mode of the three versions decide. */
  method Dispose(row: Row, index: nat, b: Option<Version>, o: Option<Version>, t: Option<Version>, merge: Merge,
                 artifacts: Artifacts)
    requires row.Now() == Outcome(row.status, [], 0, None, None)
    modifies row, artifacts
    ensures row.Now() == Initial(Decide(b, o, t, merge), index)
    ensures artifacts.files == Saved(old(artifacts.files), Decide(b, o, t, merge), index)
  {
    if t.None? {
      row.status := if o.None? then AlreadyAbsent
                    else if b.Some? && o.value.text == b.value.text && o.value.mode == b.value.mode then DeleteClean
                    else DeleteModify;
    } else if o.None? {
      row.status := if b.None? then AddClean else ModifyDelete;
      if b.None? {
        artifacts.files := artifacts.files[MergedName(index) := t.value.text];
        row.merged := Some(MergedName(index));
        row.mergedMode := Some(t.value.mode);
      }
    } else if o.value.mode != t.value.mode && ModeOf(o) != ModeOf(b) && ModeOf(t) != ModeOf(b) {
      row.status := ModeConflict;
    } else {
      var (text, count) := merge(if b.Some? then b.value.text else "", o.value.text, t.value.text);
      row.conflicts := count;
      row.status := if count > 0 then (if b.None? then AddAddConflict else Conflict)
                    else if b.None? then AddAddEqual else Clean;
      row.mergedMode := Some(if ModeOf(o) == ModeOf(b) then t.value.mode else o.value.mode);
      artifacts.files := artifacts.files[MergedName(index) := text];
      row.merged := Some(MergedName(index));
    }
  }

  function Saved(files: map<string, string>, v: Verdict, index: nat): map<string, string> {
    if v.merged.Some? then files[MergedName(index) := v.merged.value] else files
  }

  method BuildRow(inp: Inputs, index: nat, artifacts: Artifacts) returns (row: Row)
    requires index < |inp.deltas| && inp.Readable()
    modifies artifacts
    ensures fresh(row) && Records(inp, inp.deltas[index], row)
    ensures row.Now() == Initial(inp.VerdictOf(inp.deltas[index]), index)
    ensures artifacts.files == Saved(old(artifacts.files), inp.VerdictOf(inp.deltas[index]), index)
  {
    var d := inp.deltas[index];
    var objects := inp.ObjectsOf(d);
    var oldForkPath := if d.oldPath.Some? then Some(inp.forkPath(d.oldPath.value)) else None;
    row := new Row(inp.forkPath(d.path), inp.OursPath(d), oldForkPath, objects,
                   Outcome(AlreadyAbsent, [], 0, None, None));
    var special := inp.Special(objects.base) || inp.Special(objects.ours) || inp.Special(objects.theirs)
                   || inp.Special(objects.destination);
    var binary := inp.IsBinary(objects.base) || inp.IsBinary(objects.ours) || inp.IsBinary(objects.theirs)
                  || inp.IsBinary(objects.destination);
    var unreadable := inp.Opaque(objects.base) || inp.Opaque(objects.ours) || inp.Opaque(objects.theirs)
                      || inp.Opaque(objects.destination);
    if inp.Collides(d) {
      row.status := RenameCollision;
    } else if special {
      row.status := SpecialEntry;
    } else if binary {
      row.status := Binary;
    } else if unreadable {
      row.status := NonUtf8;
    } else {
      var b := inp.VersionOf(objects.base, true, inp.Exempt(d));
      var o := inp.VersionOf(objects.ours, false, inp.Exempt(d));
      var t := inp.VersionOf(objects.theirs, true, inp.Exempt(d));
      Dispose(row, index, b, o, t, inp.merge, artifacts);
    }
  }

  /** Rows, their initial outcomes and the final classification, as one preview. */
  ghost predicate Previewed(inp: Inputs, rows: seq<Row>, files: map<string, string>, blocked: set<Fact>)
    reads rows
  {
    && |rows| == |inp.deltas| && DistinctRows(rows)
    && (forall i :: 0 <= i < |rows| ==> Records(inp, inp.deltas[i], rows[i]))
    && Least(Facts(rows, Initials(inp)), inp.ours.Keys, blocked)
    && Standing(rows, Initials(inp), Outcomes(rows), inp.ours.Keys, blocked)
    && files == Candidates(inp, |inp.deltas|) - Dropped(Initials(inp), Outcomes(rows))
  }

  ghost function PathConflicts(rows: seq<Row>): set<nat>
    reads rows
  {
    set i | 0 <= i < |rows| && rows[i].status == PathConflict
  }

  lemma FactsAreThePlans(inp: Inputs, rows: seq<Row>)
    requires |rows| == |inp.deltas| && forall i :: 0 <= i < |rows| ==> Records(inp, inp.deltas[i], rows[i])
    ensures forall i :: 0 <= i < |rows| ==> FactAt(rows, Initials(inp), i) == PlanFact(inp, i)
    ensures Facts(rows, Initials(inp)) == PlanFacts(inp, All(inp))
  {
    forall i | 0 <= i < |rows| ensures FactAt(rows, Initials(inp), i) == PlanFact(inp, i) {
      InitialsAt(inp, |inp.deltas|, i);
    }
    forall f | f in PlanFacts(inp, All(inp)) ensures f in Facts(rows, Initials(inp)) {
      var i :| i in All(inp) && PlanFact(inp, i) == f;
      assert FactAt(rows, Initials(inp), i) == f;
    }
  }

  /** The rows that end as path conflicts are the least blocked ones, in terms of trees and blobs. */
  lemma ConflictsAreLeast(inp: Inputs, rows: seq<Row>, files: map<string, string>, blocked: set<Fact>)
    requires inp.Readable() && Previewed(inp, rows, files, blocked)
    ensures PathConflicts(rows) == Numbered(inp, All(inp), blocked)
    ensures LeastBlocked(inp, All(inp), PathConflicts(rows))
  {
    FactsAreThePlans(inp, rows);
    LeastIsPlain(inp, All(inp), blocked);
    var was, now := Initials(inp), Outcomes(rows);
    forall i | 0 <= i < |rows| ensures rows[i].status == PathConflict <==> PlanFact(inp, i) in blocked {
      InitialsAt(inp, |inp.deltas|, i);
      NeverBlockedAtFirst(inp, inp.deltas[i]);
      assert now[i].status == rows[i].status && FactAt(rows, was, i) == PlanFact(inp, i);
      assert RowAfter(was[i], now[i], rows[i].forkPath, inp.ours.Keys, FactAt(rows, was, i) in blocked);
    }
  }

  lemma NeverBlockedAtFirst(inp: Inputs, d: Delta)
    ensures inp.VerdictOf(d).status != PathConflict
  {
    DecideIsTextual(SidesOf(inp, d), inp.merge);
  }

  method BuildPreview(inp: Inputs)
    returns (r: Result<(seq<Row>, Artifacts), MappingError>, ghost blocked: set<Fact>, ghost rounds: nat)
    requires inp.Readable()
    ensures r.Success? <==> Mappable(inp.bases.Keys, inp.forkPath) && Mappable(inp.targets.Keys, inp.forkPath)
    ensures r.Success? ==> fresh(r.value.1) && forall i :: 0 <= i < |r.value.0| ==> fresh(r.value.0[i])
    ensures r.Success? ==> Previewed(inp, r.value.0, r.value.1.files, blocked)
    ensures r.Success? ==> LeastBlocked(inp, All(inp), PathConflicts(r.value.0))
    ensures r.Success? ==> Named(r.value.0, Initials(inp), Outcomes(r.value.0), inp.ours.Keys, rounds)
  {
    blocked, rounds := {}, 0;
    var baseOrder := SortedSet(inp.bases.Keys);
    AscendingDistinct(baseOrder);
    var error := CheckMappings(baseOrder, inp.forkPath);
    assert Elems(baseOrder) == inp.bases.Keys;
    if error.Some? { return Failure(error.value), blocked, rounds; }
    var targetOrder := SortedSet(inp.targets.Keys);
    AscendingDistinct(targetOrder);
    error := CheckMappings(targetOrder, inp.forkPath);
    assert Elems(targetOrder) == inp.targets.Keys;
    if error.Some? { return Failure(error.value), blocked, rounds; }
    var rows, artifacts := BuildRows(inp);
    InitialsOwn(inp);
    blocked, rounds := ClassifyPathConflicts(rows, inp.ours.Keys, artifacts);
    ConflictsAreLeast(inp, rows, artifacts.files, blocked);
    r := Success((rows, artifacts));
  }

  ghost predicate RecordsUpTo(inp: Inputs, rows: seq<Row>, n: nat)
    requires n <= |rows| && n <= |inp.deltas|
  {
    n == 0 || (RecordsUpTo(inp, rows, n - 1) && Records(inp, inp.deltas[n - 1], rows[n - 1]))
  }

  lemma {:induction false} RecordsExtend(inp: Inputs, rows: seq<Row>, row: Row, n: nat)
    requires n <= |rows| && n <= |inp.deltas| && RecordsUpTo(inp, rows, n)
    ensures RecordsUpTo(inp, rows + [row], n)
  {
    if n > 0 { RecordsExtend(inp, rows, row, n - 1); }
  }

  lemma {:induction false} RecordsAt(inp: Inputs, rows: seq<Row>, n: nat, i: nat)
    requires i < n <= |rows| && n <= |inp.deltas| && RecordsUpTo(inp, rows, n)
    ensures Records(inp, inp.deltas[i], rows[i])
  {
    if i < n - 1 { RecordsAt(inp, rows, n - 1, i); }
  }

  method BuildRows(inp: Inputs) returns (rows: seq<Row>, artifacts: Artifacts)
    requires inp.Readable()
    ensures fresh(artifacts) && |rows| == |inp.deltas| && DistinctRows(rows)
    ensures forall i :: 0 <= i < |rows| ==> fresh(rows[i])
    ensures forall i :: 0 <= i < |rows| ==> Records(inp, inp.deltas[i], rows[i])
    ensures Outcomes(rows) == Initials(inp)
    ensures artifacts.files == Candidates(inp, |inp.deltas|)
  {
    artifacts := new Artifacts();
    rows := [];
    for index := 0 to |inp.deltas|
      invariant |rows| == index && DistinctRows(rows) && fresh(artifacts)
      invariant forall i :: 0 <= i < |rows| ==> fresh(rows[i])
      invariant RecordsUpTo(inp, rows, index)
      invariant Outcomes(rows) == InitialsUpTo(inp, index)
      invariant artifacts.files == Candidates(inp, index)
    {
      ghost var before := Outcomes(rows);
      var row := BuildRow(inp, index, artifacts);
      RecordsExtend(inp, rows, row, index);
      rows := rows + [row];
      assert Outcomes(rows) == before + [row.Now()];
    }
    forall i | 0 <= i < |rows| ensures Records(inp, inp.deltas[i], rows[i]) { RecordsAt(inp, rows, |rows|, i); }
  }

  lemma AscendingDistinct(s: seq<Path>)
    requires Ascending(s)
    ensures forall i, j :: 0 <= i < j < |s| ==> s[i] != s[j]
  {
    forall i, j | 0 <= i < j < |s| ensures s[i] != s[j] { LessTotal(s[i], s[j]); }
  }
}
