/** Which rows a run applies, as a property of its inputs alone. */
module Plan {
  import opened Wrappers
  import opened Paths
  import opened Preview
  import opened Rows
  import opened Conflicts
  import opened ThreeWay
  import opened PreviewInputs
  import opened Dispositions
  import opened BuildPreview
  import opened ApplyPlan
  import opened Apply

  /** None of the delta's fork paths is unsafe or edited locally. */
  ghost predicate Unhindered(inp: Inputs, d: Delta, local: Local) {
    inp.forkPath(d.path) !in Guarded(local) && (d.oldPath.Some? ==> inp.forkPath(d.oldPath.value) !in Guarded(local))
  }

  /** The deltas that pass the first filter, where first is the preview's conflict set. */
  ghost function Acceptable(inp: Inputs, local: Local, first: set<Fact>): (s: set<nat>)
    ensures Within(inp, s)
  {
    set i: nat | i < |inp.deltas| && VerdictAt(inp, i).status in APPLYABLE && PlanFact(inp, i) !in first
                 && Unhindered(inp, inp.deltas[i], local)
  }

  /** done lists the acceptable deltas that stay unblocked when only acceptable deltas make room. */
  ghost predicate Planned(inp: Inputs, local: Local, first: set<Fact>, again: set<Fact>, done: seq<nat>) {
    && Least(PlanFacts(inp, All(inp)), inp.ours.Keys, first)
    && Least(PlanFacts(inp, Acceptable(inp, local, first)), inp.ours.Keys, again)
    && Increasing(done)
    && forall i: nat :: i in done <==> i in Acceptable(inp, local, first) && PlanFact(inp, i) !in again
  }

  ghost predicate Increasing(s: seq<nat>) {
    forall j, k :: 0 <= j < k < |s| ==> s[j] < s[k]
  }

  lemma {:induction false} IncreasingUnique(a: seq<nat>, b: seq<nat>)
    requires Increasing(a) && Increasing(b) && forall i: nat :: i in a <==> i in b
    ensures a == b
    decreases |a|
  {
    assert b == [] || b[0] in a;
    if a != [] {
      var m, n := |a| - 1, |b| - 1;
      assert a[m] in b;
      assert a[m] == b[n] by { assert b[n] in a; }
      DropLast(a);
      DropLast(b);
      forall i: nat ensures i in a[..m] <==> i in b[..n] {
        assert i in a[..m] <==> i in a && i != a[m];
        assert i in b[..n] <==> i in b && i != b[n];
      }
      IncreasingUnique(a[..m], b[..n]);
      assert a == a[..m] + [a[m]] && b == b[..n] + [b[n]];
    }
  }

  lemma DropLast(s: seq<nat>)
    requires Increasing(s) && s != []
    ensures Increasing(s[..|s| - 1])
    ensures forall i: nat :: i in s[..|s| - 1] <==> i in s && i != s[|s| - 1]
  {
    var m := |s| - 1;
    assert s == s[..m] + [s[m]];
    assert s[m] !in s[..m];
  }

  /** The inputs and the state of the checkout settle which rows are applied. */
  lemma PlanIsUnique(inp: Inputs, local: Local, first: set<Fact>, again: set<Fact>, done: seq<nat>,
                     first': set<Fact>, again': set<Fact>, done': seq<nat>)
    requires Planned(inp, local, first, again, done) && Planned(inp, local, first', again', done')
    ensures first == first' && again == again' && done == done'
  {
    LeastUnique(PlanFacts(inp, All(inp)), inp.ours.Keys, first, first');
    LeastUnique(PlanFacts(inp, Acceptable(inp, local, first)), inp.ours.Keys, again, again');
    IncreasingUnique(done, done');
  }

  // ---- The plan in terms of trees and blobs ----------------------------------------------------

  /** The deltas that can be applied, are not blocked in the preview, and touch no guarded path. */
  ghost function Eligible(inp: Inputs, local: Local, blocked: set<nat>): (s: set<nat>)
    ensures Within(inp, s)
  {
    set i | i in All(inp) && CanApply(inp, inp.deltas[i]) && i !in blocked && Unhindered(inp, inp.deltas[i], local)
  }

  /** done lists the eligible deltas that stay unblocked when only eligible deltas make room. */
  ghost predicate PlannedRows(inp: Inputs, local: Local, blocked: set<nat>, late: set<nat>, done: seq<nat>) {
    && LeastBlocked(inp, All(inp), blocked)
    && LeastBlocked(inp, Eligible(inp, local, blocked), late)
    && Increasing(done)
    && forall i: nat :: i in done <==> i in Eligible(inp, local, blocked) && i !in late
  }

  lemma EligibleAreAcceptable(inp: Inputs, local: Local, first: set<Fact>)
    requires inp.Readable()
    ensures Eligible(inp, local, Numbered(inp, All(inp), first)) == Acceptable(inp, local, first)
  {
    forall i | i in All(inp) ensures CanApply(inp, inp.deltas[i]) <==> VerdictAt(inp, i).status in APPLYABLE {
      CanApplyExactly(inp, inp.deltas[i]);
    }
  }

  lemma PlannedIsPlain(inp: Inputs, local: Local, first: set<Fact>, again: set<Fact>, done: seq<nat>)
    requires inp.Readable() && Planned(inp, local, first, again, done)
    ensures PlannedRows(inp, local, Numbered(inp, All(inp), first),
                        Numbered(inp, Acceptable(inp, local, first), again), done)
  {
    EligibleAreAcceptable(inp, local, first);
    LeastIsPlain(inp, All(inp), first);
    LeastIsPlain(inp, Acceptable(inp, local, first), again);
  }

  /** They too are settled by the inputs and the state of the checkout. */
  lemma PlannedRowsUnique(inp: Inputs, local: Local, blocked: set<nat>, late: set<nat>, done: seq<nat>,
                          blocked': set<nat>, late': set<nat>, done': seq<nat>)
    requires PlannedRows(inp, local, blocked, late, done) && PlannedRows(inp, local, blocked', late', done')
    ensures blocked == blocked' && late == late' && done == done'
  {
    LeastBlockedUnique(inp, All(inp), blocked, blocked');
    LeastBlockedUnique(inp, Eligible(inp, local, blocked), late, late');
    IncreasingUnique(done, done');
  }

  // ---- The run follows the plan ----------------------------------------------------------------

  /** A preview row's fact is the plan's, and its standing is decided by the conflict set. */
  lemma RowIsPlanned(inp: Inputs, rows: seq<Row>, now: seq<Outcome>, blocked: set<Fact>, local: Local, i: nat)
    requires |rows| == |inp.deltas| == |now| && i < |rows| && Records(inp, inp.deltas[i], rows[i])
    requires Standing(rows, Initials(inp), now, inp.ours.Keys, blocked)
    ensures FactAt(rows, Initials(inp), i) == PlanFact(inp, i)
    ensures Accepts(rows[i], now[i].status, local) <==> i in Acceptable(inp, local, blocked)
    ensures Accepts(rows[i], now[i].status, local) ==> FactOf(rows[i], now[i].status) == PlanFact(inp, i)
  {
    InitialsAt(inp, |inp.deltas|, i);
    assert RowAfter(Initials(inp)[i], now[i], rows[i].forkPath, inp.ours.Keys,
                    FactAt(rows, Initials(inp), i) in blocked);
    SourcesClear(inp, inp.deltas[i], rows[i], local);
  }

  lemma SourcesClear(inp: Inputs, d: Delta, row: Row, local: Local)
    requires Records(inp, d, row)
    ensures (forall k :: 0 <= k < |SourcesOf(row)| ==> SourcesOf(row)[k] !in local.unsafePaths + local.dirtyPaths)
            <==> Unhindered(inp, d, local)
  {
    assert SourcesOf(row)[0] == inp.forkPath(d.path);
    if d.oldPath.Some? { assert SourcesOf(row)[1] == inp.forkPath(d.oldPath.value); }
  }

  lemma FirstFacts(inp: Inputs, rows: seq<Row>, now: seq<Outcome>, blocked: set<Fact>, local: Local)
    requires |rows| == |inp.deltas| == |now| && forall i :: 0 <= i < |rows| ==> Records(inp, inp.deltas[i], rows[i])
    requires Standing(rows, Initials(inp), now, inp.ours.Keys, blocked)
    ensures Facts(rows, Initials(inp)) == PlanFacts(inp, All(inp))
  {
    forall i | 0 <= i < |rows| ensures FactAt(rows, Initials(inp), i) == PlanFact(inp, i) {
      RowIsPlanned(inp, rows, now, blocked, local, i);
    }
    forall f | f in PlanFacts(inp, All(inp)) ensures f in Facts(rows, Initials(inp)) {
      var i: nat :| i < |inp.deltas| && PlanFact(inp, i) == f;
      assert FactAt(rows, Initials(inp), i) == f;
    }
  }

  lemma SecondFacts(inp: Inputs, rows: seq<Row>, now: seq<Outcome>, blocked: set<Fact>, local: Local, picks: seq<nat>)
    requires |rows| == |inp.deltas| == |now| && forall i :: 0 <= i < |rows| ==> Records(inp, inp.deltas[i], rows[i])
    requires Standing(rows, Initials(inp), now, inp.ours.Keys, blocked) && Picked(rows, now, local, picks, |rows|)
    ensures Facts(Pick(rows, picks), Pick(now, picks)) == PlanFacts(inp, Acceptable(inp, local, blocked))
  {
    var ready, was := Pick(rows, picks), Pick(now, picks);
    forall k | 0 <= k < |picks|
      ensures picks[k] in Acceptable(inp, local, blocked) && FactAt(ready, was, k) == PlanFact(inp, picks[k])
    {
      assert picks[k] in picks;
      RowIsPlanned(inp, rows, now, blocked, local, picks[k]);
    }
    forall f | f in PlanFacts(inp, Acceptable(inp, local, blocked)) ensures f in Facts(ready, was) {
      var i :| i in Acceptable(inp, local, blocked) && PlanFact(inp, i) == f;
      RowIsPlanned(inp, rows, now, blocked, local, i);
      var k :| 0 <= k < |picks| && picks[k] == i;
      assert FactAt(ready, was, k) == f;
    }
  }

  /** What apply selects from a preview is the plan. */
  lemma SelectionIsPlanned(inp: Inputs, rows: seq<Row>, now: seq<Outcome>, first: set<Fact>, local: Local,
                           picks: seq<nat>, again: set<Fact>, done: seq<nat>)
    requires |rows| == |inp.deltas| == |now| && forall i :: 0 <= i < |rows| ==> Records(inp, inp.deltas[i], rows[i])
    requires Least(Facts(rows, Initials(inp)), inp.ours.Keys, first)
    requires Standing(rows, Initials(inp), now, inp.ours.Keys, first)
    requires Selection(inp, rows, now, local, picks, again, done)
    ensures Planned(inp, local, first, again, done)
  {
    FirstFacts(inp, rows, now, first, local);
    SecondFacts(inp, rows, now, first, local, picks);
    forall i: nat ensures i in done <==> i in Acceptable(inp, local, first) && PlanFact(inp, i) !in again {
      if i < |rows| { RowIsPlanned(inp, rows, now, first, local, i); }
      if i in done { var k :| 0 <= k < |done| && done[k] == i; }
    }
  }
}
