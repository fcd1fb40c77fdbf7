/** What a successful run does to every row that nothing holds back, in terms of trees and blobs. */
module Completeness {
  import opened Wrappers
  import opened Paths
  import opened Preview
  import opened Rows
  import opened Conflicts
  import opened ThreeWay
  import opened PreviewInputs
  import opened Dispositions
  import opened Checkout
  import opened ApplyPlan
  import opened Apply
  import opened Plan

  /** The file that d should become is at its destination, and the fork's old file is gone if it should go and
      no other upstream file belongs there. */
  ghost predicate Arrived(inp: Inputs, d: Delta, at: Path, s: Sides, after: map<Path, File>) {
    var destination := inp.forkPath(d.path);
    && (forall v :: Becomes(s, inp.merge, v) ==>
         destination in after && after[destination] == File(Content.Merged(v.text), v.mode))
    && (TakesAway(s, inp.merge, at, destination) && at !in Image(inp.targets.Keys, inp.forkPath) ==> at !in after)
  }

  lemma RowArrives(inp: Inputs, base: map<Path, File>, done: seq<nat>, i: nat, at: Path, s: Sides)
    requires GitInputs(inp) && Applicable(inp, done) && i in done && i < |inp.deltas|
    requires Reads(inp, inp.deltas[i], at, s)
    ensures Arrived(inp, inp.deltas[i], at, s, FinalFiles(inp, base, done))
  {
    var k :| 0 <= k < |done| && done[k] == i;
    forall v | Becomes(s, inp.merge, v)
      ensures Destination(inp, i) in FinalFiles(inp, base, done)
      ensures FinalFiles(inp, base, done)[Destination(inp, i)] == File(Content.Merged(v.text), v.mode)
    {
      WrittenArrives(inp, base, done, k, at, s, v);
    }
    if TakesAway(s, inp.merge, at, Destination(inp, i)) && at !in Image(inp.targets.Keys, inp.forkPath) {
      TakenIsGone(inp, base, done, k, at, s);
    }
  }

  lemma WrittenArrives(inp: Inputs, base: map<Path, File>, done: seq<nat>, k: nat, at: Path, s: Sides, v: Version)
    requires GitInputs(inp) && Applicable(inp, done) && k < |done|
    requires Reads(inp, inp.deltas[done[k]], at, s) && Becomes(s, inp.merge, v)
    ensures Destination(inp, done[k]) in FinalFiles(inp, base, done)
    ensures FinalFiles(inp, base, done)[Destination(inp, done[k])] == File(Content.Merged(v.text), v.mode)
  {
    StatusMeans(inp, inp.deltas[done[k]], at, s);
    FinalAt(inp, base, done, k);
  }

  lemma TakenIsGone(inp: Inputs, base: map<Path, File>, done: seq<nat>, k: nat, at: Path, s: Sides)
    requires GitInputs(inp) && Applicable(inp, done) && k < |done|
    requires Reads(inp, inp.deltas[done[k]], at, s) && TakesAway(s, inp.merge, at, Destination(inp, done[k]))
    requires at !in Image(inp.targets.Keys, inp.forkPath)
    ensures at !in FinalFiles(inp, base, done)
  {
    ReadsExactly(inp, inp.deltas[done[k]], at, s);
    StatusMeans(inp, inp.deltas[done[k]], at, s);
    assert Takes(inp, done[k]);
    OverlayKeys(Steps(inp, done), |done|, Cleared(inp, base, done));
    StepsWritten(inp, done);
    WrittenAreMapped(inp, done);
  }

  /** Row i can be applied, conflicts with no path in either pass, and names no guarded path. */
  ghost predicate HeldBackByNothing(inp: Inputs, local: Local, blocked: set<nat>, late: set<nat>, i: nat, s: Sides)
    requires i < |inp.deltas|
  {
    Mechanical(s, inp.merge) && i !in blocked && i !in late && Unhindered(inp, inp.deltas[i], local)
  }

  /** Every such row has been applied. */
  ghost predicate AllArrived(inp: Inputs, local: Local, blocked: set<nat>, late: set<nat>, after: map<Path, File>) {
    forall i, at, s :: 0 <= i < |inp.deltas| && Reads(inp, inp.deltas[i], at, s) ==>
      (HeldBackByNothing(inp, local, blocked, late, i, s) ==> Arrived(inp, inp.deltas[i], at, s, after))
  }

  lemma PlannedArrive(inp: Inputs, local: Local, blocked: set<nat>, late: set<nat>, base: map<Path, File>,
                      done: seq<nat>)
    requires GitInputs(inp) && Applicable(inp, done) && PlannedRows(inp, local, blocked, late, done)
    ensures AllArrived(inp, local, blocked, late, FinalFiles(inp, base, done))
  {
    forall i, at, s | 0 <= i < |inp.deltas| && Reads(inp, inp.deltas[i], at, s)
      && HeldBackByNothing(inp, local, blocked, late, i, s)
      ensures Arrived(inp, inp.deltas[i], at, s, FinalFiles(inp, base, done))
    {
      assert i in Eligible(inp, local, blocked);
      RowArrives(inp, base, done, i, at, s);
    }
  }

  // ---- Changes on one side only ----------------------------------------------------------------

  /** Upstream alone changed or added the file, or the fork alone changed it, or both made the same change:
      v is the version of the side that changed it. */
  predicate OneSided(s: Sides, v: Version) {
    || (s.fork == s.base && s.target == Some(v))
    || (s.target == s.base && s.fork == Some(v))
    || s.fork == s.target == Some(v)
  }

  lemma OneSidedBecomes(s: Sides, merge: Merge, v: Version)
    requires MergeLaws(merge) && OneSided(s, v) && (s.fork.None? ==> s.base.None?)
    requires s.target.Some?
    ensures Becomes(s, merge, v)
  {
    var b := if s.base.Some? then s.base.value.text else "";
    if s.fork == s.target { assert merge(b, v.text, v.text) == (v.text, 0); }
    if s.fork == s.base { assert merge(b, b, v.text) == (v.text, 0); }
    if s.target == s.base { assert merge(b, v.text, b) == (v.text, 0); }
  }

  /** With the merge laws: after a successful run an edit, a rename, an addition or a change of mode on one side
      has arrived at the new name, whole, and the old name is gone. */
  lemma OneSidedChangesArrive(inp: Inputs, local: Local, blocked: set<nat>, late: set<nat>, done: seq<nat>,
                              after: map<Path, File>, i: nat, at: Path, s: Sides, v: Version)
    requires PlannedRows(inp, local, blocked, late, done) && AllArrived(inp, local, blocked, late, after)
    requires MergeLaws(inp.merge) && i < |inp.deltas| && Reads(inp, inp.deltas[i], at, s)
    requires i !in blocked && i !in late && Unhindered(inp, inp.deltas[i], local)
    requires s.target.Some? && (s.fork.None? ==> s.base.None?) && OneSided(s, v)
    ensures var destination := inp.forkPath(inp.deltas[i].path);
            && i in done && destination in after && after[destination] == File(Content.Merged(v.text), v.mode)
            && (s.fork.Some? && at != destination && at !in Image(inp.targets.Keys, inp.forkPath) ==> at !in after)
  {
    OneSidedBecomes(s, inp.merge, v);
    assert s.fork.Some? ==> MergesTo(s, inp.merge, v);
    assert HeldBackByNothing(inp, local, blocked, late, i, s);
    assert i in Eligible(inp, local, blocked);
    assert Arrived(inp, inp.deltas[i], at, s, after);
  }

  /** And a file that upstream deleted and the fork had not edited is gone. */
  lemma DeletionsArrive(inp: Inputs, local: Local, blocked: set<nat>, late: set<nat>, done: seq<nat>,
                        after: map<Path, File>, i: nat, at: Path, s: Sides)
    requires PlannedRows(inp, local, blocked, late, done) && AllArrived(inp, local, blocked, late, after)
    requires i < |inp.deltas| && Reads(inp, inp.deltas[i], at, s)
    requires i !in blocked && i !in late && Unhindered(inp, inp.deltas[i], local)
    requires s.target.None? && s.fork.Some? && s.fork == s.base && at !in Image(inp.targets.Keys, inp.forkPath)
    ensures i in done && at !in after
  {
    assert HeldBackByNothing(inp, local, blocked, late, i, s);
    assert i in Eligible(inp, local, blocked);
    assert Arrived(inp, inp.deltas[i], at, s, after);
  }

  // ---- The report ------------------------------------------------------------------------------

  lemma ActionMeans(inp: Inputs, i: nat, at: Path, s: Sides)
    requires inp.Readable() && i < |inp.deltas| && VerdictAt(inp, i).status in APPLYABLE
    requires Reads(inp, inp.deltas[i], at, s)
    ensures s.target.None? ==> ActionOf(inp, i) == Action.Delete(Destination(inp, i), DeleteClean)
    ensures s.target.Some? ==> Writes(inp, i) && VerdictAt(inp, i).mergedMode.Some?
    ensures s.target.Some? ==>
              ActionOf(inp, i) == Action.Write(Destination(inp, i), VerdictAt(inp, i).mergedMode,
                                               if s.fork.None? then AddClean
                                               else if s.base.None? then AddAddEqual else Clean)
  {
    StatusMeans(inp, inp.deltas[i], at, s);
    ApplyableRow(inp, i);
  }

  /** The line of an applied row: a deletion, or the mode of the file now at the destination. */
  lemma ReportedAsDone(inp: Inputs, base: map<Path, File>, done: seq<nat>, applied: seq<Action>, k: nat, at: Path,
                       s: Sides)
    requires GitInputs(inp) && Applicable(inp, done) && Reported(inp, done, applied) && k < |applied|
    requires Reads(inp, inp.deltas[done[k]], at, s)
    ensures var destination := inp.forkPath(inp.deltas[done[k]].path);
            if s.target.None? then applied[k] == Action.Delete(destination, DeleteClean)
            else
              && destination in FinalFiles(inp, base, done)
              && applied[k] == Action.Write(destination, Some(FinalFiles(inp, base, done)[destination].mode),
                                            if s.fork.None? then AddClean
                                            else if s.base.None? then AddAddEqual else Clean)
  {
    ActionMeans(inp, done[k], at, s);
    if s.target.Some? { FinalAt(inp, base, done, k); }
  }
}
