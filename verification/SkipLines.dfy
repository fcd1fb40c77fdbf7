/** The report's skipped lines in terms of trees and blobs: every row that is not applied has one, with its reason. */
module SkipLines {
  import opened Wrappers
  import opened Paths
  import opened Preview
  import opened Rows
  import opened Conflicts
  import opened ThreeWay
  import opened PreviewInputs
  import opened Dispositions
  import opened BuildPreview
  import opened ApplyPlan
  import opened Apply
  import opened Plan

  /** The paths of d in the fork, new name first, that are in the set. */
  function Named(inp: Inputs, d: Delta, paths: set<Path>): seq<Path> {
    (if inp.forkPath(d.path) in paths then [inp.forkPath(d.path)] else [])
    + (if d.oldPath.Some? && inp.forkPath(d.oldPath.value) in paths then [inp.forkPath(d.oldPath.value)] else [])
  }

  /** Why row i is not applied: a path conflict in the preview, a disposition that needs a human, an unsafe path,
      local edits, or a path conflict among the rows that are left. */
  ghost function ReasonOf(inp: Inputs, local: Local, blocked: set<nat>, i: nat): Reason
    requires i < |inp.deltas|
  {
    var d := inp.deltas[i];
    if i in blocked then NotApplyable(PathConflict)
    else if !CanApply(inp, d) then NotApplyable(inp.VerdictOf(d).status)
    else if Named(inp, d, local.unsafePaths) != [] then UnsafePath
    else if Named(inp, d, local.dirtyPaths) != [] then LocalEdits(Named(inp, d, local.dirtyPaths))
    else NotApplyable(PathConflict)
  }

  /** The line that row i has if it is not done. */
  ghost function LineOf(inp: Inputs, local: Local, blocked: set<nat>, i: nat): Skip
    requires i < |inp.deltas|
  {
    Skip(inp.forkPath(inp.deltas[i].path), ReasonOf(inp, local, blocked, i))
  }

  /** The lines are those of the rows that are not done. */
  ghost predicate Explained(inp: Inputs, local: Local, blocked: set<nat>, done: seq<nat>, skipped: seq<Skip>) {
    forall line :: line in skipped <==>
      exists i :: 0 <= i < |inp.deltas| && i !in done
                  && line == LineOf(inp, local, blocked, i)
  }

  // ---- The two lists of lines ------------------------------------------------------------------

  lemma {:induction false} PresentExactly(lines: seq<Option<Skip>>, n: nat, line: Skip)
    requires n <= |lines|
    ensures line in Present(lines, n) <==> exists i :: 0 <= i < n && lines[i] == Some(line)
  {
    if n > 0 {
      PresentExactly(lines, n - 1, line);
      assert lines[n - 1] == Some(line) <==> line in (if lines[n - 1].Some? then [lines[n - 1].value] else []);
    }
  }

  ghost function BlockedLine(rows: seq<Row>, was: seq<Outcome>, blocked: set<Fact>, k: nat): Option<Skip>
    requires |was| == |rows| && k < |rows|
  {
    if FactAt(rows, was, k) in blocked then Some(Skip(rows[k].forkPath, NotApplyable(PathConflict))) else None
  }

  ghost function BlockedLines(rows: seq<Row>, was: seq<Outcome>, blocked: set<Fact>): seq<Option<Skip>>
    requires |was| == |rows|
  {
    seq(|rows|, k requires 0 <= k < |rows| => BlockedLine(rows, was, blocked, k))
  }

  lemma {:induction false} BlockedPresent(rows: seq<Row>, was: seq<Outcome>, blocked: set<Fact>, n: nat)
    requires |was| == |rows| && n <= |rows|
    ensures BlockedSkips(rows, was, blocked, n) == Present(BlockedLines(rows, was, blocked), n)
  {
    if n > 0 { BlockedPresent(rows, was, blocked, n - 1); }
  }

  // ---- From rows to deltas ---------------------------------------------------------------------

  /** The rows and outcomes of a preview. */
  ghost predicate Rendered(inp: Inputs, rows: seq<Row>, now: seq<Outcome>, first: set<Fact>) {
    && inp.Readable() && |rows| == |inp.deltas| == |now|
    && (forall i :: 0 <= i < |rows| ==> Records(inp, inp.deltas[i], rows[i]))
    && Standing(rows, Initials(inp), now, inp.ours.Keys, first)
  }

  lemma StatusNow(inp: Inputs, rows: seq<Row>, now: seq<Outcome>, first: set<Fact>, i: nat)
    requires Rendered(inp, rows, now, first) && i < |rows|
    ensures now[i].status == if PlanFact(inp, i) in first then PathConflict else inp.VerdictOf(inp.deltas[i]).status
  {
    InitialsAt(inp, |inp.deltas|, i);
    NeverBlockedAtFirst(inp, inp.deltas[i]);
    assert FactAt(rows, Initials(inp), i) == PlanFact(inp, i);
    assert RowAfter(Initials(inp)[i], now[i], rows[i].forkPath, inp.ours.Keys,
                    FactAt(rows, Initials(inp), i) in first);
  }

  lemma NamedTouches(inp: Inputs, d: Delta, row: Row, paths: set<Path>)
    requires Records(inp, d, row)
    ensures Touches(row, paths) <==> Named(inp, d, paths) != []
    ensures Named(inp, d, paths) == (if row.forkPath in paths then [row.forkPath] else [])
                                    + (if row.oldForkPath.Some? && row.oldForkPath.value in paths
                                       then [row.oldForkPath.value] else [])
  {}

  /** The first filter's reason, or none for eligible rows. */
  lemma RefusalIsReason(inp: Inputs, rows: seq<Row>, now: seq<Outcome>, first: set<Fact>, local: Local, i: nat)
    requires Rendered(inp, rows, now, first) && i < |rows|
    ensures var blocked := Numbered(inp, All(inp), first);
            Refusal(rows[i], now[i].status, local)
            == if i in Eligible(inp, local, blocked) then None else Some(ReasonOf(inp, local, blocked, i))
  {
    var d := inp.deltas[i];
    StatusNow(inp, rows, now, first, i);
    RefusalMeans(rows[i], now[i].status, local);
    CanApplyExactly(inp, d);
    NamedTouches(inp, d, rows[i], local.unsafePaths);
    NamedTouches(inp, d, rows[i], local.dirtyPaths);
    UnhinderedNames(inp, d, local);
  }

  lemma UnhinderedNames(inp: Inputs, d: Delta, local: Local)
    ensures Unhindered(inp, d, local) <==>
            Named(inp, d, local.unsafePaths) == [] && Named(inp, d, local.dirtyPaths) == []
  {}

  /** Row i is refused, blocked in the second pass, or done. */
  lemma RowCases(inp: Inputs, rows: seq<Row>, now: seq<Outcome>, first: set<Fact>, local: Local, picks: seq<nat>,
                 again: set<Fact>, done: seq<nat>, i: nat)
    requires Rendered(inp, rows, now, first) && Selection(inp, rows, now, local, picks, again, done) && i < |rows|
    ensures var blocked := Numbered(inp, All(inp), first);
            && (i in picks <==> i in Eligible(inp, local, blocked))
            && (i in done <==> i in picks && FactOf(rows[i], now[i].status) !in again)
            && RefusedLine(rows[i], now[i], local)
               == (if i in picks then None else Some(LineOf(inp, local, blocked, i)))
            && (i in picks ==> LineOf(inp, local, blocked, i) == Skip(rows[i].forkPath, NotApplyable(PathConflict)))
  {
    RefusalIsReason(inp, rows, now, first, local, i);
    RefusedOrAccepted(rows[i], now[i].status, local);
    UnhinderedNames(inp, inp.deltas[i], local);
  }

  /** The lines of rows that are not picked, and those of picked rows that the second pass blocks. */
  lemma SkipsAreExplained(inp: Inputs, rows: seq<Row>, now: seq<Outcome>, first: set<Fact>, local: Local,
                          picks: seq<nat>, again: set<Fact>, done: seq<nat>, skipped: seq<Skip>)
    requires Rendered(inp, rows, now, first) && Selection(inp, rows, now, local, picks, again, done)
    requires SkippedLines(rows, now, local, picks, again, skipped)
    ensures Explained(inp, local, Numbered(inp, All(inp), first), done, skipped)
  {
    var blocked := Numbered(inp, All(inp), first);
    forall line ensures line in skipped <==> exists i :: 0 <= i < |inp.deltas| && i !in done
                                                         && line == LineOf(inp, local, blocked, i)
    {
      if line in skipped { var i := SkippedRow(inp, rows, now, first, local, picks, again, done, skipped, line); }
      forall i | 0 <= i < |inp.deltas| && i !in done && line == LineOf(inp, local, blocked, i) ensures line in skipped {
        RowSkipped(inp, rows, now, first, local, picks, again, done, skipped, i);
      }
    }
  }

  lemma SkippedRow(inp: Inputs, rows: seq<Row>, now: seq<Outcome>, first: set<Fact>, local: Local, picks: seq<nat>,
                   again: set<Fact>, done: seq<nat>, skipped: seq<Skip>, line: Skip) returns (i: nat)
    requires Rendered(inp, rows, now, first) && Selection(inp, rows, now, local, picks, again, done)
    requires SkippedLines(rows, now, local, picks, again, skipped) && line in skipped
    ensures i < |inp.deltas| && i !in done && line == LineOf(inp, local, Numbered(inp, All(inp), first), i)
  {
    var refused := RefusedLines(rows, now, local);
    PresentExactly(refused, |rows|, line);
    if line in Refusals(rows, now, local, |rows|) {
      i :| 0 <= i < |rows| && refused[i] == Some(line);
    } else {
      var ready, was := Pick(rows, picks), Pick(now, picks);
      var late := BlockedLines(ready, was, again);
      BlockedPresent(ready, was, again, |picks|);
      PresentExactly(late, |picks|, line);
      var k :| 0 <= k < |picks| && late[k] == Some(line);
      i := picks[k];
      assert i in picks && BlockedLine(ready, was, again, k) == Some(line);
    }
    RowCases(inp, rows, now, first, local, picks, again, done, i);
  }

  lemma RowSkipped(inp: Inputs, rows: seq<Row>, now: seq<Outcome>, first: set<Fact>, local: Local, picks: seq<nat>,
                   again: set<Fact>, done: seq<nat>, skipped: seq<Skip>, i: nat)
    requires Rendered(inp, rows, now, first) && Selection(inp, rows, now, local, picks, again, done)
    requires SkippedLines(rows, now, local, picks, again, skipped) && i < |inp.deltas| && i !in done
    ensures LineOf(inp, local, Numbered(inp, All(inp), first), i) in skipped
  {
    var line := LineOf(inp, local, Numbered(inp, All(inp), first), i);
    RowCases(inp, rows, now, first, local, picks, again, done, i);
    if i in picks {
      var ready, was := Pick(rows, picks), Pick(now, picks);
      var k :| 0 <= k < |picks| && picks[k] == i;
      assert BlockedLine(ready, was, again, k) == Some(line);
      assert BlockedLines(ready, was, again)[k] == Some(line);
      BlockedPresent(ready, was, again, |picks|);
      PresentExactly(BlockedLines(ready, was, again), |picks|, line);
    } else {
      assert RefusedLines(rows, now, local)[i] == Some(line);
      PresentExactly(RefusedLines(rows, now, local), |rows|, line);
    }
  }
}
