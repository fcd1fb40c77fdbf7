/** `apply_preview`: filter the rows, reclassify the survivors, remove old shapes, write new ones. */
module Apply {
  import opened Wrappers
  import opened Paths
  import opened Preview
  import opened Rows
  import opened Conflicts
  import opened ThreeWay
  import opened PreviewInputs
  import opened BuildPreview
  import opened Checkout
  import opened ApplyPlan
  import opened Obstacles

  datatype Reason = NotApplyable(status: Status) | UnsafePath | LocalEdits(paths: seq<Path>)

  datatype Skip = Skip(path: Path, reason: Reason)

  datatype Action = Delete(path: Path, status: Status) | Write(path: Path, mode: Option<string>, status: Status)

  /** The error of the file system that ends a run. */
  datatype FileError = CannotWrite(path: Path)

  /** State of the checkout at a path, asked of the file system and of `git status`. */
  datatype Local = Local(unsafePaths: set<Path>, dirtyPaths: set<Path>)

  function SourcesOf(row: Row): seq<Path> {
    [row.forkPath] + (if row.oldForkPath.Some? then [row.oldForkPath.value] else [])
  }

  /** May a row with this status be applied, as far as the checkout is concerned? */
  predicate Accepts(row: Row, status: Status, local: Local) {
    && status in APPLYABLE
    && forall i :: 0 <= i < |SourcesOf(row)| ==> SourcesOf(row)[i] !in local.unsafePaths + local.dirtyPaths
  }

  /** The paths with local edits, in the order asked. */
  function Dirty(sources: seq<Path>, dirtyPaths: set<Path>): (dirty: seq<Path>)
    ensures forall p :: p in dirty <==> p in sources && p in dirtyPaths
  {
    if sources == [] then []
    else
      var last := sources[|sources| - 1];
      assert sources == sources[..|sources| - 1] + [last];
      Dirty(sources[..|sources| - 1], dirtyPaths) + (if last in dirtyPaths then [last] else [])
  }

  /** Why the row is left out, the first reason that applies. */
  function Refusal(row: Row, status: Status, local: Local): Option<Reason> {
    var sources := SourcesOf(row);
    if status !in APPLYABLE then Some(NotApplyable(status))
    else if exists k :: 0 <= k < |sources| && sources[k] in local.unsafePaths then Some(UnsafePath)
    else if Dirty(sources, local.dirtyPaths) != [] then Some(LocalEdits(Dirty(sources, local.dirtyPaths)))
    else None
  }

  lemma RefusedOrAccepted(row: Row, status: Status, local: Local)
    ensures Refusal(row, status, local).None? <==> Accepts(row, status, local)
  {
    var sources, dirty := SourcesOf(row), Dirty(SourcesOf(row), local.dirtyPaths);
    if dirty != [] { assert dirty[0] in dirty; }
    forall k | 0 <= k < |sources| && sources[k] in local.dirtyPaths ensures dirty != [] { assert sources[k] in dirty; }
  }

  /** One of the row's paths, its new name or its old one, is in the set. */
  predicate Touches(row: Row, paths: set<Path>) {
    row.forkPath in paths || (row.oldForkPath.Some? && row.oldForkPath.value in paths)
  }

  lemma SourcesTouch(row: Row, paths: set<Path>)
    ensures Touches(row, paths) <==> exists k :: 0 <= k < |SourcesOf(row)| && SourcesOf(row)[k] in paths
  {
    assert SourcesOf(row)[0] == row.forkPath;
    if row.oldForkPath.Some? { assert SourcesOf(row)[1] == row.oldForkPath.value; }
  }

  /** The reasons in their order: the status, then an unsafe path, then the edited paths, new name first. */
  lemma RefusalMeans(row: Row, status: Status, local: Local)
    ensures var why := Refusal(row, status, local);
            var edited := (if row.forkPath in local.dirtyPaths then [row.forkPath] else [])
                          + (if row.oldForkPath.Some? && row.oldForkPath.value in local.dirtyPaths
                             then [row.oldForkPath.value] else []);
            if status !in {Clean, AddClean, DeleteClean, AddAddEqual} then why == Some(NotApplyable(status))
            else if Touches(row, local.unsafePaths) then why == Some(UnsafePath)
            else if Touches(row, local.dirtyPaths) then why == Some(LocalEdits(edited))
            else why == None
  {
    SourcesTouch(row, local.unsafePaths);
    DirtyInOrder(row, local.dirtyPaths);
  }

  lemma DirtyInOrder(row: Row, dirtyPaths: set<Path>)
    ensures Dirty(SourcesOf(row), dirtyPaths)
         == (if row.forkPath in dirtyPaths then [row.forkPath] else [])
            + (if row.oldForkPath.Some? && row.oldForkPath.value in dirtyPaths then [row.oldForkPath.value] else [])
  {
    var sources := SourcesOf(row);
    assert Dirty([row.forkPath], dirtyPaths) == (if row.forkPath in dirtyPaths then [row.forkPath] else []) by {
      assert [row.forkPath][..0] == [];
    }
    if row.oldForkPath.Some? { assert sources[..1] == [row.forkPath]; } else { assert sources == [row.forkPath]; }
  }

  /** The lines that are there among the first n, in order. */
  ghost function Present(lines: seq<Option<Skip>>, n: nat): seq<Skip>
    requires n <= |lines|
  {
    if n == 0 then []
    else Present(lines, n - 1) + (if lines[n - 1].Some? then [lines[n - 1].value] else [])
  }

  ghost function RefusedLine(row: Row, now: Outcome, local: Local): Option<Skip> {
    var why := Refusal(row, now.status, local);
    if why.Some? then Some(Skip(row.forkPath, why.value)) else None
  }

  ghost function RefusedLines(rows: seq<Row>, now: seq<Outcome>, local: Local): seq<Option<Skip>>
    requires |now| == |rows|
  {
    seq(|rows|, i requires 0 <= i < |rows| => RefusedLine(rows[i], now[i], local))
  }

  /** One line for every refused row, in row order. */
  ghost function Refusals(rows: seq<Row>, now: seq<Outcome>, local: Local, n: nat): seq<Skip>
    requires |now| == |rows| && n <= |rows|
  {
    Present(RefusedLines(rows, now, local), n)
  }

  // ---- Choosing rows -----------------------------------------------------------------------

  /** picks lists, in order, exactly the rows the first filter accepts. */
  ghost predicate Picked(rows: seq<Row>, now: seq<Outcome>, local: Local, picks: seq<nat>, n: nat)
    requires |now| == |rows| && n <= |rows|
  {
    && (forall k :: 0 <= k < |picks| ==> picks[k] < n)
    && (forall j, k :: 0 <= j < k < |picks| ==> picks[j] < picks[k])
    && (forall i :: 0 <= i < n ==> (i in picks <==> Accepts(rows[i], now[i].status, local)))
  }

  ghost function Pick<T>(s: seq<T>, picks: seq<nat>): seq<T>
    requires forall k :: 0 <= k < |picks| ==> picks[k] < |s|
  {
    seq(|picks|, k requires 0 <= k < |picks| => s[picks[k]])
  }

  lemma PickAppend<T>(s: seq<T>, picks: seq<nat>, i: nat)
    requires i < |s| && forall k :: 0 <= k < |picks| ==> picks[k] < |s|
    ensures Pick(s, picks + [i]) == Pick(s, picks) + [s[i]]
  {}

  /** The numbers of the first n rows that are not refused, in order. */
  ghost function PicksOf(rows: seq<Row>, now: seq<Outcome>, local: Local, n: nat): (picks: seq<nat>)
    requires |now| == |rows| && n <= |rows|
    ensures forall k :: 0 <= k < |picks| ==> picks[k] < n
  {
    if n == 0 then []
    else
      PicksOf(rows, now, local, n - 1)
      + (if Refusal(rows[n - 1], now[n - 1].status, local).None? then [n - 1] else [])
  }

  lemma {:induction false} PicksMeaning(rows: seq<Row>, now: seq<Outcome>, local: Local, n: nat)
    requires |now| == |rows| && n <= |rows|
    ensures Picked(rows, now, local, PicksOf(rows, now, local, n), n)
  {
    if n > 0 {
      PicksMeaning(rows, now, local, n - 1);
      RefusedOrAccepted(rows[n - 1], now[n - 1].status, local);
      var picks, more := PicksOf(rows, now, local, n - 1), PicksOf(rows, now, local, n);
      forall j | 0 <= j < n ensures j in more <==> Accepts(rows[j], now[j].status, local) {
        assert j in more <==> j in picks || (j == n - 1 && more != picks);
      }
    }
  }

  /** Those rows themselves. */
  ghost function Accepted(rows: seq<Row>, now: seq<Outcome>, local: Local, n: nat): seq<Row>
    requires |now| == |rows| && n <= |rows|
  {
    if n == 0 then []
    else
      Accepted(rows, now, local, n - 1)
      + (if Refusal(rows[n - 1], now[n - 1].status, local).None? then [rows[n - 1]] else [])
  }

  lemma {:induction false} AcceptedAre(rows: seq<Row>, now: seq<Outcome>, local: Local, n: nat)
    requires |now| == |rows| && n <= |rows|
    ensures Accepted(rows, now, local, n) == Pick(rows, PicksOf(rows, now, local, n))
    ensures |Accepted(rows, now, local, n)| + |Refusals(rows, now, local, n)| == n
  {
    if n > 0 {
      AcceptedAre(rows, now, local, n - 1);
      PickNext(rows, now, local, n);
    }
  }

  lemma PickNext(rows: seq<Row>, now: seq<Outcome>, local: Local, n: nat)
    requires |now| == |rows| && 0 < n <= |rows|
    ensures Pick(rows, PicksOf(rows, now, local, n)) == Pick(rows, PicksOf(rows, now, local, n - 1))
         + (if Refusal(rows[n - 1], now[n - 1].status, local).None? then [rows[n - 1]] else [])
  {
    PickAppend(rows, PicksOf(rows, now, local, n - 1), n - 1);
  }

  method FirstFilter(rows: seq<Row>, local: Local) returns (ready: seq<Row>, skipped: seq<Skip>, ghost picks: seq<nat>)
    ensures Picked(rows, Outcomes(rows), local, picks, |rows|)
    ensures ready == Pick(rows, picks)
    ensures skipped == Refusals(rows, Outcomes(rows), local, |rows|) && |ready| + |skipped| == |rows|
  {
    ready, skipped := [], [];
    ghost var now := Outcomes(rows);
    for i := 0 to |rows|
      invariant ready == Accepted(rows, now, local, i) && skipped == Refusals(rows, now, local, i)
    {
      var why := Refuse(rows[i], local);
      assert why == Refusal(rows[i], now[i].status, local);
      if why.Some? {
        skipped := skipped + [Skip(rows[i].forkPath, why.value)];
      } else {
        ready := ready + [rows[i]];
      }
    }
    picks := PicksOf(rows, now, local, |rows|);
    PicksMeaning(rows, now, local, |rows|);
    AcceptedAre(rows, now, local, |rows|);
  }

  method Refuse(row: Row, local: Local) returns (why: Option<Reason>)
    ensures why == Refusal(row, row.status, local)
  {
    var sources := SourcesOf(row);
    if row.status !in APPLYABLE { return Some(NotApplyable(row.status)); }
    if exists k :: 0 <= k < |sources| && sources[k] in local.unsafePaths { return Some(UnsafePath); }
    var dirty := DirtyOnes(sources, local.dirtyPaths);
    why := if dirty != [] then Some(LocalEdits(dirty)) else None;
  }

  method DirtyOnes(sources: seq<Path>, dirtyPaths: set<Path>) returns (dirty: seq<Path>)
    ensures dirty == Dirty(sources, dirtyPaths)
  {
    dirty := [];
    for k := 0 to |sources|
      invariant dirty == Dirty(sources[..k], dirtyPaths)
    {
      assert sources[..k + 1][..k] == sources[..k];
      if sources[k] in dirtyPaths { dirty := dirty + [sources[k]]; }
    }
    assert sources[..|sources|] == sources;
  }

  /** One line for every row that is no longer applyable, in row order. */
  ghost function Demoted(rows: seq<Row>, now: seq<Outcome>, n: nat): seq<Skip>
    requires |now| == |rows| && n <= |rows|
  {
    if n == 0 then []
    else
      var status := now[n - 1].status;
      Demoted(rows, now, n - 1)
      + (if status !in APPLYABLE then [Skip(rows[n - 1].forkPath, NotApplyable(status))] else [])
  }

  /** kept lists, in order, exactly the rows whose status is still applyable. */
  ghost predicate Kept(now: seq<Outcome>, kept: seq<nat>, n: nat)
    requires n <= |now|
  {
    && (forall k :: 0 <= k < |kept| ==> kept[k] < n)
    && (forall j, k :: 0 <= j < k < |kept| ==> kept[j] < kept[k])
    && (forall i :: 0 <= i < n ==> (i in kept <==> now[i].status in APPLYABLE))
  }

  ghost function KeptOf(now: seq<Outcome>, n: nat): (kept: seq<nat>)
    requires n <= |now|
    ensures forall k :: 0 <= k < |kept| ==> kept[k] < n
  {
    if n == 0 then [] else KeptOf(now, n - 1) + (if now[n - 1].status in APPLYABLE then [n - 1] else [])
  }

  lemma {:induction false} KeptMeaning(now: seq<Outcome>, n: nat)
    requires n <= |now|
    ensures Kept(now, KeptOf(now, n), n)
  {
    if n > 0 {
      KeptMeaning(now, n - 1);
      var kept, more := KeptOf(now, n - 1), KeptOf(now, n);
      forall j | 0 <= j < n ensures j in more <==> now[j].status in APPLYABLE {
        assert j in more <==> j in kept || (j == n - 1 && more != kept);
      }
    }
  }

  method SecondFilter(ready: seq<Row>) returns (chosen: seq<Row>, skipped: seq<Skip>, ghost kept: seq<nat>)
    ensures Kept(Outcomes(ready), kept, |ready|)
    ensures chosen == Pick(ready, kept)
    ensures skipped == Demoted(ready, Outcomes(ready), |ready|) && |chosen| + |skipped| == |ready|
  {
    chosen, skipped, kept := [], [], [];
    ghost var now := Outcomes(ready);
    for i := 0 to |ready|
      invariant kept == KeptOf(now, i) && chosen == Pick(ready, kept)
      invariant skipped == Demoted(ready, now, i) && |chosen| + |skipped| == i
    {
      assert ready[i].status == now[i].status;
      PickAppend(ready, kept, i);
      if ready[i].status !in APPLYABLE {
        skipped := skipped + [Skip(ready[i].forkPath, NotApplyable(ready[i].status))];
      } else {
        chosen := chosen + [ready[i]];
        kept := kept + [i];
      }
    }
    KeptMeaning(now, |ready|);
  }

  // ---- From rows to the plan ------------------------------------------------------------------

  /** ready is the picked part of a preview, each row still in its initial, applyable state. */
  ghost predicate Ready(inp: Inputs, ready: seq<Row>, was: seq<Outcome>, picks: seq<nat>) {
    && |ready| == |was| == |picks| && InRange(inp, picks)
    && (forall j, k :: 0 <= j < k < |picks| ==> picks[j] < picks[k])
    && (forall k :: 0 <= k < |picks| ==> ReadyRow(inp, ready[k], was[k], picks[k]))
  }

  ghost predicate ReadyRow(inp: Inputs, row: Row, was: Outcome, i: nat)
    requires i < |inp.deltas|
  {
    Records(inp, inp.deltas[i], row) && was == Initial(VerdictAt(inp, i), i) && was.status in APPLYABLE
  }

  lemma PickedAreReady(inp: Inputs, rows: seq<Row>, now: seq<Outcome>, blocked: set<Fact>, local: Local,
                       picks: seq<nat>)
    requires |rows| == |inp.deltas| == |now| && Picked(rows, now, local, picks, |rows|)
    requires forall i :: 0 <= i < |rows| ==> Records(inp, inp.deltas[i], rows[i])
    requires Standing(rows, Initials(inp), now, inp.ours.Keys, blocked)
    ensures Ready(inp, Pick(rows, picks), Pick(now, picks), picks)
  {
    forall k | 0 <= k < |picks| ensures ReadyRow(inp, rows[picks[k]], now[picks[k]], picks[k]) {
      var i := picks[k];
      assert i in picks;
      InitialsAt(inp, |inp.deltas|, i);
      assert RowAfter(Initials(inp)[i], now[i], rows[i].forkPath, inp.ours.Keys,
                      FactAt(rows, Initials(inp), i) in blocked);
    }
  }

  /** The store keeps every candidate of the rows that are still in their initial state. */
  ghost predicate Backed(inp: Inputs, files: map<string, string>, i: nat)
    requires i < |inp.deltas|
  {
    VerdictAt(inp, i).merged.Some? ==> MergedName(i) in files && files[MergedName(i)] == VerdictAt(inp, i).merged.value
  }

  lemma PickedAreBacked(inp: Inputs, rows: seq<Row>, now: seq<Outcome>, i: nat)
    requires |rows| == |inp.deltas| == |now| && i < |rows| && now[i] == Initials(inp)[i]
    ensures Backed(inp, Candidates(inp, |inp.deltas|) - Dropped(Initials(inp), now), i)
  {
    var was := Initials(inp);
    CandidateAt(inp, |inp.deltas|);
    InitialsAt(inp, |inp.deltas|, i);
    if VerdictAt(inp, i).merged.Some? && MergedName(i) in Dropped(was, now) {
      var j :| 0 <= j < |was| && was[j].merged.Some? && now[j].merged.None? && was[j].merged.value == MergedName(i);
      InitialsAt(inp, |inp.deltas|, j);
      MergedNameInjective(i, j);
    }
  }

  lemma ReadyOwn(inp: Inputs, ready: seq<Row>, was: seq<Outcome>, picks: seq<nat>, files: map<string, string>)
    requires Ready(inp, ready, was, picks) && forall k :: 0 <= k < |picks| ==> Backed(inp, files, picks[k])
    ensures OwnArtifacts(was, files)
  {
    forall i, j | 0 <= i < j < |was| && was[i].merged.Some? ensures was[i].merged != was[j].merged {
      assert ReadyRow(inp, ready[i], was[i], picks[i]) && ReadyRow(inp, ready[j], was[j], picks[j]);
      if was[i].merged == was[j].merged { MergedNameInjective(picks[i], picks[j]); }
    }
    forall i | 0 <= i < |was| && was[i].merged.Some? ensures was[i].merged.value in files {
      assert ReadyRow(inp, ready[i], was[i], picks[i]) && Backed(inp, files, picks[i]);
    }
  }

  /** The rows kept by the second pass: still initial, hence not blocked. */
  lemma KeptAreInitial(inp: Inputs, ready: seq<Row>, was: seq<Outcome>, now: seq<Outcome>, picks: seq<nat>,
                       blocked: set<Fact>, k: nat)
    requires Ready(inp, ready, was, picks) && |now| == |was| && k < |was|
    requires Standing(ready, was, now, inp.ours.Keys, blocked)
    ensures now[k].status in APPLYABLE <==> FactAt(ready, was, k) !in blocked
    ensures now[k].status in APPLYABLE ==> now[k] == was[k]
    ensures now[k].status !in APPLYABLE ==> now[k].status == PathConflict
  {
    assert ReadyRow(inp, ready[k], was[k], picks[k]);
    assert RowAfter(was[k], now[k], ready[k].forkPath, inp.ours.Keys, FactAt(ready, was, k) in blocked);
  }

  /** Preview's and apply's formula for what a row takes away agree on applyable rows. */
  lemma RemovesIsTakes(inp: Inputs, row: Row, was: Outcome, i: nat)
    requires inp.Readable() && i < |inp.deltas| && ReadyRow(inp, row, was, i)
    ensures Removes(row.oursPath, row.forkPath, was.status) <==> Takes(inp, i)
    ensures Takes(inp, i) <==> was.status == DeleteClean || (row.objects.ours.Some? && row.oursPath != row.forkPath)
    ensures row.oursPath == Source(inp, i) && row.forkPath == Destination(inp, i)
    ensures Writes(inp, i) ==> row.objects.theirs.Some?
  {
    ApplyableIsText(inp, i);
    ApplyableRow(inp, i);
    var d := inp.deltas[i];
    ApplyableCarriesMerge(Base(inp, d), Ours(inp, d), Theirs(inp, d), inp.merge);
  }

  /** What the second pass settles: kept are the unblocked positions of ready. */
  ghost predicate Settled(inp: Inputs, ready: seq<Row>, was: seq<Outcome>, now: seq<Outcome>, picks: seq<nat>,
                          blocked: set<Fact>, kept: seq<nat>) {
    && Ready(inp, ready, was, picks) && |now| == |was|
    && Standing(ready, was, now, inp.ours.Keys, blocked)
    && Kept(now, kept, |now|)
  }

  lemma KeptRow(inp: Inputs, ready: seq<Row>, was: seq<Outcome>, now: seq<Outcome>, picks: seq<nat>,
                blocked: set<Fact>, kept: seq<nat>, k: nat)
    requires Settled(inp, ready, was, now, picks, blocked, kept) && k < |kept|
    ensures ReadyRow(inp, ready[kept[k]], was[kept[k]], picks[kept[k]]) && now[kept[k]] == was[kept[k]]
    ensures FactAt(ready, was, kept[k]) !in blocked
  {
    assert kept[k] in kept;
    KeptAreInitial(inp, ready, was, now, picks, blocked, kept[k]);
    assert ReadyRow(inp, ready[kept[k]], was[kept[k]], picks[kept[k]]);
  }

  /** What the kept rows remove is what the unblocked facts remove. */
  lemma KeptRemovals(inp: Inputs, ready: seq<Row>, was: seq<Outcome>, now: seq<Outcome>, picks: seq<nat>,
                     blocked: set<Fact>, kept: seq<nat>)
    requires inp.Readable() && Settled(inp, ready, was, now, picks, blocked, kept)
    ensures InRange(inp, Pick(picks, kept))
    ensures Removals(inp, Pick(picks, kept)) == RemovedBy(Facts(ready, was), blocked)
  {
    forall p ensures p in Removals(inp, Pick(picks, kept)) <==> p in RemovedBy(Facts(ready, was), blocked) {
      if p in Removals(inp, Pick(picks, kept)) { KeptRemoves(inp, ready, was, now, picks, blocked, kept, p); }
      if p in RemovedBy(Facts(ready, was), blocked) { UnblockedRemoves(inp, ready, was, now, picks, blocked, kept, p); }
    }
  }

  lemma KeptRemoves(inp: Inputs, ready: seq<Row>, was: seq<Outcome>, now: seq<Outcome>, picks: seq<nat>,
                    blocked: set<Fact>, kept: seq<nat>, p: Path)
    requires inp.Readable() && Settled(inp, ready, was, now, picks, blocked, kept)
    requires InRange(inp, Pick(picks, kept)) && p in Removals(inp, Pick(picks, kept))
    ensures p in RemovedBy(Facts(ready, was), blocked)
  {
    var done := Pick(picks, kept);
    var k :| 0 <= k < |done| && Takes(inp, done[k]) && Source(inp, done[k]) == p;
    KeptRow(inp, ready, was, now, picks, blocked, kept, k);
    RemovesIsTakes(inp, ready[kept[k]], was[kept[k]], picks[kept[k]]);
    assert FactAt(ready, was, kept[k]) in Facts(ready, was);
  }

  lemma UnblockedRemoves(inp: Inputs, ready: seq<Row>, was: seq<Outcome>, now: seq<Outcome>, picks: seq<nat>,
                         blocked: set<Fact>, kept: seq<nat>, p: Path)
    requires inp.Readable() && Settled(inp, ready, was, now, picks, blocked, kept)
    requires p in RemovedBy(Facts(ready, was), blocked)
    ensures InRange(inp, Pick(picks, kept)) && p in Removals(inp, Pick(picks, kept))
  {
    var f :| f in Facts(ready, was) && f !in blocked && Removes(f.oursPath, f.forkPath, f.status) && f.oursPath == p;
    var i :| 0 <= i < |ready| && f == FactAt(ready, was, i);
    var k := UnblockedIsKept(inp, ready, was, now, picks, blocked, kept, i);
    RemovedAt(inp, ready, was, picks, kept, k);
  }

  lemma RemovedAt(inp: Inputs, ready: seq<Row>, was: seq<Outcome>, picks: seq<nat>, kept: seq<nat>, k: nat)
    requires inp.Readable() && Ready(inp, ready, was, picks) && k < |kept|
    requires forall j :: 0 <= j < |kept| ==> kept[j] < |ready|
    requires Removes(ready[kept[k]].oursPath, ready[kept[k]].forkPath, was[kept[k]].status)
    ensures InRange(inp, Pick(picks, kept)) && ready[kept[k]].oursPath in Removals(inp, Pick(picks, kept))
  {
    assert ReadyRow(inp, ready[kept[k]], was[kept[k]], picks[kept[k]]);
    RemovesIsTakes(inp, ready[kept[k]], was[kept[k]], picks[kept[k]]);
    assert Pick(picks, kept)[k] == picks[kept[k]];
  }

  lemma UnblockedIsKept(inp: Inputs, ready: seq<Row>, was: seq<Outcome>, now: seq<Outcome>, picks: seq<nat>,
                        blocked: set<Fact>, kept: seq<nat>, i: nat) returns (k: nat)
    requires Settled(inp, ready, was, now, picks, blocked, kept) && i < |ready| && FactAt(ready, was, i) !in blocked
    ensures k < |kept| && kept[k] == i
  {
    KeptAreInitial(inp, ready, was, now, picks, blocked, i);
    assert i in kept;
    k :| 0 <= k < |kept| && kept[k] == i;
  }

  lemma KeptAreApplicable(inp: Inputs, ready: seq<Row>, was: seq<Outcome>, now: seq<Outcome>, picks: seq<nat>,
                          blocked: set<Fact>, kept: seq<nat>)
    requires GitInputs(inp) && Settled(inp, ready, was, now, picks, blocked, kept)
    requires Least(Facts(ready, was), inp.ours.Keys, blocked)
    ensures Applicable(inp, Pick(picks, kept))
  {
    var done := Pick(picks, kept);
    KeptRemovals(inp, ready, was, now, picks, blocked, kept);
    forall k | 0 <= k < |done|
      ensures VerdictAt(inp, done[k]).status in APPLYABLE
      ensures Writes(inp, done[k]) ==> !Obstructed(Destination(inp, done[k]), inp.ours.Keys - Removals(inp, done))
    {
      KeptRow(inp, ready, was, now, picks, blocked, kept, k);
      var f := FactAt(ready, was, kept[k]);
      assert f in Facts(ready, was);
      LeastIsFixed(Facts(ready, was), inp.ours.Keys, blocked, f);
      RemovesIsTakes(inp, ready[kept[k]], was[kept[k]], done[k]);
    }
  }

  // ---- Changing the checkout -----------------------------------------------------------------

  function Depth(p: Path): nat {
    if p == "" then 0 else (if p[0] == '/' then 1 else 0) + Depth(p[1..])
  }

  /** Sort key of the removals: deepest first, then by name. */
  predicate Before(a: Path, b: Path) {
    Depth(a) > Depth(b) || (Depth(a) == Depth(b) && Less(a, b))
  }

  method DeepestFirst(items: set<Path>) returns (r: seq<Path>)
    ensures forall i, j :: 0 <= i < j < |r| ==> Before(r[i], r[j])
    ensures forall p :: p in r <==> p in items
  {
    r := [];
    var rest := items;
    while rest != {}
      invariant rest <= items
      invariant forall i, j :: 0 <= i < j < |r| ==> Before(r[i], r[j])
      invariant forall p :: p in r <==> p in items && p !in rest
      decreases rest
    {
      var p :| p in rest;
      rest := rest - {p};
      r := Place(r, p);
    }
  }

  method Place(s: seq<Path>, p: Path) returns (r: seq<Path>)
    requires p !in s && forall i, j :: 0 <= i < j < |s| ==> Before(s[i], s[j])
    ensures forall i, j :: 0 <= i < j < |r| ==> Before(r[i], r[j])
    ensures forall q :: q in r <==> q in s || q == p
  {
    var n := 0;
    while n < |s| && Before(s[n], p)
      invariant 0 <= n <= |s| && forall j :: 0 <= j < n ==> Before(s[j], p)
    {
      n := n + 1;
    }
    r := s[..n] + [p] + s[n..];
    forall j | n <= j < |s| ensures Before(p, s[j]) {
      LessTotal(s[n], p);
      if j > n && Depth(p) == Depth(s[n]) == Depth(s[j]) { LessTransitive(p, s[n], s[j]); }
    }
    assert s == s[..n] + s[n..];
  }

  method RemoveAll(tree: WorkingTree, removals: set<Path>, ghost empty: set<Path>)
    requires tree.Tidy(empty) && tree.Rooted(empty) && removals <= tree.files.Keys
    modifies tree
    ensures tree.Tidy(empty) && tree.files == old(tree.files) - removals
  {
    var order := DeepestFirst(removals);
    for k := 0 to |order|
      invariant tree.Tidy(empty) && tree.Rooted(empty) && tree.files == old(tree.files) - Elems(order[..k])
    {
      NotYet(order, k);
      tree.Remove(order[k], empty);
    }
    assert order[..|order|] == order;
    assert Elems(order) == removals;
  }

  lemma NotYet(order: seq<Path>, k: nat)
    requires k < |order| && forall i, j :: 0 <= i < j < |order| ==> Before(order[i], order[j])
    ensures order[k] in order && order[k] !in Elems(order[..k])
    ensures Elems(order[..k + 1]) == Elems(order[..k]) + {order[k]}
  {
    LessTotal(order[k], order[k]);
    forall i | 0 <= i < k ensures order[i] != order[k] { assert Before(order[i], order[k]); }
    assert order[..k + 1] == order[..k] + [order[k]];
  }

  /** chosen[k] is the untouched row of delta done[k], with its candidate in the store. */
  ghost predicate Chosen(inp: Inputs, chosen: seq<Row>, now: seq<Outcome>, done: seq<nat>, files: map<string, string>) {
    && |chosen| == |now| == |done| && InRange(inp, done)
    && forall k :: 0 <= k < |done| ==> ReadyRow(inp, chosen[k], now[k], done[k]) && Backed(inp, files, done[k])
  }

  function ActionOf(inp: Inputs, i: nat): Action
    requires i < |inp.deltas|
  {
    var v := VerdictAt(inp, i);
    if Writes(inp, i) then Write(Destination(inp, i), v.mergedMode, v.status) else Delete(Destination(inp, i), v.status)
  }

  lemma ChosenFile(inp: Inputs, row: Row, now: Outcome, i: nat, files: map<string, string>)
    requires inp.Readable() && i < |inp.deltas| && ReadyRow(inp, row, now, i) && Backed(inp, files, i)
    ensures Writes(inp, i) <==> now.status != DeleteClean
    ensures Writes(inp, i) ==>
              && now.merged.Some? && now.merged.value in files && now.mergedMode == VerdictAt(inp, i).mergedMode
              && MergedFile(inp, i) == File(Content.Merged(files[now.merged.value]),
                                            if now.mergedMode == Some("100755") then "100755" else "100644")
    ensures row.forkPath == Destination(inp, i) && now.status == VerdictAt(inp, i).status
  {
    ApplyableRow(inp, i);
  }

  /** One turn of the write loop: the n-th chosen row's report line, and its file unless dry or impeded. */
  method WriteOne(inp: Inputs, row: Row, artifacts: Artifacts, dryRun: bool, tree: WorkingTree,
                  ghost base: map<Path, File>, ghost empty: set<Path>, ghost done: seq<nat>, ghost n: nat)
    returns (r: Result<Action, FileError>)
    requires inp.Readable() && InRange(inp, done) && n < |done|
    requires Writes(inp, done[n]) ==> WritableUnlessImpeded(inp, base, empty, done, n)
    requires ReadyRow(inp, row, row.Now(), done[n]) && Backed(inp, artifacts.files, done[n])
    requires !dryRun ==> tree.Tidy(empty) && tree.files == FilesAfter(inp, base, done, n)
    modifies tree
    ensures r.Success? <==> dryRun || !Stops(inp, base, empty, done, n)
    ensures r == if r.Success? then Success(ActionOf(inp, done[n])) else Failure(CannotWrite(Destination(inp, done[n])))
    ensures dryRun || r.Failure? ==> tree.files == old(tree.files) && tree.dirs == old(tree.dirs)
    ensures !dryRun ==> tree.Tidy(empty) && (r.Success? ==> tree.files == FilesAfter(inp, base, done, n + 1))
  {
    ChosenFile(inp, row, row.Now(), done[n], artifacts.files);
    if row.status == DeleteClean {
      r := Success(Delete(row.forkPath, row.status));
    } else {
      if !dryRun {
        var mode := if row.mergedMode == Some("100755") then "100755" else "100644";
        var written := tree.Write(row.forkPath, File(Content.Merged(artifacts.files[row.merged.value]), mode), empty);
        if !written { return Failure(CannotWrite(row.forkPath)); }
      }
      r := Success(Write(row.forkPath, row.mergedMode, row.status));
    }
  }

  /** The report lines so far are those of the first deltas of done, in order. */
  ghost predicate Reported(inp: Inputs, done: seq<nat>, applied: seq<Action>)
    requires InRange(inp, done)
  {
    |applied| <= |done| && forall k :: 0 <= k < |applied| ==> applied[k] == ActionOf(inp, done[k])
  }

  lemma ReportNext(inp: Inputs, done: seq<nat>, applied: seq<Action>, action: Action)
    requires InRange(inp, done) && Reported(inp, done, applied) && |applied| < |done|
    requires action == ActionOf(inp, done[|applied|])
    ensures Reported(inp, done, applied + [action])
  {}

  /** The run failed at the first row that could not be written; the rows before it are written. */
  ghost predicate Failed(inp: Inputs, base: map<Path, File>, empty: set<Path>, done: seq<nat>, error: FileError,
                         after: map<Path, File>)
    requires InRange(inp, done)
  {
    exists n: nat :: StopsFirst(inp, base, empty, done, n) && error == CannotWrite(Destination(inp, done[n]))
                && after == FilesAfter(inp, base, done, n)
  }

  lemma FailedAt(inp: Inputs, base: map<Path, File>, empty: set<Path>, done: seq<nat>, n: nat)
    requires InRange(inp, done) && StopsFirst(inp, base, empty, done, n)
    ensures Failed(inp, base, empty, done, CannotWrite(Destination(inp, done[n])), FilesAfter(inp, base, done, n))
  {}

  method WriteAll(inp: Inputs, chosen: seq<Row>, artifacts: Artifacts, dryRun: bool, tree: WorkingTree,
                  ghost base: map<Path, File>, ghost empty: set<Path>, ghost done: seq<nat>)
    returns (r: Result<seq<Action>, FileError>)
    requires inp.Readable() && InRange(inp, done) && AllWritableUnlessImpeded(inp, base, empty, done)
    requires Chosen(inp, chosen, Outcomes(chosen), done, artifacts.files)
    requires !dryRun ==> tree.Tidy(empty) && tree.files == Cleared(inp, base, done)
    modifies tree
    ensures r.Success? <==> dryRun || Unimpeded(inp, base, empty, done)
    ensures r.Success? ==> |r.value| == |done| && Reported(inp, done, r.value)
    ensures dryRun ==> tree.files == old(tree.files) && tree.dirs == old(tree.dirs)
    ensures !dryRun ==> tree.Tidy(empty)
    ensures !dryRun && r.Success? ==> tree.files == FinalFiles(inp, base, done)
    ensures r.Failure? ==> Failed(inp, base, empty, done, r.error, tree.files)
  {
    var applied := [];
    ghost var now := Outcomes(chosen);
    for n := 0 to |chosen|
      invariant |applied| == n && Reported(inp, done, applied)
      invariant dryRun ==> tree.files == old(tree.files) && tree.dirs == old(tree.dirs)
      invariant !dryRun ==> tree.Tidy(empty) && tree.files == FilesAfter(inp, base, done, n)
      invariant dryRun || forall k :: 0 <= k < n ==> !Stops(inp, base, empty, done, k)
    {
      assert ReadyRow(inp, chosen[n], now[n], done[n]) && chosen[n].Now() == now[n];
      var action := WriteOne(inp, chosen[n], artifacts, dryRun, tree, base, empty, done, n);
      if action.Failure? {
        FailedAt(inp, base, empty, done, n);
        return Failure(action.error);
      }
      ReportNext(inp, done, applied, action.value);
      applied := applied + [action.value];
    }
    r := Success(applied);
  }

  /** Which rows an apply run settles on, and why the others are left out. */
  ghost predicate Selection(inp: Inputs, rows: seq<Row>, now: seq<Outcome>, local: Local, picks: seq<nat>,
                            blocked: set<Fact>, done: seq<nat>)
  {
    && |now| == |rows| == |inp.deltas|
    && Picked(rows, now, local, picks, |rows|)
    && Least(Facts(Pick(rows, picks), Pick(now, picks)), inp.ours.Keys, blocked)
    && (forall k :: 0 <= k < |done| ==> done[k] < |rows|)
    && (forall j, k :: 0 <= j < k < |done| ==> done[j] < done[k])
    && (forall i :: 0 <= i < |rows| ==>
         (i in done <==> i in picks && FactOf(rows[i], now[i].status) !in blocked))
  }

  /** The rows of a preview start out ready: distinct, untouched and backed by the store. */
  lemma StartReady(inp: Inputs, rows: seq<Row>, now: seq<Outcome>, blocked: set<Fact>, files: map<string, string>,
                   local: Local, picks: seq<nat>)
    requires |rows| == |now| == |inp.deltas| && DistinctRows(rows)
    requires forall i :: 0 <= i < |rows| ==> Records(inp, inp.deltas[i], rows[i])
    requires Standing(rows, Initials(inp), now, inp.ours.Keys, blocked)
    requires files == Candidates(inp, |inp.deltas|) - Dropped(Initials(inp), now)
    requires Picked(rows, now, local, picks, |rows|)
    ensures Ready(inp, Pick(rows, picks), Pick(now, picks), picks)
    ensures forall k :: 0 <= k < |picks| ==> Backed(inp, files, picks[k])
    ensures DistinctRows(Pick(rows, picks)) && OwnArtifacts(Pick(now, picks), files)
  {
    var ready, was := Pick(rows, picks), Pick(now, picks);
    PickedAreReady(inp, rows, now, blocked, local, picks);
    forall k | 0 <= k < |picks| ensures Backed(inp, files, picks[k]) {
      assert ReadyRow(inp, ready[k], was[k], picks[k]);
      PickedAreBacked(inp, rows, now, picks[k]);
    }
    ReadyOwn(inp, ready, was, picks, files);
  }

  /** After the second pass the kept rows are chosen: still initial and still backed. */
  lemma KeptAreChosen(inp: Inputs, ready: seq<Row>, was: seq<Outcome>, now: seq<Outcome>, picks: seq<nat>,
                      blocked: set<Fact>, kept: seq<nat>, files: map<string, string>)
    requires Settled(inp, ready, was, now, picks, blocked, kept) && OwnArtifacts(was, files)
    requires forall k :: 0 <= k < |picks| ==> Backed(inp, files, picks[k])
    ensures InRange(inp, Pick(picks, kept))
    ensures Chosen(inp, Pick(ready, kept), Pick(now, kept), Pick(picks, kept), files - Dropped(was, now))
  {
    var done := Pick(picks, kept);
    forall k | 0 <= k < |kept|
      ensures ReadyRow(inp, ready[kept[k]], now[kept[k]], done[k]) && Backed(inp, files - Dropped(was, now), done[k])
    {
      KeptRow(inp, ready, was, now, picks, blocked, kept, k);
      var i := kept[k];
      assert Backed(inp, files, picks[i]);
    }
  }

  /** One line for every picked row that the second pass blocks, in row order. */
  ghost function BlockedSkips(rows: seq<Row>, was: seq<Outcome>, blocked: set<Fact>, n: nat): seq<Skip>
    requires |was| == |rows| && n <= |rows|
  {
    if n == 0 then []
    else
      BlockedSkips(rows, was, blocked, n - 1)
      + (if FactAt(rows, was, n - 1) in blocked then [Skip(rows[n - 1].forkPath, NotApplyable(PathConflict))] else [])
  }

  lemma {:induction false} LateSkips(inp: Inputs, ready: seq<Row>, was: seq<Outcome>, now: seq<Outcome>,
                                     picks: seq<nat>, blocked: set<Fact>, n: nat)
    requires Ready(inp, ready, was, picks) && |now| == |was| && n <= |ready|
    requires Standing(ready, was, now, inp.ours.Keys, blocked)
    ensures Demoted(ready, now, n) == BlockedSkips(ready, was, blocked, n)
  {
    if n > 0 {
      LateSkips(inp, ready, was, now, picks, blocked, n - 1);
      KeptAreInitial(inp, ready, was, now, picks, blocked, n - 1);
    }
  }

  /** The chosen delta numbers are those picked rows that the second pass leaves unblocked. */
  lemma KeptIsSelection(inp: Inputs, rows: seq<Row>, start: seq<Outcome>, now: seq<Outcome>, local: Local,
                        picks: seq<nat>, blocked: set<Fact>, kept: seq<nat>)
    requires |start| == |rows| == |inp.deltas| && Picked(rows, start, local, picks, |rows|)
    requires Settled(inp, Pick(rows, picks), Pick(start, picks), now, picks, blocked, kept)
    requires Least(Facts(Pick(rows, picks), Pick(start, picks)), inp.ours.Keys, blocked)
    ensures Selection(inp, rows, start, local, picks, blocked, Pick(picks, kept))
  {
    var ready, was, done := Pick(rows, picks), Pick(start, picks), Pick(picks, kept);
    forall k | 0 <= k < |done|
      ensures done[k] in picks && FactOf(rows[done[k]], start[done[k]].status) !in blocked
    {
      KeptRow(inp, ready, was, now, picks, blocked, kept, k);
    }
    forall m | 0 <= m < |picks| && FactOf(rows[picks[m]], start[picks[m]].status) !in blocked ensures picks[m] in done {
      var k := UnblockedIsKept(inp, ready, was, now, picks, blocked, kept, m);
      assert done[k] == picks[m];
    }
  }

  lemma PickOutcomes(rows: seq<Row>, picks: seq<nat>)
    requires forall k :: 0 <= k < |picks| ==> picks[k] < |rows|
    ensures Outcomes(Pick(rows, picks)) == Pick(Outcomes(rows), picks)
  {}

  /** What the second pass and the second filter establish together. */
  lemma Concluded(inp: Inputs, rows: seq<Row>, start: seq<Outcome>, now: seq<Outcome>, local: Local, picks: seq<nat>,
                  blocked: set<Fact>, kept: seq<nat>, files: map<string, string>)
    requires GitInputs(inp) && |start| == |rows| == |inp.deltas| && Picked(rows, start, local, picks, |rows|)
    requires Settled(inp, Pick(rows, picks), Pick(start, picks), now, picks, blocked, kept)
    requires Least(Facts(Pick(rows, picks), Pick(start, picks)), inp.ours.Keys, blocked)
    requires OwnArtifacts(Pick(start, picks), files) && forall k :: 0 <= k < |picks| ==> Backed(inp, files, picks[k])
    ensures Selection(inp, rows, start, local, picks, blocked, Pick(picks, kept))
    ensures Applicable(inp, Pick(picks, kept))
    ensures Demoted(Pick(rows, picks), now, |picks|)
         == BlockedSkips(Pick(rows, picks), Pick(start, picks), blocked, |picks|)
    ensures Chosen(inp, Pick(Pick(rows, picks), kept), Pick(now, kept), Pick(picks, kept),
                   files - Dropped(Pick(start, picks), now))
  {
    var ready, was := Pick(rows, picks), Pick(start, picks);
    KeptAreApplicable(inp, ready, was, now, picks, blocked, kept);
    KeptAreChosen(inp, ready, was, now, picks, blocked, kept, files);
    KeptIsSelection(inp, rows, start, now, local, picks, blocked, kept);
    LateSkips(inp, ready, was, now, picks, blocked, |picks|);
  }

  /** The report's skipped lines: what the first filter refuses, then what the second pass blocks. */
  ghost predicate SkippedLines(rows: seq<Row>, now: seq<Outcome>, local: Local, picks: seq<nat>, blocked: set<Fact>,
                               skipped: seq<Skip>)
  {
    && |now| == |rows| && (forall k :: 0 <= k < |picks| ==> picks[k] < |rows|)
    && skipped == Refusals(rows, now, local, |rows|)
                  + BlockedSkips(Pick(rows, picks), Pick(now, picks), blocked, |picks|)
  }

  /** Filter, reclassify, filter again: everything before the checkout is touched. */
  method Choose(inp: Inputs, rows: seq<Row>, artifacts: Artifacts, ghost blocked: set<Fact>, local: Local)
    returns (chosen: seq<Row>, skipped: seq<Skip>, ghost picks: seq<nat>, ghost again: set<Fact>, ghost done: seq<nat>)
    requires GitInputs(inp) && Previewed(inp, rows, artifacts.files, blocked)
    modifies rows, artifacts
    ensures Selection(inp, rows, old(Outcomes(rows)), local, picks, again, done)
    ensures Applicable(inp, done)
    ensures Chosen(inp, chosen, Outcomes(chosen), done, artifacts.files)
    ensures SkippedLines(rows, old(Outcomes(rows)), local, picks, again, skipped) && |chosen| + |skipped| == |rows|
  {
    ghost var start, files := Outcomes(rows), artifacts.files;
    var ready, late;
    ghost var rounds, kept;
    ready, skipped, picks := FirstFilter(rows, local);
    StartReady(inp, rows, start, blocked, files, local, picks);
    PickOutcomes(rows, picks);
    again, rounds := ClassifyPathConflicts(ready, inp.ours.Keys, artifacts);
    chosen, late, kept := SecondFilter(ready);
    skipped := skipped + late;
    done := Pick(picks, kept);
    Concluded(inp, rows, start, Outcomes(ready), local, picks, again, kept, files);
    PickOutcomes(ready, kept);
  }

  /** Apply's own formula for rows whose old shape goes away. */
  predicate Vacates(row: Row, status: Status) {
    status == DeleteClean || (row.objects.ours.Some? && row.oursPath != row.forkPath)
  }

  lemma ChosenRemovals(inp: Inputs, chosen: seq<Row>, now: seq<Outcome>, done: seq<nat>, files: map<string, string>,
                       removals: set<Path>)
    requires inp.Readable() && Chosen(inp, chosen, now, done, files)
    requires removals == set k | 0 <= k < |chosen| && Vacates(chosen[k], now[k].status) :: chosen[k].oursPath
    ensures removals == Removals(inp, done) && removals <= inp.ours.Keys
  {
    forall k | 0 <= k < |done|
      ensures Takes(inp, done[k]) <==> Vacates(chosen[k], now[k].status)
      ensures chosen[k].oursPath == Source(inp, done[k]) && (Takes(inp, done[k]) ==> Source(inp, done[k]) in inp.ours)
    {
      assert ReadyRow(inp, chosen[k], now[k], done[k]);
      RemovesIsTakes(inp, chosen[k], now[k], done[k]);
      ApplyableRow(inp, done[k]);
    }
  }

  /** Unlinks the old shapes of the chosen rows. */
  method ClearOld(inp: Inputs, chosen: seq<Row>, tree: WorkingTree, ghost now: seq<Outcome>, ghost done: seq<nat>,
                  ghost files: map<string, string>, ghost empty: set<Path>)
    requires inp.Readable() && now == Outcomes(chosen) && Chosen(inp, chosen, now, done, files)
    requires tree.Tidy(empty) && tree.Rooted(empty) && Removals(inp, done) <= tree.files.Keys
    modifies tree
    ensures tree.Tidy(empty) && tree.files == Cleared(inp, old(tree.files), done)
  {
    var removals := set k | 0 <= k < |chosen| && Vacates(chosen[k], chosen[k].status) :: chosen[k].oursPath;
    assert forall k :: 0 <= k < |chosen| ==> now[k].status == chosen[k].status;
    ChosenRemovals(inp, chosen, now, done, files, removals);
    RemoveAll(tree, removals, empty);
  }

  /** Removals first, then writes. */
  method ChangeTree(inp: Inputs, chosen: seq<Row>, artifacts: Artifacts, dryRun: bool, tree: WorkingTree,
                    ghost guarded: set<Path>, ghost empty: set<Path>, ghost done: seq<nat>)
    returns (r: Result<seq<Action>, FileError>)
    requires GitInputs(inp) && Applicable(inp, done) && Spared(inp, guarded, done) && Matches(inp, guarded, tree.files)
    requires Chosen(inp, chosen, Outcomes(chosen), done, artifacts.files)
    requires tree.Tidy(empty) && tree.Rooted(empty) && Removals(inp, done) <= tree.files.Keys
    modifies tree
    ensures r.Success? <==> dryRun || Unimpeded(inp, old(tree.files), empty, done)
    ensures r.Success? ==> |r.value| == |done| && Reported(inp, done, r.value)
    ensures dryRun ==> tree.files == old(tree.files) && tree.dirs == old(tree.dirs)
    ensures tree.Tidy(empty)
    ensures !dryRun && r.Success? ==> tree.files == FinalFiles(inp, old(tree.files), done)
    ensures r.Failure? ==> Failed(inp, old(tree.files), empty, done, r.error, tree.files)
  {
    ghost var base, now := tree.files, Outcomes(chosen);
    if !dryRun {
      ClearOld(inp, chosen, tree, now, done, artifacts.files, empty);
    }
    assert Outcomes(chosen) == now;
    NothingElseInTheWay(inp, guarded, base, empty, done);
    r := WriteAll(inp, chosen, artifacts, dryRun, tree, base, empty, done);
  }

  /** The paths that the first filter protects. */
  ghost function Guarded(local: Local): set<Path> {
    local.unsafePaths + local.dirtyPaths
  }

  /** Rows that pass the first filter name no protected path. */
  lemma SelectionSpares(inp: Inputs, rows: seq<Row>, now: seq<Outcome>, local: Local, picks: seq<nat>,
                        blocked: set<Fact>, done: seq<nat>)
    requires Selection(inp, rows, now, local, picks, blocked, done)
    requires forall i :: 0 <= i < |rows| ==> Records(inp, inp.deltas[i], rows[i])
    ensures Spared(inp, Guarded(local), done)
  {
    forall k | 0 <= k < |done|
      ensures Source(inp, done[k]) !in Guarded(local) && Destination(inp, done[k]) !in Guarded(local)
    {
      var i := done[k];
      assert i in done;
      SourcesNamed(inp, inp.deltas[i], rows[i]);
    }
  }

  /** The filter's path list holds the row's destination and its source. */
  lemma SourcesNamed(inp: Inputs, d: Delta, row: Row)
    requires Records(inp, d, row)
    ensures SourcesOf(row)[0] == inp.forkPath(d.path)
    ensures exists k :: 0 <= k < |SourcesOf(row)| && SourcesOf(row)[k] == inp.OursPath(d)
  {
    if inp.OursPath(d) == inp.forkPath(d.path) {
      assert SourcesOf(row)[0] == inp.OursPath(d);
    } else {
      assert SourcesOf(row)[1] == inp.OursPath(d);
    }
  }

  /** Whatever the run did to the tree, protected paths keep what they hold. */
  lemma FailedKeepsLocals(inp: Inputs, guarded: set<Path>, base: map<Path, File>, empty: set<Path>, done: seq<nat>,
                          error: FileError, after: map<Path, File>)
    requires GitInputs(inp) && Applicable(inp, done) && Spared(inp, guarded, done) && Matches(inp, guarded, base)
    requires Failed(inp, base, empty, done, error, after)
    ensures LocalsKept(guarded, base, after)
  {
    var n: nat :| StopsFirst(inp, base, empty, done, n) && after == FilesAfter(inp, base, done, n);
    GuardedStay(inp, guarded, base, done, n);
  }

  /** `apply_preview` on a checkout that may hold local edits, untracked files and local deletions at the
      paths the first filter protects, and empty directories anywhere. */
  method ApplyPreview(inp: Inputs, rows: seq<Row>, artifacts: Artifacts, ghost blocked: set<Fact>, local: Local,
                      dryRun: bool, tree: WorkingTree)
    returns (r: Result<(seq<Action>, seq<Skip>), FileError>, ghost picks: seq<nat>, ghost again: set<Fact>,
             ghost done: seq<nat>)
    requires GitInputs(inp) && Previewed(inp, rows, artifacts.files, blocked)
    requires tree.Valid() && Matches(inp, Guarded(local), tree.files)
    modifies rows, artifacts, tree
    ensures Selection(inp, rows, old(Outcomes(rows)), local, picks, again, done) && Applicable(inp, done)
    ensures r.Success? <==> dryRun || Unimpeded(inp, old(tree.files), old(tree.Empty()), done)
    ensures r.Success? ==>
              && SkippedLines(rows, old(Outcomes(rows)), local, picks, again, r.value.1)
              && |r.value.0| == |done| && |r.value.0| + |r.value.1| == |rows| && Reported(inp, done, r.value.0)
    ensures Spared(inp, Guarded(local), done) && LocalsKept(Guarded(local), old(tree.files), tree.files)
    ensures dryRun ==> tree.files == old(tree.files) && tree.dirs == old(tree.dirs)
    ensures tree.Valid() && tree.Tidy(old(tree.Empty()))
    ensures !dryRun && r.Success? ==> tree.files == FinalFiles(inp, old(tree.files), done)
    ensures r.Failure? ==> Failed(inp, old(tree.files), old(tree.Empty()), done, r.error, tree.files)
  {
    ghost var base, start, empty := tree.files, Outcomes(rows), tree.Empty();
    ValidIsTidy(tree);
    var chosen, skipped;
    chosen, skipped, picks, again, done := Choose(inp, rows, artifacts, blocked, local);
    SelectionSpares(inp, rows, start, local, picks, again, done);
    GuardedStay(inp, Guarded(local), base, done, |done|);
    var changed := ChangeTree(inp, chosen, artifacts, dryRun, tree, Guarded(local), empty, done);
    TidyIsValid(tree, empty);
    if changed.Failure? {
      FailedKeepsLocals(inp, Guarded(local), base, empty, done, changed.error, tree.files);
      return Failure(changed.error), picks, again, done;
    }
    r := Success((changed.value, skipped));
  }
}
