/** `classify_path_conflicts`: the least set of rows blocked by what unblocked removals leave behind. */
module Conflicts {
  import opened Wrappers
  import opened Paths
  import opened Preview
  import opened Rows

  /** What the classification reads of a row. */
  datatype Fact = Fact(forkPath: Path, oursPath: Path, writes: bool, status: Status)

  function FactOf(row: Row, status: Status): Fact {
    Fact(row.forkPath, row.oursPath, row.objects.theirs.Some?, status)
  }

  /** Does the row, if it is not blocked, take its fork path away? */
  predicate Removes(oursPath: Path, forkPath: Path, status: Status) {
    status == DeleteClean || (status in {Clean, AddAddEqual} && oursPath != forkPath)
  }

  ghost function RemovedBy(facts: set<Fact>, blocked: set<Fact>): set<Path> {
    set f | f in facts && f !in blocked && Removes(f.oursPath, f.forkPath, f.status) :: f.oursPath
  }

  ghost predicate Obstructed(forkPath: Path, remaining: set<Path>) {
    exists b :: b in remaining && Clash(b, forkPath)
  }

  /** Does f belong to the conflicts once `blocked` rows keep their sources? */
  ghost predicate Blocks(facts: set<Fact>, ours: set<Path>, blocked: set<Fact>, f: Fact) {
    f.status == PathConflict || (f.writes && Obstructed(f.forkPath, ours - RemovedBy(facts, blocked)))
  }

  ghost predicate Closed(facts: set<Fact>, ours: set<Path>, blocked: set<Fact>) {
    forall f :: f in facts && Blocks(facts, ours, blocked, f) ==> f in blocked
  }

  /** The least closed set: every row in it is blocked, and nothing else is. */
  ghost predicate Least(facts: set<Fact>, ours: set<Path>, blocked: set<Fact>) {
    && blocked <= facts && Closed(facts, ours, blocked)
    && forall c: set<Fact> :: c <= facts && Closed(facts, ours, c) ==> blocked <= c
  }

  lemma RemovedAntitone(facts: set<Fact>, a: set<Fact>, b: set<Fact>)
    requires a <= b
    ensures RemovedBy(facts, b) <= RemovedBy(facts, a)
  {}

  lemma LeastUnique(facts: set<Fact>, ours: set<Path>, a: set<Fact>, b: set<Fact>)
    requires Least(facts, ours, a) && Least(facts, ours, b)
    ensures a == b
  {}

  /** The least set is also a fixed point: each of its rows really is blocked by it. */
  lemma LeastIsFixed(facts: set<Fact>, ours: set<Path>, blocked: set<Fact>, f: Fact)
    requires Least(facts, ours, blocked) && f in facts
    ensures f in blocked <==> Blocks(facts, ours, blocked, f)
  {
    if f in blocked && !Blocks(facts, ours, blocked, f) {
      var less := blocked - {f};
      forall g | g in facts && Blocks(facts, ours, less, g) ensures g in less {
        RemovedAntitone(facts, less, blocked);
        assert Blocks(facts, ours, blocked, g);
      }
      assert Closed(facts, ours, less);
    }
  }

  /** Dropping rows can only add conflicts among the rest. */
  lemma FewerRowsMoreConflicts(facts: set<Fact>, kept: set<Fact>, ours: set<Path>, all: set<Fact>, rest: set<Fact>)
    requires kept <= facts && Least(facts, ours, all) && Least(kept, ours, rest)
    ensures all * kept <= rest
  {
    var c := rest + (facts - kept);
    assert RemovedBy(facts, c) == RemovedBy(kept, rest);
    forall f | f in facts && Blocks(facts, ours, c, f) ensures f in c {
      if f in kept { assert Blocks(kept, ours, rest, f); }
    }
    assert Closed(facts, ours, c);
  }

  // ---- The loop ------------------------------------------------------------------------

  ghost predicate DistinctRows(rows: seq<Row>) {
    forall i, j :: 0 <= i < j < |rows| ==> rows[i] != rows[j]
  }

  ghost function Outcomes(rows: seq<Row>): seq<Outcome>
    reads rows
  {
    seq(|rows|, i requires 0 <= i < |rows| reads rows => rows[i].Now())
  }

  ghost function FactAt(rows: seq<Row>, was: seq<Outcome>, i: nat): Fact
    requires |was| == |rows| && i < |rows|
  {
    FactOf(rows[i], was[i].status)
  }

  ghost function Facts(rows: seq<Row>, was: seq<Outcome>): set<Fact>
    requires |was| == |rows|
  {
    set i | 0 <= i < |rows| :: FactAt(rows, was, i)
  }

  /** Each candidate artifact is in the store and belongs to one row. */
  ghost predicate OwnArtifacts(was: seq<Outcome>, files: map<string, string>) {
    && (forall i :: 0 <= i < |was| && was[i].merged.Some? ==> was[i].merged.value in files)
    && (forall i, j :: 0 <= i < j < |was| && was[i].merged.Some? ==> was[i].merged != was[j].merged)
  }

  /** A blocked row names its blockers and loses its candidate; any other row is untouched. */
  ghost predicate RowAfter(was: Outcome, now: Outcome, forkPath: Path, ours: set<Path>, blocked: bool) {
    if !blocked || was.status == PathConflict then now == was
    else
      && now == Outcome(PathConflict, now.blockingPaths, 0, None, None)
      && now.blockingPaths != [] && Ascending(now.blockingPaths)
      && forall b :: b in now.blockingPaths ==> b in ours && Clash(b, forkPath)
  }

  ghost function Dropped(was: seq<Outcome>, now: seq<Outcome>): set<string>
    requires |was| == |now|
  {
    set i | 0 <= i < |was| && was[i].merged.Some? && now[i].merged.None? :: was[i].merged.value
  }

  /** One pass over the rows against a fixed set of remaining paths. */
  ghost predicate RowStep(before: Outcome, after: Outcome, row: Row, remaining: set<Path>) {
    if row.objects.theirs.None? || before.status == PathConflict || !Obstructed(row.forkPath, remaining) then
      after == before
    else
      && after == Outcome(PathConflict, after.blockingPaths, 0, None, None)
      && after.blockingPaths != [] && Ascending(after.blockingPaths)
      && forall b :: b in after.blockingPaths <==> b in remaining && Clash(b, row.forkPath)
  }

  method BlockIfObstructed(row: Row, remaining: set<Path>, ordered: seq<Path>, artifacts: Artifacts) returns (hit: bool)
    requires Ascending(ordered) && Elems(ordered) == remaining
    requires row.merged.Some? ==> row.merged.value in artifacts.files
    modifies row, artifacts
    ensures RowStep(old(row.Now()), row.Now(), row, remaining)
    ensures hit <==> row.Now() != old(row.Now())
    ensures artifacts.files == old(artifacts.files) - Candidate(old(row.Now()), row.Now())
  {
    hit := false;
    if row.objects.theirs.Some? && row.status != PathConflict {
      var blockers := PathBlockers(row.forkPath, remaining, ordered);
      if blockers != [] {
        assert blockers[0] in blockers;
        row.status := PathConflict;
        row.blockingPaths := blockers;
        row.conflicts := 0;
        row.mergedMode := None;
        var candidate := row.merged;
        row.merged := None;
        if candidate.Some? {
          assert candidate.value in artifacts.files;
          artifacts.files := artifacts.files - {candidate.value};
        }
        hit := true;
      }
    }
  }

  ghost function Candidate(was: Outcome, now: Outcome): set<string> {
    if was.merged.Some? && now.merged.None? then {was.merged.value} else {}
  }

  ghost predicate Stepped(rows: seq<Row>, before: seq<Outcome>, after: seq<Outcome>, remaining: set<Path>)
    requires |before| == |after| == |rows|
  {
    forall i :: 0 <= i < |rows| ==> RowStep(before[i], after[i], rows[i], remaining)
  }

  method OneRound(rows: seq<Row>, remaining: set<Path>, ordered: seq<Path>, artifacts: Artifacts)
    returns (progress: bool)
    requires DistinctRows(rows) && Ascending(ordered) && Elems(ordered) == remaining
    requires OwnArtifacts(Outcomes(rows), artifacts.files)
    modifies rows, artifacts
    ensures Stepped(rows, old(Outcomes(rows)), Outcomes(rows), remaining)
    ensures artifacts.files == old(artifacts.files) - Dropped(old(Outcomes(rows)), Outcomes(rows))
    ensures progress <==> Outcomes(rows) != old(Outcomes(rows))
  {
    ghost var was, files := Outcomes(rows), artifacts.files;
    ghost var now, changed := was, 0;
    progress := false;
    for k := 0 to |rows|
      invariant |now| == |rows| && forall i :: 0 <= i < |rows| ==> now[i] == rows[i].Now()
      invariant forall i :: 0 <= i < k ==> RowStep(was[i], now[i], rows[i], remaining)
      invariant now[k..] == was[k..]
      invariant artifacts.files == files - Dropped(was, now)
      invariant if progress then changed < k && now[changed] != was[changed] else now == was
    {
      CandidateStays(was, now, files, k);
      assert now[k] == now[k..][0] == was[k..][0];
      var hit := BlockIfObstructed(rows[k], remaining, ordered, artifacts);
      DroppedGrows(was, now, rows[k].Now(), k);
      now := now[k := rows[k].Now()];
      if hit {
        progress, changed := true, k;
      }
    }
    assert now == Outcomes(rows);
  }

  lemma CandidateStays(was: seq<Outcome>, now: seq<Outcome>, files: map<string, string>, k: nat)
    requires |was| == |now| && k < |was| && now[k..] == was[k..] && OwnArtifacts(was, files)
    ensures was[k].merged.Some? ==> was[k].merged.value in files - Dropped(was, now)
  {
    forall i | k <= i < |was| ensures now[i] == was[i] { assert now[i] == now[k..][i - k]; }
  }

  lemma DroppedGrows(was: seq<Outcome>, now: seq<Outcome>, next: Outcome, k: nat)
    requires |was| == |now| && k < |was| && now[k] == was[k]
    ensures Dropped(was, now[k := next]) == Dropped(was, now) + Candidate(was[k], next)
  {
    var more := now[k := next];
    forall x | x in Dropped(was, now) ensures x in Dropped(was, more) {
      var i :| 0 <= i < |was| && was[i].merged.Some? && now[i].merged.None? && was[i].merged.value == x;
      assert more[i] == now[i];
    }
    forall x | x in Dropped(was, more) ensures x in Dropped(was, now) + Candidate(was[k], next) {
      var i :| 0 <= i < |was| && was[i].merged.Some? && more[i].merged.None? && was[i].merged.value == x;
      if i != k { assert more[i] == now[i]; }
    }
    if x :| x in Candidate(was[k], next) { assert more[k] == next; }
  }

  /** The state of the outer loop: `blocked` is where the rows stand relative to the start. */
  ghost predicate Standing(rows: seq<Row>, was: seq<Outcome>, now: seq<Outcome>, ours: set<Path>, blocked: set<Fact>)
    requires |was| == |now| == |rows|
  {
    forall i :: 0 <= i < |rows| ==>
      RowAfter(was[i], now[i], rows[i].forkPath, ours, FactAt(rows, was, i) in blocked)
  }

  lemma {:induction false} FactsBounded(rows: seq<Row>, was: seq<Outcome>)
    requires |was| == |rows|
    ensures |Facts(rows, was)| <= |rows|
  {
    if rows == [] {
      assert Facts(rows, was) == {};
    } else {
      var n := |rows| - 1;
      FactsBounded(rows[..n], was[..n]);
      var less := Facts(rows[..n], was[..n]);
      forall f ensures f in Facts(rows, was) <==> f in less || f == FactAt(rows, was, n) {
        if f in less {
          var i :| 0 <= i < n && f == FactAt(rows[..n], was[..n], i);
          assert f == FactAt(rows, was, i);
        }
        if f in Facts(rows, was) {
          var i :| 0 <= i < |rows| && f == FactAt(rows, was, i);
          if i < n { assert f == FactAt(rows[..n], was[..n], i); }
        }
      }
      assert Facts(rows, was) == less + {FactAt(rows, was, n)};
    }
  }

  /** Dropping in two rounds is dropping once, and the surviving candidates stay in the store. */
  lemma DroppedTwice(rows: seq<Row>, was: seq<Outcome>, now: seq<Outcome>, next: seq<Outcome>, ours: set<Path>,
                     blocked: set<Fact>, more: set<Fact>, files: map<string, string>)
    requires |was| == |now| == |next| == |rows|
    requires Standing(rows, was, now, ours, blocked) && Standing(rows, was, next, ours, more) && blocked <= more
    ensures files - Dropped(was, now) - Dropped(now, next) == files - Dropped(was, next)
  {
    forall i | 0 <= i < |rows|
      ensures now[i].merged == was[i].merged || now[i].merged.None?
      ensures now[i].merged.None? ==> next[i].merged.None?
    {
      assert RowAfter(was[i], now[i], rows[i].forkPath, ours, FactAt(rows, was, i) in blocked);
      assert RowAfter(was[i], next[i], rows[i].forkPath, ours, FactAt(rows, was, i) in more);
    }
    assert Dropped(was, now) + Dropped(now, next) == Dropped(was, next);
  }

  lemma OwnStays(rows: seq<Row>, was: seq<Outcome>, now: seq<Outcome>, ours: set<Path>, blocked: set<Fact>,
                 files: map<string, string>)
    requires |was| == |now| == |rows| && Standing(rows, was, now, ours, blocked) && OwnArtifacts(was, files)
    ensures OwnArtifacts(now, files - Dropped(was, now))
  {
    forall i | 0 <= i < |rows| ensures now[i].merged == was[i].merged || now[i].merged.None? {
      assert RowAfter(was[i], now[i], rows[i].forkPath, ours, FactAt(rows, was, i) in blocked);
    }
    forall i, j | 0 <= i < |now| && 0 <= j < |now| && now[i].merged.Some? && was[j].merged.Some? && now[j].merged.None?
      ensures was[j].merged.value != now[i].merged.value
    {
      assert now[i].merged == was[i].merged && i != j;
    }
  }

  lemma SubsetSize(a: set<Fact>, b: set<Fact>)
    requires a <= b
    ensures |a| <= |b| && (a != b ==> |a| < |b|)
  {
    assert b == a + (b - a);
    if a != b { assert |b - a| > 0; }
  }

  /** What the rows remove now is what the facts outside `blocked` remove. */
  lemma RemovedNow(rows: seq<Row>, was: seq<Outcome>, now: seq<Outcome>, ours: set<Path>, blocked: set<Fact>)
    requires |was| == |now| == |rows| && Standing(rows, was, now, ours, blocked)
    requires forall f :: f in Facts(rows, was) && f.status == PathConflict ==> f in blocked
    ensures RemovedBy(Facts(rows, was), blocked)
         == set i | 0 <= i < |rows| && Removes(rows[i].oursPath, rows[i].forkPath, now[i].status) :: rows[i].oursPath
  {
    var facts := Facts(rows, was);
    forall p | p in RemovedBy(facts, blocked)
      ensures exists i ::
                0 <= i < |rows| && Removes(rows[i].oursPath, rows[i].forkPath, now[i].status) && rows[i].oursPath == p
    {
      var f :| f in facts && f !in blocked && Removes(f.oursPath, f.forkPath, f.status) && f.oursPath == p;
      var i :| 0 <= i < |rows| && f == FactAt(rows, was, i);
      assert RowAfter(was[i], now[i], rows[i].forkPath, ours, FactAt(rows, was, i) in blocked);
    }
    forall i | 0 <= i < |rows| && Removes(rows[i].oursPath, rows[i].forkPath, now[i].status)
      ensures rows[i].oursPath in RemovedBy(facts, blocked)
    {
      assert RowAfter(was[i], now[i], rows[i].forkPath, ours, FactAt(rows, was, i) in blocked);
      assert FactAt(rows, was, i) in facts;
    }
  }

  ghost function Grown(facts: set<Fact>, ours: set<Path>, blocked: set<Fact>): set<Fact> {
    blocked + set f | f in facts && Blocks(facts, ours, blocked, f)
  }

  /** One round moves the standing from blocked to Grown(blocked). */
  lemma RoundStands(rows: seq<Row>, was: seq<Outcome>, now: seq<Outcome>, next: seq<Outcome>, ours: set<Path>,
                    blocked: set<Fact>)
    requires |was| == |now| == |next| == |rows| && Standing(rows, was, now, ours, blocked)
    requires forall f :: f in Facts(rows, was) && f.status == PathConflict ==> f in blocked
    requires Stepped(rows, now, next, ours - RemovedBy(Facts(rows, was), blocked))
    ensures Standing(rows, was, next, ours, Grown(Facts(rows, was), ours, blocked))
    ensures next == now ==> Closed(Facts(rows, was), ours, blocked)
    ensures next != now ==> Grown(Facts(rows, was), ours, blocked) != blocked
  {
    var facts := Facts(rows, was);
    var remaining := ours - RemovedBy(facts, blocked);
    forall i | 0 <= i < |rows|
      ensures RowAfter(was[i], next[i], rows[i].forkPath, ours, FactAt(rows, was, i) in Grown(facts, ours, blocked))
      ensures next[i] == now[i] ==>
                FactAt(rows, was, i) in blocked || !Blocks(facts, ours, blocked, FactAt(rows, was, i))
      ensures next[i] != now[i] ==> FactAt(rows, was, i) in Grown(facts, ours, blocked) - blocked
    {
      var f := FactAt(rows, was, i);
      assert f in facts;
      assert RowAfter(was[i], now[i], rows[i].forkPath, ours, f in blocked);
      assert RowStep(now[i], next[i], rows[i], remaining);
    }
    if next != now {
      var i :| 0 <= i < |rows| && next[i] != now[i];
      assert FactAt(rows, was, i) in Grown(facts, ours, blocked) - blocked;
    } else {
      forall f | f in facts && Blocks(facts, ours, blocked, f) ensures f in blocked {
        var i :| 0 <= i < |rows| && f == FactAt(rows, was, i);
      }
    }
  }

  /** Growing stays below every closed set. */
  lemma GrownBelow(facts: set<Fact>, ours: set<Path>, blocked: set<Fact>, c: set<Fact>)
    requires blocked <= c && c <= facts && Closed(facts, ours, c)
    ensures Grown(facts, ours, blocked) <= c
  {
    RemovedAntitone(facts, blocked, c);
    forall f | f in facts && Blocks(facts, ours, blocked, f) ensures f in c {
      assert Blocks(facts, ours, c, f);
    }
  }

  /** What every round of the classification keeps. */
  ghost predicate Sound(rows: seq<Row>, was: seq<Outcome>, now: seq<Outcome>, ours: set<Path>, blocked: set<Fact>)
    requires |was| == |now| == |rows|
  {
    && blocked <= Facts(rows, was) && Standing(rows, was, now, ours, blocked)
    && (forall f :: f in Facts(rows, was) && f.status == PathConflict ==> f in blocked)
  }

  lemma RoundSound(rows: seq<Row>, was: seq<Outcome>, now: seq<Outcome>, next: seq<Outcome>, ours: set<Path>,
                   blocked: set<Fact>, files: map<string, string>)
    requires |was| == |now| == |next| == |rows| && Sound(rows, was, now, ours, blocked)
    requires Stepped(rows, now, next, ours - RemovedBy(Facts(rows, was), blocked))
    ensures var grown := Grown(Facts(rows, was), ours, blocked);
            && Sound(rows, was, next, ours, grown)
            && |grown| <= |rows| && (next != now ==> |blocked| < |grown|)
            && (next == now ==> grown == blocked && Closed(Facts(rows, was), ours, blocked))
            && files - Dropped(was, now) - Dropped(now, next) == files - Dropped(was, next)
  {
    var facts := Facts(rows, was);
    var grown := Grown(facts, ours, blocked);
    RoundStands(rows, was, now, next, ours, blocked);
    DroppedTwice(rows, was, now, next, ours, blocked, grown, files);
    FactsBounded(rows, was);
    SubsetSize(blocked, grown);
    SubsetSize(grown, facts);
  }

  /** The facts blocked after n rounds. */
  ghost function Stage(facts: set<Fact>, ours: set<Path>, n: nat): set<Fact> {
    if n == 0 then set f | f in facts && f.status == PathConflict else Grown(facts, ours, Stage(facts, ours, n - 1))
  }

  /** No round goes beyond a closed set. */
  lemma {:induction false} StageBelow(facts: set<Fact>, ours: set<Path>, n: nat, c: set<Fact>)
    requires c <= facts && Closed(facts, ours, c)
    ensures Stage(facts, ours, n) <= c
  {
    if n == 0 {
      forall f | f in Stage(facts, ours, 0) ensures f in c { assert Blocks(facts, ours, c, f); }
    } else {
      StageBelow(facts, ours, n - 1, c);
      GrownBelow(facts, ours, Stage(facts, ours, n - 1), c);
    }
  }

  /** Round n blocks f, and listed is exactly what is in its way in that round. */
  ghost predicate NamedAt(facts: set<Fact>, ours: set<Path>, f: Fact, listed: seq<Path>, n: nat) {
    && f !in Stage(facts, ours, n) && f in Stage(facts, ours, n + 1)
    && forall b :: b in listed <==> b in ours - RemovedBy(facts, Stage(facts, ours, n)) && Clash(b, f.forkPath)
  }

  /** Every row blocked in the first n rounds lists exactly the clashes of its round. */
  ghost predicate Named(rows: seq<Row>, was: seq<Outcome>, now: seq<Outcome>, ours: set<Path>, n: nat)
    requires |was| == |now| == |rows|
  {
    forall i :: 0 <= i < |rows| && now[i] != was[i] ==>
      exists m: nat :: m < n && NamedAt(Facts(rows, was), ours, FactAt(rows, was, i), now[i].blockingPaths, m)
  }

  lemma NamedGrows(rows: seq<Row>, was: seq<Outcome>, now: seq<Outcome>, next: seq<Outcome>, ours: set<Path>, n: nat)
    requires |was| == |now| == |next| == |rows| && Named(rows, was, now, ours, n)
    requires Standing(rows, was, now, ours, Stage(Facts(rows, was), ours, n))
    requires Stepped(rows, now, next, ours - RemovedBy(Facts(rows, was), Stage(Facts(rows, was), ours, n)))
    ensures Named(rows, was, next, ours, n + 1)
  {
    var facts := Facts(rows, was);
    var blocked := Stage(facts, ours, n);
    forall i | 0 <= i < |rows| && next[i] != was[i]
      ensures exists m: nat :: m < n + 1 && NamedAt(facts, ours, FactAt(rows, was, i), next[i].blockingPaths, m)
    {
      var f := FactAt(rows, was, i);
      assert RowAfter(was[i], now[i], rows[i].forkPath, ours, f in blocked);
      assert RowStep(now[i], next[i], rows[i], ours - RemovedBy(facts, blocked));
      if next[i] != now[i] {
        assert f in facts && Blocks(facts, ours, blocked, f);
        assert NamedAt(facts, ours, f, next[i].blockingPaths, n);
      }
    }
  }

  /** Where n rounds have brought rows and store; again says whether another one is due. */
  ghost predicate Turn(rows: seq<Row>, was: seq<Outcome>, now: seq<Outcome>, ours: set<Path>, n: nat, again: bool,
                       files: map<string, string>, store: map<string, string>)
    requires |was| == |now| == |rows|
  {
    var blocked := Stage(Facts(rows, was), ours, n);
    && Sound(rows, was, now, ours, blocked) && Named(rows, was, now, ours, n)
    && store == files - Dropped(was, now)
    && n <= |rows| + 1 && |blocked| <= |rows| && (again ==> n <= |blocked|)
    && (!again ==> Closed(Facts(rows, was), ours, blocked))
  }

  lemma TurnStarts(rows: seq<Row>, was: seq<Outcome>, now: seq<Outcome>, ours: set<Path>, n: nat,
                   files: map<string, string>, store: map<string, string>)
    requires |was| == |now| == |rows| && OwnArtifacts(was, files) && Turn(rows, was, now, ours, n, true, files, store)
    ensures OwnArtifacts(now, store)
    ensures RemovedBy(Facts(rows, was), Stage(Facts(rows, was), ours, n))
         == set i | 0 <= i < |rows| && Removes(rows[i].oursPath, rows[i].forkPath, now[i].status) :: rows[i].oursPath
  {
    OwnStays(rows, was, now, ours, Stage(Facts(rows, was), ours, n), files);
    RemovedNow(rows, was, now, ours, Stage(Facts(rows, was), ours, n));
  }

  lemma TurnGoesOn(rows: seq<Row>, was: seq<Outcome>, now: seq<Outcome>, next: seq<Outcome>, ours: set<Path>, n: nat,
                   files: map<string, string>, store: map<string, string>)
    requires |was| == |now| == |next| == |rows| && Turn(rows, was, now, ours, n, true, files, store)
    requires Stepped(rows, now, next, ours - RemovedBy(Facts(rows, was), Stage(Facts(rows, was), ours, n)))
    ensures Turn(rows, was, next, ours, n + 1, next != now, files, store - Dropped(now, next))
    ensures next != now ==> n < |rows|
  {
    NamedGrows(rows, was, now, next, ours, n);
    RoundSound(rows, was, now, next, ours, Stage(Facts(rows, was), ours, n), files);
  }

  lemma TurnsEnd(rows: seq<Row>, was: seq<Outcome>, now: seq<Outcome>, ours: set<Path>, n: nat,
                 files: map<string, string>, store: map<string, string>)
    requires |was| == |now| == |rows| && Turn(rows, was, now, ours, n, false, files, store)
    ensures Least(Facts(rows, was), ours, Stage(Facts(rows, was), ours, n))
    ensures Standing(rows, was, now, ours, Stage(Facts(rows, was), ours, n)) && Named(rows, was, now, ours, n)
    ensures store == files - Dropped(was, now) && n <= |rows| + 1
  {
    var facts := Facts(rows, was);
    forall c: set<Fact> | c <= facts && Closed(facts, ours, c) ensures Stage(facts, ours, n) <= c {
      StageBelow(facts, ours, n, c);
    }
  }

  /** The body of the outer loop: round n + 1. */
  method Reconsider(rows: seq<Row>, ours: set<Path>, artifacts: Artifacts, ghost was: seq<Outcome>,
                    ghost files: map<string, string>, ghost n: nat)
    returns (again: bool)
    requires DistinctRows(rows) && |was| == |rows| && OwnArtifacts(was, files)
    requires Turn(rows, was, Outcomes(rows), ours, n, true, files, artifacts.files)
    modifies rows, artifacts
    ensures Turn(rows, was, Outcomes(rows), ours, n + 1, again, files, artifacts.files)
    ensures again ==> n < |rows|
  {
    ghost var now, store := Outcomes(rows), artifacts.files;
    TurnStarts(rows, was, now, ours, n, files, store);
    var removed := set i | 0 <= i < |rows| && Removes(rows[i].oursPath, rows[i].forkPath, rows[i].status)
                       :: rows[i].oursPath;
    assert forall i :: 0 <= i < |rows| ==> now[i].status == rows[i].status;
    var remaining := ours - removed;
    assert removed == RemovedBy(Facts(rows, was), Stage(Facts(rows, was), ours, n));
    var ordered := SortedSet(remaining);
    again := OneRound(rows, remaining, ordered, artifacts);
    TurnGoesOn(rows, was, now, Outcomes(rows), ours, n, files, store);
  }

  method ClassifyPathConflicts(rows: seq<Row>, ours: set<Path>, artifacts: Artifacts)
    returns (ghost blocked: set<Fact>, ghost rounds: nat)
    requires DistinctRows(rows) && OwnArtifacts(Outcomes(rows), artifacts.files)
    modifies rows, artifacts
    ensures Least(Facts(rows, old(Outcomes(rows))), ours, blocked)
    ensures Standing(rows, old(Outcomes(rows)), Outcomes(rows), ours, blocked)
    ensures Named(rows, old(Outcomes(rows)), Outcomes(rows), ours, rounds)
    ensures artifacts.files == old(artifacts.files) - Dropped(old(Outcomes(rows)), Outcomes(rows))
    ensures rounds <= |rows| + 1
  {
    ghost var was, files := Outcomes(rows), artifacts.files;
    StartSound(rows, was, ours, files);
    rounds := 0;
    var again := true;
    while again
      invariant Turn(rows, was, Outcomes(rows), ours, rounds, again, files, artifacts.files)
      invariant again ==> rounds <= |rows|
      decreases again, |rows| + 1 - rounds
    {
      again := Reconsider(rows, ours, artifacts, was, files, rounds);
      rounds := rounds + 1;
    }
    TurnsEnd(rows, was, Outcomes(rows), ours, rounds, files, artifacts.files);
    blocked := Stage(Facts(rows, was), ours, rounds);
  }

  lemma StartSound(rows: seq<Row>, was: seq<Outcome>, ours: set<Path>, files: map<string, string>)
    requires |was| == |rows|
    ensures Turn(rows, was, was, ours, 0, true, files, files)
  {
    var blocked := set f | f in Facts(rows, was) && f.status == PathConflict;
    FactsBounded(rows, was);
    SubsetSize(blocked, Facts(rows, was));
    forall i | 0 <= i < |rows|
      ensures RowAfter(was[i], was[i], rows[i].forkPath, ours, FactAt(rows, was, i) in blocked)
    {
      assert FactAt(rows, was, i) in Facts(rows, was);
    }
  }
}
