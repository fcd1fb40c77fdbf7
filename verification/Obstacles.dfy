/** Where the write loop of apply fails: what the filters do not look for. */
module Obstacles {
  import opened Wrappers
  import opened Paths
  import opened Preview
  import opened Rows
  import opened Conflicts
  import opened ThreeWay
  import opened PreviewInputs
  import opened BuildPreview
  import opened Checkout
  import opened ApplyPlan
  import opened Text

  /** An empty directory is at the path, or a file that the fork does not have is where it needs a directory.
      Git's status does not report the first, nor the second when asked about the path itself. */
  ghost predicate Impeded(inp: Inputs, base: map<Path, File>, empty: set<Path>, path: Path) {
    path in empty || exists q :: q in base && q !in inp.ours && Inside(path, q)
  }

  /** The n-th chosen row writes to an impeded destination. */
  ghost predicate Stops(inp: Inputs, base: map<Path, File>, empty: set<Path>, done: seq<nat>, n: nat)
    requires InRange(inp, done) && n < |done|
  {
    Writes(inp, done[n]) && Impeded(inp, base, empty, Destination(inp, done[n]))
  }

  /** No chosen row does; the way is clear for all of them. */
  ghost predicate Unimpeded(inp: Inputs, base: map<Path, File>, empty: set<Path>, done: seq<nat>)
    requires InRange(inp, done)
  {
    forall n :: 0 <= n < |done| ==> !Stops(inp, base, empty, done, n)
  }

  /** Row n is the first to stop the run. */
  ghost predicate StopsFirst(inp: Inputs, base: map<Path, File>, empty: set<Path>, done: seq<nat>, n: nat)
    requires InRange(inp, done)
  {
    && n < |done| && Stops(inp, base, empty, done, n)
    && forall k :: 0 <= k < n ==> !Stops(inp, base, empty, done, k)
  }

  lemma UnimpededFits(inp: Inputs, guarded: set<Path>, base: map<Path, File>, empty: set<Path>, done: seq<nat>)
    requires GitInputs(inp) && Applicable(inp, done) && Spared(inp, guarded, done)
    requires Matches(inp, guarded, base) && PrefixFree(base.Keys)
    ensures Unimpeded(inp, base, empty, done) <==> Fits(inp, base, done) && Written(inp, done) !! empty
  {
    FinalPrefixFree(inp, guarded, base, done);
    if Unimpeded(inp, base, empty, done) {
      forall w | w in Written(inp, done) ensures !Impeded(inp, base, empty, w) {
        var k :| 0 <= k < |done| && Writes(inp, done[k]) && Destination(inp, done[k]) == w;
        assert !Stops(inp, base, empty, done, k);
      }
    }
    if Clear(inp, base, Written(inp, done)) && Written(inp, done) !! empty {
      forall n | 0 <= n < |done| ensures !Stops(inp, base, empty, done, n) {
        if Writes(inp, done[n]) { assert Destination(inp, done[n]) in Written(inp, done); }
      }
    }
  }

  // ---- A write fails exactly at an impeded destination ---------------------------------------

  /** What stays of the checkout is there throughout, and nothing else but destinations is. */
  lemma KeptAndWritten(inp: Inputs, base: map<Path, File>, done: seq<nat>, n: nat)
    requires InRange(inp, done) && n <= |done|
    ensures base.Keys - Removals(inp, done) <= FilesAfter(inp, base, done, n).Keys
    ensures FilesAfter(inp, base, done, n).Keys <= (base.Keys - Removals(inp, done)) + Written(inp, done)
  {
    var steps := Steps(inp, done);
    OverlayKeys(steps, n, Cleared(inp, base, done));
    StepsWritten(inp, done);
    assert Destinations(steps, n) <= Destinations(steps, |done|);
  }

  /** Of what stays of the checkout only a file that the fork does not have can be in the way. */
  lemma OnlyUntrackedInTheWay(inp: Inputs, guarded: set<Path>, base: map<Path, File>, gone: set<Path>, w: Path, p: Path)
    requires Matches(inp, guarded, base) && w !in guarded && !Obstructed(w, inp.ours.Keys - gone)
    requires p in base && p !in gone
    ensures !Inside(p, w) && (Inside(w, p) ==> p !in inp.ours)
  {
    assert p in inp.ours ==> !Clash(p, w);
  }

  lemma WrittenApart(inp: Inputs, done: seq<nat>, n: nat, p: Path)
    requires GitInputs(inp) && Applicable(inp, done) && n < |done| && Writes(inp, done[n])
    requires p in Written(inp, done)
    ensures !Clash(p, Destination(inp, done[n]))
  {
    WrittenAreMapped(inp, done);
    assert Destination(inp, done[n]) in Written(inp, done);
  }

  lemma InTheWay(inp: Inputs, guarded: set<Path>, base: map<Path, File>, done: seq<nat>, n: nat, p: Path)
    requires GitInputs(inp) && Applicable(inp, done) && Spared(inp, guarded, done) && Matches(inp, guarded, base)
    requires n < |done| && Writes(inp, done[n]) && p in FilesAfter(inp, base, done, n)
    ensures !Inside(p, Destination(inp, done[n]))
    ensures Inside(Destination(inp, done[n]), p) ==> p in base && p !in inp.ours
  {
    KeptAndWritten(inp, base, done, n);
    if p in Written(inp, done) {
      WrittenApart(inp, done, n, p);
    } else {
      OnlyUntrackedInTheWay(inp, guarded, base, Removals(inp, done), Destination(inp, done[n]), p);
    }
  }

  /** After n writes the n-th destination can be written unless it is impeded. */
  ghost predicate WritableUnlessImpeded(inp: Inputs, base: map<Path, File>, empty: set<Path>, done: seq<nat>, n: nat)
    requires InRange(inp, done) && n < |done|
  {
    var w, now := Destination(inp, done[n]), FilesAfter(inp, base, done, n).Keys;
    GitPath(w) && (Writable(w, now, Dirs(now) + empty) <==> !Impeded(inp, base, empty, w))
  }

  /** After the removals and any number of writes, only what impedes a destination is in its way. */
  lemma OnlyImpedimentsInTheWay(inp: Inputs, guarded: set<Path>, base: map<Path, File>, empty: set<Path>,
                                done: seq<nat>, n: nat)
    requires GitInputs(inp) && Applicable(inp, done) && Spared(inp, guarded, done) && Matches(inp, guarded, base)
    requires n < |done| && Writes(inp, done[n])
    ensures WritableUnlessImpeded(inp, base, empty, done, n)
  {
    var w, now := Destination(inp, done[n]), FilesAfter(inp, base, done, n).Keys;
    ApplyableRow(inp, done[n]);
    forall p | p in now
      ensures w !in Above(p) && (p in Above(w) ==> p in base && p !in inp.ours && Inside(w, p))
    {
      InTheWay(inp, guarded, base, done, n, p);
      AboveIsInside(p, w);
      AboveIsInside(w, p);
    }
    forall q | q in base && q !in inp.ours && Inside(w, q) ensures q in now && q in Above(w) {
      UntrackedStay(inp, done, q);
      KeptAndWritten(inp, base, done, n);
      AboveIsInside(w, q);
    }
  }

  ghost predicate AllWritableUnlessImpeded(inp: Inputs, base: map<Path, File>, empty: set<Path>, done: seq<nat>)
    requires InRange(inp, done)
  {
    forall n :: 0 <= n < |done| && Writes(inp, done[n]) ==> WritableUnlessImpeded(inp, base, empty, done, n)
  }

  lemma NothingElseInTheWay(inp: Inputs, guarded: set<Path>, base: map<Path, File>, empty: set<Path>, done: seq<nat>)
    requires GitInputs(inp) && Applicable(inp, done) && Spared(inp, guarded, done) && Matches(inp, guarded, base)
    ensures AllWritableUnlessImpeded(inp, base, empty, done)
  {
    forall n | 0 <= n < |done| && Writes(inp, done[n]) ensures WritableUnlessImpeded(inp, base, empty, done, n) {
      OnlyImpedimentsInTheWay(inp, guarded, base, empty, done, n);
    }
  }

  // ---- A run that fails ---------------------------------------------------------------------

  /** Upstream adds a/b and the fork has nothing. */
  function NewFile(): Inputs {
    Inputs(map[], map["a/b" := Obj("100644", "blob", "0")], map[], [Delta("a/b", None)], map["0" := []],
           p => p, b => Some(""), p => false, (b, o, t) => (o, 0))
  }

  lemma NewFileVerdict()
    ensures VerdictAt(NewFile(), 0).status == AddClean
    ensures Source(NewFile(), 0) == Destination(NewFile(), 0) == "a/b"
  {
    var inp := NewFile();
    assert inp.deltas[0] == Delta("a/b", None);
    assert inp.ObjectsOf(inp.deltas[0]) == Objects(None, None, Some(Obj("100644", "blob", "0")), None);
  }

  lemma NewFileInputs()
    ensures GitInputs(NewFile())
  {
    assert "a/b" == "a" + "/" + "b";
    SplitAppend("a", "b");
    SplitFree("a", '/');
    SplitFree("b", '/');
  }

  lemma NewFileApplies()
    ensures Applicable(NewFile(), [0]) && Writes(NewFile(), 0)
  {
    NewFileVerdict();
    assert NewFile().ours.Keys == {};
  }

  /** With an untracked file a in the checkout, the filters let the row through and its write fails. */
  lemma FilterMissesUntracked(f: File)
    ensures var inp, base := NewFile(), map["a" := f];
            && GitInputs(inp) && Matches(inp, {"a"}, base) && PrefixFree(base.Keys)
            && Applicable(inp, [0]) && Spared(inp, {"a"}, [0])
            && Stops(inp, base, {}, [0], 0) && !Fits(inp, base, [0])
  {
    var inp, base := NewFile(), map["a" := f];
    NewFileInputs();
    NewFileVerdict();
    NewFileApplies();
    UntrackedA(f);
    assert Stops(inp, base, {}, [0], 0);
    UnimpededFits(inp, {"a"}, base, {}, [0]);
  }

  lemma UntrackedA(f: File)
    ensures var inp, base := NewFile(), map["a" := f];
            && Matches(inp, {"a"}, base) && PrefixFree(base.Keys) && Impeded(inp, base, {}, "a/b")
  {
    assert Inside("a/b", "a") by { assert "a" + "/" == "a/b"[..2]; }
    assert "a" in map["a" := f] && "a" !in NewFile().ours;
    forall p ensures !Inside("a", p) { assert (p + "/")[|p|] == '/' && '/' !in "a"; }
  }
}
