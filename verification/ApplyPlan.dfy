/** The set-level meaning of applying chosen rows, and why it yields a valid tree that loses nothing. */
module ApplyPlan {
  import opened Wrappers
  import opened Paths
  import opened Preview
  import opened Rows
  import opened Conflicts
  import opened ThreeWay
  import opened PreviewInputs
  import opened BuildPreview
  import opened Checkout

  /** What Git promises of the trees and of the list of changes. */
  ghost predicate GitInputs(inp: Inputs) {
    && inp.Readable()
    && PrefixFree(inp.ours.Keys)
    && Mappable(inp.targets.Keys, inp.forkPath)
    && (forall p :: p in inp.ours ==> GitPath(p))
    && (forall p :: p in inp.targets ==> GitPath(inp.forkPath(p)))
    && (forall i, j :: 0 <= i < j < |inp.deltas| ==> inp.deltas[i].path != inp.deltas[j].path)
  }

  function Destination(inp: Inputs, i: nat): Path
    requires i < |inp.deltas|
  {
    inp.forkPath(inp.deltas[i].path)
  }

  function VerdictAt(inp: Inputs, i: nat): Verdict
    requires i < |inp.deltas|
  {
    inp.VerdictOf(inp.deltas[i])
  }

  function Source(inp: Inputs, i: nat): Path
    requires i < |inp.deltas|
  {
    inp.OursPath(inp.deltas[i])
  }

  /** The row takes its fork file away: a clean deletion, or the old name of a rename. */
  predicate Takes(inp: Inputs, i: nat)
    requires i < |inp.deltas|
  {
    VerdictAt(inp, i).status == DeleteClean || (Source(inp, i) in inp.ours && Source(inp, i) != Destination(inp, i))
  }

  predicate Writes(inp: Inputs, i: nat)
    requires i < |inp.deltas|
  {
    VerdictAt(inp, i).status != DeleteClean
  }

  predicate InRange(inp: Inputs, done: seq<nat>) {
    forall k :: 0 <= k < |done| ==> done[k] < |inp.deltas|
  }

  ghost function Removals(inp: Inputs, done: seq<nat>): set<Path>
    requires InRange(inp, done)
  {
    set k | 0 <= k < |done| && Takes(inp, done[k]) :: Source(inp, done[k])
  }

  ghost function Written(inp: Inputs, done: seq<nat>): set<Path>
    requires InRange(inp, done)
  {
    set k | 0 <= k < |done| && Writes(inp, done[k]) :: Destination(inp, done[k])
  }

  /** The rows chosen to be applied: applyable, in order, and unobstructed by what stays. */
  ghost predicate Applicable(inp: Inputs, done: seq<nat>) {
    && InRange(inp, done)
    && (forall j, k :: 0 <= j < k < |done| ==> done[j] < done[k])
    && (forall k :: 0 <= k < |done| ==> VerdictAt(inp, done[k]).status in APPLYABLE)
    && (forall k :: 0 <= k < |done| && Writes(inp, done[k]) ==>
         !Obstructed(Destination(inp, done[k]), inp.ours.Keys - Removals(inp, done)))
  }

  ghost function ForkFiles(inp: Inputs): map<Path, File> {
    map p | p in inp.ours :: File(Committed(inp.ours[p].oid), inp.ours[p].mode)
  }

  function MergedFile(inp: Inputs, i: nat): File
    requires i < |inp.deltas|
  {
    var v := VerdictAt(inp, i);
    File(Content.Merged(if v.merged.Some? then v.merged.value else ""),
         if v.mergedMode.Some? then v.mergedMode.value else "100644")
  }

  /** What one chosen row does to the tree once removals are done. */
  datatype Step = Step(writes: bool, destination: Path, file: File)

  function StepOf(inp: Inputs, i: nat): Step
    requires i < |inp.deltas|
  {
    Step(Writes(inp, i), Destination(inp, i), MergedFile(inp, i))
  }

  ghost function Steps(inp: Inputs, done: seq<nat>): seq<Step>
    requires InRange(inp, done)
  {
    seq(|done|, k requires 0 <= k < |done| => StepOf(inp, done[k]))
  }

  /** base with the first n steps' files written over it. */
  ghost function Overlay(steps: seq<Step>, n: nat, base: map<Path, File>): map<Path, File>
    requires n <= |steps|
  {
    if n == 0 then base
    else if steps[n - 1].writes then Overlay(steps, n - 1, base)[steps[n - 1].destination := steps[n - 1].file]
    else Overlay(steps, n - 1, base)
  }

  ghost function Cleared(inp: Inputs, base: map<Path, File>, done: seq<nat>): map<Path, File>
    requires InRange(inp, done)
  {
    base - Removals(inp, done)
  }

  /** The checkout's files, base at first, after all removals and the first n chosen rows. */
  ghost function FilesAfter(inp: Inputs, base: map<Path, File>, done: seq<nat>, n: nat): map<Path, File>
    requires InRange(inp, done) && n <= |done|
  {
    Overlay(Steps(inp, done), n, Cleared(inp, base, done))
  }

  ghost function FinalFiles(inp: Inputs, base: map<Path, File>, done: seq<nat>): map<Path, File>
    requires InRange(inp, done)
  {
    FilesAfter(inp, base, done, |done|)
  }

  // ---- The checkout before the run ---------------------------------------------------------

  /** The checkout holds the fork's files except at guarded paths, the ones `git status` reports or the file
      system makes unsafe. An untracked file is also reported for each directory it is in. */
  ghost predicate Matches(inp: Inputs, guarded: set<Path>, base: map<Path, File>) {
    && (forall p :: p !in guarded ==> (p in base <==> p in inp.ours))
    && (forall p :: p in inp.ours && p !in guarded ==> base[p] == ForkFiles(inp)[p])
    && (forall q, p :: q in base && q !in inp.ours && Inside(q, p) ==> p in guarded)
  }

  /** No untracked file sits where one of the paths needs a directory. */
  ghost predicate Clear(inp: Inputs, base: map<Path, File>, paths: set<Path>) {
    forall q, w :: q in base && q !in inp.ours && w in paths ==> !Inside(w, q)
  }

  /** The chosen rows name no guarded path. */
  ghost predicate Spared(inp: Inputs, guarded: set<Path>, done: seq<nat>) {
    InRange(inp, done) &&
    forall k :: 0 <= k < |done| ==> Source(inp, done[k]) !in guarded && Destination(inp, done[k]) !in guarded
  }

  /** Writing the destinations beside what stays of the checkout leaves a valid tree. */
  ghost predicate Fits(inp: Inputs, base: map<Path, File>, done: seq<nat>)
    requires InRange(inp, done)
  {
    PrefixFree((base.Keys - Removals(inp, done)) + Written(inp, done))
  }

  // ---- What an applyable verdict says about the row --------------------------------------

  ghost function Base(inp: Inputs, d: Delta): Option<Version> {
    inp.VersionOf(inp.ObjectsOf(d).base, true, inp.Exempt(d))
  }

  ghost function Ours(inp: Inputs, d: Delta): Option<Version> {
    inp.VersionOf(inp.ObjectsOf(d).ours, false, inp.Exempt(d))
  }

  ghost function Theirs(inp: Inputs, d: Delta): Option<Version> {
    inp.VersionOf(inp.ObjectsOf(d).theirs, true, inp.Exempt(d))
  }

  lemma ApplyableIsText(inp: Inputs, i: nat)
    requires inp.Readable() && i < |inp.deltas| && VerdictAt(inp, i).status in APPLYABLE
    ensures var d := inp.deltas[i];
            && VerdictAt(inp, i) == Decide(Base(inp, d), Ours(inp, d), Theirs(inp, d), inp.merge)
            && !inp.Collides(d)
            && (Ours(inp, d).Some? <==> Source(inp, i) in inp.ours)
            && (Theirs(inp, d).Some? <==> d.path in inp.targets)
            && (Ours(inp, d).Some? ==> Ours(inp, d).value.mode in REGULAR_MODES)
            && (Theirs(inp, d).Some? ==> Theirs(inp, d).value.mode in REGULAR_MODES)
  {}

  /** Writing rows come from a target path, hold a candidate, and a removal's source is a fork file. */
  lemma ApplyableRow(inp: Inputs, i: nat)
    requires inp.Readable() && i < |inp.deltas| && VerdictAt(inp, i).status in APPLYABLE
    ensures Writes(inp, i) ==> inp.deltas[i].path in inp.targets && VerdictAt(inp, i).merged.Some?
    ensures Writes(inp, i) ==> VerdictAt(inp, i).mergedMode.Some? && VerdictAt(inp, i).mergedMode.value in REGULAR_MODES
    ensures !Writes(inp, i) ==> inp.deltas[i].path !in inp.targets
    ensures Takes(inp, i) ==> Source(inp, i) in inp.ours
    ensures VerdictAt(inp, i).status == AddClean ==> Source(inp, i) !in inp.ours
    ensures Writes(inp, i) && Destination(inp, i) in inp.ours ==> Source(inp, i) == Destination(inp, i)
  {
    ApplyableIsText(inp, i);
    var d := inp.deltas[i];
    ApplyableCarriesMerge(Base(inp, d), Ours(inp, d), Theirs(inp, d), inp.merge);
  }

  // ---- A valid tree ----------------------------------------------------------------------

  ghost function Destinations(steps: seq<Step>, n: nat): set<Path>
    requires n <= |steps|
  {
    set k | 0 <= k < n && steps[k].writes :: steps[k].destination
  }

  lemma {:induction false} OverlayKeys(steps: seq<Step>, n: nat, base: map<Path, File>)
    requires n <= |steps|
    ensures Overlay(steps, n, base).Keys == base.Keys + Destinations(steps, n)
  {
    if n > 0 {
      OverlayKeys(steps, n - 1, base);
      assert Destinations(steps, n)
          == Destinations(steps, n - 1) + (if steps[n - 1].writes then {steps[n - 1].destination} else {});
    }
  }

  lemma StepsWritten(inp: Inputs, done: seq<nat>)
    requires InRange(inp, done)
    ensures Destinations(Steps(inp, done), |done|) == Written(inp, done)
  {
    var steps := Steps(inp, done);
    assert forall k :: 0 <= k < |done| ==>
      steps[k].writes == Writes(inp, done[k]) && steps[k].destination == Destination(inp, done[k]);
  }

  /** What stays and what is written never need the same path as file and as directory, unless an untracked
      file is in the way, which the filter does not look for. */
  lemma FinalPrefixFree(inp: Inputs, guarded: set<Path>, base: map<Path, File>, done: seq<nat>)
    requires GitInputs(inp) && Applicable(inp, done) && Spared(inp, guarded, done)
    requires Matches(inp, guarded, base) && PrefixFree(base.Keys)
    ensures Fits(inp, base, done) <==> Clear(inp, base, Written(inp, done))
  {
    if Clear(inp, base, Written(inp, done)) {
      forall w | w in Written(inp, done)
        ensures forall p :: p in base.Keys - Removals(inp, done) ==> !Clash(p, w)
        ensures w in Image(inp.targets.Keys, inp.forkPath)
      {
        WrittenFits(inp, guarded, base, done, w);
      }
    } else {
      var q, w :| q in base && q !in inp.ours && w in Written(inp, done) && Inside(w, q);
      UntrackedStay(inp, done, q);
    }
  }

  lemma UntrackedStay(inp: Inputs, done: seq<nat>, q: Path)
    requires GitInputs(inp) && Applicable(inp, done) && q !in inp.ours
    ensures q !in Removals(inp, done)
  {
    forall k | 0 <= k < |done| && Takes(inp, done[k]) ensures Source(inp, done[k]) != q { ApplyableRow(inp, done[k]); }
  }

  lemma WrittenFits(inp: Inputs, guarded: set<Path>, base: map<Path, File>, done: seq<nat>, w: Path)
    requires GitInputs(inp) && Applicable(inp, done) && Spared(inp, guarded, done) && Matches(inp, guarded, base)
    requires Clear(inp, base, Written(inp, done)) && w in Written(inp, done)
    ensures forall p :: p in base.Keys - Removals(inp, done) ==> !Clash(p, w)
    ensures w in Image(inp.targets.Keys, inp.forkPath)
  {
    var k :| 0 <= k < |done| && Writes(inp, done[k]) && Destination(inp, done[k]) == w;
    ApplyableRow(inp, done[k]);
    forall p | p in base.Keys - Removals(inp, done) ensures !Clash(p, w) {
      if p in inp.ours { assert !Obstructed(w, inp.ours.Keys - Removals(inp, done)); }
    }
  }

  /** Destinations are mapped upstream paths. */
  lemma WrittenAreMapped(inp: Inputs, done: seq<nat>)
    requires GitInputs(inp) && Applicable(inp, done)
    ensures Written(inp, done) <= Image(inp.targets.Keys, inp.forkPath)
  {
    forall k | 0 <= k < |done| && Writes(inp, done[k])
      ensures Destination(inp, done[k]) in Image(inp.targets.Keys, inp.forkPath)
    {
      ApplyableRow(inp, done[k]);
    }
  }

  /** Removed paths are there to be removed, and local edits are neither removed nor written, at any point. */
  lemma GuardedStay(inp: Inputs, guarded: set<Path>, base: map<Path, File>, done: seq<nat>, n: nat)
    requires GitInputs(inp) && Applicable(inp, done) && Spared(inp, guarded, done) && Matches(inp, guarded, base)
    requires n <= |done|
    ensures Removals(inp, done) <= base.Keys && Removals(inp, done) !! guarded && Written(inp, done) !! guarded
    ensures LocalsKept(guarded, base, FilesAfter(inp, base, done, n))
  {
    forall k | 0 <= k < |done| && Takes(inp, done[k]) ensures Source(inp, done[k]) in base {
      ApplyableRow(inp, done[k]);
    }
    forall p | p in guarded
      ensures p in base <==> p in FilesAfter(inp, base, done, n)
      ensures p in base ==> FilesAfter(inp, base, done, n)[p] == base[p]
    {
      Elsewhere(inp, base, done, n, p);
    }
  }

  /** Every guarded path holds what it held, or nothing if it held nothing. */
  ghost predicate LocalsKept(guarded: set<Path>, before: map<Path, File>, after: map<Path, File>) {
    && (forall p :: p in guarded ==> (p in before <==> p in after))
    && (forall p :: p in guarded && p in before ==> after[p] == before[p])
  }

  lemma PrefixFreeSubset(a: set<Path>, b: set<Path>)
    requires a <= b && PrefixFree(b)
    ensures PrefixFree(a)
  {}

  /** The files after n writes, and the next destination with them, form a valid tree. */
  lemma OverlayValid(inp: Inputs, base: map<Path, File>, done: seq<nat>, n: nat)
    requires GitInputs(inp) && Applicable(inp, done) && Fits(inp, base, done) && n <= |done|
    ensures PrefixFree(FilesAfter(inp, base, done, n).Keys)
    ensures n < |done| && Writes(inp, done[n]) ==>
              && PrefixFree(FilesAfter(inp, base, done, n).Keys + {Destination(inp, done[n])})
              && GitPath(Destination(inp, done[n]))
  {
    var steps := Steps(inp, done);
    var whole := (base.Keys - Removals(inp, done)) + Written(inp, done);
    var now := Overlay(steps, n, Cleared(inp, base, done)).Keys;
    OverlayKeys(steps, n, Cleared(inp, base, done));
    StepsWritten(inp, done);
    assert now <= whole;
    PrefixFreeSubset(now, whole);
    if n < |done| && Writes(inp, done[n]) {
      ApplyableRow(inp, done[n]);
      assert Destination(inp, done[n]) in Written(inp, done);
      PrefixFreeSubset(now + {Destination(inp, done[n])}, whole);
    }
  }

  lemma ResultIsTree(inp: Inputs, base: map<Path, File>, done: seq<nat>)
    requires GitInputs(inp) && Applicable(inp, done) && Fits(inp, base, done)
    ensures FinalFiles(inp, base, done).Keys == (base.Keys - Removals(inp, done)) + Written(inp, done)
    ensures PrefixFree(FinalFiles(inp, base, done).Keys)
  {
    OverlayKeys(Steps(inp, done), |done|, Cleared(inp, base, done));
    StepsWritten(inp, done);
    OverlayValid(inp, base, done, |done|);
  }

  // ---- Nothing is lost --------------------------------------------------------------------

  /** Each writing row has a destination of its own. */
  lemma DestinationsApart(inp: Inputs, done: seq<nat>, j: nat, k: nat)
    requires GitInputs(inp) && Applicable(inp, done) && j < k < |done|
    requires Writes(inp, done[j]) && Writes(inp, done[k])
    ensures Destination(inp, done[j]) != Destination(inp, done[k])
  {
    ApplyableRow(inp, done[j]);
    ApplyableRow(inp, done[k]);
    assert done[j] < done[k];
    assert inp.deltas[done[j]].path != inp.deltas[done[k]].path;
  }

  /** Writing steps have destinations of their own. */
  ghost predicate Apart(steps: seq<Step>) {
    forall j, k :: 0 <= j < k < |steps| && steps[j].writes && steps[k].writes ==>
      steps[j].destination != steps[k].destination
  }

  lemma StepsApart(inp: Inputs, done: seq<nat>)
    requires GitInputs(inp) && Applicable(inp, done)
    ensures Apart(Steps(inp, done))
  {
    var steps := Steps(inp, done);
    forall j, k | 0 <= j < k < |steps| && steps[j].writes && steps[k].writes
      ensures steps[j].destination != steps[k].destination
    {
      DestinationsApart(inp, done, j, k);
    }
  }

  lemma {:induction false} OverlayAt(steps: seq<Step>, n: nat, k: nat, base: map<Path, File>)
    requires Apart(steps) && k < n <= |steps| && steps[k].writes
    ensures steps[k].destination in Overlay(steps, n, base)
    ensures Overlay(steps, n, base)[steps[k].destination] == steps[k].file
  {
    if k < n - 1 { OverlayAt(steps, n - 1, k, base); }
  }

  lemma {:induction false} OverlayElsewhere(steps: seq<Step>, n: nat, p: Path, base: map<Path, File>)
    requires n <= |steps|
    requires forall k :: 0 <= k < n && steps[k].writes ==> steps[k].destination != p
    ensures p in Overlay(steps, n, base) <==> p in base
    ensures p in base ==> Overlay(steps, n, base)[p] == base[p]
  {
    if n > 0 { OverlayElsewhere(steps, n - 1, p, base); }
  }

  /** The final file at a written destination, and at a path nobody writes. */
  lemma FinalAt(inp: Inputs, base: map<Path, File>, done: seq<nat>, k: nat)
    requires GitInputs(inp) && Applicable(inp, done) && k < |done| && Writes(inp, done[k])
    ensures Destination(inp, done[k]) in FinalFiles(inp, base, done)
    ensures FinalFiles(inp, base, done)[Destination(inp, done[k])] == MergedFile(inp, done[k])
  {
    StepsApart(inp, done);
    OverlayAt(Steps(inp, done), |done|, k, Cleared(inp, base, done));
  }

  lemma Elsewhere(inp: Inputs, base: map<Path, File>, done: seq<nat>, n: nat, p: Path)
    requires InRange(inp, done) && n <= |done| && p !in Removals(inp, done) && p !in Written(inp, done)
    ensures p in FilesAfter(inp, base, done, n) <==> p in base
    ensures p in base ==> FilesAfter(inp, base, done, n)[p] == base[p]
  {
    var steps := Steps(inp, done);
    forall k | 0 <= k < |steps| && steps[k].writes ensures steps[k].destination != p {
      assert Writes(inp, done[k]) && steps[k].destination == Destination(inp, done[k]);
    }
    OverlayElsewhere(steps, n, p, Cleared(inp, base, done));
  }

  /** What became of fork path p: upstream deleted it and the fork had not edited it, or the
      conflict-free merge of its text with upstream's is the file now at the row's destination. */
  ghost predicate AccountedBy(inp: Inputs, result: map<Path, File>, p: Path, i: nat) {
    && i < |inp.deltas| && Source(inp, i) == p
    && var d := inp.deltas[i];
       var b, o, t := Base(inp, d), Ours(inp, d), Theirs(inp, d);
       && o.Some?
       && (if t.None? then o == b && VerdictAt(inp, i).status == DeleteClean
           else
             && Destination(inp, i) in result && result[Destination(inp, i)].content.Merged?
             && inp.merge(if b.Some? then b.value.text else "", o.value.text, t.value.text)
                == (result[Destination(inp, i)].content.text, 0)
             && VerdictAt(inp, i).mergedMode == Some(result[Destination(inp, i)].mode))
  }

  /** The file is untouched, or it was the committed fork file and an applied row accounts for it. */
  ghost predicate Preserved(inp: Inputs, base: map<Path, File>, result: map<Path, File>, done: seq<nat>, p: Path)
    requires p in base
  {
    || (p in result && result[p] == base[p])
    || (p in inp.ours && base[p] == ForkFiles(inp)[p]
        && exists k :: 0 <= k < |done| && AccountedBy(inp, result, p, done[k]))
  }

  lemma NothingLost(inp: Inputs, guarded: set<Path>, base: map<Path, File>, done: seq<nat>, p: Path)
    requires GitInputs(inp) && Applicable(inp, done) && Spared(inp, guarded, done) && Matches(inp, guarded, base)
    requires p in base
    ensures Preserved(inp, base, FinalFiles(inp, base, done), done, p)
  {
    if p in guarded {
      GuardedStay(inp, guarded, base, done, |done|);
    } else {
      UnguardedKept(inp, base, done, p);
    }
  }

  lemma UnguardedKept(inp: Inputs, base: map<Path, File>, done: seq<nat>, p: Path)
    requires GitInputs(inp) && Applicable(inp, done) && p in base && p in inp.ours && base[p] == ForkFiles(inp)[p]
    ensures Preserved(inp, base, FinalFiles(inp, base, done), done, p)
  {
    if k :| 0 <= k < |done| && Source(inp, done[k]) == p {
      RowAccounts(inp, base, done, k);
    } else {
      UnsourcedStays(inp, base, done, p);
    }
  }

  lemma UnsourcedStays(inp: Inputs, base: map<Path, File>, done: seq<nat>, p: Path)
    requires GitInputs(inp) && Applicable(inp, done) && p in base && p in inp.ours
    requires forall k :: 0 <= k < |done| ==> Source(inp, done[k]) != p
    ensures p in FinalFiles(inp, base, done) && FinalFiles(inp, base, done)[p] == base[p]
  {
    forall k | 0 <= k < |done| && Writes(inp, done[k]) ensures Destination(inp, done[k]) != p {
      ApplyableRow(inp, done[k]);
    }
    Elsewhere(inp, base, done, |done|, p);
  }

  lemma RowAccounts(inp: Inputs, base: map<Path, File>, done: seq<nat>, k: nat)
    requires GitInputs(inp) && Applicable(inp, done) && k < |done| && Source(inp, done[k]) in inp.ours
    ensures AccountedBy(inp, FinalFiles(inp, base, done), Source(inp, done[k]), done[k])
  {
    var i := done[k];
    var d := inp.deltas[i];
    ApplyableIsText(inp, i);
    ApplyableRow(inp, i);
    ApplyableCarriesMerge(Base(inp, d), Ours(inp, d), Theirs(inp, d), inp.merge);
    DeletesOnlyUnedited(Base(inp, d), Ours(inp, d), Theirs(inp, d), inp.merge);
    if Writes(inp, i) { FinalAt(inp, base, done, k); }
  }

  /** A path that no applied row names keeps its file, or its absence. */
  lemma UnnamedUnchanged(inp: Inputs, base: map<Path, File>, done: seq<nat>, p: Path)
    requires InRange(inp, done)
    requires forall k :: 0 <= k < |done| ==> Source(inp, done[k]) != p && Destination(inp, done[k]) != p
    ensures p in FinalFiles(inp, base, done) <==> p in base
    ensures p in base ==> FinalFiles(inp, base, done)[p] == base[p]
  {
    Elsewhere(inp, base, done, |done|, p);
  }

  /** With the merge laws: a file changed on one side only ends up as that side has it. */
  lemma OneSidedChange(inp: Inputs, base: map<Path, File>, done: seq<nat>, k: nat)
    requires GitInputs(inp) && Applicable(inp, done) && k < |done| && MergeLaws(inp.merge) && Writes(inp, done[k])
    ensures var d := inp.deltas[done[k]];
            var b, o, t := Base(inp, d), Ours(inp, d), Theirs(inp, d);
            var result := FinalFiles(inp, base, done);
            && Destination(inp, done[k]) in result && t.Some?
            && (o == b || o.None? || o == t ==>
                  result[Destination(inp, done[k])] == File(Content.Merged(t.value.text), t.value.mode))
            && (o.Some? && t == b ==>
                  result[Destination(inp, done[k])] == File(Content.Merged(o.value.text), o.value.mode))
  {
    var i := done[k];
    var d := inp.deltas[i];
    var b, o, t := Base(inp, d), Ours(inp, d), Theirs(inp, d);
    ApplyableIsText(inp, i);
    ApplyableRow(inp, i);
    FinalAt(inp, base, done, k);
    if o == b && b.Some? { UpstreamOnly(b.value, t.value, inp.merge); }
    if o == t { BothSides(b, t.value, inp.merge); }
    if t == b && o.Some? { ForkOnly(b.value, o.value, inp.merge); }
  }
}
