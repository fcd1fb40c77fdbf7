/** The whole run: preview with the product's own path mapping, then apply to the checkout. */
module Port {
  import opened Wrappers
  import opened Text
  import opened Paths
  import opened Preview
  import opened Rows
  import opened Conflicts
  import opened Branding
  import opened PreviewInputs
  import opened Dispositions
  import opened BuildPreview
  import opened Checkout
  import opened ApplyPlan
  import opened Obstacles
  import opened Apply
  import opened Plan
  import opened SkipLines
  import opened Completeness

  // ---- fork_path on trees --------------------------------------------------------------------

  lemma {:induction false} PiecesStayNonempty(pieces: seq<string>)
    requires "" !in pieces
    ensures "" !in RebrandPieces(pieces)
    decreases |pieces|
  {
    if pieces != [] {
      RebrandLength(pieces[0]);
      PiecesStayNonempty(pieces[1..]);
    }
  }

  lemma RebrandKeepsGitPath(p: Path)
    requires GitPath(p)
    ensures GitPath(Rebrand(p))
  {
    RebrandComponents(p);
    PiecesStayNonempty(Split(p, '/'));
  }

  /** Rebranding keeps every parent directory: the n-th directory of the new path is the new name of
      the n-th directory of the old one. */
  lemma RebrandParent(p: Path, n: nat)
    requires 1 <= n <= |Split(p, '/')|
    ensures n <= |Split(Rebrand(p), '/')| && Parent(Rebrand(p), n) == Rebrand(Parent(p, n))
  {
    var pieces := Split(p, '/');
    RebrandComponents(p);
    PiecesFree(p, '/');
    RebrandTake(pieces, n);
    RebrandJoin(pieces[..n]);
  }

  lemma {:induction false} RebrandTake(pieces: seq<string>, n: nat)
    requires n <= |pieces|
    ensures RebrandPieces(pieces)[..n] == RebrandPieces(pieces[..n])
    decreases |pieces|
  {
    if n > 0 {
      RebrandTake(pieces[1..], n - 1);
      assert pieces[..n][1..] == pieces[1..][..n - 1];
    }
  }

  lemma RebrandInside(p: Path, a: Path)
    requires Inside(p, a)
    ensures Inside(Rebrand(p), Rebrand(a))
  {
    var rest := p[|a| + 1..];
    assert p == a + "/" + rest;
    RebrandSeparator(a, rest);
  }

  // ---- preview, then apply ---------------------------------------------------------------------

  /** What Git and the caller provide; the mapping checks are left to the preview. */
  ghost predicate Sound(inp: Inputs) {
    && inp.Readable() && PrefixFree(inp.ours.Keys)
    && (forall p :: inp.forkPath(p) == Rebrand(p))
    && (forall p :: p in inp.ours || p in inp.targets ==> GitPath(p))
    && (forall i, j :: 0 <= i < j < |inp.deltas| ==> inp.deltas[i].path != inp.deltas[j].path)
  }

  lemma SoundIsGit(inp: Inputs)
    requires Sound(inp) && Mappable(inp.targets.Keys, inp.forkPath)
    ensures GitInputs(inp)
  {
    forall p | p in inp.targets ensures GitPath(inp.forkPath(p)) { RebrandKeepsGitPath(p); }
  }

  /** Both upstream trees map to trees of the fork. */
  ghost predicate Mapped(inp: Inputs) {
    Mappable(inp.bases.Keys, inp.forkPath) && Mappable(inp.targets.Keys, inp.forkPath)
  }

  datatype RunError = NotMappable(mapping: MappingError) | NotWritten(write: FileError)

  /** The file is there as before, or it was a committed fork file, which Git still has. */
  ghost predicate Recoverable(inp: Inputs, before: map<Path, File>, after: map<Path, File>, p: Path)
    requires p in before
  {
    (p in after && after[p] == before[p]) || (p in inp.ours && before[p] == ForkFiles(inp)[p])
  }

  lemma KeptLocalsRecover(inp: Inputs, guarded: set<Path>, before: map<Path, File>, after: map<Path, File>, p: Path)
    requires Matches(inp, guarded, before) && LocalsKept(guarded, before, after) && p in before
    ensures Recoverable(inp, before, after, p)
  {}

  lemma EveryFile(inp: Inputs, guarded: set<Path>, before: map<Path, File>, after: map<Path, File>, done: seq<nat>)
    requires GitInputs(inp) && Applicable(inp, done) && Spared(inp, guarded, done) && Matches(inp, guarded, before)
    requires LocalsKept(guarded, before, after)
    ensures forall p :: p in before ==> Recoverable(inp, before, after, p)
    ensures forall p :: p in before ==> Preserved(inp, before, FinalFiles(inp, before, done), done, p)
  {
    forall p | p in before
      ensures Recoverable(inp, before, after, p) && Preserved(inp, before, FinalFiles(inp, before, done), done, p)
    {
      KeptLocalsRecover(inp, guarded, before, after, p);
      NothingLost(inp, guarded, before, done, p);
    }
  }

  /** A refused mapping or a dry run leaves the checkout alone. Otherwise the planned rows are applied up to
      the first impeded one, and the run succeeds exactly when there is none: then the checkout holds exactly
      the planned files, every file of it untouched or a committed fork file that is accounted for. In every
      case protected paths keep what they hold and only committed files change. */
  method PortRange(inp: Inputs, local: Local, dryRun: bool, tree: WorkingTree)
    returns (r: Result<(seq<Action>, seq<Skip>), RunError>, ghost blocked: set<nat>, ghost late: set<nat>,
             ghost done: seq<nat>)
    requires Sound(inp) && tree.Valid() && Matches(inp, Guarded(local), tree.files)
    modifies tree
    ensures r.Failure? && r.error.NotMappable? <==> !Mapped(inp)
    ensures dryRun || !Mapped(inp) ==> tree.files == old(tree.files) && tree.dirs == old(tree.dirs)
    ensures Mapped(inp) ==> PlannedRows(inp, local, blocked, late, done) && Applicable(inp, done)
    ensures Mapped(inp) ==> (r.Success? <==> dryRun || Unimpeded(inp, old(tree.files), old(tree.Empty()), done))
    ensures r.Success? ==> |r.value.0| == |done| && |r.value.0| + |r.value.1| == |inp.deltas|
    ensures r.Success? ==> Reported(inp, done, r.value.0) && Explained(inp, local, blocked, done, r.value.1)
    ensures tree.Valid() && LocalsKept(Guarded(local), old(tree.files), tree.files)
    ensures forall p :: p in old(tree.files) ==> Recoverable(inp, old(tree.files), tree.files, p)
    ensures r.Success? && !dryRun ==> tree.files == FinalFiles(inp, old(tree.files), done)
    ensures r.Success? && !dryRun ==>
              forall p :: p in old(tree.files) ==> Preserved(inp, old(tree.files), tree.files, done, p)
    ensures r.Success? && !dryRun ==> AllArrived(inp, local, blocked, late, tree.files)
    ensures r.Failure? && Mapped(inp) ==>
              && r.error.NotWritten?
              && Failed(inp, old(tree.files), old(tree.Empty()), done, r.error.write, tree.files)
  {
    blocked, late, done := {}, {}, [];
    ghost var base, first, again, rounds, picks := tree.files, {}, {}, 0, [];
    var preview;
    preview, first, rounds := BuildPreview.BuildPreview(inp);
    if preview.Failure? { return Failure(NotMappable(preview.error)), blocked, late, done; }
    SoundIsGit(inp);
    var (rows, artifacts) := preview.value;
    ghost var standing := Outcomes(rows);
    var report;
    report, picks, again, done := ApplyPreview(inp, rows, artifacts, first, local, dryRun, tree);
    SelectionIsPlanned(inp, rows, standing, first, local, picks, again, done);
    blocked, late := Numbered(inp, All(inp), first), Numbered(inp, Acceptable(inp, local, first), again);
    PlannedIsPlain(inp, local, first, again, done);
    if report.Success? {
      SkipsAreExplained(inp, rows, standing, first, local, picks, again, done, report.value.1);
    }
    PlannedArrive(inp, local, blocked, late, base, done);
    EveryFile(inp, Guarded(local), base, tree.files, done);
    r := if report.Success? then Success(report.value) else Failure(NotWritten(report.error));
  }
}
