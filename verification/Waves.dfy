/** `build_waves`: windows cut from the checkpoint order, and the theorem that they tile the range. */
module Waves {
  import opened History
  import opened WaveOrder
  import opened WaveCuts
  import opened Wrappers
  import Ledger

  datatype Wave = Wave(index: nat, from: Sha, to: Sha, shas: seq<Sha>, unreviewed: nat)

  /** A commit without a decision, or whose recorded decision is still open. */
  predicate NeedsReview(recorded: map<Sha, string>, sha: Sha) {
    sha !in recorded || recorded[sha] in Ledger.OPEN_STATUSES
  }

  /** What git promises of `git log --reverse --topo-order base..target` on an acyclic history. */
  ghost predicate IsRange(h: Graph, rank: Sha -> nat, base: Sha, target: Sha, commits: seq<Commit>) {
    && Ranked(h, rank)
    && Ancestor(h, base, target)
    && (forall c, p :: c in h && p in h[c] ==> p in h)
    && ParentsFirst(commits)
    && Shas(commits) == RangeOf(h, base, target)
    && (forall i :: 0 <= i < |commits| ==> commits[i].sha in h && commits[i].parents == h[commits[i].sha])
  }

  ghost predicate RestrictedTo(h: Graph, g: Graph, keys: set<Sha>) {
    g.Keys == keys && forall c :: c in g ==> c in h && g[c] == h[c]
  }

  lemma RangeGraph(h: Graph, rank: Sha -> nat, base: Sha, target: Sha, commits: seq<Commit>)
    requires IsRange(h, rank, base, target, commits)
    ensures RestrictedTo(h, BySha(commits), RangeOf(h, base, target))
  {
    forall c | c in BySha(commits) ensures c in h && BySha(commits)[c] == h[c] {
      var i :| 0 <= i < |commits| && commits[i].sha == c;
      ByShaAt(commits, i);
    }
  }

  lemma SubgraphAncestor(h: Graph, g: Graph, a: Sha, c: Sha)
    requires (forall x :: x in g ==> x in h && g[x] == h[x]) && Ancestor(g, a, c)
    ensures Ancestor(h, a, c)
  {
    var path :| Leads(g, path, c, a);
    assert Leads(h, path, c, a);
  }

  /** A parent of a range commit is in the range unless it is an ancestor of base. */
  lemma ParentInRange(h: Graph, base: Sha, target: Sha, m: Sha, p: Sha)
    requires m in RangeOf(h, base, target) && m in h && p in h[m] && p in h && p !in Reach(h, base)
    ensures p in RangeOf(h, base, target)
  {
    AncestorSelf(h, p);
    AncestorUp(h, p, p, m);
    AncestorTransitive(h, p, m, target);
  }

  /** Ancestry walked inside the range loses exactly the ancestors of base. */
  lemma {:induction false} RangeReach(h: Graph, rank: Sha -> nat, g: Graph, base: Sha, target: Sha, m: Sha)
    requires Ranked(h, rank) && RestrictedTo(h, g, RangeOf(h, base, target)) && m in g
    ensures Reach(g, m) == Reach(h, m) - Reach(h, base)
    decreases rank(m)
  {
    forall a | a in Reach(g, m) ensures a in Reach(h, m) - Reach(h, base) {
      SubgraphAncestor(h, g, a, m);
      AncestorEnds(h, a, m);
    }
    forall a | a in Reach(h, m) - Reach(h, base) ensures a in Reach(g, m) {
      if a == m {
        AncestorSelf(g, m);
      } else {
        var p := AncestorDown(h, a, m);
        AncestorEnds(h, a, p);
        if p in Reach(h, base) { AncestorTransitive(h, a, p, base); }
        ParentInRange(h, base, target, m, p);
        RangeReach(h, rank, g, base, target, p);
        assert a in Reach(h, p) && a in Reach(g, p);
        AncestorUp(g, a, p, m);
      }
    }
  }

  /** The one-pass descendant test is ancestry in the full history. */
  lemma {:induction false} BelowIsDescendant(h: Graph, rank: Sha -> nat, g: Graph, base: Sha, target: Sha, m: Sha)
    requires Ranked(h, rank) && RestrictedTo(h, g, RangeOf(h, base, target)) && m in g && base in h
    ensures Below(g, base, m) <==> Ancestor(h, base, m)
    decreases rank(m)
  {
    AncestorSelf(h, base);
    if Below(g, base, m) {
      var d :| Ancestor(g, d, m) && d in g && base in g[d];
      SubgraphAncestor(h, g, d, m);
      AncestorUp(h, base, base, d);
      AncestorTransitive(h, base, d, m);
    }
    if Ancestor(h, base, m) {
      BelowUnfold(g, base, m);
      var p := AncestorDown(h, base, m);
      AncestorEnds(h, base, p);
      if p != base {
        if p in Reach(h, base) { AncestorAntisymmetric(h, rank, p, base); }
        ParentInRange(h, base, target, m, p);
        BelowIsDescendant(h, rank, g, base, target, p);
      }
    }
  }

  // ---- Windows -------------------------------------------------------------------------

  /** ordered[i] closes the listing of exactly its own ancestors. */
  ghost predicate SettledAt(g: Graph, ordered: seq<Sha>, i: nat) {
    i < |ordered| && Elems(ordered[..i + 1]) == Reach(g, ordered[i])
  }

  lemma SettledIndex(g: Graph, ordered: seq<Sha>, i: nat)
    requires Distinct(ordered) && i < |ordered| && Settled(g, ordered, ordered[i])
    ensures SettledAt(g, ordered, i)
  {
    var j :| 0 <= j < |ordered| && ordered[j] == ordered[i] && Elems(ordered[..j + 1]) == Reach(g, ordered[i]);
    assert i == j;
  }

  lemma SliceElems(ordered: seq<Sha>, i: nat, j: nat)
    requires Distinct(ordered) && i <= j <= |ordered|
    ensures Elems(ordered[i..j]) == Elems(ordered[..j]) - Elems(ordered[..i])
  {
    assert ordered[..j] == ordered[..i] + ordered[i..j];
    forall x ensures x in ordered[i..j] ==> x !in ordered[..i] {
      if x in ordered[i..j] { var k :| i <= k < j && ordered[k] == x; }
    }
  }

  /** A duplicate-free listing of exactly git's from..to that ends in `to`, with `from` a proper
      ancestor of `to`. */
  ghost predicate IsWindow(h: Graph, from: Sha, to: Sha, shas: seq<Sha>) {
    && Elems(shas) == RangeOf(h, from, to)
    && Distinct(shas) && shas != [] && shas[|shas| - 1] == to
    && Ancestor(h, from, to) && from != to
  }

  lemma DistinctSlice(s: seq<Sha>, i: nat, j: nat)
    requires Distinct(s) && i < j <= |s|
    ensures Distinct(s[i..j]) && |s[i..j]| == j - i && s[i..j][j - i - 1] == s[j - 1]
  {}

  /** ordered[i] descends from base, and the listing up to it is git's base..ordered[i]. */
  ghost predicate Closes(h: Graph, base: Sha, ordered: seq<Sha>, i: nat) {
    i < |ordered| && Ancestor(h, base, ordered[i]) && Elems(ordered[..i + 1]) == RangeOf(h, base, ordered[i])
  }

  lemma SettledCloses(h: Graph, rank: Sha -> nat, g: Graph, base: Sha, target: Sha, ordered: seq<Sha>, i: nat)
    requires Ranked(h, rank) && RestrictedTo(h, g, RangeOf(h, base, target)) && Listing(g, ordered)
    requires SettledAt(g, ordered, i) && Ancestor(h, base, ordered[i])
    ensures Closes(h, base, ordered, i)
  {
    RangeReach(h, rank, g, base, target, ordered[i]);
  }

  /** The window between two closed positions is git's range between the two commits. */
  lemma WindowIsRange(h: Graph, base: Sha, ordered: seq<Sha>, i: nat, j: nat, window: seq<Sha>)
    requires Distinct(ordered) && i < j && Closes(h, base, ordered, i) && Closes(h, base, ordered, j)
    requires window == ordered[i + 1..j + 1]
    ensures IsWindow(h, ordered[i], ordered[j], window)
  {
    DistinctSlice(ordered, i + 1, j + 1);
    SliceElems(ordered, i + 1, j + 1);
    ReachMonotone(h, base, ordered[i]);
    CancelBase(Reach(h, ordered[j]), Reach(h, ordered[i]), Reach(h, base));
    EarlierIsListed(ordered, i, j);
    assert ordered[i] in Reach(h, ordered[j]);
  }

  lemma CancelBase(all: set<Sha>, before: set<Sha>, base: set<Sha>)
    requires base <= before
    ensures (all - base) - (before - base) == all - before
  {}

  lemma EarlierIsListed(ordered: seq<Sha>, i: nat, j: nat)
    requires Distinct(ordered) && i < j < |ordered|
    ensures ordered[i] in Elems(ordered[..j + 1]) && ordered[i] != ordered[j]
  {
    assert ordered[..j + 1][i] == ordered[i];
  }

  lemma FirstWindowIsRange(h: Graph, base: Sha, ordered: seq<Sha>, j: nat, window: seq<Sha>)
    requires Distinct(ordered) && Closes(h, base, ordered, j) && window == ordered[..j + 1]
    ensures IsWindow(h, base, ordered[j], window)
  {
    assert window == ordered[0..j + 1];
    DistinctSlice(ordered, 0, j + 1);
    AncestorEnds(h, base, ordered[j]);
    AncestorSelf(h, base);
    assert window[j] in Elems(window);
  }

  // ---- build_waves ---------------------------------------------------------------------

  ghost predicate WaveIsRange(h: Graph, w: Wave) {
    IsWindow(h, w.from, w.to, w.shas)
  }

  /** The waves chain from base to target, each one git's range between its ends. */
  ghost predicate Tiles(h: Graph, base: Sha, target: Sha, waves: seq<Wave>)
    decreases |waves|
  {
    if waves == [] then target == base
    else
      var w := waves[|waves| - 1];
      w.index == |waves| && w.to == target && WaveIsRange(h, w) && Tiles(h, base, w.from, waves[..|waves| - 1])
  }

  ghost function Open(recorded: map<Sha, string>, shas: set<Sha>): set<Sha> {
    set s | s in shas && NeedsReview(recorded, s)
  }

  ghost predicate InBounds(p: Plan, cuts: seq<nat>) {
    forall k {:trigger Start(cuts, k)} :: 0 <= k < |cuts| ==> Start(cuts, k) <= cuts[k] < |p.ordered|
  }

  /** Where wave k comes from: base, or the commit of the previous cut. */
  ghost function CutFrom(p: Plan, cuts: seq<nat>, base: Sha, k: nat): Sha
    requires InBounds(p, cuts) && k <= |cuts|
  {
    if k == 0 then base else assert Start(cuts, k - 1) <= cuts[k - 1]; p.ordered[cuts[k - 1]]
  }

  /** The wave that cut k closes: its window of the order, with the open commits counted. */
  ghost function WaveOf(p: Plan, cuts: seq<nat>, recorded: map<Sha, string>, base: Sha, k: nat): Wave
    requires InBounds(p, cuts) && k < |cuts|
  {
    var window := p.ordered[Start(cuts, k)..cuts[k] + 1];
    Wave(k + 1, CutFrom(p, cuts, base, k), p.ordered[cuts[k]], window, |Open(recorded, Elems(window))|)
  }

  ghost function WavesOf(p: Plan, cuts: seq<nat>, recorded: map<Sha, string>, base: Sha, k: nat): (waves: seq<Wave>)
    requires InBounds(p, cuts) && k <= |cuts|
    ensures |waves| == k
  {
    if k == 0 then [] else WavesOf(p, cuts, recorded, base, k - 1) + [WaveOf(p, cuts, recorded, base, k - 1)]
  }

  datatype WaveError = NonPositiveBudget

  /** What the checkpoint order establishes about a plan. */
  ghost predicate OrderedPlan(g: Graph, base: Sha, target: Sha, p: Plan) {
    && Listing(g, p.ordered) && Elems(p.ordered) == Reach(g, target)
    && (forall m :: OnMainline(g, target, m) ==> Placed(g, p.ordered, m))
    && (forall m :: m in p.checkpoints <==> OnMainline(g, target, m) && Below(g, base, m))
  }

  /** A checkpoint is a commit of target's first-parent chain that properly descends from base. */
  ghost predicate Checkpoint(h: Graph, base: Sha, target: Sha, m: Sha) {
    OnMainline(h, target, m) && Ancestor(h, base, m) && m != base
  }

  /** The chain inside the range is the chain of the full history as far as it is not in base. */
  lemma MainlineInRange(h: Graph, g: Graph, base: Sha, target: Sha, m: Sha)
    requires RestrictedTo(h, g, RangeOf(h, base, target))
    ensures OnMainline(g, target, m) <==> OnMainline(h, target, m) && m !in Reach(h, base)
  {
    if chain :| FirstParentChain(g, chain, target, m) {
      ChainEdges(g, h, chain);
      assert m in g;
      assert FirstParentChain(h, chain, target, m);
    }
    if chain :| FirstParentChain(h, chain, target, m) && m !in Reach(h, base) {
      ChainIsPath(h, chain);
      forall i | 0 <= i < |chain| ensures chain[i] in g {
        assert Leads(h, chain[..i + 1], target, chain[i]) && Leads(h, chain[i..], chain[i], m);
        if chain[i] in Reach(h, base) { AncestorTransitive(h, m, chain[i], base); }
      }
      ChainEdges(h, g, chain);
      assert FirstParentChain(g, chain, target, m);
    }
  }

  lemma ChainEdges(a: Graph, b: Graph, chain: seq<Sha>)
    requires IsChain(a, chain) && forall i :: 0 <= i < |chain| ==> chain[i] in b && a[chain[i]] == b[chain[i]]
    ensures IsChain(b, chain)
  {
    forall i, j | 0 <= i && j == i + 1 && j < |chain| ensures FirstParent(b, chain[i], chain[j]) {
      assert FirstParent(a, chain[i], chain[j]);
    }
  }

  lemma ChainIsPath(h: Graph, chain: seq<Sha>)
    requires IsChain(h, chain)
    ensures IsPath(h, chain)
  {
    forall i, j | 0 <= i && j == i + 1 && j < |chain| ensures chain[j] in h[chain[i]] {
      assert FirstParent(h, chain[i], chain[j]);
    }
  }

  /** Stated on the full history: which commits may end a wave. */
  lemma CheckpointsExactly(h: Graph, rank: Sha -> nat, g: Graph, base: Sha, target: Sha, p: Plan, m: Sha)
    requires Ranked(h, rank) && RestrictedTo(h, g, RangeOf(h, base, target)) && base in h
    requires OrderedPlan(g, base, target, p)
    ensures m in p.checkpoints <==> Checkpoint(h, base, target, m)
  {
    MainlineInRange(h, g, base, target, m);
    AncestorSelf(h, base);
    if m in g { BelowIsDescendant(h, rank, g, base, target, m); }
    if OnMainline(g, target, m) {
      var chain :| FirstParentChain(g, chain, target, m);
      assert m in g;
    }
    if Checkpoint(h, base, target, m) && m in Reach(h, base) { AncestorAntisymmetric(h, rank, m, base); }
  }

  method BuildWaves(commits: seq<Commit>, base: Sha, target: Sha, maxCommits: int, maxTags: int, tags: set<Sha>,
                    recorded: map<Sha, string>, ghost h: Graph, ghost rank: Sha -> nat)
    returns (r: Result<seq<Wave>, WaveError>, orphanCut: bool, ghost plan: Plan, ghost cuts: seq<nat>)
    requires IsRange(h, rank, base, target, commits)
    ensures r.Failure? <==> maxCommits < 1 || maxTags < 1
    ensures r.Success? ==> Tiles(h, base, target, r.value)
    ensures r.Success? ==> OrderedPlan(BySha(commits), base, target, plan)
    ensures r.Success? ==> forall m :: m in plan.checkpoints <==> Checkpoint(h, base, target, m)
    ensures r.Success? ==> plan.Complete(cuts) && InBounds(plan, cuts)
    ensures r.Success? ==> r.value == WavesOf(plan, cuts, recorded, base, |cuts|)
    ensures r.Success? ==> plan.boundaries == tags && plan.maxCommits == maxCommits && plan.maxTags == maxTags
    ensures r.Success? ==> orphanCut == plan.HasOrphan(cuts)
  {
    plan, cuts, orphanCut := Plan([], {}, {}, 0, 0), [], false;
    if maxCommits < 1 || maxTags < 1 {
      r := Failure(NonPositiveBudget);
      return;
    }
    var ordered, checkpoints;
    ghost var mainline;
    ordered, checkpoints, mainline := CheckpointOrder(commits, base, target);
    var p := Plan(ordered, tags, checkpoints, maxCommits, maxTags);
    var ends, orphan := PlanCuts(p);
    plan, cuts, orphanCut := p, ends, orphan;
    CutsInBounds(p, ends);
    var waves := CutWindows(p, ends, base, recorded);
    r := Success(waves);
    RangeGraph(h, rank, base, target, commits);
    WavesTile(h, rank, BySha(commits), base, target, p, ends, recorded);
    AncestorEnds(h, base, target);
    forall m ensures m in p.checkpoints <==> Checkpoint(h, base, target, m) {
      CheckpointsExactly(h, rank, BySha(commits), base, target, p, m);
    }
  }

  lemma CutsInBounds(p: Plan, cuts: seq<nat>)
    requires p.Greedy(cuts)
    ensures InBounds(p, cuts)
  {
    forall k | 0 <= k < |cuts| ensures Start(cuts, k) <= cuts[k] < |p.ordered| { GreedyAt(p, cuts, k); }
  }

  method CutWindows(p: Plan, cuts: seq<nat>, base: Sha, recorded: map<Sha, string>) returns (waves: seq<Wave>)
    requires InBounds(p, cuts) && Distinct(p.ordered)
    ensures waves == WavesOf(p, cuts, recorded, base, |cuts|)
  {
    waves := [];
    var start := 0;
    for k := 0 to |cuts|
      invariant start == Start(cuts, k) && waves == WavesOf(p, cuts, recorded, base, k)
    {
      var waveFrom := if waves == [] then base else waves[|waves| - 1].to;
      WavesNext(p, cuts, recorded, base, k, waves);
      var wave := CutWindow(p, cuts, base, recorded, k, start, waveFrom);
      start := cuts[k] + 1;
      waves := waves + [wave];
    }
  }

  lemma WavesNext(p: Plan, cuts: seq<nat>, recorded: map<Sha, string>, base: Sha, k: nat, waves: seq<Wave>)
    requires InBounds(p, cuts) && k < |cuts| && waves == WavesOf(p, cuts, recorded, base, k)
    ensures (if waves == [] then base else waves[|waves| - 1].to) == CutFrom(p, cuts, base, k)
    ensures WavesOf(p, cuts, recorded, base, k + 1) == waves + [WaveOf(p, cuts, recorded, base, k)]
  {}

  method CutWindow(p: Plan, cuts: seq<nat>, base: Sha, recorded: map<Sha, string>, k: nat, start: nat, waveFrom: Sha)
    returns (wave: Wave)
    requires InBounds(p, cuts) && Distinct(p.ordered) && k < |cuts|
    requires start == Start(cuts, k) && waveFrom == CutFrom(p, cuts, base, k)
    ensures wave == WaveOf(p, cuts, recorded, base, k)
  {
    var window := p.ordered[start..cuts[k] + 1];
    DistinctSlice(p.ordered, start, cuts[k] + 1);
    var unreviewed := CountUnreviewed(window, recorded);
    wave := Wave(k + 1, waveFrom, window[|window| - 1], window, unreviewed);
  }

  method CountUnreviewed(window: seq<Sha>, recorded: map<Sha, string>) returns (n: nat)
    requires Distinct(window)
    ensures n == |Open(recorded, Elems(window))|
  {
    n := 0;
    for i := 0 to |window|
      invariant n == |Open(recorded, Elems(window[..i]))|
    {
      OpenGrows(recorded, window, i);
      if window[i] !in recorded || recorded[window[i]] in Ledger.OPEN_STATUSES {
        n := n + 1;
      }
    }
    assert window[..|window|] == window;
  }

  lemma OpenGrows(recorded: map<Sha, string>, window: seq<Sha>, i: nat)
    requires Distinct(window) && i < |window|
    ensures |Open(recorded, Elems(window[..i + 1]))|
         == |Open(recorded, Elems(window[..i]))| + if NeedsReview(recorded, window[i]) then 1 else 0
  {
    assert window[..i + 1] == window[..i] + [window[i]];
    ElemsAppend(window[..i], window[i]);
    assert window[i] !in Elems(window[..i]);
    OpenInsert(recorded, Elems(window[..i]), window[i]);
  }

  lemma OpenInsert(recorded: map<Sha, string>, shas: set<Sha>, s: Sha)
    requires s !in shas
    ensures |Open(recorded, shas + {s})| == |Open(recorded, shas)| + if NeedsReview(recorded, s) then 1 else 0
  {
    assert Open(recorded, shas + {s}) == Open(recorded, shas) + (if NeedsReview(recorded, s) then {s} else {});
  }

  /** The listing ends at target. */
  lemma LastIsTarget(g: Graph, base: Sha, target: Sha, p: Plan)
    requires OrderedPlan(g, base, target, p) && p.ordered != []
    ensures p.ordered[|p.ordered| - 1] == target && Settled(g, p.ordered, target)
  {
    AncestorEnds(g, p.ordered[0], target) by { assert p.ordered[0] in Elems(p.ordered); }
    assert OnMainline(g, target, target) by { assert FirstParentChain(g, [target], target, target); }
    SettledLast(g, p.ordered, target);
  }

  lemma SettledLast(g: Graph, ordered: seq<Sha>, target: Sha)
    requires Distinct(ordered) && Elems(ordered) == Reach(g, target) && Settled(g, ordered, target)
    ensures ordered != [] && ordered[|ordered| - 1] == target
  {
    var i :| 0 <= i < |ordered| && ordered[i] == target && Elems(ordered[..i + 1]) == Reach(g, target);
    var m := ordered[|ordered| - 1];
    assert m in Elems(ordered[..i + 1]);
    var j :| 0 <= j < i + 1 && ordered[..i + 1][j] == m;
    assert ordered[j] == m;
  }

  /** Every cut closes git's range from base, the last one at target. */
  lemma CutsAreCheckpoints(h: Graph, rank: Sha -> nat, g: Graph, base: Sha, target: Sha, p: Plan, cuts: seq<nat>,
                           k: nat)
    requires Ranked(h, rank) && RestrictedTo(h, g, RangeOf(h, base, target)) && Ancestor(h, base, target)
    requires OrderedPlan(g, base, target, p)
    requires p.Complete(cuts) && k < |cuts|
    ensures Closes(h, base, p.ordered, cuts[k])
    ensures k == |cuts| - 1 ==> p.ordered[cuts[k]] == target
  {
    CutsShape(p, cuts);
    AncestorEnds(h, base, target);
    var m := p.ordered[cuts[k]];
    if k == |cuts| - 1 {
      LastIsTarget(g, base, target, p);
    } else {
      assert m in p.checkpoints;
      BelowIsDescendant(h, rank, g, base, target, m);
    }
    SettledIndex(g, p.ordered, cuts[k]);
    SettledCloses(h, rank, g, base, target, p.ordered, cuts[k]);
  }

  ghost predicate AllClose(h: Graph, base: Sha, ordered: seq<Sha>, cuts: seq<nat>) {
    forall k :: 0 <= k < |cuts| ==> Closes(h, base, ordered, cuts[k])
  }

  lemma WaveOfIsRange(h: Graph, base: Sha, p: Plan, cuts: seq<nat>, recorded: map<Sha, string>, k: nat)
    requires Distinct(p.ordered) && InBounds(p, cuts) && k < |cuts| && AllClose(h, base, p.ordered, cuts)
    ensures WaveIsRange(h, WaveOf(p, cuts, recorded, base, k))
  {
    var w := WaveOf(p, cuts, recorded, base, k);
    assert Start(cuts, k) <= cuts[k];
    if k == 0 {
      FirstWindowIsRange(h, base, p.ordered, cuts[0], w.shas);
    } else {
      WindowIsRange(h, base, p.ordered, cuts[k - 1], cuts[k], w.shas);
    }
  }

  lemma AppendTile(h: Graph, base: Sha, waves: seq<Wave>, w: Wave)
    requires Tiles(h, base, w.from, waves) && w.index == |waves| + 1 && WaveIsRange(h, w)
    ensures Tiles(h, base, w.to, waves + [w])
  {
    assert (waves + [w])[..|waves|] == waves;
  }

  lemma {:induction false} TilesUpTo(h: Graph, base: Sha, p: Plan, cuts: seq<nat>, recorded: map<Sha, string>, k: nat)
    requires Distinct(p.ordered) && InBounds(p, cuts) && k <= |cuts| && AllClose(h, base, p.ordered, cuts)
    ensures Tiles(h, base, CutFrom(p, cuts, base, k), WavesOf(p, cuts, recorded, base, k))
  {
    if k > 0 {
      TilesUpTo(h, base, p, cuts, recorded, k - 1);
      NextTile(h, base, p, cuts, recorded, k);
    }
  }

  lemma NextTile(h: Graph, base: Sha, p: Plan, cuts: seq<nat>, recorded: map<Sha, string>, k: nat)
    requires Distinct(p.ordered) && InBounds(p, cuts) && 0 < k <= |cuts| && AllClose(h, base, p.ordered, cuts)
    requires Tiles(h, base, CutFrom(p, cuts, base, k - 1), WavesOf(p, cuts, recorded, base, k - 1))
    ensures Tiles(h, base, CutFrom(p, cuts, base, k), WavesOf(p, cuts, recorded, base, k))
  {
    WaveOfIsRange(h, base, p, cuts, recorded, k - 1);
    var w := WaveOf(p, cuts, recorded, base, k - 1);
    assert w.index == k && w.from == CutFrom(p, cuts, base, k - 1) && w.to == CutFrom(p, cuts, base, k);
    AppendTile(h, base, WavesOf(p, cuts, recorded, base, k - 1), w);
  }

  lemma WavesTile(h: Graph, rank: Sha -> nat, g: Graph, base: Sha, target: Sha, p: Plan, cuts: seq<nat>,
                  recorded: map<Sha, string>)
    requires Ranked(h, rank) && RestrictedTo(h, g, RangeOf(h, base, target)) && Ancestor(h, base, target)
    requires OrderedPlan(g, base, target, p) && p.Complete(cuts) && InBounds(p, cuts)
    ensures Tiles(h, base, target, WavesOf(p, cuts, recorded, base, |cuts|))
  {
    forall k | 0 <= k < |cuts| ensures Closes(h, base, p.ordered, cuts[k]) {
      CutsAreCheckpoints(h, rank, g, base, target, p, cuts, k);
    }
    TilesUpTo(h, base, p, cuts, recorded, |cuts|);
    LastCutIsTarget(h, rank, g, base, target, p, cuts);
  }

  lemma LastCutIsTarget(h: Graph, rank: Sha -> nat, g: Graph, base: Sha, target: Sha, p: Plan, cuts: seq<nat>)
    requires Ranked(h, rank) && RestrictedTo(h, g, RangeOf(h, base, target)) && Ancestor(h, base, target)
    requires OrderedPlan(g, base, target, p) && p.Complete(cuts) && InBounds(p, cuts)
    ensures CutFrom(p, cuts, base, |cuts|) == target
  {
    if cuts == [] {
      AncestorEnds(h, base, target);
      if target in g { ReachUnfold(g, target); }
      AncestorSelf(h, target);
      AncestorAntisymmetric(h, rank, base, target);
    } else {
      CutsAreCheckpoints(h, rank, g, base, target, p, cuts, |cuts| - 1);
    }
  }

  // ---- What tiling means ---------------------------------------------------------------

  ghost function Covered(waves: seq<Wave>): set<Sha> {
    if waves == [] then {} else Covered(waves[..|waves| - 1]) + Elems(waves[|waves| - 1].shas)
  }

  lemma {:induction false} CoveredHolds(waves: seq<Wave>, k: nat)
    requires k < |waves|
    ensures Elems(waves[k].shas) <= Covered(waves)
  {
    if k < |waves| - 1 { CoveredHolds(waves[..|waves| - 1], k); }
  }

  lemma LastWaveExtends(h: Graph, base: Sha, w: Wave)
    requires WaveIsRange(h, w) && Ancestor(h, base, w.from)
    ensures Ancestor(h, base, w.to)
    ensures RangeOf(h, base, w.to) == RangeOf(h, base, w.from) + Elems(w.shas)
    ensures RangeOf(h, base, w.from) !! Elems(w.shas)
  {
    AncestorTransitive(h, base, w.from, w.to);
    ReachMonotone(h, base, w.from);
    ReachMonotone(h, w.from, w.to);
  }

  /** Tiling waves partition git's base..target: pairwise disjoint and together the whole range. */
  lemma {:induction false} WavesPartition(h: Graph, base: Sha, target: Sha, waves: seq<Wave>)
    requires base in h && Tiles(h, base, target, waves)
    ensures Covered(waves) == RangeOf(h, base, target)
    ensures forall j, k :: 0 <= j < k < |waves| ==> Elems(waves[j].shas) !! Elems(waves[k].shas)
    ensures Ancestor(h, base, target)
    decreases |waves|
  {
    AncestorSelf(h, base);
    if waves != [] {
      var last := |waves| - 1;
      var init, w := waves[..last], waves[last];
      WavesPartition(h, base, w.from, init);
      LastWaveExtends(h, base, w);
      forall j, k | 0 <= j < k < |waves| ensures Elems(waves[j].shas) !! Elems(waves[k].shas) {
        assert waves[j] == init[j];
        if k == last { CoveredHolds(init, j); } else { assert waves[k] == init[k]; }
      }
    }
  }

  /** Each wave starts where the previous one ended, the first at base and the last ending at target. */
  lemma {:induction false} WavesChain(h: Graph, base: Sha, target: Sha, waves: seq<Wave>, k: nat)
    requires Tiles(h, base, target, waves) && k < |waves|
    ensures waves[k].index == k + 1 && WaveIsRange(h, waves[k])
    ensures waves[k].from == if k == 0 then base else waves[k - 1].to
    ensures k == |waves| - 1 ==> waves[k].to == target
    decreases |waves|
  {
    var last := |waves| - 1;
    if k < last { WavesChain(h, base, waves[last].from, waves[..last], k); }
    if k == last > 0 { WavesChain(h, base, waves[last].from, waves[..last], last - 1); }
  }

  function SumUnreviewed(waves: seq<Wave>): nat {
    if waves == [] then 0 else SumUnreviewed(waves[..|waves| - 1]) + waves[|waves| - 1].unreviewed
  }

  /** Summed over the waves, `unreviewed` counts each open commit of the range once. */
  lemma {:induction false} UnreviewedTotal(h: Graph, base: Sha, target: Sha, waves: seq<Wave>,
                                           recorded: map<Sha, string>)
    requires base in h && Tiles(h, base, target, waves)
    requires forall k :: 0 <= k < |waves| ==> waves[k].unreviewed == |Open(recorded, Elems(waves[k].shas))|
    ensures SumUnreviewed(waves) == |Open(recorded, RangeOf(h, base, target))|
    decreases |waves|
  {
    if waves == [] {
      assert Open(recorded, RangeOf(h, base, target)) == {};
    } else {
      var last := |waves| - 1;
      WavesPartition(h, base, waves[last].from, waves[..last]);
      LastWaveExtends(h, base, waves[last]);
      UnreviewedTotal(h, base, waves[last].from, waves[..last], recorded);
      OpenSum(recorded, RangeOf(h, base, waves[last].from), Elems(waves[last].shas));
    }
  }

  lemma OpenSum(recorded: map<Sha, string>, a: set<Sha>, b: set<Sha>)
    requires a !! b
    ensures |Open(recorded, a + b)| == |Open(recorded, a)| + |Open(recorded, b)|
  {
    assert Open(recorded, a + b) == Open(recorded, a) + Open(recorded, b);
  }
}
