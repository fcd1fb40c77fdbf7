/** `plan_cuts`: the greedy cutter that ends a wave at a release tag once it is large enough. */
module WaveCuts {
  import opened History

  /** The inputs of one planning run. */
  datatype Plan = Plan(ordered: seq<Sha>, boundaries: set<Sha>, checkpoints: set<Sha>, maxCommits: int, maxTags: int) {
    predicate Tagged(i: nat)
      requires i < |ordered|
    {
      ordered[i] in boundaries && ordered[i] in checkpoints
    }

    ghost function Tags(lo: nat, hi: nat): nat
      requires lo <= hi <= |ordered|
      decreases hi
    {
      if lo == hi then 0 else Tags(lo, hi - 1) + (if Tagged(hi - 1) then 1 else 0)
    }

    /** A tagged checkpoint at which the wave begun at start is large enough. */
    ghost predicate ReleaseCut(start: nat, i: nat)
      requires start <= i < |ordered|
    {
      Tagged(i) && (i - start + 1 >= maxCommits || Tags(start, i + 1) >= maxTags)
    }

    ghost predicate Ends(start: nat, i: nat)
      requires start <= i < |ordered|
    {
      ReleaseCut(start, i) || OrphanEnd(start, i) || i == |ordered| - 1
    }

    /** The wave start..end is cut at the first place where it may end. */
    ghost predicate FirstEnd(start: nat, end: nat) {
      start <= end < |ordered| && Ends(start, end) && forall i :: start <= i < end ==> !Ends(start, i)
    }

    /** Every wave is cut at its first possible end. */
    ghost predicate Greedy(cuts: seq<nat>) {
      cuts == [] || (Greedy(cuts[..|cuts| - 1]) && FirstEnd(Start(cuts, |cuts| - 1), cuts[|cuts| - 1]))
    }

    /** Greedy cuts that reach the end of the listing. */
    ghost predicate Complete(cuts: seq<nat>) {
      Greedy(cuts) && Start(cuts, |cuts|) == |ordered|
    }

    ghost predicate HasOrphan(cuts: seq<nat>) {
      cuts != [] && (HasOrphan(cuts[..|cuts| - 1]) || OrphanEnd(Start(cuts, |cuts| - 1), cuts[|cuts| - 1]))
    }

    /** A wave ended at an untagged checkpoint after more than twice the commit budget. */
    ghost predicate OrphanEnd(start: nat, end: nat) {
      && start <= end < |ordered| && ordered[end] in checkpoints && !ReleaseCut(start, end)
      && end - start + 1 > 2 * maxCommits
    }
  }

  /** Where wave k begins. */
  function Start(cuts: seq<nat>, k: nat): nat
    requires k <= |cuts|
  {
    if k == 0 then 0 else cuts[k - 1] + 1
  }

  method PlanCuts(p: Plan) returns (cuts: seq<nat>, orphanCut: bool)
    ensures p.Complete(cuts)
    ensures orphanCut == p.HasOrphan(cuts)
  {
    cuts, orphanCut := [], false;
    var start, boundaryCount := 0, 0;
    for index := 0 to |p.ordered|
      invariant start == Start(cuts, |cuts|) && start <= index
      invariant boundaryCount == p.Tags(start, index)
      invariant p.Greedy(cuts) && orphanCut == p.HasOrphan(cuts)
      invariant forall i :: start <= i < index ==> !p.Ends(start, i)
      invariant index == |p.ordered| ==> start == index
    {
      var sha := p.ordered[index];
      if sha in p.boundaries && sha in p.checkpoints { boundaryCount := boundaryCount + 1; }
      var span := index - start + 1;
      var cut := sha in p.checkpoints && sha in p.boundaries
                 && (span >= p.maxCommits || boundaryCount >= p.maxTags);
      if !cut && sha in p.checkpoints && span > p.maxCommits * 2 {
        cut, orphanCut := true, true;
      }
      if cut || index == |p.ordered| - 1 {
        AppendCut(p, cuts, index);
        cuts := cuts + [index];
        start, boundaryCount := index + 1, 0;
      }
    }
  }

  lemma AppendCut(p: Plan, cuts: seq<nat>, index: nat)
    requires p.Greedy(cuts) && p.FirstEnd(Start(cuts, |cuts|), index)
    ensures p.Greedy(cuts + [index])
    ensures p.HasOrphan(cuts + [index]) == (p.HasOrphan(cuts) || p.OrphanEnd(Start(cuts, |cuts|), index))
  {
    assert (cuts + [index])[..|cuts|] == cuts;
  }

  lemma {:induction false} GreedyAt(p: Plan, cuts: seq<nat>, k: nat)
    requires p.Greedy(cuts) && k < |cuts|
    ensures p.FirstEnd(Start(cuts, k), cuts[k])
  {
    if k < |cuts| - 1 { GreedyAt(p, cuts[..|cuts| - 1], k); }
  }

  /** The greedy plan is the only complete one. */
  lemma {:induction false} GreedyUnique(p: Plan, a: seq<nat>, b: seq<nat>)
    requires p.Complete(a) && p.Complete(b)
    ensures a == b
  {
    SamePrefix(p, a, b, |a|);
    SamePrefix(p, b, a, |b|);
  }

  lemma SameEnd(p: Plan, start: nat, x: nat, y: nat)
    requires p.FirstEnd(start, x) && p.FirstEnd(start, y)
    ensures x == y
  {}

  lemma {:induction false} SamePrefix(p: Plan, a: seq<nat>, b: seq<nat>, k: nat)
    requires p.Complete(a) && p.Complete(b) && k <= |a|
    ensures k <= |b| && a[..k] == b[..k]
  {
    if k > 0 {
      SamePrefix(p, a, b, k - 1);
      assert k > 1 ==> a[..k - 1][k - 2] == b[..k - 1][k - 2];
      GreedyAt(p, a, k - 1);
      assert k - 1 < |b|;
      GreedyAt(p, b, k - 1);
      SameEnd(p, Start(a, k - 1), a[k - 1], b[k - 1]);
      assert a[..k] == a[..k - 1] + [a[k - 1]] && b[..k] == b[..k - 1] + [b[k - 1]];
    }
  }

  /** Cuts strictly increase, end at the last commit, and all but the last are checkpoints. */
  lemma CutsShape(p: Plan, cuts: seq<nat>)
    requires p.Complete(cuts)
    ensures forall k :: 0 < k < |cuts| ==> cuts[k - 1] < cuts[k]
    ensures p.ordered != [] ==> cuts != [] && cuts[|cuts| - 1] == |p.ordered| - 1
    ensures p.ordered == [] ==> cuts == []
    ensures forall k :: 0 <= k < |cuts| ==> cuts[k] < |p.ordered|
    ensures forall k :: 0 <= k < |cuts| - 1 ==> p.ordered[cuts[k]] in p.checkpoints
  {
    forall k | 0 < k < |cuts| ensures cuts[k - 1] < cuts[k] {
      GreedyAt(p, cuts, k);
    }
    forall k | 0 <= k < |cuts| ensures cuts[k] < |p.ordered| { GreedyAt(p, cuts, k); }
    forall k | 0 <= k < |cuts| - 1 ensures p.ordered[cuts[k]] in p.checkpoints {
      GreedyAt(p, cuts, k);
      GreedyAt(p, cuts, k + 1);
    }
    if cuts != [] { GreedyAt(p, cuts, 0); }
  }

  /** Before its end a wave has used fewer tags than the budget. */
  lemma {:induction false} TagsBelow(p: Plan, start: nat, end: nat, i: nat)
    requires p.maxTags >= 1 && p.FirstEnd(start, end) && start <= i <= end
    ensures p.Tags(start, i) < p.maxTags
  {
    if i > start {
      TagsBelow(p, start, end, i - 1);
      assert !p.Ends(start, i - 1);
    }
  }

  /** Budgets of one wave, for positive limits. */
  lemma WaveBudget(p: Plan, cuts: seq<nat>, k: nat)
    requires p.Complete(cuts) && k < |cuts| && p.maxCommits >= 1 && p.maxTags >= 1
    ensures Start(cuts, k) <= cuts[k] < |p.ordered|
    ensures p.Tags(Start(cuts, k), cuts[k] + 1) <= p.maxTags
    ensures var span := cuts[k] - Start(cuts, k) + 1;
            k < |cuts| - 1 ==>
              || (p.Tagged(cuts[k]) && (span >= p.maxCommits || p.Tags(Start(cuts, k), cuts[k] + 1) == p.maxTags))
              || (!p.Tagged(cuts[k]) && span > 2 * p.maxCommits)
  {
    GreedyAt(p, cuts, k);
    TagsBelow(p, Start(cuts, k), cuts[k], cuts[k]);
    if k < |cuts| - 1 { GreedyAt(p, cuts, k + 1); }
  }

  /** The tagged checkpoints among positions lo to hi. */
  ghost function TaggedIn(p: Plan, lo: nat, hi: nat): set<nat>
    requires hi <= |p.ordered|
  {
    set i: nat | lo <= i < hi && p.ordered[i] in p.boundaries && p.ordered[i] in p.checkpoints
  }

  lemma {:induction false} TagsCount(p: Plan, lo: nat, hi: nat)
    requires lo <= hi <= |p.ordered|
    ensures p.Tags(lo, hi) == |TaggedIn(p, lo, hi)|
    decreases hi
  {
    if lo < hi {
      TagsCount(p, lo, hi - 1);
      assert TaggedIn(p, lo, hi) == TaggedIn(p, lo, hi - 1) + (if p.Tagged(hi - 1) then {hi - 1} else {});
    } else {
      assert TaggedIn(p, lo, hi) == {};
    }
  }

  /** A cut is made as soon as it is due: at every checkpoint before its end a wave is within both budgets,
      or, without a tag, within twice the commit budget. */
  lemma CutWhenDue(p: Plan, cuts: seq<nat>, k: nat, j: nat)
    requires p.Complete(cuts) && k < |cuts| && Start(cuts, k) <= j < cuts[k]
    ensures j < |p.ordered|
    ensures p.ordered[j] in p.checkpoints && p.ordered[j] in p.boundaries ==>
              j - Start(cuts, k) + 1 < p.maxCommits && |TaggedIn(p, Start(cuts, k), j + 1)| < p.maxTags
    ensures p.ordered[j] in p.checkpoints && p.ordered[j] !in p.boundaries ==>
              j - Start(cuts, k) + 1 <= 2 * p.maxCommits
  {
    GreedyAt(p, cuts, k);
    assert !p.Ends(Start(cuts, k), j);
    TagsCount(p, Start(cuts, k), j + 1);
  }

  /** And only when it is due: a wave that is not the last ends at a checkpoint at which one of those fails. */
  lemma CutIsDue(p: Plan, cuts: seq<nat>, k: nat)
    requires p.Complete(cuts) && k < |cuts| - 1
    ensures cuts[k] < |p.ordered| && p.ordered[cuts[k]] in p.checkpoints
    ensures var span := cuts[k] - Start(cuts, k) + 1;
            if p.ordered[cuts[k]] in p.boundaries
            then span >= p.maxCommits || |TaggedIn(p, Start(cuts, k), cuts[k] + 1)| >= p.maxTags
            else span > 2 * p.maxCommits
  {
    GreedyAt(p, cuts, k);
    GreedyAt(p, cuts, k + 1);
    TagsCount(p, Start(cuts, k), cuts[k] + 1);
  }

  /** Every stretch of gap consecutive commits holds a checkpoint. */
  ghost predicate CheckpointEvery(p: Plan, gap: nat) {
    forall i: nat :: i + gap <= |p.ordered| ==> HasCheckpoint(p, i, gap)
  }

  ghost predicate HasCheckpoint(p: Plan, i: nat, gap: nat)
    requires i + gap <= |p.ordered|
  {
    exists j :: i <= j < i + gap && p.ordered[j] in p.checkpoints
  }

  lemma WaveLength(p: Plan, cuts: seq<nat>, k: nat, gap: nat)
    requires p.Complete(cuts) && k < |cuts| && p.maxCommits >= 1 && CheckpointEvery(p, gap)
    ensures cuts[k] - Start(cuts, k) + 1 <= 2 * p.maxCommits + gap
  {
    var start := Start(cuts, k);
    GreedyAt(p, cuts, k);
    if cuts[k] - start + 1 > 2 * p.maxCommits + gap {
      assert HasCheckpoint(p, start + 2 * p.maxCommits, gap);
      var j :| start + 2 * p.maxCommits <= j < start + 2 * p.maxCommits + gap && p.ordered[j] in p.checkpoints;
      assert p.Ends(start, j);
    }
  }

  /** The warning flag means exactly that some wave ends at an untagged checkpoint after more than
      twice the commit budget. */
  lemma {:induction false} OrphanMeaning(p: Plan, cuts: seq<nat>)
    requires p.Greedy(cuts) && p.maxCommits >= 0
    ensures p.HasOrphan(cuts) <==> exists k :: 0 <= k < |cuts| && UntaggedEnd(p, Start(cuts, k), cuts[k])
  {
    if cuts != [] {
      var last := |cuts| - 1;
      OrphanMeaning(p, cuts[..last]);
      EndMeaning(p, Start(cuts, last), cuts[last]);
      UntaggedInit(p, cuts);
    }
  }

  lemma EndMeaning(p: Plan, start: nat, end: nat)
    requires p.maxCommits >= 0
    ensures p.OrphanEnd(start, end) <==> UntaggedEnd(p, start, end)
  {}

  lemma UntaggedInit(p: Plan, cuts: seq<nat>)
    requires cuts != []
    ensures var last := |cuts| - 1;
            (exists k :: 0 <= k < |cuts| && UntaggedEnd(p, Start(cuts, k), cuts[k])) <==>
            UntaggedEnd(p, Start(cuts, last), cuts[last])
            || (exists k :: 0 <= k < last && UntaggedEnd(p, Start(cuts[..last], k), cuts[..last][k]))
  {
    var last := |cuts| - 1;
    var init := cuts[..last];
    if k :| 0 <= k < |cuts| && UntaggedEnd(p, Start(cuts, k), cuts[k]) {
      if k < last { assert Start(init, k) == Start(cuts, k) && init[k] == cuts[k]; }
    }
    if k :| 0 <= k < last && UntaggedEnd(p, Start(init, k), init[k]) {
      assert Start(init, k) == Start(cuts, k) && init[k] == cuts[k];
    }
  }

  ghost predicate UntaggedEnd(p: Plan, start: nat, end: nat) {
    && start <= end < |p.ordered| && p.ordered[end] in p.checkpoints && p.ordered[end] !in p.boundaries
    && end - start + 1 > 2 * p.maxCommits
  }
}
