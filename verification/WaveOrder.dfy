/** `checkpoint_order`: the explicit-stack depth-first walk along the first-parent mainline. */
module WaveOrder {
  import opened History

  datatype Commit = Commit(sha: Sha, parents: seq<Sha>)

  /** One stack entry: a commit still to open, or (expanded) one to emit on the way back. */
  datatype Frame = Frame(sha: Sha, expanded: bool)

  ghost function Elems(s: seq<Sha>): set<Sha> {
    set x | x in s
  }

  ghost predicate Distinct(s: seq<Sha>) {
    forall i, j :: 0 <= i < j < |s| ==> s[i] != s[j]
  }

  /** A duplicate-free enumeration in which every parent known to g precedes its child. */
  ghost predicate Listing(g: Graph, order: seq<Sha>) {
    && Distinct(order)
    && (forall i :: 0 <= i < |order| ==> order[i] in g)
    && (forall i, p :: 0 <= i < |order| && p in g[order[i]] && p in g ==> p in order[..i])
  }

  // ---- Reference: recursive post-order -------------------------------------------------

  ghost function Visit(g: Graph, rank: Sha -> nat, s: Sha, done: seq<Sha>): seq<Sha>
    requires Ranked(g, rank)
    decreases rank(s), 1, 0
  {
    if s !in g || s in done then done else VisitAll(g, rank, g[s], rank(s), done) + [s]
  }

  ghost function VisitAll(g: Graph, rank: Sha -> nat, ps: seq<Sha>, bound: nat, done: seq<Sha>): seq<Sha>
    requires Ranked(g, rank)
    requires forall p :: p in ps ==> rank(p) < bound
    decreases bound, 0, |ps|
  {
    if ps == [] then done else VisitAll(g, rank, ps[1..], bound, Visit(g, rank, ps[0], done))
  }

  lemma ListingClosed(g: Graph, order: seq<Sha>)
    requires Listing(g, order)
    ensures ParentClosed(g, Elems(order))
  {
    forall c, p | c in Elems(order) && c in g && p in g[c] && p in g ensures p in Elems(order) {
      var i :| 0 <= i < |order| && order[i] == c;
      assert p in order[..i];
    }
  }

  lemma {:induction false} VisitBound(g: Graph, rank: Sha -> nat, s: Sha, done: seq<Sha>)
    requires Ranked(g, rank)
    ensures forall x :: x in Visit(g, rank, s, done) ==> x in done || rank(x) <= rank(s)
    decreases rank(s), 1, 0
  {
    if s in g && s !in done { VisitAllBound(g, rank, g[s], rank(s), done); }
  }

  lemma {:induction false} VisitAllBound(g: Graph, rank: Sha -> nat, ps: seq<Sha>, bound: nat, done: seq<Sha>)
    requires Ranked(g, rank)
    requires forall p :: p in ps ==> rank(p) < bound
    ensures forall x :: x in VisitAll(g, rank, ps, bound, done) ==> x in done || rank(x) < bound
    decreases bound, 0, |ps|
  {
    if ps != [] {
      VisitBound(g, rank, ps[0], done);
      VisitAllBound(g, rank, ps[1..], bound, Visit(g, rank, ps[0], done));
    }
  }

  /** Visiting s extends a listing by exactly the missing ancestors of s, s itself last. */
  lemma {:induction false} VisitListing(g: Graph, rank: Sha -> nat, s: Sha, done: seq<Sha>)
    requires Ranked(g, rank) && Listing(g, done)
    ensures Listing(g, Visit(g, rank, s, done)) && done <= Visit(g, rank, s, done)
    ensures Elems(Visit(g, rank, s, done)) == Elems(done) + Reach(g, s)
    decreases rank(s), 1, 0
  {
    if s !in g {
      NothingReached(g, s);
    } else {
      ReachUnfold(g, s);
      if s in done {
        ListingClosed(g, done);
        ClosedHoldsReach(g, Elems(done), s);
      } else {
        var inner := VisitAll(g, rank, g[s], rank(s), done);
        VisitAllListing(g, rank, g[s], rank(s), done);
        VisitAllBound(g, rank, g[s], rank(s), done);
        AppendListing(g, inner, s);
        assert forall a :: a in inner + [s] <==> a in done || a in Reach(g, s);
      }
    }
  }

  lemma AppendListing(g: Graph, inner: seq<Sha>, s: Sha)
    requires Listing(g, inner) && s in g && s !in inner
    requires forall p, a :: p in g[s] && a in Reach(g, p) ==> a in inner
    ensures Listing(g, inner + [s])
  {
    var out := inner + [s];
    forall i, p | 0 <= i < |out| && p in g[out[i]] && p in g ensures p in out[..i] {
      if i < |inner| {
        assert out[..i] == inner[..i];
      } else {
        AncestorSelf(g, p);
        assert p in Reach(g, p) && out[..i] == inner;
      }
    }
  }

  lemma {:induction false} VisitAllListing(g: Graph, rank: Sha -> nat, ps: seq<Sha>, bound: nat, done: seq<Sha>)
    requires Ranked(g, rank) && Listing(g, done)
    requires forall p :: p in ps ==> rank(p) < bound
    ensures Listing(g, VisitAll(g, rank, ps, bound, done)) && done <= VisitAll(g, rank, ps, bound, done)
    ensures forall a :: a in VisitAll(g, rank, ps, bound, done) <==>
                        a in done || exists p :: p in ps && a in Reach(g, p)
    decreases bound, 0, |ps|
  {
    if ps != [] {
      var next := Visit(g, rank, ps[0], done);
      VisitListing(g, rank, ps[0], done);
      VisitAllListing(g, rank, ps[1..], bound, next);
      assert forall p :: p in ps <==> p == ps[0] || p in ps[1..];
      forall a ensures a in next <==> a in done || a in Reach(g, ps[0]) {
        assert a in next <==> a in Elems(next);
        assert a in done <==> a in Elems(done);
      }
    }
  }

  ghost function ReachAny(g: Graph, ps: seq<Sha>): set<Sha> {
    set a | a in g.Keys && exists p :: p in ps && a in Reach(g, p)
  }

  /** Some prefix of the order holds exactly these commits. */
  ghost predicate ListedFirst(order: seq<Sha>, s: set<Sha>) {
    exists k :: 0 <= k <= |order| && Elems(order[..k]) == s
  }

  lemma {:induction false} VisitAllInTwo(g: Graph, rank: Sha -> nat, ps: seq<Sha>, bound: nat, done: seq<Sha>, n: nat)
    requires Ranked(g, rank) && (forall p :: p in ps ==> rank(p) < bound) && n <= |ps|
    ensures VisitAll(g, rank, ps, bound, done)
         == VisitAll(g, rank, ps[n..], bound, VisitAll(g, rank, ps[..n], bound, done))
    decreases n
  {
    if n > 0 {
      VisitAllInTwo(g, rank, ps[1..], bound, Visit(g, rank, ps[0], done), n - 1);
      assert ps[1..][n - 1..] == ps[n..] && ps[1..][..n - 1] == ps[..n][1..];
    } else {
      assert ps[0..] == ps;
    }
  }

  /** The branches that c merges come in the order of its parents: what the first n parents bring is listed
      before anything that only a later parent brings. */
  lemma BranchesInOrder(g: Graph, rank: Sha -> nat, c: Sha, done: seq<Sha>, n: nat)
    requires Ranked(g, rank) && Listing(g, done) && c in g && c !in done && n <= |g[c]|
    ensures ListedFirst(Visit(g, rank, c, done), Elems(done) + ReachAny(g, g[c][..n]))
  {
    var first := VisitAll(g, rank, g[c][..n], rank(c), done);
    VisitAllListing(g, rank, g[c][..n], rank(c), done);
    VisitAllListing(g, rank, g[c][n..], rank(c), first);
    VisitAllInTwo(g, rank, g[c], rank(c), done, n);
    assert Visit(g, rank, c, done)[..|first|] == first;
    assert Elems(first) == Elems(done) + ReachAny(g, g[c][..n]);
  }

  // ---- The stack machine ---------------------------------------------------------------

  function Reversed(ps: seq<Sha>): seq<Frame> {
    if ps == [] then [] else Reversed(ps[1..]) + [Frame(ps[0], false)]
  }

  /** What popping the whole stack, top first, will have emitted. */
  ghost function Drain(g: Graph, rank: Sha -> nat, stack: seq<Frame>, done: seq<Sha>): seq<Sha>
    requires Ranked(g, rank)
    decreases |stack|
  {
    if stack == [] then done
    else
      var top, rest := stack[|stack| - 1], stack[..|stack| - 1];
      if !top.expanded then Drain(g, rank, rest, Visit(g, rank, top.sha, done))
      else Drain(g, rank, rest, if top.sha !in g || top.sha in done then done else done + [top.sha])
  }

  lemma {:induction false} DrainParents(g: Graph, rank: Sha -> nat, stack: seq<Frame>, ps: seq<Sha>, bound: nat,
                                        done: seq<Sha>)
    requires Ranked(g, rank) && forall p :: p in ps ==> rank(p) < bound
    ensures Drain(g, rank, stack + Reversed(ps), done) == Drain(g, rank, stack, VisitAll(g, rank, ps, bound, done))
    decreases |ps|
  {
    if ps == [] {
      assert stack + Reversed(ps) == stack;
    } else {
      var whole := stack + Reversed(ps);
      assert whole[..|whole| - 1] == stack + Reversed(ps[1..]);
      DrainParents(g, rank, stack, ps[1..], bound, Visit(g, rank, ps[0], done));
    }
  }

  /** Replacing an unopened commit by its expanded frame below its parents keeps the outcome. */
  lemma DrainOpen(g: Graph, rank: Sha -> nat, rest: seq<Frame>, s: Sha, done: seq<Sha>)
    requires Ranked(g, rank) && s in g && s !in done
    ensures Drain(g, rank, rest + [Frame(s, true)] + Reversed(g[s]), done)
         == Drain(g, rank, rest, Visit(g, rank, s, done))
  {
    DrainParents(g, rank, rest + [Frame(s, true)], g[s], rank(s), done);
    VisitAllBound(g, rank, g[s], rank(s), done);
    assert (rest + [Frame(s, true)])[..|rest|] == rest;
  }

  ghost function Opened(stack: seq<Frame>): set<Sha> {
    set i | 0 <= i < |stack| && stack[i].expanded :: stack[i].sha
  }

  /** Whatever lies above an opened commit is one of its proper ancestors, hence of lower rank. */
  ghost predicate Falling(rank: Sha -> nat, stack: seq<Frame>) {
    forall i, j :: 0 <= i < j < |stack| && stack[i].expanded ==> rank(stack[j].sha) < rank(stack[i].sha)
  }

  lemma {:induction false} ReversedFrames(ps: seq<Sha>)
    ensures |Reversed(ps)| == |ps|
    ensures forall k :: 0 <= k < |ps| ==> Reversed(ps)[k] == Frame(ps[|ps| - 1 - k], false)
  {
    if ps != [] { ReversedFrames(ps[1..]); }
  }

  lemma OpenKeepsFalling(g: Graph, rank: Sha -> nat, rest: seq<Frame>, s: Sha)
    requires Ranked(g, rank) && s in g && Falling(rank, rest + [Frame(s, false)])
    ensures Falling(rank, rest + [Frame(s, true)] + Reversed(g[s]))
    ensures s !in Opened(rest)
    ensures Opened(rest + [Frame(s, true)] + Reversed(g[s])) == Opened(rest) + {s}
  {
    var before, after := rest + [Frame(s, false)], rest + [Frame(s, true)] + Reversed(g[s]);
    ReversedFrames(g[s]);
    forall i | 0 <= i < |rest| && rest[i].expanded ensures rank(s) < rank(rest[i].sha) {
      assert before[i] == rest[i] && before[|rest|].sha == s;
    }
    forall j | |rest| < j < |after| ensures !after[j].expanded && rank(after[j].sha) < rank(s) {
      assert after[j] == Reversed(g[s])[j - |rest| - 1];
      assert after[j].sha in g[s];
    }
    forall i, j | 0 <= i < j < |after| && after[i].expanded ensures rank(after[j].sha) < rank(after[i].sha) {
      if j < |rest| { assert before[i] == after[i] && before[j] == after[j]; }
    }
    assert forall i :: 0 <= i < |rest| ==> after[i] == rest[i];
    assert after[|rest|] == Frame(s, true);
    forall x ensures x in Opened(after) <==> x in Opened(rest) || x == s {
      if x in Opened(rest) {
        var i :| 0 <= i < |rest| && rest[i].expanded && rest[i].sha == x;
        assert after[i].expanded;
      }
    }
  }

  lemma PopOpened(rest: seq<Frame>, top: Frame)
    ensures Opened(rest + [top]) == Opened(rest) + (if top.expanded then {top.sha} else {})
  {
    var whole := rest + [top];
    assert forall i :: 0 <= i < |rest| ==> whole[i] == rest[i];
    assert whole[|rest|] == top;
    forall x ensures x in Opened(whole) <==> x in Opened(rest) || (top.expanded && x == top.sha) {
      if x in Opened(rest) {
        var i :| 0 <= i < |rest| && rest[i].expanded && rest[i].sha == x;
        assert whole[i].expanded;
      }
    }
  }

  lemma PopFalling(rank: Sha -> nat, rest: seq<Frame>, top: Frame)
    requires Falling(rank, rest + [top])
    ensures Falling(rank, rest)
  {
    var whole := rest + [top];
    assert forall i :: 0 <= i < |rest| ==> whole[i] == rest[i];
  }

  /** The commits not yet emitted and not yet opened: the walk opens each at most once. */
  ghost function Unopened(g: Graph, ordered: seq<Sha>, stack: seq<Frame>): set<Sha> {
    g.Keys - Elems(ordered) - Opened(stack)
  }

  lemma PopShrinks(g: Graph, ordered: seq<Sha>, rest: seq<Frame>, top: Frame)
    requires top.sha !in g || top.sha in ordered || top.expanded
    ensures var kept := if top.sha !in g || top.sha in ordered then ordered else ordered + [top.sha];
            |Unopened(g, kept, rest)| <= |Unopened(g, ordered, rest + [top])|
  {
    PopOpened(rest, top);
    var kept := if top.sha !in g || top.sha in ordered then ordered else ordered + [top.sha];
    Smaller(Unopened(g, kept, rest), Unopened(g, ordered, rest + [top]));
  }

  lemma OpenShrinks(g: Graph, rank: Sha -> nat, ordered: seq<Sha>, rest: seq<Frame>, s: Sha)
    requires Ranked(g, rank) && s in g && s !in ordered && Falling(rank, rest + [Frame(s, false)])
    ensures |Unopened(g, ordered, rest + [Frame(s, true)] + Reversed(g[s]))|
          < |Unopened(g, ordered, rest + [Frame(s, false)])|
  {
    PopOpened(rest, Frame(s, false));
    OpenKeepsFalling(g, rank, rest, s);
    var before := Unopened(g, ordered, rest + [Frame(s, false)]);
    assert s in before;
    Smaller(Unopened(g, ordered, rest + [Frame(s, true)] + Reversed(g[s])), before - {s});
  }

  lemma LastSplit(stack: seq<Frame>)
    requires stack != []
    ensures stack == stack[..|stack| - 1] + [stack[|stack| - 1]]
  {}

  lemma ElemsAppend(s: seq<Sha>, x: Sha)
    ensures Elems(s + [x]) == Elems(s) + {x}
  {}

  lemma Smaller(a: set<Sha>, b: set<Sha>)
    requires a <= b
    ensures |a| <= |b|
  {
    var rest := b - a;
    assert b == a + rest;
  }

  /** The stack is well ranked and still leads to the outcome. */
  ghost predicate OnCourse(g: Graph, rank: Sha -> nat, stack: seq<Frame>, ordered: seq<Sha>, outcome: seq<Sha>)
    requires Ranked(g, rank)
  {
    Falling(rank, stack) && Drain(g, rank, stack, ordered) == outcome
  }

  lemma PopStep(g: Graph, rank: Sha -> nat, rest: seq<Frame>, top: Frame, ordered: seq<Sha>, outcome: seq<Sha>)
    requires Ranked(g, rank) && OnCourse(g, rank, rest + [top], ordered, outcome)
    requires top.sha !in g || top.sha in ordered || top.expanded
    ensures var next := if top.sha !in g || top.sha in ordered then ordered else ordered + [top.sha];
            OnCourse(g, rank, rest, next, outcome)
    ensures |Unopened(g, if top.sha !in g || top.sha in ordered then ordered else ordered + [top.sha], rest)|
         <= |Unopened(g, ordered, rest + [top])|
  {
    PopFalling(rank, rest, top);
    PopShrinks(g, ordered, rest, top);
    assert (rest + [top])[..|rest|] == rest;
  }

  lemma OpenStep(g: Graph, rank: Sha -> nat, rest: seq<Frame>, s: Sha, ordered: seq<Sha>, outcome: seq<Sha>)
    requires Ranked(g, rank) && OnCourse(g, rank, rest + [Frame(s, false)], ordered, outcome)
    requires s in g && s !in ordered
    ensures OnCourse(g, rank, rest + [Frame(s, true)] + Reversed(g[s]), ordered, outcome)
    ensures |Unopened(g, ordered, rest + [Frame(s, true)] + Reversed(g[s]))|
          < |Unopened(g, ordered, rest + [Frame(s, false)])|
  {
    OpenShrinks(g, rank, ordered, rest, s);
    OpenKeepsFalling(g, rank, rest, s);
    DrainOpen(g, rank, rest, s, ordered);
    assert (rest + [Frame(s, false)])[..|rest|] == rest;
  }

  lemma StartStep(g: Graph, rank: Sha -> nat, s: Sha, ordered: seq<Sha>)
    requires Ranked(g, rank)
    ensures OnCourse(g, rank, [Frame(s, false)], ordered, Visit(g, rank, s, ordered))
  {
    assert [Frame(s, false)][..0] == [];
    assert Drain(g, rank, [], Visit(g, rank, s, ordered)) == Visit(g, rank, s, ordered);
  }

  /** The inner loop for one checkpoint: terminates and emits exactly the recursive post-order. */
  method VisitCheckpoint(bySha: Graph, checkpoint: Sha, ordered0: seq<Sha>, seen0: set<Sha>, ghost rank: Sha -> nat)
    returns (ordered: seq<Sha>, seen: set<Sha>)
    requires Ranked(bySha, rank)
    requires seen0 == Elems(ordered0)
    ensures ordered == Visit(bySha, rank, checkpoint, ordered0)
    ensures seen == Elems(ordered)
  {
    ordered, seen := ordered0, seen0;
    var stack := [Frame(checkpoint, false)];
    ghost var outcome := Visit(bySha, rank, checkpoint, ordered0);
    StartStep(bySha, rank, checkpoint, ordered);
    while stack != []
      invariant seen == Elems(ordered)
      invariant OnCourse(bySha, rank, stack, ordered, outcome)
      decreases |Unopened(bySha, ordered, stack)|, |stack|
    {
      var top := stack[|stack| - 1];
      LastSplit(stack);
      stack := stack[..|stack| - 1];
      if top.sha !in bySha || top.sha in seen {
        PopStep(bySha, rank, stack, top, ordered, outcome);
      } else if top.expanded {
        PopStep(bySha, rank, stack, top, ordered, outcome);
        ElemsAppend(ordered, top.sha);
        seen := seen + {top.sha};
        ordered := ordered + [top.sha];
      } else {
        OpenStep(bySha, rank, stack, top.sha, ordered, outcome);
        stack := stack + [Frame(top.sha, true)] + Reversed(bySha[top.sha]);
      }
    }
  }

  // ---- checkpoint_order ----------------------------------------------------------------

  /** What `git log --reverse --topo-order` guarantees of its listing. */
  ghost predicate ParentsFirst(commits: seq<Commit>) {
    && (forall i :: 0 <= i < |commits| ==> commits[i].sha != "")
    && (forall i, j :: 0 <= i < j < |commits| ==> commits[i].sha != commits[j].sha)
    && (forall i, j :: 0 <= i < |commits| && 0 <= j < |commits| && commits[j].sha in commits[i].parents ==> j < i)
  }

  ghost function BySha(commits: seq<Commit>): Graph {
    map c | c in Shas(commits) :: ParentsOf(commits, c)
  }

  ghost function Shas(commits: seq<Commit>): set<Sha> {
    set c | c in commits :: c.sha
  }

  ghost function ParentsOf(commits: seq<Commit>, s: Sha): seq<Sha>
    requires s in Shas(commits)
  {
    var i :| 0 <= i < |commits| && commits[i].sha == s;
    commits[i].parents
  }

  lemma ByShaAt(commits: seq<Commit>, i: nat)
    requires ParentsFirst(commits) && i < |commits|
    ensures commits[i].sha in BySha(commits) && BySha(commits)[commits[i].sha] == commits[i].parents
  {
    assert commits[i] in commits;
    assert commits[i].sha in Shas(commits);
  }

  /** Position in the listing: the rank that makes a parents-first listing acyclic. */
  ghost function Position(commits: seq<Commit>, s: Sha): nat {
    if i :| 0 <= i < |commits| && commits[i].sha == s then i + 1 else 0
  }

  lemma PositionRanks(commits: seq<Commit>)
    requires ParentsFirst(commits)
    ensures Ranked(BySha(commits), s => Position(commits, s))
  {
    var g := BySha(commits);
    forall c, p | c in g && p in g[c] ensures Position(commits, p) < Position(commits, c) {
      var i :| 0 <= i < |commits| && commits[i].sha == c;
      ByShaAt(commits, i);
      if Position(commits, p) > 0 {
        var j := Position(commits, p) - 1;
        assert commits[j].sha in commits[i].parents;
      }
    }
  }

  /** The first-parent chain from c for as long as it stays in g. */
  ghost function FirstParents(g: Graph, rank: Sha -> nat, c: Sha): seq<Sha>
    requires Ranked(g, rank)
    decreases rank(c)
  {
    if c !in g then [] else if g[c] == [] then [c] else [c] + FirstParents(g, rank, g[c][0])
  }

  /** Some commit at or above c inside g names base as a parent. */
  ghost predicate Below(g: Graph, base: Sha, c: Sha) {
    exists d :: Ancestor(g, d, c) && d in g && base in g[d]
  }

  /** The listing up to m is exactly m with all its ancestors. */
  ghost predicate Settled(g: Graph, ordered: seq<Sha>, m: Sha) {
    exists i :: 0 <= i < |ordered| && ordered[i] == m && Elems(ordered[..i + 1]) == Reach(g, m)
  }

  lemma BelowUnfold(g: Graph, base: Sha, c: Sha)
    requires c in g
    ensures Below(g, base, c) <==> base in g[c] || exists p :: p in g[c] && p in g && Below(g, base, p)
  {
    AncestorSelf(g, c);
    if Below(g, base, c) {
      var d :| Ancestor(g, d, c) && d in g && base in g[d];
      if d != c {
        var p := AncestorDown(g, d, c);
        AncestorEnds(g, d, p);
        assert Below(g, base, p);
      }
    }
    forall p | p in g[c] && p in g && Below(g, base, p) ensures Below(g, base, c) {
      var d :| Ancestor(g, d, p) && d in g && base in g[d];
      AncestorUp(g, d, p, c);
    }
  }

  /** In the order, what m's first n parents reach comes before anything else that m reaches. */
  ghost predicate Merges(g: Graph, ordered: seq<Sha>, m: Sha) {
    m in g && forall n :: 0 <= n <= |g[m]| ==> ListedFirst(ordered, ReachAny(g, g[m][..n]))
  }

  lemma VisitMerges(g: Graph, rank: Sha -> nat, m: Sha, done: seq<Sha>)
    requires Ranked(g, rank) && m in g && Listing(g, done)
    requires done != [] ==> g[m] != [] && Elems(done) == Reach(g, g[m][0])
    ensures Merges(g, Visit(g, rank, m, done), m)
  {
    if m in done {
      assert m in Elems(done);
      AncestorRank(g, rank, m, g[m][0]);
    }
    forall n | 0 <= n <= |g[m]| ensures ListedFirst(Visit(g, rank, m, done), ReachAny(g, g[m][..n])) {
      if n == 0 {
        assert Elems(Visit(g, rank, m, done)[..0]) == ReachAny(g, []);
      } else {
        BranchesInOrder(g, rank, m, done, n);
        assert done != [] ==> g[m][0] in g[m][..n];
        assert Elems(done) <= ReachAny(g, g[m][..n]);
      }
    }
  }

  lemma MergesStays(g: Graph, done: seq<Sha>, more: seq<Sha>, m: Sha)
    requires Merges(g, done, m) && done <= more
    ensures Merges(g, more, m)
  {
    forall n | 0 <= n <= |g[m]| ensures ListedFirst(more, ReachAny(g, g[m][..n])) {
      assert ListedFirst(done, ReachAny(g, g[m][..n]));
      var k :| 0 <= k <= |done| && Elems(done[..k]) == ReachAny(g, g[m][..n]);
      assert more[..k] == done[..k];
    }
  }

  lemma VisitSettles(g: Graph, rank: Sha -> nat, m: Sha, done: seq<Sha>)
    requires Ranked(g, rank) && m in g && Listing(g, done)
    requires done != [] ==> g[m] != [] && Elems(done) == Reach(g, g[m][0])
    ensures var r := Visit(g, rank, m, done);
            Listing(g, r) && done <= r && Elems(r) == Reach(g, m) && Settled(g, r, m)
  {
    var r := Visit(g, rank, m, done);
    VisitListing(g, rank, m, done);
    ReachUnfold(g, m);
    if m in done {
      assert m in Elems(done);
      AncestorRank(g, rank, m, g[m][0]);
    }
    assert Elems(done) <= Reach(g, m);
    assert r[|r| - 1] == m && r[..|r| - 1 + 1] == r;
  }

  lemma SettledStays(g: Graph, done: seq<Sha>, more: seq<Sha>, m: Sha)
    requires Settled(g, done, m) && done <= more
    ensures Settled(g, more, m)
  {
    var i :| 0 <= i < |done| && done[i] == m && Elems(done[..i + 1]) == Reach(g, m);
    assert more[..i + 1] == done[..i + 1];
  }

  /** m's place in the order: it closes the listing of its ancestors, its branches in order. */
  ghost predicate Placed(g: Graph, ordered: seq<Sha>, m: Sha) {
    Settled(g, ordered, m) && Merges(g, ordered, m)
  }

  lemma PlacedStays(g: Graph, done: seq<Sha>, more: seq<Sha>, m: Sha)
    requires Placed(g, done, m) && done <= more
    ensures Placed(g, more, m)
  {
    SettledStays(g, done, more, m);
    MergesStays(g, done, more, m);
  }

  method CheckpointOrder(commits: seq<Commit>, base: Sha, target: Sha)
    returns (ordered: seq<Sha>, checkpoints: set<Sha>, ghost mainline: seq<Sha>)
    requires ParentsFirst(commits)
    ensures Listing(BySha(commits), ordered)
    ensures Elems(ordered) == Reach(BySha(commits), target)
    ensures Ranked(BySha(commits), s => Position(commits, s))
    ensures forall s :: s in mainline <==> OnMainline(BySha(commits), target, s)
    ensures forall m :: m in mainline ==> Placed(BySha(commits), ordered, m)
    ensures checkpoints == set m | m in mainline && Below(BySha(commits), base, m)
  {
    ghost var rank := s => Position(commits, s);
    PositionRanks(commits);
    var bySha := IndexCommits(commits);
    var descendants := Descendants(commits, base);
    NoEmptySha(commits);
    var chain := WalkMainline(bySha, target, rank);
    ordered := EmitMainline(bySha, target, chain, rank);
    mainline := chain;
    checkpoints := (set m | m in chain) * descendants;
    ChainLinks(bySha, rank, target);
    forall s ensures s in mainline <==> OnMainline(bySha, target, s) { MainlineExactly(bySha, rank, target, s); }
    assert forall m :: m in chain ==> m in Shas(commits);
  }

  lemma NoEmptySha(commits: seq<Commit>)
    requires ParentsFirst(commits)
    ensures "" !in BySha(commits)
  {}

  method WalkMainline(bySha: Graph, target: Sha, ghost rank: Sha -> nat) returns (mainline: seq<Sha>)
    requires Ranked(bySha, rank) && "" !in bySha
    ensures mainline == FirstParents(bySha, rank, target)
  {
    mainline := [];
    var current := target;
    while current in bySha
      invariant mainline + FirstParents(bySha, rank, current) == FirstParents(bySha, rank, target)
      decreases if current in bySha then rank(current) + 1 else 0
    {
      var parents := bySha[current];
      mainline := mainline + [current];
      assert parents != [] ==> parents[0] in bySha[current];
      current := if parents != [] then parents[0] else "";
    }
  }

  /** The mainline commits from position k on are settled, and nothing beyond them is listed. */
  ghost predicate SettledFrom(g: Graph, mainline: seq<Sha>, ordered: seq<Sha>, k: nat)
    requires k <= |mainline|
  {
    && Listing(g, ordered)
    && (if k == |mainline| then ordered == [] else Elems(ordered) == Reach(g, mainline[k]))
    && forall j :: k <= j < |mainline| ==> Placed(g, ordered, mainline[j])
  }

  lemma SettleNext(g: Graph, rank: Sha -> nat, mainline: seq<Sha>, ordered: seq<Sha>, k: nat)
    requires Ranked(g, rank) && IsChain(g, mainline) && 0 < k <= |mainline| && SettledFrom(g, mainline, ordered, k)
    ensures SettledFrom(g, mainline, Visit(g, rank, mainline[k - 1], ordered), k - 1)
  {
    var m := mainline[k - 1];
    if k < |mainline| { assert FirstParent(g, m, mainline[k]); }
    VisitSettles(g, rank, m, ordered);
    VisitMerges(g, rank, m, ordered);
    forall j | k <= j < |mainline| ensures Placed(g, Visit(g, rank, m, ordered), mainline[j]) {
      PlacedStays(g, ordered, Visit(g, rank, m, ordered), mainline[j]);
    }
  }

  /** Oldest checkpoint first: each step settles one mainline commit and keeps the earlier ones. */
  method EmitMainline(bySha: Graph, target: Sha, mainline: seq<Sha>, ghost rank: Sha -> nat)
    returns (ordered: seq<Sha>)
    requires Ranked(bySha, rank) && mainline == FirstParents(bySha, rank, target)
    ensures Listing(bySha, ordered)
    ensures Elems(ordered) == Reach(bySha, target)
    ensures forall m :: m in mainline ==> Placed(bySha, ordered, m)
  {
    ChainLinks(bySha, rank, target);
    ordered := [];
    var seen: set<Sha> := {};
    var k := |mainline|;
    while k > 0
      invariant 0 <= k <= |mainline|
      invariant SettledFrom(bySha, mainline, ordered, k) && seen == Elems(ordered)
    {
      SettleNext(bySha, rank, mainline, ordered, k);
      k := k - 1;
      ordered, seen := VisitCheckpoint(bySha, mainline[k], ordered, seen, rank);
    }
    if mainline == [] { NothingReached(bySha, target); }
  }

  lemma NothingReached(g: Graph, c: Sha)
    requires c !in g
    ensures Reach(g, c) == {}
  {
    forall a | a in Reach(g, c) ensures false { AncestorEnds(g, a, c); }
  }

  /** Consecutive entries are joined by first-parent edges of g. */
  ghost predicate IsChain(g: Graph, chain: seq<Sha>) {
    && (forall i :: 0 <= i < |chain| ==> chain[i] in g)
    && (forall i, j :: 0 <= i && j == i + 1 && j < |chain| ==> FirstParent(g, chain[i], chain[j]))
  }

  ghost predicate FirstParent(g: Graph, c: Sha, p: Sha)
    requires c in g
  {
    g[c] != [] && g[c][0] == p
  }

  lemma {:induction false} ChainLinks(g: Graph, rank: Sha -> nat, c: Sha)
    requires Ranked(g, rank)
    ensures FirstParents(g, rank, c) == [] <==> c !in g
    ensures c in g ==> FirstParents(g, rank, c)[0] == c
    ensures IsChain(g, FirstParents(g, rank, c))
    decreases rank(c)
  {
    if c in g && g[c] != [] {
      var rest := FirstParents(g, rank, g[c][0]);
      ChainLinks(g, rank, g[c][0]);
      ChainCons(g, c, rest);
    }
  }

  lemma ChainCons(g: Graph, c: Sha, rest: seq<Sha>)
    requires IsChain(g, rest) && c in g && g[c] != [] && (rest != [] ==> rest[0] == g[c][0])
    ensures IsChain(g, [c] + rest)
  {
    var chain := [c] + rest;
    forall i, j | 0 <= i && j == i + 1 && j < |chain| ensures FirstParent(g, chain[i], chain[j]) {
      if i > 0 {
        var k := i - 1;
        assert chain[i] == rest[k] && chain[j] == rest[i];
      }
    }
  }

  /** Following first parents inside g leads from c to s. */
  ghost predicate OnMainline(g: Graph, c: Sha, s: Sha) {
    exists chain :: FirstParentChain(g, chain, c, s)
  }

  ghost predicate FirstParentChain(g: Graph, chain: seq<Sha>, from: Sha, to: Sha) {
    chain != [] && chain[0] == from && chain[|chain| - 1] == to && IsChain(g, chain)
  }

  /** The chain goes on for as long as first parents stay in g, and holds nothing else. */
  lemma {:induction false} MainlineExactly(g: Graph, rank: Sha -> nat, c: Sha, s: Sha)
    requires Ranked(g, rank)
    ensures s in FirstParents(g, rank, c) <==> OnMainline(g, c, s)
    decreases rank(c)
  {
    if s in FirstParents(g, rank, c) {
      var chain := FirstParents(g, rank, c);
      ChainLinks(g, rank, c);
      var i :| 0 <= i < |chain| && chain[i] == s;
      assert FirstParentChain(g, chain[..i + 1], c, s);
    }
    if chain :| FirstParentChain(g, chain, c, s) {
      if |chain| > 1 {
        assert FirstParent(g, chain[0], chain[1]);
        assert chain[1] in g[c];
        ChainTail(g, chain);
        assert FirstParentChain(g, chain[1..], chain[1], s);
        MainlineExactly(g, rank, chain[1], s);
      }
    }
  }

  lemma ChainTail(g: Graph, chain: seq<Sha>)
    requires IsChain(g, chain) && chain != []
    ensures IsChain(g, chain[1..])
  {
    var rest := chain[1..];
    forall i, j | 0 <= i && j == i + 1 && j < |rest| ensures FirstParent(g, rest[i], rest[j]) {
      assert FirstParent(g, chain[i + 1], chain[j + 1]);
    }
  }

  method IndexCommits(commits: seq<Commit>) returns (bySha: Graph)
    requires ParentsFirst(commits)
    ensures bySha == BySha(commits)
  {
    bySha := map[];
    for i := 0 to |commits|
      invariant bySha.Keys == Shas(commits[..i])
      invariant forall j :: 0 <= j < i ==> commits[j].sha in bySha && bySha[commits[j].sha] == commits[j].parents
    {
      ShasStep(commits, i);
      bySha := bySha[commits[i].sha := commits[i].parents];
    }
    assert commits[..|commits|] == commits;
    forall s | s in bySha ensures bySha[s] == BySha(commits)[s] {
      var i :| 0 <= i < |commits| && commits[i].sha == s;
      ByShaAt(commits, i);
    }
  }

  lemma ShasStep(commits: seq<Commit>, i: nat)
    requires i < |commits|
    ensures Shas(commits[..i + 1]) == Shas(commits[..i]) + {commits[i].sha}
  {
    assert commits[..i + 1] == commits[..i] + [commits[i]];
  }

  /** One pass over the listing finds every commit below base, because parents come first. */
  method Descendants(commits: seq<Commit>, base: Sha) returns (descendants: set<Sha>)
    requires ParentsFirst(commits)
    ensures descendants == set s | s in Shas(commits) && Below(BySha(commits), base, s)
  {
    ghost var g := BySha(commits);
    descendants := {};
    for i := 0 to |commits|
      invariant forall s :: s in descendants <==>
                  exists j :: 0 <= j < i && commits[j].sha == s && Below(g, base, s)
    {
      var item := commits[i];
      ByShaAt(commits, i);
      BelowUnfold(g, base, item.sha);
      forall p | p in item.parents && p in g ensures Below(g, base, p) <==> p in descendants {
        var j :| 0 <= j < |commits| && commits[j].sha == p;
      }
      if exists p :: p in item.parents && (p == base || p in descendants) {
        descendants := descendants + {item.sha};
      }
    }
    assert forall s :: s in Shas(commits) <==> exists j :: 0 <= j < |commits| && commits[j].sha == s;
  }
}
