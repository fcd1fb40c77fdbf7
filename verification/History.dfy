/** Commit histories as finite parent maps, with ancestry defined by paths. */
module History {
  type Sha = string

  /** Commit to its parents, first parent first. Parents outside the map are allowed. */
  type Graph = map<Sha, seq<Sha>>

  ghost predicate IsPath(g: Graph, path: seq<Sha>) {
    && (forall i :: 0 <= i < |path| ==> path[i] in g)
    && (forall i, j :: 0 <= i && j == i + 1 && j < |path| ==> path[j] in g[path[i]])
  }

  ghost predicate Leads(g: Graph, path: seq<Sha>, from: Sha, to: Sha) {
    |path| > 0 && path[0] == from && path[|path| - 1] == to && IsPath(g, path)
  }

  /** a is c itself or reachable from c by following parents inside g. */
  ghost predicate Ancestor(g: Graph, a: Sha, c: Sha) {
    exists path :: Leads(g, path, c, a)
  }

  ghost function Reach(g: Graph, c: Sha): set<Sha> {
    set a | a in g.Keys && Ancestor(g, a, c)
  }

  /** git's `from..to`: ancestors of `to` that are not ancestors of `from`. */
  ghost function RangeOf(g: Graph, from: Sha, to: Sha): set<Sha> {
    Reach(g, to) - Reach(g, from)
  }

  /** Acyclicity, witnessed by a rank that every edge lowers. */
  ghost predicate Ranked(g: Graph, rank: Sha -> nat) {
    forall c, p :: c in g && p in g[c] ==> rank(p) < rank(c)
  }

  ghost predicate ParentClosed(g: Graph, s: set<Sha>) {
    forall c, p :: c in s && c in g && p in g[c] && p in g ==> p in s
  }

  lemma AncestorSelf(g: Graph, c: Sha)
    requires c in g
    ensures Ancestor(g, c, c)
  {
    assert Leads(g, [c], c, c);
  }

  lemma AncestorEnds(g: Graph, a: Sha, c: Sha)
    requires Ancestor(g, a, c)
    ensures a in g && c in g
  {
    var path :| Leads(g, path, c, a);
    assert path[0] in g && path[|path| - 1] in g;
  }

  lemma AncestorUp(g: Graph, a: Sha, p: Sha, c: Sha)
    requires c in g && p in g[c] && Ancestor(g, a, p)
    ensures Ancestor(g, a, c)
  {
    var path :| Leads(g, path, p, a);
    assert Leads(g, [c] + path, c, a);
  }

  lemma AncestorDown(g: Graph, a: Sha, c: Sha) returns (p: Sha)
    requires Ancestor(g, a, c) && a != c
    ensures c in g && p in g[c] && Ancestor(g, a, p)
  {
    var path :| Leads(g, path, c, a);
    p := path[1];
    assert Leads(g, path[1..], p, a);
  }

  lemma {:induction false} AncestorTransitive(g: Graph, a: Sha, b: Sha, c: Sha)
    requires Ancestor(g, a, b) && Ancestor(g, b, c)
    ensures Ancestor(g, a, c)
  {
    var low :| Leads(g, low, b, a);
    var high :| Leads(g, high, c, b);
    var path := high + low[1..];
    forall i, j | 0 <= i && j == i + 1 && j < |path| ensures path[j] in g[path[i]] {
      if j >= |high| { assert path[i] == low[i - |high| + 1] && path[j] == low[j - |high| + 1]; }
    }
    assert Leads(g, path, c, a);
  }

  /** A parent-closed set that holds c holds every ancestor of c. */
  lemma {:induction false} ClosedHoldsReach(g: Graph, s: set<Sha>, c: Sha)
    requires ParentClosed(g, s) && c in s
    ensures Reach(g, c) <= s
  {
    forall a | a in Reach(g, c) ensures a in s {
      var path :| Leads(g, path, c, a);
      PathStays(g, s, path, |path| - 1);
    }
  }

  lemma {:induction false} PathStays(g: Graph, s: set<Sha>, path: seq<Sha>, k: nat)
    requires ParentClosed(g, s) && IsPath(g, path) && k < |path| && path[0] in s
    ensures path[k] in s
  {
    if k > 0 {
      PathStays(g, s, path, k - 1);
      assert path[k] in g[path[k - 1]];
    }
  }

  lemma ReachUnfold(g: Graph, c: Sha)
    requires c in g
    ensures forall a :: a in Reach(g, c) <==> a == c || exists p :: p in g[c] && a in Reach(g, p)
    ensures c in Reach(g, c)
  {
    AncestorSelf(g, c);
    forall a ensures a in Reach(g, c) <==> a == c || exists p :: p in g[c] && a in Reach(g, p) {
      if a in Reach(g, c) && a != c {
        var p := AncestorDown(g, a, c);
        assert a in Reach(g, p);
      }
      forall p | p in g[c] && a in Reach(g, p) ensures a in Reach(g, c) { AncestorUp(g, a, p, c); }
    }
  }

  lemma ReachMonotone(g: Graph, a: Sha, c: Sha)
    requires Ancestor(g, a, c)
    ensures Reach(g, a) <= Reach(g, c)
  {
    forall x | x in Reach(g, a) ensures x in Reach(g, c) { AncestorTransitive(g, x, a, c); }
  }

  lemma {:induction false} RankFalls(g: Graph, rank: Sha -> nat, path: seq<Sha>, k: nat)
    requires Ranked(g, rank) && IsPath(g, path) && k < |path|
    ensures rank(path[k]) <= rank(path[0])
    ensures k > 0 ==> rank(path[k]) < rank(path[0])
  {
    if k > 0 {
      RankFalls(g, rank, path, k - 1);
      assert path[k] in g[path[k - 1]];
    }
  }

  lemma AncestorRank(g: Graph, rank: Sha -> nat, a: Sha, c: Sha)
    requires Ranked(g, rank) && Ancestor(g, a, c)
    ensures rank(a) <= rank(c) && (a != c ==> rank(a) < rank(c))
  {
    var path :| Leads(g, path, c, a);
    RankFalls(g, rank, path, |path| - 1);
  }

  /** Two commits that are ancestors of each other are the same commit. */
  lemma AncestorAntisymmetric(g: Graph, rank: Sha -> nat, a: Sha, c: Sha)
    requires Ranked(g, rank) && Ancestor(g, a, c) && Ancestor(g, c, a)
    ensures a == c
  {
    AncestorRank(g, rank, a, c);
    AncestorRank(g, rank, c, a);
  }
}
