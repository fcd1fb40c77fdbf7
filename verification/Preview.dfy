/** Path conflicts of a preview: rebranding collisions, blockers, and the iterated classification. */
module Preview {
  import opened Wrappers
  import opened Paths
  import opened Text

  // ---- check_mappings ------------------------------------------------------------------

  datatype MappingError = Collision(first: Path, second: Path, destination: Path)
                        | Overlap(parent: Path, destination: Path)

  /** Renaming by f keeps the entries apart and leaves no file where a directory is needed. */
  ghost predicate Mappable(entries: set<Path>, f: Path -> Path) {
    && (forall a, b :: a in entries && b in entries && f(a) == f(b) ==> a == b)
    && PrefixFree(Image(entries, f))
  }

  ghost function Image(entries: set<Path>, f: Path -> Path): set<Path> {
    set p | p in entries :: f(p)
  }

  ghost predicate Witnessed(error: MappingError, entries: set<Path>, f: Path -> Path) {
    match error
    case Collision(a, b, d) => a in entries && b in entries && a != b && f(a) == d && f(b) == d
    case Overlap(p, d) => p in Image(entries, f) && d in Image(entries, f) && Inside(d, p)
  }

  /** `entries` is the tree's key order; a dictionary lists each path once. */
  method CheckMappings(entries: seq<Path>, forkPath: Path -> Path) returns (error: Option<MappingError>)
    requires forall i, j :: 0 <= i < j < |entries| ==> entries[i] != entries[j]
    ensures error.None? <==> Mappable(Elems(entries), forkPath)
    ensures error.Some? ==> Witnessed(error.value, Elems(entries), forkPath)
  {
    var mapped: map<Path, Path> := map[];
    for i := 0 to |entries|
      invariant forall d :: d in mapped ==> mapped[d] in entries[..i] && forkPath(mapped[d]) == d
      invariant forall k :: 0 <= k < i ==> forkPath(entries[k]) in mapped && mapped[forkPath(entries[k])] == entries[k]
    {
      var destination := forkPath(entries[i]);
      if destination in mapped {
        assert mapped[destination] in entries[..i];
        return Some(Collision(mapped[destination], entries[i], destination));
      }
      assert entries[..i + 1] == entries[..i] + [entries[i]];
      mapped := mapped[destination := entries[i]];
    }
    assert mapped.Keys == Image(Elems(entries), forkPath);
    var rest := mapped.Keys;
    while rest != {}
      invariant rest <= mapped.Keys
      invariant forall d, p :: d in mapped && d !in rest && p in mapped ==> !Inside(d, p)
      decreases rest
    {
      var destination :| destination in rest;
      var parent := MappedParent(destination, mapped.Keys);
      if parent.Some? {
        return Some(Overlap(parent.value, destination));
      }
      rest := rest - {destination};
    }
    error := None;
  }

  /** The first ancestor of destination that is itself a destination. */
  method MappedParent(destination: Path, mapped: set<Path>) returns (parent: Option<Path>)
    ensures parent.Some? ==> parent.value in mapped && Inside(destination, parent.value)
    ensures parent.None? ==> forall p :: p in mapped ==> !Inside(destination, p)
  {
    var parts := Split(destination, '/');
    for end := 1 to |parts|
      invariant forall e :: 1 <= e < end ==> Parent(destination, e) !in mapped
    {
      var candidate := Join(parts[..end], '/');
      ParentIsAbove(destination, end);
      if candidate in mapped { return Some(candidate); }
    }
    forall p | p in mapped ensures !Inside(destination, p) {
      if Inside(destination, p) { AboveIsParent(destination, p); }
    }
    parent := None;
  }

  // ---- path_blockers -------------------------------------------------------------------

  /** Exactly the entries that are a proper ancestor or a proper descendant of path, ascending. */
  method PathBlockers(path: Path, entries: set<Path>, ordered: seq<Path>) returns (blockers: seq<Path>)
    requires Ascending(ordered) && Elems(ordered) == entries
    ensures Ascending(blockers)
    ensures forall b :: b in blockers <==> b in entries && Clash(b, path)
  {
    var found := ParentsIn(path, entries);
    var prefix := path + "/";
    var index := BisectLeft(ordered, prefix);
    ghost var parents, first := found, index;
    while index < |ordered| && prefix <= ordered[index]
      invariant first <= index <= |ordered|
      invariant found == parents + ordered[first..index]
      invariant forall i :: first <= i < index ==> prefix <= ordered[i]
    {
      found := found + [ordered[index]];
      index := index + 1;
    }
    ScanIsComplete(prefix, ordered, first, index);
    forall i, j | 0 <= i < j < |found| ensures found[i] != found[j] {
      if j >= |parents| {
        var b := ordered[first + j - |parents|];
        assert found[j] == b;
        if i < |parents| { assert Inside(path, found[i]); } else { LessTotal(found[i], found[j]); }
      }
    }
    blockers := Sorted(found);
    forall b ensures b in blockers <==> b in entries && Clash(b, path) {
      assert b in entries <==> b in Elems(ordered);
      assert b in found <==> b in parents || b in ordered[first..index];
    }
  }

  /** The ancestor directories with fewer than n components that are entries, shortest first. */
  function ParentsUpTo(path: Path, entries: set<Path>, n: nat): seq<Path>
    requires 1 <= n <= |Split(path, '/')|
  {
    if n == 1 then []
    else
      ParentsUpTo(path, entries, n - 1) + (if Parent(path, n - 1) in entries then [Parent(path, n - 1)] else [])
  }

  lemma {:induction false} ParentsUpToAre(path: Path, entries: set<Path>, n: nat)
    requires 1 <= n <= |Split(path, '/')|
    ensures forall b :: b in ParentsUpTo(path, entries, n) <==>
                        b in entries && exists e :: 1 <= e < n && Parent(path, e) == b
  {
    if n > 1 {
      ParentsUpToAre(path, entries, n - 1);
      forall b | b in ParentsUpTo(path, entries, n)
        ensures b in entries && exists e :: 1 <= e < n && Parent(path, e) == b
      {
        if b !in ParentsUpTo(path, entries, n - 1) { assert Parent(path, n - 1) == b; }
      }
    }
  }

  /** Lengths increase and stay below the bound. */
  ghost predicate Lengthening(found: seq<Path>, bound: nat) {
    && (forall i, j :: 0 <= i < j < |found| ==> |found[i]| < |found[j]|)
    && forall i :: 0 <= i < |found| ==> |found[i]| < bound
  }

  lemma {:induction false} ParentsUpToGrow(path: Path, entries: set<Path>, n: nat)
    requires 1 <= n <= |Split(path, '/')|
    ensures Lengthening(ParentsUpTo(path, entries, n), |Parent(path, n)|)
  {
    if n > 1 {
      ParentsUpToGrow(path, entries, n - 1);
      ParentsGrow(path, n - 1, n);
      Lengthen(ParentsUpTo(path, entries, n - 1), Parent(path, n - 1), |Parent(path, n)|);
    }
  }

  lemma Lengthen(found: seq<Path>, p: Path, bound: nat)
    requires Lengthening(found, |p|) && |p| < bound
    ensures Lengthening(found, bound) && Lengthening(found + [p], bound)
  {}

  method ParentsIn(path: Path, entries: set<Path>) returns (found: seq<Path>)
    ensures forall b :: b in found <==> b in entries && Inside(path, b)
    ensures forall i, j :: 0 <= i < j < |found| ==> |found[i]| < |found[j]|
  {
    found := [];
    var parts := Split(path, '/');
    for end := 1 to |parts|
      invariant found == ParentsUpTo(path, entries, end)
    {
      var parent := Join(parts[..end], '/');
      assert parent == Parent(path, end);
      if parent in entries { found := found + [parent]; }
    }
    ParentsUpToAre(path, entries, |parts|);
    ParentsUpToGrow(path, entries, |parts|);
    forall b ensures (exists e :: 1 <= e < |parts| && Parent(path, e) == b) <==> Inside(path, b) {
      if Inside(path, b) { AboveIsParent(path, b); }
      forall e | 1 <= e < |parts| && Parent(path, e) == b ensures Inside(path, b) { ParentIsAbove(path, e); }
    }
  }

  lemma ParentsGrow(path: Path, d: nat, e: nat)
    requires 1 <= d < e <= |Split(path, '/')|
    ensures |Parent(path, d)| < |Parent(path, e)|
  {
    var parts := Split(path, '/');
    assert parts[..e] == parts[..d] + parts[d..e];
    JoinAppend(parts[..d], parts[d..e]);
  }

  /** Past the contiguous scan, and before it, no entry carries the prefix. */
  lemma ScanIsComplete(prefix: string, ordered: seq<Path>, first: nat, index: nat)
    requires Ascending(ordered) && first <= index <= |ordered|
    requires forall i :: 0 <= i < first ==> Less(ordered[i], prefix)
    requires forall i :: first <= i < |ordered| ==> !Less(ordered[i], prefix)
    requires index < |ordered| ==> !(prefix <= ordered[index])
    requires forall i :: first <= i < index ==> prefix <= ordered[i]
    ensures forall b :: b in ordered[first..index] <==> b in ordered && prefix <= b
  {
    forall i | 0 <= i < |ordered| && prefix <= ordered[i] ensures first <= i < index {
      PrefixNotAbove(prefix, ordered[i]);
      if i > index { PrefixInterval(prefix, ordered[index], ordered[i]); }
    }
    forall b | b in ordered && prefix <= b ensures b in ordered[first..index] {
      var i :| 0 <= i < |ordered| && ordered[i] == b;
      assert ordered[first..index][i - first] == b;
    }
  }
}
