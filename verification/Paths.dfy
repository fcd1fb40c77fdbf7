/** Slash-separated paths: ancestry, code-point order, sorting and bisection. */
module Paths {
  import opened Text

  type Path = string

  /** p lies strictly inside directory a. */
  predicate Inside(p: Path, a: Path) {
    a + "/" <= p
  }

  /** One of the two would have to be a file and a directory at once. */
  predicate Clash(a: Path, b: Path) {
    Inside(a, b) || Inside(b, a)
  }

  /** A set of files in which no file is also a directory. */
  ghost predicate PrefixFree(files: set<Path>) {
    forall a, b :: a in files && b in files ==> !Inside(b, a)
  }

  ghost function Elems(s: seq<Path>): set<Path> {
    set p | p in s
  }

  // ---- Ancestors by components ---------------------------------------------------------

  lemma {:induction false} JoinAppend(a: seq<string>, b: seq<string>)
    requires a != [] && b != []
    ensures Join(a + b, '/') == Join(a, '/') + "/" + Join(b, '/')
    decreases |a|
  {
    if |a| == 1 {
      assert (a + b)[1..] == b;
    } else {
      JoinAppend(a[1..], b);
      assert (a + b)[1..] == a[1..] + b;
    }
  }

  lemma {:induction false} SplitAppend(a: string, b: string)
    ensures Split(a + "/" + b, '/') == Split(a, '/') + Split(b, '/')
    decreases |a|
  {
    var whole := a + "/" + b;
    if a == "" {
      assert whole[1..] == b;
    } else {
      var rest := a[1..] + "/" + b;
      assert whole[0] == a[0] && whole[1..] == rest;
      SplitAppend(a[1..], b);
    }
  }

  function Parent(path: Path, end: nat): Path
    requires end <= |Split(path, '/')|
  {
    Join(Split(path, '/')[..end], '/')
  }

  /** Joining a proper, nonempty prefix of the components yields an ancestor directory. */
  lemma ParentIsAbove(path: Path, end: nat)
    requires 1 <= end < |Split(path, '/')|
    ensures Inside(path, Parent(path, end))
  {
    var parts := Split(path, '/');
    assert parts == parts[..end] + parts[end..];
    JoinAppend(parts[..end], parts[end..]);
    JoinSplit(path, '/');
  }

  /** And every ancestor directory arises so, at its own depth. */
  lemma AboveIsParent(path: Path, a: Path)
    requires Inside(path, a)
    ensures 1 <= |Split(a, '/')| < |Split(path, '/')| && Parent(path, |Split(a, '/')|) == a
  {
    var rest := path[|a| + 1..];
    assert path == a + "/" + rest;
    SplitAppend(a, rest);
    JoinSplit(a, '/');
    assert (Split(a, '/') + Split(rest, '/'))[..|Split(a, '/')|] == Split(a, '/');
  }

  lemma InsideTransitive(a: Path, b: Path, c: Path)
    requires Inside(c, b) && Inside(b, a)
    ensures Inside(c, a)
  {}

  // ---- Code-point order ----------------------------------------------------------------

  predicate Less(a: string, b: string)
    decreases |a|
  {
    b != "" && (a == "" || a[0] < b[0] || (a[0] == b[0] && Less(a[1..], b[1..])))
  }

  lemma {:induction false} LessTotal(a: string, b: string)
    ensures Less(a, b) || a == b || Less(b, a)
    ensures !(Less(a, b) && Less(b, a)) && (a == b ==> !Less(a, b))
    decreases |a|
  {
    if a != "" && b != "" {
      LessTotal(a[1..], b[1..]);
      if a[0] == b[0] && a[1..] == b[1..] { assert a == [a[0]] + a[1..]; }
    }
  }

  lemma {:induction false} LessTransitive(a: string, b: string, c: string)
    requires Less(a, b) && Less(b, c)
    ensures Less(a, c)
    decreases |a|
  {
    if a != "" && a[0] == b[0] && b[0] == c[0] { LessTransitive(a[1..], b[1..], c[1..]); }
  }

  /** A text is never below one of its prefixes. */
  lemma {:induction false} PrefixNotAbove(prefix: string, x: string)
    requires prefix <= x
    ensures !Less(x, prefix)
    decreases |prefix|
  {
    if prefix != "" { PrefixNotAbove(prefix[1..], x[1..]); }
  }

  /** Texts with a common prefix form an interval that starts at the prefix. */
  lemma {:induction false} PrefixInterval(prefix: string, x: string, y: string)
    requires !Less(x, prefix) && Less(x, y) && prefix <= y
    ensures prefix <= x
    decreases |prefix|
  {
    if prefix != "" {
      assert x != "" && x[0] == prefix[0] == y[0];
      PrefixInterval(prefix[1..], x[1..], y[1..]);
      assert x == [x[0]] + x[1..] && prefix == [prefix[0]] + prefix[1..];
    }
  }

  ghost predicate Ascending(s: seq<Path>) {
    forall i, j :: 0 <= i < j < |s| ==> Less(s[i], s[j])
  }

  lemma HeadLeast(s: seq<Path>)
    requires Ascending(s) && s != []
    ensures forall p :: p in s[1..] <==> p in s && p != s[0]
  {
    LessTotal(s[0], s[0]);
    forall p | p in s[1..] ensures p in s && p != s[0] {
      var j :| 0 < j < |s| && s[j] == p;
      assert Less(s[0], s[j]);
    }
    assert s == [s[0]] + s[1..];
  }

  lemma NoElems(s: seq<Path>)
    ensures Elems(s) == {} <==> s == []
  {
    if s != [] { assert s[0] in Elems(s); }
  }

  /** An ascending listing is determined by its elements. */
  lemma {:induction false} AscendingUnique(a: seq<Path>, b: seq<Path>)
    requires Ascending(a) && Ascending(b) && Elems(a) == Elems(b)
    ensures a == b
    decreases |a|
  {
    NoElems(a);
    NoElems(b);
    if a != [] && b != [] {
      assert b[0] in Elems(b) && a[0] in Elems(a);
      assert b[0] in a && a[0] in b;
      LessTotal(a[0], b[0]);
      assert a[0] == b[0];
      HeadLeast(a);
      HeadLeast(b);
      assert Elems(a[1..]) == Elems(a) - {a[0]} && Elems(b[1..]) == Elems(b) - {b[0]};
      AscendingUnique(a[1..], b[1..]);
      assert a == [a[0]] + a[1..] && b == [b[0]] + b[1..];
    }
  }

  /** `sorted` on distinct paths, as insertion. */
  method Insert(s: seq<Path>, p: Path) returns (r: seq<Path>)
    requires Ascending(s) && p !in s
    ensures Ascending(r) && forall q :: q in r <==> q in s || q == p
  {
    var i := 0;
    while i < |s| && Less(s[i], p)
      invariant 0 <= i <= |s|
      invariant forall j :: 0 <= j < i ==> Less(s[j], p)
    {
      i := i + 1;
    }
    r := s[..i] + [p] + s[i..];
    forall j | i <= j < |s| ensures Less(p, s[j]) {
      LessTotal(s[i], p);
      if j > i { LessTransitive(p, s[i], s[j]); }
    }
    forall q ensures q in r <==> q in s || q == p { assert s == s[..i] + s[i..]; }
  }

  method Sorted(items: seq<Path>) returns (r: seq<Path>)
    requires forall i, j :: 0 <= i < j < |items| ==> items[i] != items[j]
    ensures Ascending(r) && forall p :: p in r <==> p in items
  {
    r := [];
    for k := 0 to |items|
      invariant Ascending(r) && forall p :: p in r <==> p in items[..k]
    {
      r := Insert(r, items[k]);
      assert items[..k + 1] == items[..k] + [items[k]];
    }
    assert items[..|items|] == items;
  }

  method SortedSet(items: set<Path>) returns (r: seq<Path>)
    ensures Ascending(r) && forall p :: p in r <==> p in items
  {
    r := [];
    var rest := items;
    while rest != {}
      invariant Ascending(r) && rest <= items && forall p :: p in r <==> p in items && p !in rest
      decreases rest
    {
      var p :| p in rest;
      rest := rest - {p};
      r := Insert(r, p);
    }
  }

  /** `bisect_left`: the first position whose entry is not below x. */
  method BisectLeft(s: seq<Path>, x: Path) returns (index: nat)
    requires Ascending(s)
    ensures index <= |s|
    ensures forall i :: 0 <= i < index ==> Less(s[i], x)
    ensures forall i :: index <= i < |s| ==> !Less(s[i], x)
  {
    var lo, hi := 0, |s|;
    while lo < hi
      invariant 0 <= lo <= hi <= |s|
      invariant forall i :: 0 <= i < lo ==> Less(s[i], x)
      invariant forall i :: hi <= i < |s| ==> !Less(s[i], x)
    {
      var mid := (lo + hi) / 2;
      if Less(s[mid], x) {
        forall i | 0 <= i < mid ensures Less(s[i], x) { LessTransitive(s[i], s[mid], x); }
        lo := mid + 1;
      } else {
        forall i | mid < i < |s| ensures !Less(s[i], x) {
          if Less(s[i], x) { LessTransitive(s[mid], s[i], x); }
        }
        hi := mid;
      }
    }
    index := lo;
  }
}
