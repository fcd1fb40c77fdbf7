/** Where a patch is cut into parts, where a part's header ends, and what is read off it, in terms of bytes. */
module PatchParts {
  import opened Bytes
  import opened Text
  import opened Patch

  // ---- Cutting a patch into parts --------------------------------------------------------------

  /** A later line of the text starts here and says `diff --git `. */
  ghost predicate StartsPart(s: Bytes, n: nat) {
    0 < n < |s| && s[n - 1] == LF && Ascii("diff --git ") <= s[n..]
  }

  lemma {:induction false} NextPartIs(s: Bytes, from: nat)
    requires 0 < from <= |s|
    ensures forall n :: from <= n < NextPart(s, from) ==> !StartsPart(s, n)
    ensures NextPart(s, from) < |s| ==> StartsPart(s, NextPart(s, from))
    decreases |s| - from
  {
    if from < |s| && !(s[from - 1] == LF && DIFF_GIT <= s[from..]) { NextPartIs(s, from + 1); }
  }

  /** The positions at which the parts but the first begin. */
  function Cuts(parts: seq<Bytes>): set<nat> {
    if |parts| <= 1 then {} else {|parts[0]|} + Shifted(Cuts(parts[1..]), |parts[0]|)
  }

  function Shifted(cuts: set<nat>, amount: nat): set<nat> {
    set c | c in cuts :: c + amount
  }

  lemma StartsLater(s: Bytes, k: nat, n: nat)
    requires k < n && k <= |s|
    ensures StartsPart(s, n) <==> StartsPart(s[k..], n - k)
  {
    if n < |s| { assert s[k..][n - k..] == s[n..] && s[k..][n - k - 1] == s[n - 1]; }
  }

  /** The parts begin exactly at the line starts that say `diff --git `. */
  lemma {:induction false} PartsBeginAt(s: Bytes, n: nat)
    ensures n in Cuts(SplitParts(s)) <==> StartsPart(s, n)
    decreases |s|
  {
    if s != [] {
      var k := NextPart(s, 1);
      var parts := SplitParts(s);
      NextPartIs(s, 1);
      assert parts[1..] == SplitParts(s[k..]);
      if k < |s| {
        if k < n {
          StartsLater(s, k, n);
          PartsBeginAt(s[k..], n - k);
        }
        CutsAre(parts, n);
        if n < k { AboveFirst(parts, n); }
      }
    }
  }

  lemma CutsAre(parts: seq<Bytes>, n: nat)
    requires |parts| > 1
    ensures n in Cuts(parts) <==> n == |parts[0]| || (n >= |parts[0]| && n - |parts[0]| in Cuts(parts[1..]))
  {
    if n >= |parts[0]| && n - |parts[0]| in Cuts(parts[1..]) { assert n in Shifted(Cuts(parts[1..]), |parts[0]|); }
  }

  lemma AboveFirst(parts: seq<Bytes>, n: nat)
    requires |parts| > 1 && n < |parts[0]|
    ensures n !in Cuts(parts)
  {
    CutsAre(parts, n);
  }

  lemma {:induction false} CutsInside(parts: seq<Bytes>, n: nat)
    requires n in Cuts(parts) && forall i :: 0 <= i < |parts| ==> parts[i] != []
    ensures 0 < n < |Concat(parts)|
    decreases |parts|
  {
    CutsAre(parts, n);
    var rest := parts[1..];
    assert |Concat(parts)| == |parts[0]| + |Concat(rest)| && rest[0] != [];
    if n > |parts[0]| { CutsInside(rest, n - |parts[0]|); }
  }

  /** A text and the positions of its cuts determine its parts. */
  lemma {:induction false} CutsDetermine(a: seq<Bytes>, b: seq<Bytes>)
    requires Concat(a) == Concat(b) && Cuts(a) == Cuts(b)
    requires (forall i :: 0 <= i < |a| ==> a[i] != []) && forall i :: 0 <= i < |b| ==> b[i] != []
    ensures a == b
    decreases |a|
  {
    if a == [] || b == [] {
      assert a == [] <==> Concat(a) == [];
      assert b == [] <==> Concat(b) == [];
    } else {
      SameFirst(a, b);
      SameFirst(b, a);
      HeadOf(a);
      HeadOf(b);
      if |a| > 1 && |b| > 1 {
        forall n: nat ensures n in Cuts(a[1..]) <==> n in Cuts(b[1..]) {
          CutsAre(a, n + |a[0]|);
          CutsAre(b, n + |b[0]|);
          if n in Cuts(a[1..]) { CutsInside(a[1..], n); }
          if n in Cuts(b[1..]) { CutsInside(b[1..], n); }
        }
        CutsDetermine(a[1..], b[1..]);
        assert a == [a[0]] + a[1..] && b == [b[0]] + b[1..];
      } else {
        assert a == [a[0]] && b == [b[0]];
      }
    }
  }

  lemma HeadOf(a: seq<Bytes>)
    requires a != []
    ensures Concat(a) == a[0] + Concat(a[1..]) && a[0] == Concat(a)[..|a[0]|] && Concat(a[1..]) == Concat(a)[|a[0]|..]
  {}

  lemma Single(a: seq<Bytes>)
    requires |a| == 1
    ensures Concat(a) == a[0] && Cuts(a) == {}
  {
    HeadOf(a);
    assert Concat(a[1..]) == [];
  }

  lemma SomeCut(b: seq<Bytes>)
    ensures |b| > 1 ==> Cuts(b) != {}
  {
    if |b| > 1 { assert |b[0]| in Cuts(b); }
  }

  lemma SameFirst(a: seq<Bytes>, b: seq<Bytes>)
    requires a != [] && b != [] && Concat(a) == Concat(b) && Cuts(a) == Cuts(b)
    requires (forall i :: 0 <= i < |a| ==> a[i] != []) && forall i :: 0 <= i < |b| ==> b[i] != []
    ensures |a| > 1 ==> |b| > 1 && |b[0]| <= |a[0]|
    ensures |a| == 1 ==> |b| == 1 && a[0] == b[0]
  {
    if |a| > 1 {
      CutsAre(a, |a[0]|);
      if |b| > 1 && |a[0]| < |b[0]| { AboveFirst(b, |a[0]|); }
    } else {
      Single(a);
      SomeCut(b);
      Single(b);
    }
  }

  lemma {:induction false} PartsNonempty(s: Bytes)
    ensures forall i :: 0 <= i < |SplitParts(s)| ==> SplitParts(s)[i] != []
    decreases |s|
  {
    if s != [] { PartsNonempty(s[NextPart(s, 1)..]); }
  }

  lemma CutsOfSplit(s: Bytes, cuts: set<nat>)
    requires forall n: nat :: n in cuts <==> StartsPart(s, n)
    ensures Cuts(SplitParts(s)) == cuts
  {
    var parts := SplitParts(s);
    forall n: nat ensures n in Cuts(parts) <==> n in cuts { PartsBeginAt(s, n); }
  }

  /** Splitting undoes joining: parts that are cut exactly at such line starts come back. */
  lemma SplitInvertsJoin(parts: seq<Bytes>, s: Bytes)
    requires s == Concat(parts) && forall i :: 0 <= i < |parts| ==> parts[i] != []
    requires forall n: nat :: n in Cuts(parts) <==> StartsPart(s, n)
    ensures SplitParts(s) == parts
  {
    ConcatSplitParts(s);
    PartsNonempty(s);
    CutsOfSplit(s, Cuts(parts));
    CutsDetermine(SplitParts(s), parts);
  }

  // ---- A part's header ---------------------------------------------------------------------------

  /** The line that ends a part's header. */
  predicate OpensPayload(line: Bytes) {
    Ascii("@@") <= line || Ascii("GIT binary patch") <= line
  }

  /** The header goes up to the first such line. */
  lemma {:induction false} HeaderEnds(head: seq<Bytes>, body: seq<Bytes>)
    requires forall i :: 0 <= i < |head| ==> !OpensPayload(head[i])
    requires body == [] || OpensPayload(body[0])
    ensures PayloadStart(head + body) == |head|
    decreases |head|
  {
    if head == [] {
      assert head + body == body;
    } else {
      assert (head + body)[1..] == head[1..] + body;
      HeaderEnds(head[1..], body);
    }
  }

  /** Of a text part's header exactly the `index ` lines go; a binary part keeps them. */
  lemma {:induction false} IndexLinesGo(before: seq<Bytes>, line: Bytes, after: seq<Bytes>, kind: Kind)
    ensures HeaderOf(before + [line] + after, kind)
         == HeaderOf(before, kind) + (if !kind.binary && Ascii("index ") <= line then [] else [line])
            + HeaderOf(after, kind)
    ensures HeaderOf([], kind) == []
    decreases |before|
  {
    var all := before + [line] + after;
    if before == [] {
      assert all == [line] + after && all[1..] == after;
    } else {
      assert all[1..] == before[1..] + [line] + after && all[0] == before[0];
      IndexLinesGo(before[1..], line, after, kind);
    }
  }

  function BinaryLine(): Bytes {
    [LF] + Ascii("GIT binary patch") + [LF]
  }

  lemma MarkerCuts(part: Bytes) returns (head: Bytes, tail: Bytes)
    requires HasBinaryMarker(part)
    ensures part == head + BinaryLine() + tail
  {
    var i :| 0 <= i <= |part| && BinaryLine() <= part[i..];
    head, tail := part[..i], part[i + |BinaryLine()|..];
    Recut(part, i, BinaryLine());
  }

  lemma Recut(part: Bytes, i: nat, mark: Bytes)
    requires i <= |part| && mark <= part[i..]
    ensures part == part[..i] + mark + part[i + |mark|..]
  {
    assert part[i..] == mark + part[i..][|mark|..] && part[i..][|mark|..] == part[i + |mark|..];
  }

  lemma MarkerFound(head: Bytes, tail: Bytes)
    ensures HasBinaryMarker(head + BinaryLine() + tail)
  {
    var part := head + BinaryLine() + tail;
    assert part[|head|..] == BinaryLine() + tail;
    assert ([LF] + GIT_BINARY + [LF]) <= part[|head|..];
  }

  /** A part is binary exactly if it has a line `GIT binary patch` after its first. */
  lemma BinaryMeans(part: Bytes, utf8: Bytes -> bool)
    ensures KindOf(part, utf8).binary <==> exists head, tail :: part == head + BinaryLine() + tail
    ensures KindOf(part, utf8).utf8 == utf8(part)
  {
    if HasBinaryMarker(part) { var head, tail := MarkerCuts(part); }
    forall head, tail | part == head + BinaryLine() + tail ensures HasBinaryMarker(part) { MarkerFound(head, tail); }
  }

  /** A file header line: `--- ` or `+++ ` and a path. */
  predicate NamesFile(line: Bytes) {
    Ascii("--- ") <= line || Ascii("+++ ") <= line
  }

  /** One of the lines is a file header for this path. */
  ghost predicate NamedIn(lines: seq<Bytes>, p: Bytes) {
    exists i :: 0 <= i < |lines| && NamesFile(Bare(lines[i])) && p == NamedFile(Bare(lines[i]))
  }

  lemma {:induction false} NamedExactly(lines: seq<Bytes>, p: Bytes)
    ensures p in FilesNamed(lines) <==> NamedIn(lines, p)
    decreases |lines|
  {
    if lines != [] {
      NamedExactly(lines[1..], p);
      NamedCons(lines, p);
    }
  }

  lemma NamedCons(lines: seq<Bytes>, p: Bytes)
    requires lines != []
    ensures NamedIn(lines, p) <==>
            NamedIn(lines[1..], p) || (NamesFile(Bare(lines[0])) && p == NamedFile(Bare(lines[0])))
  {
    var rest := lines[1..];
    if i :| 0 <= i < |rest| && NamesFile(Bare(rest[i])) && p == NamedFile(Bare(rest[i])) {
      assert rest[i] == lines[i + 1];
    }
    if i :| 0 <= i < |lines| && NamesFile(Bare(lines[i])) && p == NamedFile(Bare(lines[i])) {
      if i > 0 { assert rest[i - 1] == lines[i]; }
    }
  }

  /** A part is a README part exactly if a file header line above its first hunk names a README. */
  lemma ExemptMeans(part: Bytes, readme: Bytes -> bool)
    ensures Exempt(part, readme) <==> exists p :: NamedIn(SplitLines(BeforeHunks(part)), p) && readme(p)
  {
    var lines := SplitLines(BeforeHunks(part));
    var paths := FilesNamed(lines);
    forall p ensures p in paths <==> NamedIn(lines, p) { NamedExactly(lines, p); }
    assert Exempt(part, readme) <==> exists p :: p in paths && readme(p);
  }

  /** The path named is the rest of the line, without a quote around it or tabs after it. */
  lemma PathNamed(mark: Bytes, p: Bytes)
    requires |mark| == 4 && p != [] && p[0] != 34 && p[|p| - 1] != 34 && p[|p| - 1] != 9
    ensures NamedFile(mark + p) == p && NamedFile(mark + p + [9]) == p
    ensures NamedFile(mark + [34] + p + [34]) == p
  {
    assert (mark + p)[4..] == p;
    assert (mark + p + [9])[4..] == p + [9];
    assert (p + [9])[..|p|] == p;
    var quoted := [34] + p + [34];
    assert (mark + [34] + p + [34])[4..] == quoted;
    assert quoted[1..] == p + [34];
    assert (p + [34])[..|p|] == p;
    assert TrimStart(p + [34], 34) == p + [34];
  }
}
