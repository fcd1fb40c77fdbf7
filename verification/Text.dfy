/** Python's sequence operations `replace`, `split` and `join`, on any element type. */
module Text {

  /** Does t occur in s at position i? */
  predicate At<T(==)>(s: seq<T>, i: nat, t: seq<T>) {
    i + |t| <= |s| && s[i..i + |t|] == t
  }

  ghost predicate Occurs<T>(s: seq<T>, t: seq<T>) {
    exists i: nat :: At(s, i, t)
  }

  /** `s.replace(t, r)`: left to right, without overlaps. */
  function ReplaceAll<T(==)>(s: seq<T>, t: seq<T>, r: seq<T>): seq<T>
    requires t != []
    decreases |s|
  {
    if s == [] then []
    else if At(s, 0, t) then r + ReplaceAll(s[|t|..], t, r)
    else [s[0]] + ReplaceAll(s[1..], t, r)
  }

  ghost predicate Sources<T(!new)>(table: seq<(seq<T>, seq<T>)>) {
    forall i :: 0 <= i < |table| ==> table[i].0 != []
  }

  /** The replacements of a table applied one after the other, each to the whole text. */
  function ReplaceEach<T(==,!new)>(s: seq<T>, table: seq<(seq<T>, seq<T>)>): seq<T>
    requires Sources(table)
    decreases |table|
  {
    if table == [] then s
    else ReplaceAll(ReplaceEach(s, table[..|table| - 1]), table[|table| - 1].0, table[|table| - 1].1)
  }

  /** No nonempty suffix of u begins r: u cannot run into an inserted r from the left. */
  ghost predicate NoRunIn<T(!new)>(u: seq<T>, r: seq<T>) {
    forall k: nat :: k < |u| ==> !(u[k..] <= r)
  }

  /** u starts nowhere inside r, not even to continue past its end. */
  ghost predicate NoStartIn<T(!new)>(u: seq<T>, r: seq<T>) {
    forall k: nat :: k < |r| ==> !(r[k..] <= u) && !At(r, k, u)
  }

  /** An inserted r neither contains u nor helps to form one with its neighbours. */
  ghost predicate Inert<T(!new)>(u: seq<T>, r: seq<T>) {
    u != [] && NoRunIn(u, r) && NoStartIn(u, r) && !Occurs(u, r)
  }

  /** A text at least as long as u cannot be part of it. */
  lemma InertWhenLonger<T(!new)>(u: seq<T>, r: seq<T>)
    requires 0 < |u| <= |r| && NoRunIn(u, r) && NoStartIn(u, r)
    ensures Inert(u, r)
  {
    assert !At(r, 0, u);
    forall i: nat ensures At(u, i, r) ==> At(r, 0, u) { FitsWhole(u, i, r); }
  }

  lemma FitsWhole<T>(u: seq<T>, i: nat, r: seq<T>)
    requires |u| <= |r|
    ensures At(u, i, r) ==> At(r, 0, u)
  {
    if At(u, i, r) { assert u == u[0..|r|] == r; }
  }

  lemma OccursLater<T(!new)>(s: seq<T>, k: nat, u: seq<T>)
    requires k <= |s| && Occurs(s[k..], u)
    ensures Occurs(s, u)
  {
    var j: nat :| At(s[k..], j, u);
    assert At(s, j + k, u);
  }

  lemma AtLater<T>(front: seq<T>, rest: seq<T>, i: nat, u: seq<T>)
    requires At(front + rest, i, u) && i >= |front|
    ensures At(rest, i - |front|, u)
  {
    assert (front + rest)[i..i + |u|] == rest[i - |front|..i - |front| + |u|];
  }

  lemma RunsOver<T>(u: seq<T>, k: nat, r: seq<T>, rest: seq<T>)
    requires k < |u| && u[k..] <= r + rest
    ensures u[k..] <= r || At(u, k, r)
  {
    var v := u[k..];
    if |v| <= |r| {
      assert v == (r + rest)[..|v|] == r[..|v|];
    } else {
      assert v[..|r|] == (r + rest)[..|r|] == r;
    }
  }

  /** If (a suffix v of) u begins the output, it already began the input. */
  lemma {:induction false} RunInWasThere<T(!new)>(s: seq<T>, t: seq<T>, r: seq<T>, u: seq<T>, k: nat)
    requires t != [] && Inert(u, r) && k < |u| && u[k..] <= ReplaceAll(s, t, r)
    ensures !At(s, 0, t) && u[k..] <= s
    decreases |s|
  {
    var v, out := u[k..], ReplaceAll(s, t, r);
    if s == [] {
    } else if At(s, 0, t) {
      RunsOver(u, k, r, ReplaceAll(s[|t|..], t, r));
    } else {
      assert v[0] == out[0] == s[0];
      if |v| > 1 {
        assert u[k + 1..] == v[1..] && out[1..] == ReplaceAll(s[1..], t, r);
        RunInWasThere(s[1..], t, r, u, k + 1);
        assert v == [v[0]] + v[1..] && s == [s[0]] + s[1..];
      }
    }
  }

  /** Replacing by an inert text creates no occurrence of u; and u == t does not survive at all. */
  lemma {:induction false} ReplaceLeaves<T(!new)>(s: seq<T>, t: seq<T>, r: seq<T>, u: seq<T>, i: nat)
    requires t != [] && Inert(u, r) && At(ReplaceAll(s, t, r), i, u)
    ensures u != t && Occurs(s, u)
    decreases |s|
  {
    if s == [] {
    } else if At(s, 0, t) {
      var rest := ReplaceAll(s[|t|..], t, r);
      if i < |r| {
        StartsInside(r, rest, i, u);
      } else {
        AtLater(r, rest, i, u);
        ReplaceLeaves(s[|t|..], t, r, u, i - |r|);
        OccursLater(s, |t|, u);
      }
    } else if i == 0 {
      assert u[0..] == u && ReplaceAll(s, t, r)[..|u|] == u;
      RunInWasThere(s, t, r, u, 0);
      assert At(s, 0, u);
    } else {
      AtLater([s[0]], ReplaceAll(s[1..], t, r), i, u);
      ReplaceLeaves(s[1..], t, r, u, i - 1);
      OccursLater(s, 1, u);
    }
  }

  lemma StartsInside<T(!new)>(r: seq<T>, rest: seq<T>, i: nat, u: seq<T>)
    requires NoStartIn(u, r) && i < |r|
    ensures !At(r + rest, i, u)
  {
    assert !(r[i..] <= u) && !At(r, i, u);
  }

  lemma ReplaceRemoves<T(!new)>(s: seq<T>, t: seq<T>, r: seq<T>)
    requires t != [] && Inert(t, r)
    ensures !Occurs(ReplaceAll(s, t, r), t)
  {
    if Occurs(ReplaceAll(s, t, r), t) {
      var i: nat :| At(ReplaceAll(s, t, r), i, t);
      ReplaceLeaves(s, t, r, t, i);
    }
  }

  lemma ReplaceKeepsFree<T(!new)>(s: seq<T>, t: seq<T>, r: seq<T>, u: seq<T>)
    requires t != [] && Inert(u, r) && !Occurs(s, u)
    ensures !Occurs(ReplaceAll(s, t, r), u)
  {
    if Occurs(ReplaceAll(s, t, r), u) {
      var i: nat :| At(ReplaceAll(s, t, r), i, u);
      ReplaceLeaves(s, t, r, u, i);
    }
  }

  lemma {:induction false} ReplaceNothing<T(!new)>(s: seq<T>, t: seq<T>, r: seq<T>)
    requires t != [] && !Occurs(s, t)
    ensures ReplaceAll(s, t, r) == s
    decreases |s|
  {
    if s != [] {
      assert !At(s, 0, t);
      if Occurs(s[1..], t) { OccursLater(s, 1, t); }
      ReplaceNothing(s[1..], t, r);
    }
  }

  lemma AtLocal<T>(a: seq<T>, c: T, b: seq<T>, t: seq<T>)
    requires c !in t
    ensures At(a + [c] + b, 0, t) <==> At(a, 0, t)
  {
    var whole := a + [c] + b;
    if At(whole, 0, t) {
      assert |t| <= |a| by { assert whole[|a|] == c && whole[..|t|] == t; }
      assert whole[..|t|] == a[..|t|];
    }
    if At(a, 0, t) { assert whole[..|t|] == a[..|t|]; }
  }

  /** A separator that is not in t cuts `replace` in two. */
  lemma {:induction false} ReplaceSeparator<T>(a: seq<T>, c: T, b: seq<T>, t: seq<T>, r: seq<T>)
    requires t != [] && c !in t
    ensures ReplaceAll(a + [c] + b, t, r) == ReplaceAll(a, t, r) + [c] + ReplaceAll(b, t, r)
    decreases |a|
  {
    var whole := a + [c] + b;
    AtLocal(a, c, b, t);
    if a == [] {
      assert whole[1..] == b;
    } else {
      var n := if At(a, 0, t) then |t| else 1;
      var rest := a[n..] + [c] + b;
      assert whole[0] == a[0] && whole[n..] == rest;
      ReplaceSeparator(a[n..], c, b, t, r);
    }
  }

  // ---- split and join ------------------------------------------------------------------

  /** `s.split(c)` for a one-element separator: always at least one piece. */
  function Split<T(==)>(s: seq<T>, c: T): (pieces: seq<seq<T>>)
    ensures pieces != []
  {
    if s == [] then [[]]
    else if s[0] == c then [[]] + Split(s[1..], c)
    else var rest := Split(s[1..], c); [[s[0]] + rest[0]] + rest[1..]
  }

  function Join<T>(pieces: seq<seq<T>>, c: T): seq<T> {
    if pieces == [] then [] else if |pieces| == 1 then pieces[0] else pieces[0] + [c] + Join(pieces[1..], c)
  }

  lemma {:induction false} JoinSplit<T>(s: seq<T>, c: T)
    ensures Join(Split(s, c), c) == s
    decreases |s|
  {
    if s != [] {
      var rest := Split(s[1..], c);
      JoinSplit(s[1..], c);
      if s[0] == c {
        assert ([[]] + rest)[1..] == rest;
      } else {
        var pieces := [[s[0]] + rest[0]] + rest[1..];
        assert pieces[1..] == rest[1..];
      }
    }
  }

  /** Splitting after a separator-free piece yields that piece, then the rest. */
  lemma {:induction false} SplitPiece<T>(piece: seq<T>, c: T, rest: seq<T>)
    requires c !in piece
    ensures Split(piece + [c] + rest, c) == [piece] + Split(rest, c)
    decreases |piece|
  {
    var whole := piece + [c] + rest;
    if piece == [] {
      assert whole[1..] == rest;
    } else {
      assert whole[1..] == piece[1..] + [c] + rest;
      SplitPiece(piece[1..], c, rest);
      assert [piece[0]] + piece[1..] == piece;
    }
  }

  lemma {:induction false} SplitFree<T>(piece: seq<T>, c: T)
    requires c !in piece
    ensures Split(piece, c) == [piece]
    decreases |piece|
  {
    if piece != [] {
      SplitFree(piece[1..], c);
      assert [piece[0]] + piece[1..] == piece;
    }
  }

  lemma {:induction false} PiecesFree<T>(s: seq<T>, c: T)
    ensures forall p :: p in Split(s, c) ==> c !in p
    decreases |s|
  {
    if s != [] {
      PiecesFree(s[1..], c);
      var rest := Split(s[1..], c);
      assert rest[0] in rest;
    }
  }

  /** Split inverts join on separator-free pieces. */
  lemma {:induction false} SplitJoin<T>(pieces: seq<seq<T>>, c: T)
    requires pieces != [] && forall p :: p in pieces ==> c !in p
    ensures Split(Join(pieces, c), c) == pieces
    decreases |pieces|
  {
    if |pieces| == 1 {
      SplitFree(pieces[0], c);
    } else {
      SplitPiece(pieces[0], c, Join(pieces[1..], c));
      SplitJoin(pieces[1..], c);
      assert [pieces[0]] + pieces[1..] == pieces;
    }
  }
}
