/** Ordered brand replacements: `fork_path`, `normalize`, and the one-pass reading of their tables. */
module Branding {
  import opened Text
  import opened Wrappers

  type Table = seq<(string, string)>

  const BRAND_REPLACEMENTS: Table := [("coddy", "foxxycode"), ("Coddy", "FoxxyCode"), ("CODDY", "FOXXYCODE")]

  const MODULE_REPLACEMENTS: Table := [
    ("github.com/EvilFreelancer/coddy-agent", "github.com/hijera/foxxycode-agent"),
    ("github.com/coddy-project/coddy-agent", "github.com/hijera/foxxycode-agent")]

  function UpstreamUrl(scheme: string, owner: string): string {
    scheme + "://github.com/" + owner + "/coddy-agent"
  }

  function ForkUrl(scheme: string): string {
    scheme + "://github.com/hijera/foxxy-agent"
  }

  const REPOSITORY_REPLACEMENTS: Table := [
    (UpstreamUrl("https", "EvilFreelancer"), ForkUrl("https")),
    (UpstreamUrl("https", "coddy-project"), ForkUrl("https")),
    (UpstreamUrl("http", "EvilFreelancer"), ForkUrl("http")),
    (UpstreamUrl("http", "coddy-project"), ForkUrl("http"))]

  const CONTENT_REPLACEMENTS: Table := REPOSITORY_REPLACEMENTS + MODULE_REPLACEMENTS + BRAND_REPLACEMENTS

  // ---- One-pass reference --------------------------------------------------------------

  /** The first source of the table that starts the text, or |table|. */
  function FirstMatch(s: string, table: Table): (k: nat)
    ensures k <= |table|
    ensures k < |table| ==> At(s, 0, table[k].0)
    ensures forall i :: 0 <= i < k ==> !At(s, 0, table[i].0)
    decreases |table|
  {
    if table == [] then 0
    else
      var k := FirstMatch(s, table[..|table| - 1]);
      if k < |table| - 1 then k else if At(s, 0, table[|table| - 1].0) then |table| - 1 else |table|
  }

  /** All sources replaced in a single left-to-right pass over the original text. */
  ghost function OnePass(s: string, table: Table): string
    requires Sources(table)
    decreases |s|
  {
    if s == "" then ""
    else
      var k := FirstMatch(s, table);
      if k < |table| then table[k].1 + OnePass(s[|table[k].0|..], table) else [s[0]] + OnePass(s[1..], table)
  }

  /** Later sources never touch earlier replacements, nor overlap earlier sources. */
  ghost predicate Independent(table: Table) {
    forall i, j :: 0 <= i < j < |table| ==>
      Inert(table[j].0, table[i].1) && NoStartIn(table[i].0, table[j].0)
  }

  lemma {:induction false} ReplaceThrough(r: string, rest: string, t: string, r': string)
    requires t != "" && NoStartIn(t, r)
    ensures ReplaceAll(r + rest, t, r') == r + ReplaceAll(rest, t, r')
    decreases |r|
  {
    if r == "" {
      assert r + rest == rest;
    } else {
      StartsInside(r, rest, 0, t);
      NoStartTail(t, r);
      ReplaceThrough(r[1..], rest, t, r');
      assert (r + rest)[1..] == r[1..] + rest;
    }
  }

  lemma NoStartTail(u: string, r: string)
    requires r != "" && NoStartIn(u, r)
    ensures NoStartIn(u, r[1..])
  {
    forall k: nat | k < |r[1..]| ensures !(r[1..][k..] <= u) && !At(r[1..], k, u) {
      assert r[1..][k..] == r[k + 1..] && !At(r, k + 1, u);
    }
  }

  lemma NoMatchInside(t: string, rest: string, table: Table)
    requires t != "" && forall i :: 0 <= i < |table| ==> NoStartIn(table[i].0, t)
    ensures FirstMatch(t + rest, table) == |table|
  {
    var k := FirstMatch(t + rest, table);
    if k < |table| { StartsInside(t, rest, 0, table[k].0); }
  }

  lemma HeadTail(t: string, rest: string)
    requires t != ""
    ensures (t + rest)[1..] == t[1..] + rest && (t + rest)[0] == t[0] && [t[0]] + (t[1..] + rest) == t + rest
  {}

  /** A text in which no source starts passes through the one-pass reading unchanged. */
  lemma {:induction false} PassThrough(t: string, rest: string, table: Table)
    requires Sources(table) && forall i :: 0 <= i < |table| ==> NoStartIn(table[i].0, t)
    ensures OnePass(t + rest, table) == t + OnePass(rest, table)
    decreases |t|
  {
    if t == "" {
      assert t + rest == rest;
    } else {
      forall i | 0 <= i < |table| ensures NoStartIn(table[i].0, t[1..]) { NoStartTail(table[i].0, t); }
      NoMatchInside(t, rest, table);
      PassThrough(t[1..], rest, table);
      HeadTail(t, rest);
      HeadTail(t, OnePass(rest, table));
    }
  }

  /** A suffix of u that starts the one-pass output already started the input. */
  lemma {:induction false} OnePassRunIn(s: string, table: Table, u: string, k: nat)
    requires Sources(table) && k < |u| && u[k..] <= OnePass(s, table)
    requires forall i :: 0 <= i < |table| ==> Inert(u, table[i].1)
    ensures u[k..] <= s
    decreases |s|
  {
    var v, out := u[k..], OnePass(s, table);
    if s != "" {
      var m := FirstMatch(s, table);
      if m < |table| {
        RunsOver(u, k, table[m].1, OnePass(s[|table[m].0|..], table));
      } else {
        assert v[0] == out[0] == s[0];
        if |v| > 1 {
          assert u[k + 1..] == v[1..] && out[1..] == OnePass(s[1..], table);
          OnePassRunIn(s[1..], table, u, k + 1);
          assert v == [v[0]] + v[1..] && s == [s[0]] + s[1..];
        }
      }
    }
  }

  /** One more sequential replacement is one more entry of the single pass. */
  lemma {:induction false} OnePassExtends(s: string, table: Table, t: string, r: string)
    requires Sources(table + [(t, r)]) && Independent(table + [(t, r)]) && t != ""
    requires Sources(table) && forall i :: 0 <= i < |table| ==> Inert(t, table[i].1) && NoStartIn(table[i].0, t)
    ensures ReplaceAll(OnePass(s, table), t, r) == OnePass(s, table + [(t, r)])
    decreases |s|
  {
    var more := table + [(t, r)];
    assert more[..|table|] == table;
    if s != "" {
      var k := FirstMatch(s, table);
      if k < |table| {
        OnePassExtends(s[|table[k].0|..], table, t, r);
        ReplaceThrough(table[k].1, OnePass(s[|table[k].0|..], table), t, r);
      } else if At(s, 0, t) {
        var rest := s[|t|..];
        assert s == t + rest;
        OnePassExtends(rest, table, t, r);
        PassThrough(t, rest, table);
        assert (t + OnePass(rest, table))[|t|..] == OnePass(rest, table);
      } else {
        var out := OnePass(s, table);
        OnePassExtends(s[1..], table, t, r);
        if At(out, 0, t) {
          assert t[0..] == t;
          OnePassRunIn(s, table, t, 0);
        }
        assert out[1..] == OnePass(s[1..], table);
      }
    }
  }

  /** Applying independent replacements in sequence equals one simultaneous pass. */
  lemma {:induction false} SequentialIsOnePass(s: string, table: Table)
    requires Sources(table) && Independent(table)
    ensures ReplaceEach(s, table) == OnePass(s, table)
    decreases |table|
  {
    if table == [] {
      PassEmpty(s);
    } else {
      var init, last := table[..|table| - 1], table[|table| - 1];
      SequentialIsOnePass(s, init);
      assert table == init + [(last.0, last.1)];
      OnePassExtends(s, init, last.0, last.1);
    }
  }

  lemma {:induction false} PassEmpty(s: string)
    ensures OnePass(s, []) == s
    decreases |s|
  {
    if s != "" { PassEmpty(s[1..]); }
  }

  // ---- The brand table -----------------------------------------------------------------

  /** Enough to be inert: r's head is not in u, and every place of r clashes with u. */
  lemma InertBy(u: string, r: string, place: nat, offset: nat)
    requires 0 < |u| <= |r| && r[0] !in u
    requires forall k :: 0 <= k < |r| && r[k] == u[0] ==> k == place
    requires place + offset < |r| && offset < |u| && r[place + offset] != u[offset]
    ensures Inert(u, r)
  {
    forall k: nat | k < |r| ensures !(r[k..] <= u) && !At(r, k, u) {}
    InertWhenLonger(u, r);
  }

  lemma NoStartBy(u: string, r: string)
    requires |u| == |r| > 1 && u[1] != r[1] && forall k :: 1 <= k < |r| ==> r[k] != u[0]
    ensures NoStartIn(u, r)
  {
    forall k: nat | k < |r| ensures !(r[k..] <= u) && !At(r, k, u) {}
  }

  lemma NoStartByHead(u: string, r: string)
    requires u != "" && u[0] !in r
    ensures NoStartIn(u, r)
  {
    forall k: nat | k < |r| ensures !(r[k..] <= u) && !At(r, k, u) {}
  }

  lemma BrandInert()
    ensures forall i, j :: 0 <= i < 3 && 0 <= j < 3 ==> Inert(BRAND_REPLACEMENTS[j].0, BRAND_REPLACEMENTS[i].1)
  {
    InertBy("coddy", "foxxycode", 5, 3);
    InertBy("Coddy", "foxxycode", 0, 0);
    InertBy("CODDY", "foxxycode", 0, 0);
    InertBy("coddy", "FoxxyCode", 0, 0);
    InertBy("Coddy", "FoxxyCode", 5, 3);
    InertBy("CODDY", "FoxxyCode", 5, 1);
    InertBy("coddy", "FOXXYCODE", 0, 0);
    InertBy("Coddy", "FOXXYCODE", 5, 1);
    InertBy("CODDY", "FOXXYCODE", 5, 3);
  }

  lemma BrandIndependent()
    ensures Sources(BRAND_REPLACEMENTS) && Independent(BRAND_REPLACEMENTS)
  {
    BrandInert();
    NoStartByHead("coddy", "Coddy");
    NoStartByHead("coddy", "CODDY");
    NoStartBy("Coddy", "CODDY");
  }

  // ---- fork_path -----------------------------------------------------------------------

  function Rebrand(path: string): string {
    ReplaceEach(path, BRAND_REPLACEMENTS)
  }

  method ForkPath(path: string) returns (result: string)
    ensures result == Rebrand(path)
  {
    result := path;
    for i := 0 to |BRAND_REPLACEMENTS|
      invariant result == ReplaceEach(path, BRAND_REPLACEMENTS[..i])
    {
      var (source, replacement) := BRAND_REPLACEMENTS[i];
      assert BRAND_REPLACEMENTS[..i + 1][..i] == BRAND_REPLACEMENTS[..i];
      result := ReplaceAll(result, source, replacement);
    }
    assert BRAND_REPLACEMENTS[..|BRAND_REPLACEMENTS|] == BRAND_REPLACEMENTS;
  }

  ghost predicate BrandFree(s: string) {
    forall i :: 0 <= i < |BRAND_REPLACEMENTS| ==> !Occurs(s, BRAND_REPLACEMENTS[i].0)
  }

  lemma RebrandUnfold(s: string)
    ensures Rebrand(s) == ReplaceAll(ReplaceAll(ReplaceAll(s, "coddy", "foxxycode"), "Coddy", "FoxxyCode"),
                                     "CODDY", "FOXXYCODE")
  {
    var table := BRAND_REPLACEMENTS;
    assert ReplaceEach(s, table[..0]) == s;
    assert ReplaceEach(s, table[..1]) == ReplaceAll(s, "coddy", "foxxycode") by {
      assert table[..1][..0] == table[..0];
    }
    assert ReplaceEach(s, table[..2]) == ReplaceAll(ReplaceEach(s, table[..1]), "Coddy", "FoxxyCode") by {
      assert table[..2][..1] == table[..1];
    }
  }

  /** No spelling of the upstream name survives. */
  lemma RebrandClean(s: string)
    ensures BrandFree(Rebrand(s))
  {
    BrandInert();
    RebrandUnfold(s);
    var one := ReplaceAll(s, "coddy", "foxxycode");
    var two := ReplaceAll(one, "Coddy", "FoxxyCode");
    var table := BRAND_REPLACEMENTS;
    assert Inert(table[0].0, table[0].1) && Inert(table[0].0, table[1].1) && Inert(table[0].0, table[2].1);
    assert Inert(table[1].0, table[1].1) && Inert(table[1].0, table[2].1) && Inert(table[2].0, table[2].1);
    ReplaceRemoves(s, "coddy", "foxxycode");
    ReplaceKeepsFree(one, "Coddy", "FoxxyCode", "coddy");
    ReplaceRemoves(one, "Coddy", "FoxxyCode");
    ReplaceKeepsFree(two, "CODDY", "FOXXYCODE", "coddy");
    ReplaceKeepsFree(two, "CODDY", "FOXXYCODE", "Coddy");
    ReplaceRemoves(two, "CODDY", "FOXXYCODE");
  }

  /** A table none of whose sources occurs changes nothing. */
  lemma {:induction false} ReplaceEachNothing(s: string, table: Table)
    requires Sources(table) && forall i :: 0 <= i < |table| ==> !Occurs(s, table[i].0)
    ensures ReplaceEach(s, table) == s
    decreases |table|
  {
    if table != [] {
      ReplaceEachNothing(s, table[..|table| - 1]);
      ReplaceNothing(s, table[|table| - 1].0, table[|table| - 1].1);
    }
  }

  lemma RebrandIdempotent(s: string)
    ensures Rebrand(Rebrand(s)) == Rebrand(s)
  {
    RebrandClean(s);
    ReplaceEachNothing(Rebrand(s), BRAND_REPLACEMENTS);
  }

  /** The number of positions of s at which some source of the table starts. */
  function Starts(s: string, table: Table): nat
    decreases |s|
  {
    if s == "" then 0 else (if FirstMatch(s, table) < |table| then 1 else 0) + Starts(s[1..], table)
  }

  lemma {:induction false} StartsThrough(t: string, rest: string, table: Table)
    requires forall i :: 0 <= i < |table| ==> NoStartIn(table[i].0, t)
    ensures Starts(t + rest, table) == Starts(rest, table)
    decreases |t|
  {
    if t == "" {
      assert t + rest == rest;
    } else {
      forall i | 0 <= i < |table| ensures NoStartIn(table[i].0, t[1..]) { NoStartTail(table[i].0, t); }
      NoMatchInside(t, rest, table);
      HeadTail(t, rest);
      StartsThrough(t[1..], rest, table);
    }
  }

  /** Sources that each grow by four, none of which starts inside another past its head. */
  ghost predicate Growing(table: Table) {
    && (forall i :: 0 <= i < |table| ==> table[i].0 != "" && |table[i].1| == |table[i].0| + 4)
    && (forall i, j :: 0 <= i < |table| && 0 <= j < |table| ==> NoStartIn(table[i].0, table[j].0[1..]))
  }

  lemma StartsSkip(s: string, table: Table)
    requires Growing(table) && s != "" && FirstMatch(s, table) < |table|
    ensures Starts(s, table) == 1 + Starts(s[|table[FirstMatch(s, table)].0|..], table)
  {
    var t := table[FirstMatch(s, table)].0;
    assert s == t + s[|t|..];
    HeadTail(t, s[|t|..]);
    StartsThrough(t[1..], s[|t|..], table);
  }

  lemma {:induction false} OnePassLength(s: string, table: Table)
    requires Sources(table) && Growing(table)
    ensures |OnePass(s, table)| == |s| + 4 * Starts(s, table)
    decreases |s|
  {
    if s != "" {
      var k := FirstMatch(s, table);
      if k < |table| {
        OnePassLength(s[|table[k].0|..], table);
        StartsSkip(s, table);
      } else {
        OnePassLength(s[1..], table);
      }
    }
  }

  lemma BrandGrowing()
    ensures Growing(BRAND_REPLACEMENTS)
  {
    forall i, j | 0 <= i < 3 && 0 <= j < 3
      ensures NoStartIn(BRAND_REPLACEMENTS[i].0, BRAND_REPLACEMENTS[j].0[1..])
    {
      NoStartByHead(BRAND_REPLACEMENTS[i].0, BRAND_REPLACEMENTS[j].0[1..]);
    }
  }

  /** Every occurrence of a brand spelling in the original path adds exactly four characters. */
  lemma RebrandLength(s: string)
    ensures |Rebrand(s)| == |s| + 4 * Starts(s, BRAND_REPLACEMENTS)
  {
    BrandIndependent();
    BrandGrowing();
    SequentialIsOnePass(s, BRAND_REPLACEMENTS);
    OnePassLength(s, BRAND_REPLACEMENTS);
  }

  // ---- Path components -----------------------------------------------------------------

  ghost predicate Without(table: Table, c: char) {
    forall i :: 0 <= i < |table| ==> c !in table[i].0 && c !in table[i].1
  }

  lemma MatchLocal(a: string, b: string, c: char, table: Table)
    requires Without(table, c) && a != ""
    ensures FirstMatch(a + [c] + b, table) == FirstMatch(a, table)
  {
    forall i | 0 <= i < |table| ensures At(a + [c] + b, 0, table[i].0) <==> At(a, 0, table[i].0) {
      AtLocal(a, c, b, table[i].0);
    }
  }

  /** A separator outside the table cuts the one-pass reading in two. */
  lemma {:induction false} OnePassSeparator(a: string, b: string, c: char, table: Table)
    requires Sources(table) && Without(table, c)
    ensures OnePass(a + [c] + b, table) == OnePass(a, table) + [c] + OnePass(b, table)
    decreases |a|
  {
    var whole := a + [c] + b;
    if a == "" {
      assert whole[0] == c && whole[1..] == b;
    } else {
      MatchLocal(a, b, c, table);
      var k := FirstMatch(a, table);
      var n := if k < |table| then |table[k].0| else 1;
      assert whole[n..] == a[n..] + [c] + b;
      OnePassSeparator(a[n..], b, c, table);
    }
  }

  lemma {:induction false} OnePassWithout(s: string, c: char, table: Table)
    requires Sources(table) && Without(table, c) && c !in s
    ensures c !in OnePass(s, table)
    decreases |s|
  {
    if s != "" {
      var k := FirstMatch(s, table);
      OnePassWithout(if k < |table| then s[|table[k].0|..] else s[1..], c, table);
    }
  }

  lemma RebrandSeparator(a: string, b: string)
    ensures Rebrand(a + "/" + b) == Rebrand(a) + "/" + Rebrand(b)
    ensures '/' !in a ==> '/' !in Rebrand(a)
  {
    BrandIndependent();
    SequentialIsOnePass(a + "/" + b, BRAND_REPLACEMENTS);
    SequentialIsOnePass(a, BRAND_REPLACEMENTS);
    SequentialIsOnePass(b, BRAND_REPLACEMENTS);
    OnePassSeparator(a, b, '/', BRAND_REPLACEMENTS);
    if '/' !in a { OnePassWithout(a, '/', BRAND_REPLACEMENTS); }
  }

  function RebrandPieces(pieces: seq<string>): (r: seq<string>)
    ensures |r| == |pieces|
  {
    if pieces == [] then [] else [Rebrand(pieces[0])] + RebrandPieces(pieces[1..])
  }

  lemma {:induction false} RebrandJoin(pieces: seq<string>)
    requires pieces != [] && forall p :: p in pieces ==> '/' !in p
    ensures Rebrand(Join(pieces, '/')) == Join(RebrandPieces(pieces), '/')
    ensures forall p :: p in RebrandPieces(pieces) ==> '/' !in p
    decreases |pieces|
  {
    RebrandSeparator(pieces[0], "");
    if |pieces| > 1 {
      RebrandSeparator(pieces[0], Join(pieces[1..], '/'));
      RebrandJoin(pieces[1..]);
      assert RebrandPieces(pieces)[1..] == RebrandPieces(pieces[1..]);
    }
  }

  /** Rebranding acts component by component, so it keeps depth and parent directories. */
  lemma RebrandComponents(path: string)
    ensures Split(Rebrand(path), '/') == RebrandPieces(Split(path, '/'))
  {
    var pieces := Split(path, '/');
    JoinSplit(path, '/');
    PiecesFree(path, '/');
    RebrandJoin(pieces);
    SplitJoin(RebrandPieces(pieces), '/');
  }
}
