/** `normalize`: CRLF to LF on every text, brand and owner replacements on upstream text. */
module Normalization {
  import opened Text
  import opened Branding

  const CRLF: string := "\r\n"

  function ToLf(text: string): string {
    ReplaceAll(text, CRLF, "\n")
  }

  lemma ContentSources()
    ensures Sources(CONTENT_REPLACEMENTS)
  {}

  /** Decoded text in, normalized text out; exempt marks an attribution README. */
  function Normalize(text: string, upstream: bool, exempt: bool): string {
    ContentSources();
    if upstream && !exempt then ReplaceEach(ToLf(text), CONTENT_REPLACEMENTS) else ToLf(text)
  }

  method NormalizeText(text: string, upstream: bool, exempt: bool) returns (result: string)
    ensures result == Normalize(text, upstream, exempt)
  {
    ContentSources();
    result := ReplaceAll(text, CRLF, "\n");
    if upstream {
      var table := if exempt then [] else CONTENT_REPLACEMENTS;
      for i := 0 to |table|
        invariant Sources(table[..i]) && result == ReplaceEach(ToLf(text), table[..i])
      {
        assert table[..i + 1][..i] == table[..i];
        result := ReplaceAll(result, table[i].0, table[i].1);
      }
      assert table[..|table|] == table;
    }
  }

  lemma {:induction false} ReplaceEachAppend(s: string, a: Table, b: Table)
    requires Sources(a) && Sources(b)
    ensures Sources(a + b) && ReplaceEach(s, a + b) == ReplaceEach(ReplaceEach(s, a), b)
    decreases |b|
  {
    if b == [] {
      assert a + b == a;
    } else {
      ReplaceEachAppend(s, a, b[..|b| - 1]);
      assert (a + b)[..|a + b| - 1] == a + b[..|b| - 1];
    }
  }

  /** Outside the README exemption no upstream spelling survives normalization. */
  lemma NormalizeClean(text: string, exempt: bool)
    requires !exempt
    ensures BrandFree(Normalize(text, true, exempt))
  {
    var owners := REPOSITORY_REPLACEMENTS + MODULE_REPLACEMENTS;
    ContentSources();
    ReplaceEachAppend(ToLf(text), owners, BRAND_REPLACEMENTS);
    RebrandClean(ReplaceEach(ToLf(text), owners));
  }

  /** Every content source contains the lower-case brand, so brand-free text is left alone. */
  lemma ContentNeedsBrand(s: string)
    requires BrandFree(s)
    ensures Sources(CONTENT_REPLACEMENTS) && ReplaceEach(s, CONTENT_REPLACEMENTS) == s
  {
    ContentSources();
    assert BRAND_REPLACEMENTS[0].0 == "coddy";
    forall i | 0 <= i < |CONTENT_REPLACEMENTS| ensures !Occurs(s, CONTENT_REPLACEMENTS[i].0) {
      var t := CONTENT_REPLACEMENTS[i].0;
      if i < 6 {
        BrandInside(i);
        if Occurs(s, t) { OccursWithin(s, t, "coddy"); }
      } else {
        assert CONTENT_REPLACEMENTS[i] == BRAND_REPLACEMENTS[i - 6];
      }
    }
    ReplaceEachNothing(s, CONTENT_REPLACEMENTS);
  }

  lemma BrandInside(i: nat)
    requires i < 6
    ensures Occurs(CONTENT_REPLACEMENTS[i].0, "coddy")
  {
    var t := CONTENT_REPLACEMENTS[i].0;
    if i < 4 {
      assert CONTENT_REPLACEMENTS[i] == REPOSITORY_REPLACEMENTS[i];
      var scheme, owner := if i < 2 then "https" else "http", if i % 2 == 0 then "EvilFreelancer" else "coddy-project";
      assert t == UpstreamUrl(scheme, owner);
      EndsInBrand(scheme + "://github.com/" + owner);
    } else {
      assert At(t, |t| - 11, "coddy");
    }
  }

  lemma EndsInBrand(x: string)
    ensures Occurs(x + "/coddy-agent", "coddy")
  {
    var t := x + "/coddy-agent";
    assert t[|x| + 1..|x| + 6] == "coddy";
    assert At(t, |x| + 1, "coddy");
  }

  lemma OccursWithin(s: string, t: string, u: string)
    requires Occurs(s, t) && Occurs(t, u)
    ensures Occurs(s, u)
  {
    var i: nat :| At(s, i, t);
    var j: nat :| At(t, j, u);
    AtWithin(s, i, t, j, u);
  }

  lemma AtWithin(s: string, i: nat, t: string, j: nat, u: string)
    requires At(s, i, t) && At(t, j, u)
    ensures At(s, i + j, u)
  {
    forall k | 0 <= k < |u| ensures s[i + j + k] == u[k] {
      assert s[i..i + |t|][j + k] == t[j + k] && t[j..j + |u|][k] == u[k];
    }
  }

  // ---- Line endings --------------------------------------------------------------------

  /** A CRLF is left over exactly where a second CR preceded one. */
  lemma {:induction false} CrLfLeft(s: string)
    ensures Occurs(ToLf(s), CRLF) <==> Occurs(s, "\r\r\n")
    decreases |s|
  {
    if s != "" {
      var n := if At(s, 0, CRLF) then 2 else 1;
      var rest := s[n..];
      CrLfLeft(rest);
      var head := if n == 2 then "\n" else s[..1];
      assert ToLf(s) == head + ToLf(rest);
      StartsLf(rest);
      SplitOccurs(head, ToLf(rest), CRLF);
      if At(s, 0, CRLF) {
        SplitOccurs(s[..1], s[1..], "\r\r\n");
        SplitOccurs(s[1..2], rest, "\r\r\n");
        assert s[1..] == s[1..2] + rest && s == s[..1] + s[1..];
        assert !At(s, 0, "\r\r\n") by { assert s[..2][1] == '\n'; }
        assert !At(s[1..], 0, "\r\r\n") by { assert s[..2][1] == '\n'; }
      } else {
        SplitOccurs(s[..1], rest, "\r\r\n");
        assert s == s[..1] + rest;
      }
    } else {
      assert !At(s, 0, CRLF) && !At(s, 0, "\r\r\n");
    }
  }

  /** Line ends are converted on both sides of any cut that does not part CR from LF. */
  lemma {:induction false} ToLfInTwo(a: string, m: string)
    requires a == "" || m == "" || a[|a| - 1] != '\r' || m[0] != '\n'
    ensures ToLf(a + m) == ToLf(a) + ToLf(m)
    decreases |a|
  {
    if a == "" {
      assert a + m == m;
    } else {
      var n := if At(a, 0, CRLF) then 2 else 1;
      DropFront(a, m, n);
      SameFront(a, m);
      ToLfInTwo(a[n..], m);
      LfStep(a);
      LfStep(a + m);
    }
  }

  lemma DropFront(a: string, m: string, n: nat)
    requires n <= |a|
    ensures (a + m)[n..] == a[n..] + m
  {}

  lemma SameFront(a: string, m: string)
    requires a != "" && (m == "" || a[|a| - 1] != '\r' || m[0] != '\n')
    ensures At(a + m, 0, CRLF) <==> At(a, 0, CRLF)
  {
    if |a| >= 2 { assert (a + m)[..2] == a[..2]; }
    if |a| == 1 && m != "" { assert (a + m)[..2] == [a[0], m[0]]; }
  }

  lemma LfStep(s: string)
    requires s != ""
    ensures ToLf(s) == (if At(s, 0, CRLF) then "\n" + ToLf(s[2..]) else [s[0]] + ToLf(s[1..]))
  {}

  /** Fork texts and READMEs get their line ends converted and are otherwise left alone. */
  lemma LineEndsOnly(a: string, b: string, upstream: bool, exempt: bool)
    requires !upstream || exempt
    ensures !Occurs(a, CRLF) ==> Normalize(a, upstream, exempt) == a
    ensures Normalize(a + (CRLF + b), upstream, exempt)
         == Normalize(a, upstream, exempt) + ("\n" + Normalize(b, upstream, exempt))
  {
    if !Occurs(a, CRLF) { ReplaceNothing(a, CRLF, "\n"); }
    ToLfInTwo(a, CRLF + b);
    LfStep(CRLF + b);
    assert (CRLF + b)[..2] == CRLF && (CRLF + b)[2..] == b;
  }

  /** A text in one line passes the conversion unchanged wherever it stands. */
  lemma ToLfAround(a: string, t: string, b: string)
    requires t != "" && '\r' !in t && '\n' !in t
    ensures ToLf(a + (t + b)) == ToLf(a) + (t + ToLf(b))
  {
    assert (t + b)[0] == t[0] && t[|t| - 1] != '\r';
    ToLfInTwo(a, t + b);
    ToLfInTwo(t, b);
    forall i: nat ensures !At(t, i, CRLF) { if i + 2 <= |t| { assert t[i..i + 2][0] == t[i]; } }
    ReplaceNothing(t, CRLF, "\n");
  }

  lemma StartsLf(s: string)
    ensures "\n" <= ToLf(s) <==> "\n" <= s || At(s, 0, CRLF)
  {}

  lemma SplitOccurs(head: string, rest: string, u: string)
    requires |head| == 1 && u != ""
    ensures Occurs(head + rest, u) <==> At(head + rest, 0, u) || Occurs(rest, u)
    ensures At(head + rest, 0, u) <==> head[0] == u[0] && u[1..] <= rest
  {
    var s := head + rest;
    assert s[1..] == rest;
    if Occurs(s, u) && !At(s, 0, u) {
      var i: nat :| At(s, i, u);
      AtLater(head, rest, i, u);
    }
    if Occurs(rest, u) { OccursLater(s, 1, u); }
    if At(s, 0, u) { assert u[1..] == s[1..|u|] == rest[..|u| - 1]; }
    if head[0] == u[0] && u[1..] <= rest { assert u == [u[0]] + u[1..]; assert s[..|u|] == u; }
  }

  ghost function Crs(s: string): nat {
    multiset(s)['\r']
  }

  lemma CrsSum(a: string, b: string)
    ensures Crs(a + b) == Crs(a) + Crs(b)
  {}

  /** Replacements without CR keep the number of CRs; LF conversion drops one per CRLF. */
  lemma {:induction false} CrsReplace(s: string, t: string, r: string)
    requires t != "" && Crs(r) <= Crs(t)
    ensures Crs(ReplaceAll(s, t, r)) <= Crs(s)
    ensures Crs(r) == Crs(t) ==> Crs(ReplaceAll(s, t, r)) == Crs(s)
    ensures Crs(r) < Crs(t) && Occurs(s, t) ==> Crs(ReplaceAll(s, t, r)) < Crs(s)
    decreases |s|
  {
    if s != "" {
      CrsReplace(s[if At(s, 0, t) then |t| else 1..], t, r);
      if At(s, 0, t) { CrsHit(s, t, r); } else { CrsMiss(s, t, r); }
    } else {
      assert !At(s, 0, t);
    }
  }

  lemma CrsHit(s: string, t: string, r: string)
    requires t != "" && At(s, 0, t)
    ensures Crs(s) == Crs(t) + Crs(s[|t|..])
    ensures Crs(ReplaceAll(s, t, r)) == Crs(r) + Crs(ReplaceAll(s[|t|..], t, r))
  {
    assert s == t + s[|t|..];
    CrsSum(t, s[|t|..]);
    CrsSum(r, ReplaceAll(s[|t|..], t, r));
  }

  lemma CrsMiss(s: string, t: string, r: string)
    requires s != "" && t != "" && !At(s, 0, t)
    ensures Crs(s) == Crs(s[..1]) + Crs(s[1..]) && (Occurs(s, t) ==> Occurs(s[1..], t))
    ensures Crs(ReplaceAll(s, t, r)) == Crs(s[..1]) + Crs(ReplaceAll(s[1..], t, r))
  {
    assert s == s[..1] + s[1..] && s[..1] == [s[0]];
    CrsSum(s[..1], s[1..]);
    CrsSum(s[..1], ReplaceAll(s[1..], t, r));
    SplitOccurs(s[..1], s[1..], t);
  }

  ghost predicate LineEndFree(table: Table) {
    Without(table, '\r') && Without(table, '\n')
  }

  lemma {:induction false} CrsEach(s: string, table: Table)
    requires Sources(table) && LineEndFree(table)
    ensures Crs(ReplaceEach(s, table)) == Crs(s)
    decreases |table|
  {
    if table != [] {
      var last := table[|table| - 1];
      CrsEach(s, table[..|table| - 1]);
      assert Crs(last.0) == 0 && Crs(last.1) == 0;
      CrsReplace(ReplaceEach(s, table[..|table| - 1]), last.0, last.1);
    }
  }

  lemma {:induction false} CrLfStays(s: string, table: Table)
    requires Sources(table) && LineEndFree(table) && Occurs(s, CRLF)
    ensures Occurs(ReplaceEach(s, table), CRLF)
    decreases |table|
  {
    if table != [] {
      var (t, r) := table[|table| - 1];
      CrLfStays(s, table[..|table| - 1]);
      CrLfKept(ReplaceEach(s, table[..|table| - 1]), t, r);
    }
  }

  lemma CrLfKept(s: string, t: string, r: string)
    requires t != "" && '\r' !in t && '\n' !in t && Occurs(s, CRLF)
    ensures Occurs(ReplaceAll(s, t, r), CRLF)
  {
    var i: nat :| At(s, i, CRLF);
    var a, b := s[..i], s[i + 2..];
    CutAt(s, i);
    ReplaceSeparator(a, '\r', ['\n'] + b, t, r);
    ReplaceSeparator("", '\n', b, t, r);
    assert "" + ['\n'] + b == ['\n'] + b;
    var front := ReplaceAll(a, t, r);
    assert ReplaceAll(s, t, r) == front + CRLF + ReplaceAll(b, t, r);
    assert At(ReplaceAll(s, t, r), |front|, CRLF);
  }

  lemma CutAt(s: string, i: nat)
    requires At(s, i, CRLF)
    ensures s == s[..i] + ['\r'] + (['\n'] + s[i + 2..])
  {
    assert s[i] == s[i..i + 2][0] && s[i + 1] == s[i..i + 2][1];
  }

  lemma InertToCrLf(r: string)
    requires |r| >= 2 && '\r' !in r && '\n' !in r
    ensures Inert(CRLF, r)
  {
    forall k: nat | k < 2 ensures !(CRLF[k..] <= r) {
      assert CRLF[k..][0] == CRLF[k];
    }
    NoStartByHead(CRLF, r);
    InertWhenLonger(CRLF, r);
  }

  lemma {:induction false} CrLfNotMade(s: string, table: Table)
    requires Sources(table) && LineEndFree(table) && !Occurs(s, CRLF)
    requires forall i :: 0 <= i < |table| ==> |table[i].1| >= 2
    ensures !Occurs(ReplaceEach(s, table), CRLF)
    decreases |table|
  {
    if table != [] {
      var (t, r) := table[|table| - 1];
      CrLfNotMade(s, table[..|table| - 1]);
      InertToCrLf(r);
      ReplaceKeepsFree(ReplaceEach(s, table[..|table| - 1]), t, r, CRLF);
    }
  }

  /** Replacement entries in which neither CR nor LF occurs, each at least two characters long. */
  ghost predicate Plain(table: Table) {
    && Sources(table) && LineEndFree(table)
    && forall i :: 0 <= i < |table| ==> |table[i].1| >= 2
  }

  ghost predicate PlainEntry(source: string, replacement: string) {
    && source != "" && |replacement| >= 2
    && (forall k :: 0 <= k < |source| ==> source[k] != '\r' && source[k] != '\n')
    && (forall k :: 0 <= k < |replacement| ==> replacement[k] != '\r' && replacement[k] != '\n')
  }

  lemma PlainUrl(scheme: string, owner: string)
    requires '\r' !in scheme && '\n' !in scheme && '\r' !in owner && '\n' !in owner
    ensures PlainEntry(UpstreamUrl(scheme, owner), ForkUrl(scheme))
  {}

  lemma PlainLiterals()
    ensures PlainEntry("github.com/EvilFreelancer/coddy-agent", "github.com/hijera/foxxycode-agent")
    ensures PlainEntry("github.com/coddy-project/coddy-agent", "github.com/hijera/foxxycode-agent")
  {}

  lemma PlainTable(table: Table)
    requires forall i :: 0 <= i < |table| ==> PlainEntry(table[i].0, table[i].1)
    ensures Plain(table)
  {
    forall i | 0 <= i < |table|
      ensures '\r' !in table[i].0 && '\r' !in table[i].1 && '\n' !in table[i].0 && '\n' !in table[i].1
    {
      assert PlainEntry(table[i].0, table[i].1);
    }
  }

  lemma RepositoryPlain()
    ensures Plain(REPOSITORY_REPLACEMENTS)
  {
    PlainUrl("https", "EvilFreelancer");
    PlainUrl("https", "coddy-project");
    PlainUrl("http", "EvilFreelancer");
    PlainUrl("http", "coddy-project");
    forall i | 0 <= i < 4 ensures PlainEntry(REPOSITORY_REPLACEMENTS[i].0, REPOSITORY_REPLACEMENTS[i].1) {}
    PlainTable(REPOSITORY_REPLACEMENTS);
  }

  lemma ModulePlain()
    ensures Plain(MODULE_REPLACEMENTS)
  {
    PlainLiterals();
    forall i | 0 <= i < 2 ensures PlainEntry(MODULE_REPLACEMENTS[i].0, MODULE_REPLACEMENTS[i].1) {}
    PlainTable(MODULE_REPLACEMENTS);
  }

  lemma BrandPlain()
    ensures Plain(BRAND_REPLACEMENTS)
  {}

  lemma ContentPlain()
    ensures Plain(CONTENT_REPLACEMENTS)
  {
    RepositoryPlain();
    ModulePlain();
    BrandPlain();
    PlainAppend(REPOSITORY_REPLACEMENTS, MODULE_REPLACEMENTS);
    PlainAppend(REPOSITORY_REPLACEMENTS + MODULE_REPLACEMENTS, BRAND_REPLACEMENTS);
  }

  lemma PlainAppend(a: Table, b: Table)
    requires Plain(a) && Plain(b)
    ensures Plain(a + b)
  {}

  /** CRLF-free output, for upstream and fork text alike, means exactly: no CR CR LF in the input. */
  lemma NormalizedCrLf(text: string, upstream: bool, exempt: bool)
    ensures Occurs(Normalize(text, upstream, exempt), CRLF) <==> Occurs(text, "\r\r\n")
  {
    CrLfLeft(text);
    ContentPlain();
    if upstream && !exempt {
      if Occurs(ToLf(text), CRLF) {
        CrLfStays(ToLf(text), CONTENT_REPLACEMENTS);
      } else {
        CrLfNotMade(ToLf(text), CONTENT_REPLACEMENTS);
      }
    }
  }

  /** Normalizing twice equals normalizing once exactly when the text has no CR CR LF. */
  lemma NormalizeIdempotent(text: string, upstream: bool, exempt: bool)
    ensures var once := Normalize(text, upstream, exempt);
            Normalize(once, upstream, exempt) == once <==> !Occurs(text, "\r\r\n")
  {
    var once := Normalize(text, upstream, exempt);
    NormalizedCrLf(text, upstream, exempt);
    ContentPlain();
    if Occurs(once, CRLF) {
      assert Crs("\n") == 0 && Crs(CRLF) == 1;
      CrsReplace(once, CRLF, "\n");
      if upstream && !exempt { CrsEach(ToLf(once), CONTENT_REPLACEMENTS); }
    } else {
      ReplaceNothing(once, CRLF, "\n");
      if upstream && !exempt {
        NormalizeClean(text, exempt);
        ContentNeedsBrand(once);
      }
    }
  }
}
