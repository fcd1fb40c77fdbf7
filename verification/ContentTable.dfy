/** The content table read as one pass: what becomes of repository URLs, module paths and brand names. */
module ContentTable {
  import opened Text
  import opened Branding
  import Normalization

  // ---- Texts that do not fit over one another --------------------------------------------------

  /** At no place of a does b fit: not inside a, and not as far as a goes. */
  ghost predicate Misfit(a: string, b: string) {
    forall k :: 0 <= k < |a| ==> Clashes(a, b, k)
  }

  ghost predicate Clashes(a: string, b: string, k: nat) {
    exists o: nat :: ClashAt(a, b, k, o)
  }

  predicate ClashAt(a: string, b: string, k: nat, o: nat) {
    k + o < |a| && o < |b| && a[k + o] != b[o]
  }

  lemma MisfitApart(a: string, b: string)
    requires Misfit(a, b)
    ensures NoStartIn(b, a) && NoRunIn(a, b) && (b != "" ==> !Occurs(a, b))
  {
    forall k: nat | k < |a| ensures !(a[k..] <= b) && !At(a, k, b) {
      assert Clashes(a, b, k);
      var o: nat :| ClashAt(a, b, k, o);
      assert a[k..][o] == a[k + o];
      AtChar(a, k, b, o);
    }
  }

  lemma AtChar(a: string, k: nat, b: string, o: nat)
    requires k + o < |a| && o < |b|
    ensures At(a, k, b) ==> a[k + o] == b[o]
  {
    if At(a, k, b) { assert a[k..k + |b|][o] == a[k + o]; }
  }

  /** Where a character stands in a text. */
  ghost predicate OnlyAt(a: string, c: char, places: set<nat>) {
    forall k :: 0 <= k < |a| && a[k] == c ==> k in places
  }

  lemma MisfitBy(a: string, b: string, p: nat, op: nat, q: nat, oq: nat)
    requires b != "" && OnlyAt(a, b[0], {p, q}) && ClashAt(a, b, p, op) && ClashAt(a, b, q, oq)
    ensures Misfit(a, b)
  {
    forall k | 0 <= k < |a| ensures Clashes(a, b, k) {
      if a[k] != b[0] { assert ClashAt(a, b, k, 0); }
    }
  }

  lemma MisfitHead(a: string, b: string)
    requires b != "" && b[0] !in a
    ensures Misfit(a, b)
  {
    forall k | 0 <= k < |a| ensures Clashes(a, b, k) { assert ClashAt(a, b, k, 0); }
  }

  lemma MisfitThree(a: string, b: string, p: nat, op: nat, q: nat, oq: nat, r: nat, or: nat)
    requires b != "" && OnlyAt(a, b[0], {p, q, r})
    requires ClashAt(a, b, p, op) && ClashAt(a, b, q, oq) && ClashAt(a, b, r, or)
    ensures Misfit(a, b)
  {
    forall k | 0 <= k < |a| ensures Clashes(a, b, k) {
      if a[k] != b[0] { assert ClashAt(a, b, k, 0); }
    }
  }

  // ---- The texts of the table --------------------------------------------------------------------

  predicate Scheme(s: string) {
    s == "https" || s == "http"
  }

  predicate Owner(o: string) {
    o == "EvilFreelancer" || o == "coddy-project"
  }

  function Module(owner: string): string {
    "github.com/" + owner + "/coddy-agent"
  }

  const FORK_MODULE: string := "github.com/" + "hijera/foxxycode-agent"

  lemma UrlHeads(s: string, o: string)
    requires Scheme(s) && Owner(o)
    ensures OnlyAt(UpstreamUrl(s, o), 'h', {0, |s| + 6})
  {}

  lemma UrlUrl(s: string, o: string, t: string, p: string)
    requires Scheme(s) && Owner(o) && Scheme(t) && Owner(p) && (s != t || o != p)
    ensures Misfit(UpstreamUrl(s, o), UpstreamUrl(t, p))
  {
    UrlHeads(s, o);
    MisfitBy(UpstreamUrl(s, o), UpstreamUrl(t, p), 0, if s != t then 4 else |s| + 14, |s| + 6, 1);
  }

  lemma UrlFork(s: string, o: string, t: string)
    requires Scheme(s) && Owner(o) && Scheme(t)
    ensures Misfit(UpstreamUrl(s, o), ForkUrl(t))
  {
    UrlHeads(s, o);
    MisfitBy(UpstreamUrl(s, o), ForkUrl(t), 0, if s != t then 4 else |s| + 14, |s| + 6, 1);
  }

  lemma ForkUrlH(t: string)
    requires Scheme(t)
    ensures OnlyAt(ForkUrl(t), 'h', {0, |t| + 6, |t| + 14})
  {}

  lemma ForkUrlG(t: string)
    requires Scheme(t)
    ensures OnlyAt(ForkUrl(t), 'g', {|t| + 3, |t| + 28})
  {}

  lemma ForkUrlC(t: string)
    requires Scheme(t)
    ensures OnlyAt(ForkUrl(t), 'c', {|t| + 10}) && 'C' !in ForkUrl(t)
  {}

  lemma ForkUrlOnUrl(t: string, s: string, o: string)
    requires Scheme(s) && Owner(o) && Scheme(t)
    ensures ClashAt(ForkUrl(t), UpstreamUrl(s, o), |t| + 6, 1) && ClashAt(ForkUrl(t), UpstreamUrl(s, o), |t| + 14, 1)
  {}

  lemma ForkUrlFront(t: string, s: string, o: string)
    requires Scheme(s) && Owner(o) && Scheme(t)
    ensures ClashAt(ForkUrl(t), UpstreamUrl(s, o), 0, if s != t then 4 else |s| + 14)
  {}

  lemma ForkOverUrl(t: string, s: string, o: string)
    requires Scheme(s) && Owner(o) && Scheme(t)
    ensures Misfit(ForkUrl(t), UpstreamUrl(s, o))
  {
    ForkUrlH(t);
    ForkUrlOnUrl(t, s, o);
    ForkUrlFront(t, s, o);
    var a, b := ForkUrl(t), UpstreamUrl(s, o);
    assert b[0] == 'h';
    MisfitThree(a, b, 0, if s != t then 4 else |s| + 14, |t| + 6, 1, |t| + 14, 1);
  }

  lemma ModuleHeads(o: string)
    requires Owner(o)
    ensures OnlyAt(Module(o), 'h', {3}) && OnlyAt(Module(o), 'g', {0, |Module(o)| - 4})
  {}

  /** Module paths against URLs, the upstream's and the fork's. */
  lemma ModuleOverUrls(o: string, s: string, p: string)
    requires Owner(o) && Scheme(s) && Owner(p)
    ensures Misfit(Module(o), ForkUrl(s)) && Misfit(Module(o), UpstreamUrl(s, p))
  {
    ModuleHeads(o);
    MisfitBy(Module(o), ForkUrl(s), 3, 1, 3, 1);
    MisfitBy(Module(o), UpstreamUrl(s, p), 3, 1, 3, 1);
  }

  lemma ForkUrlOverModule(s: string, o: string)
    requires Scheme(s) && Owner(o)
    ensures Misfit(ForkUrl(s), Module(o))
  {
    ForkUrlG(s);
    MisfitBy(ForkUrl(s), Module(o), |s| + 3, 11, |s| + 28, 1);
  }

  lemma ForkModuleHeads()
    ensures OnlyAt(FORK_MODULE, 'g', {0, |FORK_MODULE| - 4}) && OnlyAt(FORK_MODULE, 'c', {7, 23})
    ensures 'C' !in FORK_MODULE
  {}

  lemma ModuleModules(o: string, p: string)
    requires Owner(o) && Owner(p)
    ensures o != p ==> Misfit(Module(o), Module(p))
    ensures Misfit(Module(o), FORK_MODULE) && Misfit(FORK_MODULE, Module(o))
  {
    ModuleHeads(o);
    ForkModuleHeads();
    if o != p { MisfitBy(Module(o), Module(p), 0, 11, |Module(o)| - 4, 1); }
    MisfitBy(Module(o), FORK_MODULE, 0, 11, |Module(o)| - 4, 1);
    MisfitBy(FORK_MODULE, Module(o), 0, 11, |FORK_MODULE| - 4, 1);
  }

  predicate Brand(c: string) {
    c == "coddy" || c == "Coddy" || c == "CODDY"
  }

  /** Brand names against the longer texts. */
  lemma BrandOverOthers(c: string, s: string, o: string)
    requires Brand(c) && Scheme(s) && Owner(o)
    ensures Misfit(c, UpstreamUrl(s, o)) && Misfit(c, Module(o)) && Misfit(c, ForkUrl(s)) && Misfit(c, FORK_MODULE)
  {
    MisfitHead(c, UpstreamUrl(s, o));
    MisfitHead(c, Module(o));
    MisfitHead(c, ForkUrl(s));
    MisfitHead(c, FORK_MODULE);
  }

  lemma ForkUrlOverBrand(s: string, c: string)
    requires Brand(c) && Scheme(s)
    ensures Misfit(ForkUrl(s), c)
  {
    ForkUrlC(s);
    if c == "coddy" {
      MisfitBy(ForkUrl(s), c, |s| + 10, 2, |s| + 10, 2);
    } else {
      MisfitHead(ForkUrl(s), c);
    }
  }

  lemma ForkModuleOverBrand(c: string)
    requires Brand(c)
    ensures Misfit(FORK_MODULE, c)
  {
    ForkModuleHeads();
    if c == "coddy" { MisfitBy(FORK_MODULE, c, 7, 2, 23, 3); } else { MisfitHead(FORK_MODULE, c); }
  }

  // ---- The table ---------------------------------------------------------------------------------

  lemma Fits(u: string, r: string)
    requires u != "" && r != "" && Misfit(u, r) && Misfit(r, u)
    ensures Inert(u, r)
  {
    MisfitApart(u, r);
    MisfitApart(r, u);
  }

  function SchemeOf(k: nat): (s: string)
    ensures Scheme(s)
  {
    if k < 2 then "https" else "http"
  }

  function OwnerOf(k: nat): (o: string)
    ensures Owner(o)
  {
    if k % 2 == 0 then "EvilFreelancer" else "coddy-project"
  }

  function UrlIndex(s: string, o: string): (k: nat)
    requires Scheme(s) && Owner(o)
    ensures k < 4 && SchemeOf(k) == s && OwnerOf(k) == o
  {
    (if s == "https" then 0 else 2) + (if o == "EvilFreelancer" then 0 else 1)
  }

  function BrandOf(k: nat): (c: string)
    requires 6 <= k < 9
    ensures Brand(c)
  {
    BRAND_REPLACEMENTS[k - 6].0
  }

  /** The nine entries: four URLs, two module paths, three brand names. */
  lemma Entries()
    ensures |CONTENT_REPLACEMENTS| == 9
    ensures forall k :: 0 <= k < 4 ==>
              CONTENT_REPLACEMENTS[k] == (UpstreamUrl(SchemeOf(k), OwnerOf(k)), ForkUrl(SchemeOf(k)))
    ensures forall k :: 4 <= k < 6 ==> CONTENT_REPLACEMENTS[k] == (Module(OwnerOf(k)), FORK_MODULE)
    ensures forall k :: 6 <= k < 9 ==> CONTENT_REPLACEMENTS[k] == BRAND_REPLACEMENTS[k - 6]
  {
    ModuleLiterals();
    forall k | 0 <= k < 4
      ensures CONTENT_REPLACEMENTS[k] == (UpstreamUrl(SchemeOf(k), OwnerOf(k)), ForkUrl(SchemeOf(k)))
    {
      assert CONTENT_REPLACEMENTS[k] == REPOSITORY_REPLACEMENTS[k];
    }
  }

  lemma ModuleLiterals()
    ensures MODULE_REPLACEMENTS == [(Module("EvilFreelancer"), FORK_MODULE), (Module("coddy-project"), FORK_MODULE)]
  {
    FirstModule();
    SecondModule();
    ForkModule();
  }

  lemma FirstModule()
    ensures Module("EvilFreelancer") == "github.com/EvilFreelancer/coddy-agent"
  {}

  lemma SecondModule()
    ensures Module("coddy-project") == "github.com/coddy-project/coddy-agent"
  {}

  lemma ForkModule()
    ensures FORK_MODULE == "github.com/hijera/foxxycode-agent"
  {}

  /** A later source neither forms in an earlier replacement nor meets an earlier source. */
  ghost predicate Later(i: nat, j: nat)
    requires i < j < |CONTENT_REPLACEMENTS|
  {
    && Inert(CONTENT_REPLACEMENTS[j].0, CONTENT_REPLACEMENTS[i].1)
    && NoStartIn(CONTENT_REPLACEMENTS[i].0, CONTENT_REPLACEMENTS[j].0)
  }

  lemma LaterUrl(i: nat, j: nat)
    requires i < j < 4
    ensures j < |CONTENT_REPLACEMENTS| && Later(i, j)
  {
    Entries();
    UrlFork(SchemeOf(j), OwnerOf(j), SchemeOf(i));
    ForkOverUrl(SchemeOf(i), SchemeOf(j), OwnerOf(j));
    Fits(CONTENT_REPLACEMENTS[j].0, CONTENT_REPLACEMENTS[i].1);
    UrlUrl(SchemeOf(j), OwnerOf(j), SchemeOf(i), OwnerOf(i));
    MisfitApart(CONTENT_REPLACEMENTS[j].0, CONTENT_REPLACEMENTS[i].0);
  }

  lemma LaterModule(i: nat, j: nat)
    requires i < j && 4 <= j < 6
    ensures j < |CONTENT_REPLACEMENTS| && Later(i, j)
  {
    Entries();
    if i < 4 {
      ModuleOverUrls(OwnerOf(j), SchemeOf(i), OwnerOf(i));
      ForkUrlOverModule(SchemeOf(i), OwnerOf(j));
    } else {
      ModuleModules(OwnerOf(j), OwnerOf(i));
    }
    Fits(CONTENT_REPLACEMENTS[j].0, CONTENT_REPLACEMENTS[i].1);
    MisfitApart(CONTENT_REPLACEMENTS[j].0, CONTENT_REPLACEMENTS[i].0);
  }

  lemma LaterBrand(i: nat, j: nat)
    requires i < 6 <= j < 9
    ensures j < |CONTENT_REPLACEMENTS| && Later(i, j)
  {
    Entries();
    BrandOverOthers(BrandOf(j), SchemeOf(i), OwnerOf(i));
    if i < 4 { ForkUrlOverBrand(SchemeOf(i), BrandOf(j)); } else { ForkModuleOverBrand(BrandOf(j)); }
    Fits(CONTENT_REPLACEMENTS[j].0, CONTENT_REPLACEMENTS[i].1);
    MisfitApart(CONTENT_REPLACEMENTS[j].0, CONTENT_REPLACEMENTS[i].0);
  }

  lemma LaterBrands(i: nat, j: nat)
    requires 6 <= i < j < 9
    ensures j < |CONTENT_REPLACEMENTS| && Later(i, j)
  {
    Entries();
    BrandIndependent();
  }

  /** Replacing one source after the other is one pass: URLs before module paths before brand names. */
  lemma ContentIsOnePass(s: string)
    ensures Sources(CONTENT_REPLACEMENTS) && ReplaceEach(s, CONTENT_REPLACEMENTS) == OnePass(s, CONTENT_REPLACEMENTS)
  {
    Normalization.ContentSources();
    Entries();
    forall i, j | 0 <= i < j < |CONTENT_REPLACEMENTS|
      ensures Inert(CONTENT_REPLACEMENTS[j].0, CONTENT_REPLACEMENTS[i].1)
      ensures NoStartIn(CONTENT_REPLACEMENTS[i].0, CONTENT_REPLACEMENTS[j].0)
    {
      if j < 4 { LaterUrl(i, j); }
      else if j < 6 { LaterModule(i, j); }
      else if i < 6 { LaterBrand(i, j); }
      else { LaterBrands(i, j); }
    }
    SequentialIsOnePass(s, CONTENT_REPLACEMENTS);
  }

  // ---- What becomes of each text -----------------------------------------------------------------

  /** No source that starts in a reaches into what follows it. */
  ghost predicate Uncut(a: string, m: string, table: Table) {
    forall i, p: nat :: 0 <= i < |table| && p < |a| && At(a + m, p, table[i].0) ==> p + |table[i].0| <= |a|
  }

  lemma UncutTail(a: string, m: string, table: Table, n: nat)
    requires Uncut(a, m, table) && n <= |a|
    ensures Uncut(a[n..], m, table)
  {
    assert (a + m)[n..] == a[n..] + m;
    forall i, p: nat | 0 <= i < |table| && p < |a[n..]| && At(a[n..] + m, p, table[i].0)
      ensures p + |table[i].0| <= |a[n..]|
    {
      assert At(a + m, p + n, table[i].0);
    }
  }

  lemma FrontMatch(a: string, m: string, table: Table)
    requires a != "" && Uncut(a, m, table)
    ensures FirstMatch(a + m, table) == FirstMatch(a, table)
  {
    forall i | 0 <= i < |table| ensures At(a + m, 0, table[i].0) <==> At(a, 0, table[i].0) {
      var t := table[i].0;
      if |t| <= |a| { assert (a + m)[..|t|] == a[..|t|]; }
    }
  }

  /** How much one step of the pass reads, and what it writes. */
  ghost function StepSize(s: string, table: Table): (n: nat)
    requires Sources(table) && s != ""
    ensures 0 < n <= |s|
  {
    var k := FirstMatch(s, table);
    if k < |table| then |table[k].0| else 1
  }

  ghost function StepOut(s: string, table: Table): string
    requires s != ""
  {
    var k := FirstMatch(s, table);
    if k < |table| then table[k].1 else [s[0]]
  }

  lemma OnePassStep(s: string, table: Table)
    requires Sources(table) && s != ""
    ensures OnePass(s, table) == StepOut(s, table) + OnePass(s[StepSize(s, table)..], table)
  {}

  lemma StepFront(a: string, m: string, table: Table)
    requires Sources(table) && a != "" && Uncut(a, m, table)
    ensures StepSize(a + m, table) == StepSize(a, table) && StepOut(a + m, table) == StepOut(a, table)
  {
    FrontMatch(a, m, table);
  }

  lemma DropFront(a: string, m: string, n: nat)
    requires n <= |a|
    ensures (a + m)[n..] == a[n..] + m
  {}

  lemma Rejoin(out: string, x: string, y: string)
    ensures out + (x + y) == (out + x) + y
  {}

  /** There the pass can be split. */
  lemma {:induction false} OnePassInTwo(a: string, m: string, table: Table)
    requires Sources(table) && Uncut(a, m, table)
    ensures OnePass(a + m, table) == OnePass(a, table) + OnePass(m, table)
    decreases |a|, 1
  {
    if a == "" {
      assert a + m == m;
      assert OnePass(a, table) == "";
    } else {
      OnePassOnward(a, m, table);
    }
  }

  lemma {:induction false} OnePassOnward(a: string, m: string, table: Table)
    requires Sources(table) && Uncut(a, m, table) && a != ""
    ensures OnePass(a + m, table) == OnePass(a, table) + OnePass(m, table)
    decreases |a|, 0
  {
    var n, out := StepSize(a, table), StepOut(a, table);
    var rest := a[n..];
    StepFront(a, m, table);
    OnePassStep(a, table);
    OnePassStep(a + m, table);
    UncutTail(a, m, table, n);
    OnePassInTwo(rest, m, table);
    DropFront(a, m, n);
    Rejoin(out, OnePass(rest, table), OnePass(m, table));
  }

  predicate EndsWith(a: string, x: string) {
    |x| <= |a| && a[|a| - |x|..] == x
  }

  /** A source that starts in a and goes beyond it has its front there, and its rest in what follows. */
  lemma Straddles(a: string, t: string, b: string, p: nat, u: string)
    requires p < |a| && |a| < p + |u| && At(a + (t + b), p, u)
    ensures EndsWith(a, u[..|a| - p]) && !Clashes(u, t, |a| - p)
  {
    var whole, k := a + (t + b), |a| - p;
    assert u[..k] == whole[p..p + |u|][..k] == a[p..];
    forall o: nat | k + o < |u| && o < |t| ensures u[k + o] == t[o] {
      assert whole[p..p + |u|][k + o] == whole[|a| + o] == (t + b)[o];
    }
  }

  /** Every source either does not fit where t follows, or its front is not there. */
  ghost predicate Clear(a: string, t: string, u: string) {
    forall k :: 0 < k < |u| ==> Clashes(u, t, k) || !EndsWith(a, u[..k])
  }

  lemma ClearIsUncut(a: string, t: string, b: string, table: Table)
    requires forall i :: 0 <= i < |table| ==> Clear(a, t, table[i].0)
    ensures Uncut(a, t + b, table)
  {
    forall i, p: nat | 0 <= i < |table| && p < |a| && At(a + (t + b), p, table[i].0)
      ensures p + |table[i].0| <= |a|
    {
      if |a| < p + |table[i].0| { Straddles(a, t, b, p, table[i].0); }
    }
  }

  /** A source of the table, between texts that it is cut off from, becomes its replacement. */
  lemma MiddleBecomes(a: string, b: string, k: nat)
    requires k < |CONTENT_REPLACEMENTS| && Uncut(a, CONTENT_REPLACEMENTS[k].0 + b, CONTENT_REPLACEMENTS)
    requires forall i :: 0 <= i < k ==> NoStartIn(CONTENT_REPLACEMENTS[i].0, CONTENT_REPLACEMENTS[k].0)
    ensures Sources(CONTENT_REPLACEMENTS)
    ensures var (t, r) := CONTENT_REPLACEMENTS[k];
            ReplaceEach(a + (t + b), CONTENT_REPLACEMENTS)
            == ReplaceEach(a, CONTENT_REPLACEMENTS) + (r + ReplaceEach(b, CONTENT_REPLACEMENTS))
  {
    var t := CONTENT_REPLACEMENTS[k].0;
    ContentIsOnePass(a + (t + b));
    ContentIsOnePass(a);
    ContentIsOnePass(b);
    OnePassInTwo(a, t + b, CONTENT_REPLACEMENTS);
    FirstIsK(b, k);
    assert (t + b)[|t|..] == b;
  }

  lemma FirstIsK(b: string, k: nat)
    requires k < |CONTENT_REPLACEMENTS| && CONTENT_REPLACEMENTS[k].0 != ""
    requires forall i :: 0 <= i < k ==> NoStartIn(CONTENT_REPLACEMENTS[i].0, CONTENT_REPLACEMENTS[k].0)
    ensures FirstMatch(CONTENT_REPLACEMENTS[k].0 + b, CONTENT_REPLACEMENTS) == k
  {
    var t := CONTENT_REPLACEMENTS[k].0;
    assert At(t + b, 0, t) by { assert (t + b)[..|t|] == t; }
    forall i | 0 <= i < k ensures !At(t + b, 0, CONTENT_REPLACEMENTS[i].0) {
      StartsInside(t, b, 0, CONTENT_REPLACEMENTS[i].0);
    }
  }

  lemma MisfitIsClear(a: string, t: string, u: string)
    requires Misfit(u, t)
    ensures Clear(a, t, u)
  {}

  lemma UrlClear(a: string, s: string, o: string, i: nat)
    requires Scheme(s) && Owner(o) && i < |CONTENT_REPLACEMENTS|
    ensures Clear(a, UpstreamUrl(s, o), CONTENT_REPLACEMENTS[i].0)
  {
    Entries();
    var u, t := CONTENT_REPLACEMENTS[i].0, UpstreamUrl(s, o);
    if i < 4 {
      if SchemeOf(i) == s && OwnerOf(i) == o { UrlSelf(a, s, o); } else { UrlUrl(SchemeOf(i), OwnerOf(i), s, o); }
    } else if i < 6 {
      ModuleOverUrls(OwnerOf(i), s, o);
    } else {
      BrandOverOthers(BrandOf(i), s, o);
    }
  }

  lemma UrlSelf(a: string, s: string, o: string)
    requires Scheme(s) && Owner(o)
    ensures Clear(a, UpstreamUrl(s, o), UpstreamUrl(s, o))
  {
    var u := UpstreamUrl(s, o);
    UrlHeads(s, o);
    assert ClashAt(u, u, |s| + 6, 1);
    forall k | 0 < k < |u| ensures Clashes(u, u, k) {
      if k != |s| + 6 { assert ClashAt(u, u, k, 0); }
    }
  }

  /** Wherever an upstream repository URL stands, it becomes the fork's, under the same scheme; the texts
      around it are treated as if they stood alone. */
  lemma UrlBecomes(a: string, s: string, o: string, b: string)
    requires Scheme(s) && Owner(o)
    ensures Sources(CONTENT_REPLACEMENTS)
    ensures ReplaceEach(a + (UpstreamUrl(s, o) + b), CONTENT_REPLACEMENTS)
         == ReplaceEach(a, CONTENT_REPLACEMENTS) + (ForkUrl(s) + ReplaceEach(b, CONTENT_REPLACEMENTS))
  {
    Entries();
    var k := UrlIndex(s, o);
    forall i | 0 <= i < |CONTENT_REPLACEMENTS| ensures Clear(a, UpstreamUrl(s, o), CONTENT_REPLACEMENTS[i].0) {
      UrlClear(a, s, o, i);
    }
    ClearIsUncut(a, UpstreamUrl(s, o), b, CONTENT_REPLACEMENTS);
    forall i | 0 <= i < k ensures NoStartIn(CONTENT_REPLACEMENTS[i].0, CONTENT_REPLACEMENTS[k].0) { LaterUrl(i, k); }
    MiddleBecomes(a, b, k);
  }

  lemma ModuleClear(a: string, o: string, i: nat)
    requires Owner(o) && i < |CONTENT_REPLACEMENTS| && !EndsWith(a, "https://") && !EndsWith(a, "http://")
    ensures Clear(a, Module(o), CONTENT_REPLACEMENTS[i].0)
  {
    Entries();
    if i < 4 {
      UrlOnModule(a, SchemeOf(i), OwnerOf(i), o);
    } else if i < 6 {
      if OwnerOf(i) == o { ModuleSelf(a, o); } else { ModuleModules(OwnerOf(i), o); }
    } else {
      BrandOverOthers(BrandOf(i), "http", o);
    }
  }

  lemma ModuleSelf(a: string, o: string)
    requires Owner(o)
    ensures Clear(a, Module(o), Module(o))
  {
    var u := Module(o);
    ModuleHeads(o);
    assert ClashAt(u, u, |u| - 4, 1);
    forall k | 0 < k < |u| ensures Clashes(u, u, k) {
      if k != |u| - 4 { assert ClashAt(u, u, k, 0); }
    }
  }

  lemma UrlG(s: string, o: string)
    requires Scheme(s) && Owner(o)
    ensures OnlyAt(UpstreamUrl(s, o), 'g', {|s| + 3, |UpstreamUrl(s, o)| - 4})
  {}

  lemma UrlFront(s: string, o: string)
    requires Scheme(s) && Owner(o)
    ensures UpstreamUrl(s, o)[..|s| + 3] == s + "://"
  {}

  lemma UrlOnModule(a: string, s: string, p: string, o: string)
    requires Scheme(s) && Owner(p) && Owner(o) && !EndsWith(a, "https://") && !EndsWith(a, "http://")
    ensures Clear(a, Module(o), UpstreamUrl(s, p))
  {
    var u, t := UpstreamUrl(s, p), Module(o);
    UrlG(s, p);
    UrlFront(s, p);
    assert ClashAt(u, t, |u| - 4, 1);
    forall k | 0 < k < |u| ensures Clashes(u, t, k) || !EndsWith(a, u[..k]) {
      if k != |s| + 3 && k != |u| - 4 { assert ClashAt(u, t, k, 0); }
    }
  }

  /** A module path that is not part of a URL becomes the fork's module path. */
  lemma ModuleBecomes(a: string, o: string, b: string)
    requires Owner(o) && !EndsWith(a, "https://") && !EndsWith(a, "http://")
    ensures Sources(CONTENT_REPLACEMENTS)
    ensures ReplaceEach(a + (Module(o) + b), CONTENT_REPLACEMENTS)
         == ReplaceEach(a, CONTENT_REPLACEMENTS) + (FORK_MODULE + ReplaceEach(b, CONTENT_REPLACEMENTS))
  {
    Entries();
    var k := if o == "EvilFreelancer" then 4 else 5;
    forall i | 0 <= i < |CONTENT_REPLACEMENTS| ensures Clear(a, Module(o), CONTENT_REPLACEMENTS[i].0) {
      ModuleClear(a, o, i);
    }
    ClearIsUncut(a, Module(o), b, CONTENT_REPLACEMENTS);
    forall i | 0 <= i < k ensures NoStartIn(CONTENT_REPLACEMENTS[i].0, CONTENT_REPLACEMENTS[k].0) { LaterModule(i, k); }
    MiddleBecomes(a, b, k);
  }

  /** And any other occurrence of a brand spelling becomes the fork's. */
  lemma BrandBecomes(a: string, k: nat, b: string)
    requires 6 <= k < 9 && k < |CONTENT_REPLACEMENTS|
    requires Uncut(a, CONTENT_REPLACEMENTS[k].0 + b, CONTENT_REPLACEMENTS)
    ensures Sources(CONTENT_REPLACEMENTS)
    ensures var fork := if k == 6 then "foxxycode" else if k == 7 then "FoxxyCode" else "FOXXYCODE";
            ReplaceEach(a + (CONTENT_REPLACEMENTS[k].0 + b), CONTENT_REPLACEMENTS)
            == ReplaceEach(a, CONTENT_REPLACEMENTS) + (fork + ReplaceEach(b, CONTENT_REPLACEMENTS))
    ensures CONTENT_REPLACEMENTS[k].0 == (if k == 6 then "coddy" else if k == 7 then "Coddy" else "CODDY")
  {
    Entries();
    forall i | 0 <= i < k ensures NoStartIn(CONTENT_REPLACEMENTS[i].0, CONTENT_REPLACEMENTS[k].0) {
      if i < 6 { LaterBrand(i, k); } else { LaterBrands(i, k); }
    }
    MiddleBecomes(a, b, k);
  }

  // ---- normalize ---------------------------------------------------------------------------------

  lemma OneLine(k: nat)
    requires k < |CONTENT_REPLACEMENTS|
    ensures var t := CONTENT_REPLACEMENTS[k].0; t != "" && '\r' !in t && '\n' !in t
  {
    Normalization.ContentPlain();
  }

  /** In an upstream file that is no README, a repository URL becomes the fork's. */
  lemma NormalizedUrl(a: string, s: string, o: string, b: string)
    requires Scheme(s) && Owner(o)
    ensures Normalization.Normalize(a + (UpstreamUrl(s, o) + b), true, false)
         == Normalization.Normalize(a, true, false) + (ForkUrl(s) + Normalization.Normalize(b, true, false))
  {
    Entries();
    OneLine(UrlIndex(s, o));
    Normalization.ToLfAround(a, UpstreamUrl(s, o), b);
    UrlBecomes(Normalization.ToLf(a), s, o, Normalization.ToLf(b));
  }

  /** And a module path that no scheme precedes becomes the fork's module path. */
  lemma NormalizedModule(a: string, o: string, b: string)
    requires Owner(o)
    requires !EndsWith(Normalization.ToLf(a), "https://") && !EndsWith(Normalization.ToLf(a), "http://")
    ensures Normalization.Normalize(a + (Module(o) + b), true, false)
         == Normalization.Normalize(a, true, false) + (FORK_MODULE + Normalization.Normalize(b, true, false))
  {
    Entries();
    OneLine(if o == "EvilFreelancer" then 4 else 5);
    Normalization.ToLfAround(a, Module(o), b);
    ModuleBecomes(Normalization.ToLf(a), o, Normalization.ToLf(b));
  }
}
