/** The protocol with the updates that `record` makes: which recorded decisions a commit can lose. */
module LedgerDecisions {
  import opened Bytes
  import opened Wrappers
  import opened LedgerProtocol
  import opened LedgerSerial
  import L = Ledger

  /** What loading makes of the ledger's bytes: the decisions, and the other fields. */
  datatype Document = Document(others: map<string, L.Value>, ports: seq<L.Entry>)

  type Reader = Bytes -> Document

  /** The entries that each writer puts. */
  type Batches = Writer -> seq<L.Entry>

  /** The updates are those of `record` and `record_batch`: load, merge the writer's entries, dump. */
  ghost predicate Tool(update: Update, read: Reader, batch: Batches) {
    && (forall w :: L.Unique(batch(w)))
    && forall w, x :: read(update(w, x)) == Document(read(x).others, L.PutAll(read(x).ports, batch(w)))
  }

  /** A ledger that lists its writers, each number as a 0 and that many 1s, and is read by merging in turn. */
  function Merged(x: Bytes, ones: nat, batch: Batches): seq<L.Entry>
    decreases |x|
  {
    if x == [] then []
    else
      var init := x[..|x| - 1];
      if x[|x| - 1] == 1 then Merged(init, ones + 1, batch) else L.PutAll(Merged(init, 0, batch), batch(ones))
  }

  function Ones(n: nat): Bytes {
    seq(n, i => 1)
  }

  lemma {:induction false} MergedOnes(x: Bytes, n: nat, ones: nat, batch: Batches)
    ensures Merged(x + Ones(n), ones, batch) == Merged(x, ones + n, batch)
    decreases n
  {
    var whole := x + Ones(n);
    if n == 0 {
      assert whole == x;
    } else {
      assert whole[..|whole| - 1] == x + Ones(n - 1);
      MergedOnes(x, n - 1, ones + 1, batch);
    }
  }

  /** Whatever the writers record, some reading and dumping of the ledger fits them. */
  lemma ToolExists(batch: Batches) returns (update: Update, read: Reader)
    requires forall w :: L.Unique(batch(w))
    ensures Tool(update, read, batch)
  {
    update := (w: Writer, x: Bytes) => x + [0] + Ones(w);
    read := (x: Bytes) => Document(map[], Merged(x, 0, batch));
    forall w: Writer, x: Bytes ensures Merged(update(w, x), 0, batch) == L.PutAll(Merged(x, 0, batch), batch(w)) {
      MergedOnes(x + [0], w, 0, batch);
      assert (x + [0])[..|x|] == x && update(w, x) == x + [0] + Ones(w);
    }
  }

  predicate Outside(sha: string, batch: seq<L.Entry>) {
    forall i :: 0 <= i < |batch| ==> batch[i].upstreamSha != sha
  }

  /** The two documents differ at most in decisions about commits of the batch. */
  ghost predicate AgreeOutside(a: Document, b: Document, batch: seq<L.Entry>) {
    && a.others == b.others
    && forall sha :: Outside(sha, batch) ==> L.Lookup(a.ports, sha) == L.Lookup(b.ports, sha)
  }

  /** The same decision, or none, about every commit, and the same other fields. */
  ghost predicate Same(a: Document, b: Document) {
    a.others == b.others && forall sha :: L.Lookup(a.ports, sha) == L.Lookup(b.ports, sha)
  }

  function Put(d: Document, batch: seq<L.Entry>): Document {
    d.(ports := L.PutAll(d.ports, batch))
  }

  /** Putting a batch settles its own commits and leaves the rest. */
  lemma PutSettles(d: Document, e: Document, batch: seq<L.Entry>)
    requires L.Unique(batch)
    ensures AgreeOutside(Put(d, batch), e, batch) <==> AgreeOutside(d, e, batch)
    ensures Same(Put(d, batch), Put(e, batch)) <==> AgreeOutside(d, e, batch)
  {
    forall sha ensures if Outside(sha, batch) then
                         L.Lookup(Put(d, batch).ports, sha) == L.Lookup(d.ports, sha)
                         && L.Lookup(Put(e, batch).ports, sha) == L.Lookup(e.ports, sha)
                       else L.Lookup(Put(d, batch).ports, sha) == L.Lookup(Put(e, batch).ports, sha)
    {
      if Outside(sha, batch) {
        L.PutAllLookup(d.ports, batch, sha);
        L.PutAllLookup(e.ports, batch, sha);
      } else {
        var k :| 0 <= k < |batch| && batch[k].upstreamSha == sha;
        L.PutAllOverrides(d.ports, batch, k);
        L.PutAllOverrides(e.ports, batch, k);
      }
    }
  }

  // ---- One commit ----------------------------------------------------------------------------

  /** The commit leaves every decision that is not its own, and the other fields, as they are. */
  ghost predicate KeepsOthers(update: Update, read: Reader, batch: Batches, s: State, w: Writer)
    requires Inv(update, s) && Enabled(s, By(w, Replace))
  {
    AgreeOutside(read(Apply(update, s, By(w, Replace)).ledger), read(s.ledger), batch(w))
  }

  /** What w loaded and what it read under the lock agree about everything but its own commits. */
  ghost predicate FreshOutside(read: Reader, batch: Batches, s: State, w: Writer) {
    && w in s.locals && s.locals[w].loaded < |s.history|
    && AgreeOutside(read(s.history[s.locals[w].loaded]), read(s.locals[w].before), batch(w))
  }

  /** A commit among lock-respecting writers loses no decision of another if and only if its load was fresh
      outside its own batch. */
  lemma CommitKeepsOthers(update: Update, read: Reader, batch: Batches, s: State, w: Writer)
    requires Inv(update, s) && Quiet(update, s) && Enabled(s, By(w, Replace)) && Tool(update, read, batch)
    ensures KeepsOthers(update, read, batch, s, w) <==> FreshOutside(read, batch, s, w)
  {
    CommitPuts(update, read, batch, s, w);
    PutSettles(read(s.history[s.locals[w].loaded]), read(s.ledger), batch(w));
  }

  lemma CommitPuts(update: Update, read: Reader, batch: Batches, s: State, w: Writer)
    requires Inv(update, s) && Quiet(update, s) && Enabled(s, By(w, Replace)) && Tool(update, read, batch)
    ensures s.locals[w].loaded < |s.history| && s.locals[w].before == s.ledger
    ensures read(Apply(update, s, By(w, Replace)).ledger) == Put(read(s.history[s.locals[w].loaded]), batch(w))
  {
    LedgerSteps(update, s, By(w, Replace));
    assert Consistent(update, s, w);
  }

  /** The commit does what recording would do if it loaded under the lock: the merge is admissible there, and
      the decisions come out the same. */
  ghost predicate AsIfLoadedUnderLock(update: Update, read: Reader, batch: Batches, s: State, w: Writer, replace: bool)
    requires Inv(update, s) && Enabled(s, By(w, Replace))
  {
    && L.Admissible(read(s.ledger).ports, batch(w), replace)
    && Same(read(Apply(update, s, By(w, Replace)).ledger), Put(read(s.ledger), batch(w)))
  }

  /** That is so exactly when the load was fresh outside the batch and, without `--update`, nothing else was
      recorded meanwhile about the batch's own commits. */
  lemma CommitAsIfLoadedUnderLock(update: Update, read: Reader, batch: Batches, s: State, w: Writer, replace: bool)
    requires Inv(update, s) && Quiet(update, s) && Enabled(s, By(w, Replace)) && Tool(update, read, batch)
    ensures AsIfLoadedUnderLock(update, read, batch, s, w, replace) <==>
            FreshOutside(read, batch, s, w) && L.Admissible(read(s.locals[w].before).ports, batch(w), replace)
  {
    CommitPuts(update, read, batch, s, w);
    PutSettles(read(s.history[s.locals[w].loaded]), read(s.ledger), batch(w));
  }

  // ---- Whole runs ----------------------------------------------------------------------------

  /** After every event the ledger holds exactly the decisions committed so far, the later ones winning;
      expected is where they stand at the beginning. */
  ghost predicate Tracks(update: Update, read: Reader, batch: Batches, s: State, events: seq<Event>, expected: Document)
    requires Inv(update, s) && Possible(update, s, events)
    decreases |events|
  {
    && Same(read(s.ledger), expected)
    && (events == [] ||
        (StepInv(update, s, events[0]);
         var next := if Commits(events[0]) then Put(expected, batch(events[0].w)) else expected;
         Tracks(update, read, batch, Apply(update, s, events[0]), events[1..], next)))
  }

  /** Every commit of the run comes from a load that was fresh outside its batch. */
  ghost predicate AllFresh(update: Update, read: Reader, batch: Batches, s: State, events: seq<Event>)
    requires Inv(update, s) && Possible(update, s, events)
    decreases |events|
  {
    events == [] ||
    (StepInv(update, s, events[0]);
     (Commits(events[0]) ==> FreshOutside(read, batch, s, events[0].w))
     && AllFresh(update, read, batch, Apply(update, s, events[0]), events[1..]))
  }

  lemma SameOutside(a: Document, b: Document, c: Document, batch: seq<L.Entry>)
    requires Same(b, c)
    ensures AgreeOutside(a, b, batch) <==> AgreeOutside(a, c, batch)
  {}

  /** One event: the ledger keeps tracking the commits exactly if a commit is fresh. */
  lemma TrackStep(update: Update, read: Reader, batch: Batches, s: State, e: Event, expected: Document)
    requires Inv(update, s) && Quiet(update, s) && Enabled(s, e) && e.By? && Tool(update, read, batch)
    requires Same(read(s.ledger), expected)
    ensures var next := if Commits(e) then Put(expected, batch(e.w)) else expected;
            Same(read(Apply(update, s, e).ledger), next) <==> (Commits(e) ==> FreshOutside(read, batch, s, e.w))
  {
    if Commits(e) {
      CommitPuts(update, read, batch, s, e.w);
      var loaded := read(s.history[s.locals[e.w].loaded]);
      PutSettles(loaded, expected, batch(e.w));
      SameOutside(loaded, read(s.ledger), expected, batch(e.w));
    } else {
      LedgerSteps(update, s, e);
    }
  }

  lemma {:induction false} TracksExactly(update: Update, read: Reader, batch: Batches, s: State, events: seq<Event>,
                                         expected: Document)
    requires Inv(update, s) && Quiet(update, s) && Possible(update, s, events) && Respectful(events)
    requires Tool(update, read, batch) && Same(read(s.ledger), expected)
    ensures Tracks(update, read, batch, s, events, expected) <==> AllFresh(update, read, batch, s, events)
    decreases |events|
  {
    if events != [] {
      var e := events[0];
      var next := Apply(update, s, e);
      var later := if Commits(e) then Put(expected, batch(e.w)) else expected;
      StepInv(update, s, e);
      StepQuiet(update, s, e);
      TrackStep(update, read, batch, s, e, expected);
      if Same(read(next.ledger), later) {
        TracksExactly(update, read, batch, next, events[1..], later);
      } else {
        assert !Tracks(update, read, batch, next, events[1..], later);
      }
    }
  }

  /** In a run of lock-respecting writers the ledger holds, at every moment, exactly the decisions committed so
      far, if and only if every committing writer had loaded a ledger that agrees, outside its own batch,
      with what it read again under the lock. */
  lemma NoDecisionLost(update: Update, read: Reader, batch: Batches, start: State, events: seq<Event>)
    requires Initial(start) && Possible(update, start, events) && Respectful(events) && Tool(update, read, batch)
    ensures Tracks(update, read, batch, start, events, read(start.ledger)) <==>
            AllFresh(update, read, batch, start, events)
  {
    TracksExactly(update, read, batch, start, events, read(start.ledger));
  }

  /** It does happen: any two writers can run so that the first one's decision about a commit that the second
      one does not record is gone, though both finish without an error. */
  lemma DecisionLost(update: Update, read: Reader, batch: Batches, start: State, v: Writer, w: Writer, k: nat)
    returns (events: seq<Event>)
    requires Initial(start) && Tool(update, read, batch) && v in start.locals && w in start.locals && v != w
    requires k < |batch(v)| && Outside(batch(v)[k].upstreamSha, batch(w))
    ensures Possible(update, start, events) && Respectful(events)
    ensures var s := Run(update, start, events);
            && v in s.locals && s.locals[v].pc == Done && !s.locals[v].failed
            && w in s.locals && s.locals[w].pc == Done && !s.locals[w].failed
            && L.Lookup(read(s.ledger).ports, batch(v)[k].upstreamSha)
               == L.Lookup(read(start.ledger).ports, batch(v)[k].upstreamSha)
  {
    events := LostUpdate(update, start, v, w);
    L.PutAllLookup(read(start.ledger).ports, batch(w), batch(v)[k].upstreamSha);
  }

  // ---- Validity of every version ---------------------------------------------------------------

  ghost predicate Valid(d: Document) {
    L.ValidDocument(L.DocumentOf(d.others, d.ports))
  }

  ghost predicate ValidBatches(batch: Batches) {
    forall w, i :: 0 <= i < |batch(w)| ==> L.ValidEntry(L.EntryValue(batch(w)[i]))
  }

  /** Starting from a valid ledger, and with valid entries, every version that lock-respecting writers ever
      install passes validation. */
  lemma EveryVersionValid(update: Update, read: Reader, batch: Batches, start: State, events: seq<Event>, i: nat)
    requires Initial(start) && Possible(update, start, events) && Respectful(events) && Tool(update, read, batch)
    requires Valid(read(start.ledger)) && ValidBatches(batch)
    requires i < |Run(update, start, events).history|
    ensures Valid(read(Run(update, start, events).history[i]))
  {
    RunQuiet(update, start, events);
    HistoryGrows(update, start, events);
    VersionValid(update, read, batch, Run(update, start, events), i);
  }

  lemma {:induction false} VersionValid(update: Update, read: Reader, batch: Batches, s: State, i: nat)
    requires Quiet(update, s) && Tool(update, read, batch) && ValidBatches(batch) && i < |s.history|
    requires Valid(read(s.history[0]))
    ensures Valid(read(s.history[i]))
    decreases i
  {
    if i > 0 {
      assert Derived(update, s.history, i);
      var w: Writer, j: nat :| j < i && s.history[i] == update(w, s.history[j]);
      VersionValid(update, read, batch, s, j);
      L.RecordedLedgerValid(read(s.history[j]).others, read(s.history[j]).ports, batch(w));
    }
  }
}
