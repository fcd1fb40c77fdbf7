/** When recording loses no update: the exact condition on what the writers had loaded. */
module LedgerSerial {
  import opened Bytes
  import opened LedgerProtocol

  /** The writer loaded the very bytes that it read again under the lock. */
  ghost predicate LoadedBefore(s: State, w: Writer) {
    && w in s.locals && s.locals[w].loaded < |s.history|
    && s.history[s.locals[w].loaded] == s.locals[w].before
  }

  /** The event installs w's update of the ledger it replaces. */
  ghost predicate Serially(update: Update, s: State, e: Event)
    requires Inv(update, s) && Enabled(s, e) && e.By?
  {
    Apply(update, s, e).ledger == update(e.w, s.ledger)
  }

  /** Among lock-respecting writers such a load makes the commit an update of the ledger it replaces. */
  lemma CommitIsSerial(update: Update, s: State, w: Writer)
    requires Inv(update, s) && Quiet(update, s) && Enabled(s, By(w, Replace)) && LoadedBefore(s, w)
    ensures Serially(update, s, By(w, Replace))
  {
    LedgerSteps(update, s, By(w, Replace));
    assert Consistent(update, s, w);
    assert s.locals[w].before == s.ledger;
  }

  // ---- Whole runs ----------------------------------------------------------------------------

  predicate Commits(e: Event) {
    e.By? && e.a == Replace
  }

  /** Every commit of the run is an update of the ledger it replaces. */
  ghost predicate Serial(update: Update, s: State, events: seq<Event>)
    requires Inv(update, s) && Possible(update, s, events)
    decreases |events|
  {
    events == [] ||
    (StepInv(update, s, events[0]);
     (Commits(events[0]) ==> Serially(update, s, events[0]))
     && Serial(update, Apply(update, s, events[0]), events[1..]))
  }

  /** Every writer that commits in the run had loaded the bytes it read under the lock. */
  ghost predicate FreshLoads(update: Update, s: State, events: seq<Event>)
    requires Inv(update, s) && Possible(update, s, events)
    decreases |events|
  {
    events == [] ||
    (StepInv(update, s, events[0]);
     (Commits(events[0]) ==> LoadedBefore(s, events[0].w))
     && FreshLoads(update, Apply(update, s, events[0]), events[1..]))
  }

  lemma {:induction false} FreshIsSerial(update: Update, s: State, events: seq<Event>)
    requires Inv(update, s) && Quiet(update, s) && Possible(update, s, events) && Respectful(events)
    requires FreshLoads(update, s, events)
    ensures Serial(update, s, events)
    decreases |events|
  {
    if events != [] {
      StepInv(update, s, events[0]);
      StepQuiet(update, s, events[0]);
      if Commits(events[0]) { CommitIsSerial(update, s, events[0].w); }
      FreshIsSerial(update, Apply(update, s, events[0]), events[1..]);
    }
  }

  /** The writers of the run's commits, in order. */
  function Committers(events: seq<Event>): seq<Writer> {
    if events == [] then []
    else (if Commits(events[0]) then [events[0].w] else []) + Committers(events[1..])
  }

  /** The updates of the given writers, one after the other. */
  function Replay(update: Update, ledger: Bytes, writers: seq<Writer>): Bytes
    decreases |writers|
  {
    if writers == [] then ledger else Replay(update, update(writers[0], ledger), writers[1..])
  }

  lemma {:induction false} SerialReplays(update: Update, s: State, events: seq<Event>)
    requires Inv(update, s) && Possible(update, s, events) && Respectful(events) && Serial(update, s, events)
    ensures Run(update, s, events).ledger == Replay(update, s.ledger, Committers(events))
    decreases |events|
  {
    if events != [] {
      var e := events[0];
      StepInv(update, s, e);
      LedgerSteps(update, s, e);
      SerialReplays(update, Apply(update, s, e), events[1..]);
      if Commits(e) {
        assert Committers(events)[0] == e.w && Committers(events)[1..] == Committers(events[1..]);
      } else {
        assert Committers(events) == Committers(events[1..]);
      }
    }
  }

  /** If every committing writer of a lock-respecting run had loaded the bytes that it then read under the
      lock, the final ledger is byte for byte the replay of all commits in order. */
  lemma FreshRunReplays(update: Update, start: State, events: seq<Event>)
    requires Initial(start) && Possible(update, start, events) && Respectful(events)
    requires FreshLoads(update, start, events)
    ensures Serial(update, start, events)
    ensures Run(update, start, events).ledger == Replay(update, start.ledger, Committers(events))
  {
    FreshIsSerial(update, start, events);
    SerialReplays(update, start, events);
  }

  // ---- The condition in terms of events -----------------------------------------------------------

  lemma {:induction false} RunInTwo(update: Update, s: State, a: seq<Event>, b: seq<Event>)
    requires Inv(update, s) && Possible(update, s, a + b)
    ensures Possible(update, s, a) && Possible(update, Run(update, s, a), b)
    ensures Run(update, s, a + b) == Run(update, Run(update, s, a), b)
    decreases |a|
  {
    if a == [] {
      assert a + b == b;
    } else {
      assert (a + b)[1..] == a[1..] + b;
      StepInv(update, s, a[0]);
      RunInTwo(update, Apply(update, s, a[0]), a[1..], b);
    }
  }

  ghost predicate NoCommit(events: seq<Event>) {
    forall i :: 0 <= i < |events| ==> !Commits(events[i])
  }

  /** w has loaded, and if it has not moved on, what it loaded is still current. */
  ghost predicate Current(s: State, w: Writer) {
    w in s.locals && s.locals[w].pc != Start && (s.locals[w].pc == Loaded ==> s.locals[w].loaded == |s.history| - 1)
  }

  lemma StepCurrent(update: Update, s: State, e: Event, w: Writer)
    requires s.history != [] && Enabled(s, e) && e.By? && !Commits(e) && Current(s, w)
    ensures Current(Apply(update, s, e), w)
  {}

  lemma {:induction false} StaysCurrent(update: Update, s: State, events: seq<Event>, w: Writer)
    requires Inv(update, s) && Possible(update, s, events) && Respectful(events) && NoCommit(events)
    requires Current(s, w)
    ensures Current(Run(update, s, events), w)
    decreases |events|
  {
    if events != [] {
      StepInv(update, s, events[0]);
      StepCurrent(update, s, events[0], w);
      StaysCurrent(update, Apply(update, s, events[0]), events[1..], w);
    }
  }

  /** w holds the lock with the current version loaded, or has passed its commit. */
  ghost predicate Guarded(s: State, w: Writer) {
    && w in s.locals && s.locals[w].pc !in {Start, Loaded}
    && (s.locals[w].pc in {Locked, Read, Writing, Dumped, Compared} ==> s.locals[w].loaded == |s.history| - 1)
  }

  lemma StepGuarded(update: Update, s: State, e: Event, w: Writer)
    requires Inv(update, s) && Enabled(s, e) && e.By? && Guarded(s, w)
    ensures Guarded(Apply(update, s, e), w)
  {
    LedgerSteps(update, s, e);
    assert Consistent(update, s, w) && Consistent(update, s, e.w);
  }

  lemma {:induction false} StaysGuarded(update: Update, s: State, events: seq<Event>, w: Writer)
    requires Inv(update, s) && Possible(update, s, events) && Respectful(events) && Guarded(s, w)
    ensures Guarded(Run(update, s, events), w)
    decreases |events|
  {
    if events != [] {
      StepInv(update, s, events[0]);
      StepGuarded(update, s, events[0], w);
      StaysGuarded(update, Apply(update, s, events[0]), events[1..], w);
    }
  }

  /** The stretches of a run before w loads, until it takes the lock, and until it commits. */
  function Around(before: seq<Event>, waiting: seq<Event>, inside: seq<Event>, w: Writer): seq<Event> {
    before + ([By(w, Load)] + (waiting + ([By(w, OpenLock)] + inside)))
  }

  /** With no commit by anyone between a writer's load and its taking of the lock, its own commit is serial. */
  lemma NoCommitBetween(update: Update, start: State, before: seq<Event>, waiting: seq<Event>, inside: seq<Event>,
                        w: Writer)
    requires Initial(start) && Possible(update, start, Around(before, waiting, inside, w))
    requires Respectful(Around(before, waiting, inside, w)) && NoCommit(waiting)
    requires Enabled(Run(update, start, Around(before, waiting, inside, w)), By(w, Replace))
    ensures Serially(update, Run(update, start, Around(before, waiting, inside, w)), By(w, Replace))
  {
    var tail := [By(w, OpenLock)] + inside;
    Pieces(before, waiting, inside, w);
    RunInTwo(update, start, before, [By(w, Load)] + (waiting + tail));
    var s0 := Run(update, start, before);
    RunInTwo(update, s0, [By(w, Load)], waiting + tail);
    var s1 := Run(update, s0, [By(w, Load)]);
    OneEvent(update, s0, By(w, Load));
    RunInTwo(update, s1, waiting, tail);
    StaysCurrent(update, s1, waiting, w);
    var s2 := Run(update, s1, waiting);
    RunInTwo(update, s2, [By(w, OpenLock)], inside);
    OneEvent(update, s2, By(w, OpenLock));
    var s3 := Run(update, s2, [By(w, OpenLock)]);
    StaysGuarded(update, s3, inside, w);
    CurrentLoadIsSerial(update, Run(update, s3, inside), w);
  }

  lemma OneEvent(update: Update, s: State, e: Event)
    requires Inv(update, s) && Possible(update, s, [e])
    ensures Enabled(s, e) && Run(update, s, [e]) == Apply(update, s, e)
  {
    assert [e][1..] == [];
  }

  lemma Pieces(before: seq<Event>, waiting: seq<Event>, inside: seq<Event>, w: Writer)
    requires Respectful(Around(before, waiting, inside, w))
    ensures Respectful(waiting) && Respectful(inside)
  {
    var all := Around(before, waiting, inside, w);
    assert forall i :: 0 <= i < |waiting| ==> waiting[i] == all[|before| + 1 + i];
    assert forall i :: 0 <= i < |inside| ==> inside[i] == all[|before| + 2 + |waiting| + i];
  }
}
