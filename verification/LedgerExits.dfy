/** What a writer leaves behind, told by the events of its run. */
module LedgerExits {
  import opened Bytes
  import opened Wrappers
  import opened LedgerProtocol

  /** A writer stopped inside its cleanup does nothing more, and its lock keeps everyone else out. */
  lemma {:induction false} StuckStays(update: Update, s: State, events: seq<Event>, w: Writer)
    requires Inv(update, s) && Possible(update, s, events) && w in s.locals && s.locals[w].pc == Stuck
    ensures var t := Run(update, s, events); w in t.locals && t.locals[w].pc == Stuck && t.lock == Some(w)
    ensures forall v :: By(v, OpenLock) !in events
    ensures forall a :: By(w, a) !in events
    decreases |events|
  {
    assert Consistent(update, s, w);
    if events != [] {
      StepInv(update, s, events[0]);
      if events[0].By? { assert Consistent(update, s, events[0].w); }
      StuckStays(update, Apply(update, s, events[0]), events[1..], w);
    }
  }

  lemma FaultStep(update: Update, s: State, e: Event, w: Writer)
    requires s.history != [] && Enabled(s, e) && w in s.locals && s.locals[w].pc != Stuck
    ensures var next := Apply(update, s, e);
            w in next.locals && (next.locals[w].pc == Stuck <==> e == By(w, CleanupFault))
  {
    match e
    case Edit(_) =>
    case By(v, a) => if v == w { assert a == CleanupFault <==> Apply(update, s, e).locals[w].pc == Stuck; }
  }

  /** A writer gets stuck exactly by a fault in its cleanup. */
  lemma {:induction false} StuckByFault(update: Update, s: State, events: seq<Event>, w: Writer)
    requires Inv(update, s) && Possible(update, s, events) && w in s.locals && s.locals[w].pc != Stuck
    ensures var t := Run(update, s, events);
            w in t.locals && (t.locals[w].pc == Stuck <==> By(w, CleanupFault) in events)
    decreases |events|
  {
    if events != [] {
      var next := Apply(update, s, events[0]);
      StepInv(update, s, events[0]);
      FaultStep(update, s, events[0], w);
      assert By(w, CleanupFault) in events <==> events[0] == By(w, CleanupFault) || By(w, CleanupFault) in events[1..];
      if events[0] == By(w, CleanupFault) {
        StuckStays(update, next, events[1..], w);
      } else {
        StuckByFault(update, next, events[1..], w);
      }
    }
  }

  /** Has the writer come as far as its temporary file? */
  predicate PastCreate(s: State, w: Writer) {
    w in s.locals && s.locals[w].pc !in {Start, Loaded, Locked, Read}
  }

  lemma PastCreateStep(update: Update, s: State, e: Event, w: Writer)
    requires s.history != [] && Enabled(s, e) && PastCreate(s, w)
    ensures PastCreate(Apply(update, s, e), w) && e != By(w, CreateTemp)
  {}

  /** Past the creation of its temporary file a writer never creates another. */
  lemma {:induction false} CreatesOnce(update: Update, s: State, events: seq<Event>, w: Writer)
    requires Inv(update, s) && Possible(update, s, events) && PastCreate(s, w)
    ensures By(w, CreateTemp) !in events
    decreases |events|
  {
    if events != [] {
      StepInv(update, s, events[0]);
      PastCreateStep(update, s, events[0], w);
      CreatesOnce(update, Apply(update, s, events[0]), events[1..], w);
    }
  }

  /** w's temporary file, before and after one step. */
  lemma TempStep(update: Update, s: State, e: Event, w: Writer)
    requires Inv(update, s) && Enabled(s, e) && w in s.locals
    ensures var next := Apply(update, s, e);
            && w in next.locals
            && (w in next.temps <==>
                  (w in s.temps || e == By(w, CreateTemp)) && e != By(w, Replace) && e != By(w, UnlinkTemp))
            && (e == By(w, Replace) || e == By(w, UnlinkTemp) ==> PastCreate(next, w))
  {
    assert Consistent(update, s, w);
  }

  /** A temporary file is there once created, until it is renamed over the ledger or unlinked. */
  lemma {:induction false} TempTrace(update: Update, s: State, events: seq<Event>, w: Writer)
    requires Inv(update, s) && Possible(update, s, events) && w in s.locals
    ensures w in Run(update, s, events).temps <==>
            && (w in s.temps || By(w, CreateTemp) in events)
            && By(w, Replace) !in events && By(w, UnlinkTemp) !in events
    decreases |events|
  {
    if events != [] {
      var e, rest := events[0], events[1..];
      StepInv(update, s, e);
      TempStep(update, s, e, w);
      TempTrace(update, Apply(update, s, e), rest, w);
      assert forall a :: By(w, a) in events <==> e == By(w, a) || By(w, a) in rest;
      if e == By(w, Replace) || e == By(w, UnlinkTemp) { CreatesOnce(update, Apply(update, s, e), rest, w); }
    }
  }

  /** What an ended writer leaves behind: its lock exactly if its cleanup failed, its temporary file exactly
      if it created one and neither renamed nor unlinked it. */
  lemma LeftBehind(update: Update, start: State, events: seq<Event>, w: Writer)
    requires Initial(start) && Possible(update, start, events) && w in start.locals
    requires w in Run(update, start, events).locals && Run(update, start, events).locals[w].pc in {Done, Stuck}
    ensures var s := Run(update, start, events);
            && (s.lock == Some(w) <==> By(w, CleanupFault) in events)
            && (w in s.temps <==>
                  By(w, CreateTemp) in events && By(w, Replace) !in events && By(w, UnlinkTemp) !in events)
            && (w in s.temps ==> By(w, CleanupFault) in events)
  {
    StuckByFault(update, start, events, w);
    TempTrace(update, start, events, w);
    assert Consistent(update, Run(update, start, events), w);
  }

  /** Such an exit happens: an error before the commit and another one in the cleanup leave both files. */
  lemma LeavesBoth(update: Update, start: State, w: Writer) returns (events: seq<Event>)
    requires Initial(start) && w in start.locals
    ensures Possible(update, start, events) && Respectful(events)
    ensures var s := Run(update, start, events);
            w in s.locals && s.locals[w].pc == Stuck && s.locals[w].failed && s.lock == Some(w) && w in s.temps
    ensures Run(update, start, events).ledger == start.ledger
  {
    AndThen(update, start, [], By(w, Load));
    var e1 := [] + [By(w, Load)];
    var e2 := Enter(update, start, e1, w);
    AndThen(update, start, e2, By(w, Fail));
    AndThen(update, start, e2 + [By(w, Fail)], By(w, CleanupFault));
    events := e2 + [By(w, Fail)] + [By(w, CleanupFault)];
  }
}
