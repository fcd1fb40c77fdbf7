/** What the second reading of the ledger guards: nobody replaces bytes that changed after the first reading. */
module LedgerRecheck {
  import opened Bytes
  import opened Wrappers
  import opened LedgerProtocol
  import opened LedgerSerial

  /** The state before event i of the run. */
  ghost function At(update: Update, start: State, events: seq<Event>, i: nat): (s: State)
    requires Inv(update, start) && Possible(update, start, events) && i <= |events|
    ensures s.history != []
  {
    assert events == events[..i] + events[i..];
    RunInTwo(update, start, events[..i], events[i..]);
    Run(update, start, events[..i])
  }

  lemma AtStep(update: Update, start: State, events: seq<Event>, i: nat)
    requires Inv(update, start) && Possible(update, start, events) && i < |events|
    ensures Enabled(At(update, start, events, i), events[i])
    ensures At(update, start, events, i + 1) == Apply(update, At(update, start, events, i), events[i])
  {
    assert events == events[..i + 1] + events[i + 1..] && events[..i + 1] == events[..i] + [events[i]];
    RunInTwo(update, start, events[..i + 1], events[i + 1..]);
    RunInTwo(update, start, events[..i], [events[i]]);
    OneEvent(update, Run(update, start, events[..i]), events[i]);
  }

  // ---- One writer's part of a run --------------------------------------------------------------

  /** How far a writer has come; no step takes it back. */
  function Progress(pc: Pc): nat {
    match pc
    case Start => 0 case Loaded => 1 case Locked => 2 case Read => 3 case Writing => 4 case Dumped => 5
    case Compared => 6 case Replaced => 7 case CleanTemp => 8 case CloseLock => 9 case UnlinkLock => 10
    case Done => 11 case Stuck => 11
  }

  /** From a to b the writer went on: what it read once stays read, and a failure stays one. */
  predicate Onward(a: Local, b: Local) {
    && Progress(a.pc) <= Progress(b.pc)
    && (Progress(a.pc) >= 3 ==> b.before == a.before)
    && (a.failed ==> b.failed)
  }

  /** What one event does to the writer, given the ledger before it. */
  predicate LocalStep(l: Local, next: Local, e: Event, w: Writer, ledger: Bytes) {
    if e == By(w, ReadBefore) then l.pc == Locked && next == l.(pc := Read, before := ledger)
    else if e == By(w, Compare) then
      && l.pc == Dumped
      && next == if ledger == l.before then l.(pc := Compared) else l.(pc := CleanTemp, failed := true)
    else
      && (next.pc in {Read, Writing, Dumped} ==> l.pc in {Read, Writing, Dumped} && next.before == l.before)
      && (next.pc == Compared ==> next == l)
      && (e == By(w, Replace) ==> l.pc == Compared)
  }

  lemma ApplyIsLocalStep(update: Update, s: State, e: Event, w: Writer)
    requires s.history != [] && Enabled(s, e) && w in s.locals
    ensures Apply(update, s, e).locals.Keys == s.locals.Keys
    ensures LocalStep(s.locals[w], Apply(update, s, e).locals[w], e, w, s.ledger)
    ensures Onward(s.locals[w], Apply(update, s, e).locals[w])
  {
    if e.By? && e.w == w {
      OwnStep(update, s, e.a, w);
      GoesOn(update, s, e.a, w);
    }
  }

  lemma OwnStep(update: Update, s: State, a: Action, w: Writer)
    requires s.history != [] && Enabled(s, By(w, a))
    ensures LocalStep(s.locals[w], Apply(update, s, By(w, a)).locals[w], By(w, a), w, s.ledger)
  {}

  lemma GoesOn(update: Update, s: State, a: Action, w: Writer)
    requires s.history != [] && Enabled(s, By(w, a))
    ensures Onward(s.locals[w], Apply(update, s, By(w, a)).locals[w])
  {}

  /** The writer's variables and the ledger, before each event and after the last. */
  ghost predicate Part(events: seq<Event>, w: Writer, locals: seq<Local>, ledgers: seq<Bytes>) {
    && |locals| == |ledgers| == |events| + 1
    && forall i :: 0 <= i < |events| ==>
         LocalStep(locals[i], locals[i + 1], events[i], w, ledgers[i]) && Onward(locals[i], locals[i + 1])
  }

  lemma {:induction false} PartOnward(events: seq<Event>, w: Writer, locals: seq<Local>, ledgers: seq<Bytes>,
                                      i: nat, j: nat)
    requires Part(events, w, locals, ledgers) && i <= j <= |events|
    ensures Onward(locals[i], locals[j])
    decreases j
  {
    if i < j { PartOnward(events, w, locals, ledgers, i, j - 1); }
  }

  /** The writer read, before step n, what it holds as `before`. */
  ghost predicate HasRead(events: seq<Event>, w: Writer, locals: seq<Local>, ledgers: seq<Bytes>, n: nat)
    requires |locals| == |ledgers| == |events| + 1 && n <= |events|
  {
    exists r :: 0 <= r < n && events[r] == By(w, ReadBefore) && ledgers[r] == locals[n].before
  }

  ghost predicate HasCompared(events: seq<Event>, w: Writer, locals: seq<Local>, ledgers: seq<Bytes>, n: nat)
    requires |locals| == |ledgers| == |events| + 1 && n <= |events|
  {
    exists c :: 0 <= c < n && events[c] == By(w, Compare) && ledgers[c] == locals[n].before
  }

  lemma {:induction false} CameThrough(events: seq<Event>, w: Writer, locals: seq<Local>, ledgers: seq<Bytes>, n: nat)
    requires Part(events, w, locals, ledgers) && n <= |events| && locals[0].pc == Start
    ensures locals[n].pc in {Read, Writing, Dumped, Compared} ==> HasRead(events, w, locals, ledgers, n)
    ensures locals[n].pc == Compared ==> HasCompared(events, w, locals, ledgers, n)
    decreases n
  {
    if n > 0 {
      CameThrough(events, w, locals, ledgers, n - 1);
      assert LocalStep(locals[n - 1], locals[n], events[n - 1], w, ledgers[n - 1]);
      if events[n - 1] == By(w, ReadBefore) {
        assert ledgers[n - 1] == locals[n].before;
      } else if locals[n].pc in {Read, Writing, Dumped, Compared} {
        assert locals[n].before == locals[n - 1].before;
      }
    }
  }

  // ---- Whole runs ------------------------------------------------------------------------------

  lemma {:induction false} LocalsStay(update: Update, start: State, events: seq<Event>, n: nat)
    requires Inv(update, start) && Possible(update, start, events) && n <= |events|
    ensures At(update, start, events, n).locals.Keys == start.locals.Keys
    decreases n
  {
    if n > 0 {
      LocalsStay(update, start, events, n - 1);
      AtStep(update, start, events, n - 1);
      KeysStay(update, At(update, start, events, n - 1), events[n - 1]);
    } else {
      assert events[..0] == [];
    }
  }

  lemma KeysStay(update: Update, s: State, e: Event)
    requires s.history != [] && Enabled(s, e)
    ensures Apply(update, s, e).locals.Keys == s.locals.Keys
  {}

  /** The writer's part of a run. */
  lemma PartOf(update: Update, start: State, events: seq<Event>, w: Writer)
    returns (locals: seq<Local>, ledgers: seq<Bytes>)
    requires Initial(start) && Possible(update, start, events) && w in start.locals
    ensures Part(events, w, locals, ledgers) && locals[0].pc == Start
    ensures forall i :: 0 <= i <= |events| ==> ledgers[i] == At(update, start, events, i).ledger
    ensures w in Run(update, start, events).locals && locals[|events|] == Run(update, start, events).locals[w]
  {
    forall i | 0 <= i <= |events| ensures w in At(update, start, events, i).locals {
      LocalsStay(update, start, events, i);
    }
    locals := seq(|events| + 1, i requires 0 <= i <= |events| => At(update, start, events, i).locals[w]);
    ledgers := seq(|events| + 1, i requires 0 <= i <= |events| => At(update, start, events, i).ledger);
    forall i | 0 <= i < |events|
      ensures LocalStep(locals[i], locals[i + 1], events[i], w, ledgers[i]) && Onward(locals[i], locals[i + 1])
    {
      AtStep(update, start, events, i);
      ApplyIsLocalStep(update, At(update, start, events, i), events[i], w);
    }
    assert events[..0] == [] && events[..|events|] == events;
    assert At(update, start, events, |events|) == Run(update, start, events);
  }

  lemma ActorIsThere(update: Update, start: State, events: seq<Event>, i: nat)
    requires Inv(update, start) && Possible(update, start, events) && i < |events| && events[i].By?
    ensures events[i].w in start.locals
  {
    AtStep(update, start, events, i);
    LocalsStay(update, start, events, i);
  }

  /** Whoever replaces the ledger had found in it, at its comparison, the bytes it had read under the lock. */
  lemma ReplacesUnchanged(update: Update, start: State, events: seq<Event>, w: Writer, p: nat)
    returns (r: nat, c: nat)
    requires Initial(start) && Possible(update, start, events) && p < |events| && events[p] == By(w, Replace)
    ensures r < c < p && events[r] == By(w, ReadBefore) && events[c] == By(w, Compare)
    ensures At(update, start, events, r).ledger == At(update, start, events, c).ledger
  {
    ActorIsThere(update, start, events, p);
    var locals, ledgers := PartOf(update, start, events, w);
    CameThrough(events, w, locals, ledgers, p);
    assert LocalStep(locals[p], locals[p + 1], events[p], w, ledgers[p]);
    r :| 0 <= r < p && events[r] == By(w, ReadBefore) && ledgers[r] == locals[p].before;
    c :| 0 <= c < p && events[c] == By(w, Compare) && ledgers[c] == locals[p].before;
    ReadsFirst(events, w, locals, ledgers, r, c);
  }

  lemma ReadsFirst(events: seq<Event>, w: Writer, locals: seq<Local>, ledgers: seq<Bytes>, r: nat, c: nat)
    requires Part(events, w, locals, ledgers) && r < |events| && c < |events|
    requires events[r] == By(w, ReadBefore) && events[c] == By(w, Compare)
    ensures r < c
  {
    assert LocalStep(locals[r], locals[r + 1], events[r], w, ledgers[r]);
    assert LocalStep(locals[c], locals[c + 1], events[c], w, ledgers[c]);
    if c <= r { PartOnward(events, w, locals, ledgers, c, r); }
  }

  /** If somebody changed the ledger in between, the writer fails and never replaces it. */
  lemma ChangeIsNoticed(update: Update, start: State, events: seq<Event>, w: Writer, r: nat, c: nat)
    requires Initial(start) && Possible(update, start, events) && r < |events| && c < |events|
    requires events[r] == By(w, ReadBefore) && events[c] == By(w, Compare)
    requires At(update, start, events, r).ledger != At(update, start, events, c).ledger
    ensures By(w, Replace) !in events
    ensures w in Run(update, start, events).locals && Run(update, start, events).locals[w].failed
  {
    ActorIsThere(update, start, events, r);
    var locals, ledgers := PartOf(update, start, events, w);
    ReadsFirst(events, w, locals, ledgers, r, c);
    FailsForGood(events, w, locals, ledgers, r, c);
  }

  lemma FailsForGood(events: seq<Event>, w: Writer, locals: seq<Local>, ledgers: seq<Bytes>, r: nat, c: nat)
    requires Part(events, w, locals, ledgers) && r < c < |events| && ledgers[r] != ledgers[c]
    requires events[r] == By(w, ReadBefore) && events[c] == By(w, Compare)
    ensures By(w, Replace) !in events && locals[|events|].failed
  {
    assert LocalStep(locals[r], locals[r + 1], events[r], w, ledgers[r]);
    PartOnward(events, w, locals, ledgers, r + 1, c);
    assert LocalStep(locals[c], locals[c + 1], events[c], w, ledgers[c]);
    assert locals[c + 1].pc == CleanTemp && locals[c + 1].failed;
    PartOnward(events, w, locals, ledgers, c + 1, |events|);
    forall p | 0 <= p < |events| ensures events[p] != By(w, Replace) {
      assert LocalStep(locals[p], locals[p + 1], events[p], w, ledgers[p]);
      if p <= c {
        PartOnward(events, w, locals, ledgers, p, c);
      } else {
        PartOnward(events, w, locals, ledgers, c + 1, p);
      }
    }
  }
}
