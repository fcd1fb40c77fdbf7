/** `offerNewest`: handing the newest configuration through a one-slot channel to one reader. */
module OfferNewest {
  import opened Wrappers

  /** Offers are numbered 1, 2, ... in the order they start; busy maps each offer still in its loop to
      the select rounds it has spent. */
  datatype State = State(slot: Option<nat>, offered: nat, busy: map<nat, nat>, received: seq<nat>)

  /** Offer enters the loop; Send and Drain are the two ready cases of its select; Receive is the reader. */
  datatype Event = Offer | Send(v: nat) | Drain(v: nat) | Receive

  const START: State := State(None, 0, map[], [])

  predicate Enabled(s: State, e: Event) {
    match e
    case Offer => true
    case Send(v) => v in s.busy && s.slot.None?
    case Drain(v) => v in s.busy && s.slot.Some?
    case Receive => s.slot.Some?
  }

  function Step(s: State, e: Event): State
    requires Enabled(s, e)
  {
    match e
    case Offer => s.(offered := s.offered + 1, busy := s.busy[s.offered + 1 := 0])
    case Send(v) => s.(slot := Some(v), busy := s.busy - {v})
    case Drain(v) => s.(slot := None, busy := s.busy[v := s.busy[v] + 1])
    case Receive => s.(slot := None, received := s.received + [s.slot.value])
  }

  predicate Possible(s: State, events: seq<Event>)
    decreases |events|
  {
    events == [] || (Enabled(s, events[0]) && Possible(Step(s, events[0]), events[1..]))
  }

  function Run(s: State, events: seq<Event>): State
    requires Possible(s, events)
    decreases |events|
  {
    if events == [] then s else Run(Step(s, events[0]), events[1..])
  }

  /** Replacements are published one at a time: no offer starts while another is in its loop. */
  predicate Serialized(s: State, events: seq<Event>)
    requires Possible(s, events)
    decreases |events|
  {
    events == [] || ((events[0].Offer? ==> s.busy == map[]) && Serialized(Step(s, events[0]), events[1..]))
  }

  ghost predicate Increasing(xs: seq<nat>) {
    forall i, j :: 0 <= i < j < |xs| ==> xs[i] < xs[j]
  }

  /** Everything handed out so far, in order: what was received, then what waits in the slot. */
  function Stream(s: State): seq<nat> {
    s.received + (if s.slot.Some? then [s.slot.value] else [])
  }

  ghost predicate Inv(s: State) {
    && Increasing(Stream(s)) && (forall i :: 0 <= i < |Stream(s)| ==> 1 <= Stream(s)[i] <= s.offered)
    && (forall v :: v in s.busy ==>
          && 1 <= v == s.offered && s.busy[v] <= 1 && (s.busy[v] == 1 ==> s.slot.None?)
          && forall i :: 0 <= i < |Stream(s)| ==> Stream(s)[i] < v)
    && (s.busy == map[] && s.offered > 0 ==> Stream(s) != [] && Stream(s)[|Stream(s)| - 1] == s.offered)
  }

  lemma AppendIncreasing(xs: seq<nat>, v: nat)
    requires Increasing(xs) && forall i :: 0 <= i < |xs| ==> xs[i] < v
    ensures Increasing(xs + [v])
  {}

  lemma StepInv(s: State, e: Event)
    requires Inv(s) && Enabled(s, e) && (e.Offer? ==> s.busy == map[])
    ensures Inv(Step(s, e))
  {
    var next := Step(s, e);
    match e
    case Offer =>
      assert Stream(next) == Stream(s) && s.offered + 1 in next.busy;
    case Send(v) =>
      AppendIncreasing(Stream(s), v);
      assert Stream(next) == Stream(s) + [v];
      assert next.busy == map[] by { assert forall x :: x in s.busy ==> x == v; }
    case Drain(v) =>
      assert Stream(s) == s.received + [s.slot.value] && Stream(next) == s.received;
      forall i | 0 <= i < |Stream(next)| ensures Stream(next)[i] == Stream(s)[i] {}
    case Receive =>
      assert Stream(next) == Stream(s);
  }

  lemma {:induction false} RunInv(s: State, events: seq<Event>)
    requires Inv(s) && Possible(s, events) && Serialized(s, events)
    ensures Inv(Run(s, events))
    decreases |events|
  {
    if events != [] {
      StepInv(s, events[0]);
      RunInv(Step(s, events[0]), events[1..]);
    }
  }

  /** The newest offer has not been dropped, and the reader sees offers in order. */
  ghost predicate InOrder(s: State) {
    && Increasing(s.received) && (forall i :: 0 <= i < |s.received| ==> 1 <= s.received[i] <= s.offered)
    && (s.busy == map[] && s.offered > 0 ==>
          s.slot == Some(s.offered) || (s.slot.None? && s.received != [] && s.received[|s.received| - 1] == s.offered))
  }

  /** Exactly one case of the select is ready, a drained value is older, and one drain is enough. */
  ghost predicate Prompt(s: State, v: nat)
    requires v in s.busy
  {
    && (Enabled(s, Send(v)) <==> !Enabled(s, Drain(v)))
    && (Enabled(s, Drain(v)) ==> s.busy[v] == 0 && s.slot.value < v)
    && s.busy[v] <= 1
  }

  lemma InvMeaning(s: State)
    requires Inv(s)
    ensures InOrder(s) && forall v :: v in s.busy ==> Prompt(s, v)
  {
    assert forall i :: 0 <= i < |s.received| ==> Stream(s)[i] == s.received[i];
    if s.slot.Some? { assert Stream(s)[|s.received|] == s.slot.value; }
  }

  /** Whatever the reader does: it sees a strictly increasing subsequence of the offers, and once no
      offer is in its loop the newest one waits in the slot or is the last one received. */
  lemma NewestArrives(start: State, events: seq<Event>)
    requires start == START && Possible(start, events) && Serialized(start, events)
    ensures InOrder(Run(start, events))
  {
    RunInv(start, events);
    InvMeaning(Run(start, events));
  }

  /** An offer in its loop is never blocked, and its second select round sends at the latest. */
  lemma TwoRounds(start: State, events: seq<Event>, v: nat)
    requires start == START && Possible(start, events) && Serialized(start, events) && v in Run(start, events).busy
    ensures Prompt(Run(start, events), v)
  {
    RunInv(start, events);
    InvMeaning(Run(start, events));
  }

  /** Serialization is needed: of two overlapping offers the older can replace the newer for good. */
  lemma OverlapDropsNewest()
    ensures var events := [Offer, Offer, Send(2), Drain(1), Send(1)];
            && Possible(START, events) && !Serialized(START, events)
            && Run(START, events) == State(Some(1), 2, map[], [])
  {
    var events := [Offer, Offer, Send(2), Drain(1), Send(1)];
    var s1 := State(None, 1, map[1 := 0], []);
    var s2 := State(None, 2, map[1 := 0, 2 := 0], []);
    var s3 := State(Some(2), 2, map[1 := 0], []);
    var s4 := State(None, 2, map[1 := 1], []);
    assert Step(START, Offer) == s1;
    assert Step(s1, Offer) == s2;
    assert Step(s2, Send(2)) == s3;
    assert Step(s3, Drain(1)) == s4;
    assert Step(s4, Send(1)) == State(Some(1), 2, map[], []);
    var e4: seq<Event> := [Send(1)];
    assert e4[1..] == [];
    assert [Drain(1), Send(1)][1..] == e4;
    assert [Send(2), Drain(1), Send(1)][1..] == [Drain(1), Send(1)];
    assert [Offer, Send(2), Drain(1), Send(1)][1..] == [Send(2), Drain(1), Send(1)];
    assert events[1..] == [Offer, Send(2), Drain(1), Send(1)];
    assert Possible(s4, e4) && Run(s4, e4) == State(Some(1), 2, map[], []);
    assert Possible(s3, [Drain(1)] + e4);
  }
}
