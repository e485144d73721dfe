/**
 Event fan-out. A broadcast holds the read lock while it offers its event to every subscriber; the map
 of subscribers changes only under the write lock; an unsubscribed channel is closed after that lock
 is released. Broadcasts, subscribers and unsubscribers interleave arbitrarily.
 */
module Fanout {

  /** The capacity of a subscriber's channel. */
  const CAPACITY := 256

  type Event = string

  datatype Life = Subscribed | Leaving | Closed

  /** `offers` are the sends tried since subscribing, each with whether it was accepted. */
  datatype Channel = Channel(life: Life, queue: seq<Event>, received: seq<Event>, offers: seq<(Event, bool)>)

  /** A broadcast under the read lock, and the subscribers it has yet to serve. */
  datatype Sending = Sending(event: Event, todo: set<nat>)

  datatype World = World(subs: set<nat>, channels: map<nat, Channel>, broadcasts: map<nat, Sending>)

  datatype Step =
    | Subscribe(c: nat)
    | Begin(b: nat, event: Event)
    | Offer(b: nat, c: nat)
    | End(b: nat)
    | Delete(c: nat)
    | Close(c: nat)
    | Receive(c: nat)

  const START: World := World({}, map[], map[])

  /** The write lock is granted only while no broadcast holds the read lock. */
  predicate Enabled(w: World, s: Step) {
    match s
    case Subscribe(c) => c !in w.channels && w.broadcasts == map[]
    case Begin(b, _) => b !in w.broadcasts
    case Offer(b, c) => b in w.broadcasts && c in w.broadcasts[b].todo
    case End(b) => b in w.broadcasts && w.broadcasts[b].todo == {}
    case Delete(c) => c in w.channels && w.channels[c].life.Subscribed? && w.broadcasts == map[]
    case Close(c) => c in w.channels && w.channels[c].life.Leaving?
    case Receive(c) => c in w.channels && w.channels[c].queue != []
  }

  /** A send that does not wait: dropped if the queue is full. */
  function Offered(ch: Channel, e: Event): Channel {
    if |ch.queue| < CAPACITY then ch.(queue := ch.queue + [e], offers := ch.offers + [(e, true)])
    else ch.(offers := ch.offers + [(e, false)])
  }

  function Next(w: World, s: Step): World
    requires Enabled(w, s)
  {
    match s
    case Subscribe(c) => w.(subs := w.subs + {c}, channels := w.channels[c := Channel(Subscribed, [], [], [])])
    case Begin(b, e) => w.(broadcasts := w.broadcasts[b := Sending(e, w.subs)])
    case Offer(b, c) =>
      var x := w.broadcasts[b];
      var served := w.(broadcasts := w.broadcasts[b := x.(todo := x.todo - {c})]);
      if c in w.channels then served.(channels := w.channels[c := Offered(w.channels[c], x.event)]) else served
    case End(b) => w.(broadcasts := w.broadcasts - {b})
    case Delete(c) => w.(subs := w.subs - {c}, channels := w.channels[c := w.channels[c].(life := Leaving)])
    case Close(c) => w.(channels := w.channels[c := w.channels[c].(life := Closed)])
    case Receive(c) =>
      var ch := w.channels[c];
      w.(channels := w.channels[c := ch.(queue := ch.queue[1..], received := ch.received + [ch.queue[0]])])
  }

  ghost predicate Reaches(w: World, steps: seq<Step>, v: World)
    decreases |steps|
  {
    if steps == [] then v == w
    else Enabled(w, steps[0]) && Reaches(Next(w, steps[0]), steps[1..], v)
  }

  /** The events of the accepted offers, in order. */
  function Accepted(offers: seq<(Event, bool)>): seq<Event> {
    if offers == [] then []
    else
      var last := offers[|offers| - 1];
      Accepted(offers[..|offers| - 1]) + if last.1 then [last.0] else []
  }

  predicate ChannelOk(ch: Channel) {
    |ch.queue| <= CAPACITY && ch.received + ch.queue == Accepted(ch.offers)
  }

  ghost predicate Inv(w: World) {
    && (forall c :: c in w.subs <==> c in w.channels && w.channels[c].life.Subscribed?)
    && (forall b, c :: b in w.broadcasts && c in w.broadcasts[b].todo ==> c in w.subs)
    && (forall c :: c in w.channels ==> ChannelOk(w.channels[c]))
  }

  lemma OfferedOk(ch: Channel, e: Event)
    requires ChannelOk(ch)
    ensures ChannelOk(Offered(ch, e))
  {
    assert (ch.offers + [(e, true)])[..|ch.offers|] == ch.offers;
    assert (ch.offers + [(e, false)])[..|ch.offers|] == ch.offers;
    assert ch.received + (ch.queue + [e]) == (ch.received + ch.queue) + [e];
  }

  lemma ReceivedOk(ch: Channel)
    requires ChannelOk(ch) && ch.queue != []
    ensures ChannelOk(ch.(queue := ch.queue[1..], received := ch.received + [ch.queue[0]]))
  {
    assert (ch.received + [ch.queue[0]]) + ch.queue[1..] == ch.received + ch.queue;
  }

  lemma StepKeeps(w: World, s: Step)
    requires Inv(w) && Enabled(w, s)
    ensures Inv(Next(w, s))
  {
    match s
    case Subscribe(_) =>
    case Begin(_, _) =>
    case Offer(b, c) => OfferedOk(w.channels[c], w.broadcasts[b].event);
    case End(_) =>
    case Delete(_) =>
    case Close(_) =>
    case Receive(c) => ReceivedOk(w.channels[c]);
  }

  lemma {:induction false} InvKept(w: World, steps: seq<Step>, v: World)
    requires Inv(w) && Reaches(w, steps, v)
    ensures Inv(v)
    decreases |steps|
  {
    if steps != [] {
      StepKeeps(w, steps[0]);
      InvKept(Next(w, steps[0]), steps[1..], v);
    }
  }

  /**
   In every interleaving, a broadcast that still has subscribers to serve can serve any of them at once, so it
   never waits, and none of them is closed, so it never sends on a closed channel.
   */
  lemma SendsAreSafe(steps: seq<Step>, w: World, b: nat)
    requires Reaches(START, steps, w) && b in w.broadcasts
    ensures forall c: nat :: c in w.broadcasts[b].todo ==>
              Enabled(w, Offer(b, c)) && c in w.channels && w.channels[c].life.Subscribed?
    ensures w.broadcasts[b].todo == {} ==> Enabled(w, End(b))
  {
    InvKept(START, steps, w);
  }

  /**
   What a subscriber has received and has yet to receive is, in order, exactly what was accepted for it since
   it subscribed, and its queue never exceeds its capacity.
   */
  lemma ReceivesAccepted(steps: seq<Step>, w: World, c: nat)
    requires Reaches(START, steps, w) && c in w.channels
    ensures w.channels[c].received + w.channels[c].queue == Accepted(w.channels[c].offers)
    ensures |w.channels[c].queue| <= 256
  {
    InvKept(START, steps, w);
  }

  /** The events of the first `n` offers. */
  function Firsts(offers: seq<(Event, bool)>, n: nat): seq<Event> {
    if offers == [] then []
    else
      var last := |offers| - 1;
      Firsts(offers[..last], n) + if last < n then [offers[last].0] else []
  }

  lemma {:induction false} FirstsFull(offers: seq<(Event, bool)>, n: nat)
    ensures |Firsts(offers, n)| == if |offers| < n then |offers| else n
  {
    if offers != [] { FirstsFull(offers[..|offers| - 1], n); }
  }

  lemma OfferToStalled(queue: seq<Event>, ch: Channel, since: seq<(Event, bool)>, e: Event)
    requires |queue| <= CAPACITY && ch.queue == queue + Firsts(since, CAPACITY - |queue|)
    ensures var next := Offered(ch, e);
            exists ok :: next.offers == ch.offers + [(e, ok)]
                         && next.queue == queue + Firsts(since + [(e, ok)], CAPACITY - |queue|)
  {
    var n := CAPACITY - |queue|;
    FirstsFull(since, n);
    var ok := |ch.queue| < CAPACITY;
    assert (since + [(e, ok)])[..|since|] == since;
    assert Offered(ch, e).offers == ch.offers + [(e, ok)];
  }

  /** The channel of a subscriber that has received nothing since it was `ch`. */
  ghost predicate StalledSince(ch: Channel, now: Channel) {
    && |ch.queue| <= CAPACITY && ch.offers <= now.offers && now.received == ch.received
    && now.queue == ch.queue + Firsts(now.offers[|ch.offers|..], CAPACITY - |ch.queue|)
  }

  lemma OthersUntouched(w: World, s: Step, c: nat)
    requires Enabled(w, s) && c in w.channels && s != Receive(c) && !(s.Offer? && s.c == c)
    ensures var v := Next(w, s);
            && c in v.channels && v.channels[c].queue == w.channels[c].queue
            && v.channels[c].received == w.channels[c].received && v.channels[c].offers == w.channels[c].offers
  {
  }

  lemma StalledStep(w: World, s: Step, c: nat, ch: Channel)
    requires Inv(w) && Enabled(w, s) && s != Receive(c) && c in w.channels && StalledSince(ch, w.channels[c])
    ensures c in Next(w, s).channels && StalledSince(ch, Next(w, s).channels[c])
  {
    if s.Offer? && s.c == c {
      StalledOffer(ch, w.channels[c], w.broadcasts[s.b].event);
    } else {
      OthersUntouched(w, s, c);
    }
  }

  lemma StalledOffer(ch: Channel, now: Channel, e: Event)
    requires StalledSince(ch, now)
    ensures StalledSince(ch, Offered(now, e))
  {
    var next := Offered(now, e);
    OfferToStalled(ch.queue, now, now.offers[|ch.offers|..], e);
    assert next.offers[|ch.offers|..] == now.offers[|ch.offers|..] + next.offers[|now.offers|..];
  }

  /**
   A full queue drops only what is new. Of all events offered to a subscriber while it receives nothing,
   it keeps, in order, as many of the first as its queue had room for, and loses the rest.
   */
  lemma {:induction false} StalledKeepsOldest(w: World, steps: seq<Step>, v: World, c: nat, ch: Channel)
    requires Inv(w) && Reaches(w, steps, v) && Receive(c) !in steps
    requires c in w.channels && StalledSince(ch, w.channels[c])
    ensures c in v.channels && StalledSince(ch, v.channels[c])
    decreases |steps|
  {
    if steps != [] {
      StepKeeps(w, steps[0]);
      StalledStep(w, steps[0], c, ch);
      StalledKeepsOldest(Next(w, steps[0]), steps[1..], v, c, ch);
    }
  }

  /** Once unsubscribed, a channel is offered nothing more. */
  lemma {:induction false} NothingAfterUnsubscribe(w: World, steps: seq<Step>, v: World, c: nat)
    requires Inv(w) && Reaches(w, steps, v) && c in w.channels && !w.channels[c].life.Subscribed?
    ensures c in v.channels && v.channels[c].offers == w.channels[c].offers && !v.channels[c].life.Subscribed?
    decreases |steps|
  {
    if steps != [] {
      StepKeeps(w, steps[0]);
      NothingAfterUnsubscribe(Next(w, steps[0]), steps[1..], v, c);
    }
  }

  function Times(steps: seq<Step>, s: Step): nat {
    if steps == [] then 0 else (if steps[0] == s then 1 else 0) + Times(steps[1..], s)
  }

  /**
   While a broadcast holds the read lock, whatever else happens, each subscriber it had to serve is offered
   the event exactly once if it has been served and not at all otherwise. So by its end each has had it once.
   */
  lemma {:induction false} ServedOnce(w: World, steps: seq<Step>, v: World, b: nat, c: nat)
    requires Reaches(w, steps, v) && b in w.broadcasts && End(b) !in steps
    ensures b in v.broadcasts && v.broadcasts[b].event == w.broadcasts[b].event
    ensures v.broadcasts[b].todo <= w.broadcasts[b].todo
    ensures Times(steps, Offer(b, c)) == if c in w.broadcasts[b].todo && c !in v.broadcasts[b].todo then 1 else 0
    decreases |steps|
  {
    if steps != [] {
      var x := Next(w, steps[0]);
      assert steps[0] in steps && forall s :: s in steps[1..] ==> s in steps;
      ServedStep(w, steps[0], b, c);
      ServedOnce(x, steps[1..], v, b, c);
    }
  }

  /**
   So a whole broadcast, with anything else in between, offers its event exactly once to each subscriber there was
   when it began, and to nobody else.
   */
  lemma BroadcastServesAll(before: seq<Step>, w: World, b: nat, e: Event, steps: seq<Step>, v: World, c: nat)
    requires Reaches(START, before, w) && Enabled(w, Begin(b, e))
    requires Reaches(Next(w, Begin(b, e)), steps, v) && End(b) !in steps && Enabled(v, End(b))
    ensures Times(steps, Offer(b, c)) == if c in w.channels && w.channels[c].life == Subscribed then 1 else 0
    ensures v.broadcasts[b].event == e
  {
    InvKept(START, before, w);
    ServedOnce(Next(w, Begin(b, e)), steps, v, b, c);
  }

  lemma ServedStep(w: World, s: Step, b: nat, c: nat)
    requires Enabled(w, s) && b in w.broadcasts && s != End(b)
    ensures var v := Next(w, s);
            && b in v.broadcasts && v.broadcasts[b].event == w.broadcasts[b].event
            && v.broadcasts[b].todo == w.broadcasts[b].todo - (if s.Offer? && s.b == b then {s.c} else {})
            && (s == Offer(b, c) ==> c in w.broadcasts[b].todo)
  {
  }

  lemma {:induction false} Snoc(u: World, steps: seq<Step>, w: World, s: Step)
    requires Reaches(u, steps, w) && Enabled(w, s)
    ensures Reaches(u, steps + [s], Next(w, s))
    decreases |steps|
  {
    if steps == [] {
      assert ([] + [s])[1..] == [];
    } else {
      Snoc(Next(u, steps[0]), steps[1..], w, s);
      assert (steps + [s])[1..] == steps[1..] + [s];
    }
  }

  // ---------------------------------------------------------------- in place

  /** Broadcast `b` has yet to serve `todo`. */
  predicate Sends(w: World, b: nat, ev: Event, todo: set<nat>) {
    b in w.broadcasts && w.broadcasts[b] == Sending(ev, todo)
  }

  function Others(w: World, b: nat): map<nat, Sending> { w.broadcasts - {b} }

  /** A queue after an offer: one with room gets the event at its end, a full one stays as it is. */
  function Pushed(queue: seq<Event>, ev: Event): seq<Event> {
    if |queue| < CAPACITY then queue + [ev] else queue
  }

  /** A channel; `id` is its name in the step model. */
  class Subscriber {
    var queue: seq<Event>
    var closed: bool
    ghost const id: nat

    constructor (ghost id: nat)
      ensures queue == [] && !closed && this.id == id
    {
      queue := [];
      closed := false;
      this.id := id;
    }
  }

  ghost function Ids(chs: set<Subscriber>): set<nat> { set ch | ch in chs :: ch.id }

  lemma IdsRemove(chs: set<Subscriber>, ch: Subscriber, made: map<nat, Subscriber>)
    requires ch in chs && forall x :: x in chs ==> x.id in made && made[x.id] == x
    ensures Ids(chs - {ch}) == Ids(chs) - {ch.id}
  {
  }

  /** The map of subscribers, with the run of the step model that its methods have performed. */
  class Broadcaster {
    var subs: set<Subscriber>
    ghost var world: World
    ghost var steps: seq<Step>
    /** Every channel ever made, by name. */
    ghost var made: map<nat, Subscriber>

    ghost predicate ChannelIs(c: nat)
      requires c in made
      reads this, made[c]
    {
      && c in world.channels && made[c].id == c
      && made[c].queue == world.channels[c].queue && (made[c].closed <==> world.channels[c].life.Closed?)
      && (made[c] in subs <==> c in world.subs)
    }

    ghost predicate Valid()
      reads this, made.Values
    {
      && Reaches(START, steps, world)
      && made.Keys == world.channels.Keys && (forall ch :: ch in subs ==> ch.id in made && made[ch.id] == ch)
      && (forall c :: c in made ==> ChannelIs(c))
    }

    constructor ()
      ensures Valid() && subs == {} && world == START
    {
      subs := {};
      world := START;
      steps := [];
      made := map[];
    }

    ghost method Take(s: Step)
      requires Reaches(START, steps, world) && Enabled(world, s)
      modifies this`world, this`steps
      ensures world == Next(old(world), s) && steps == old(steps) + [s] && Reaches(START, steps, world)
    {
      Snoc(START, steps, world, s);
      steps := steps + [s];
      world := Next(world, s);
    }

    /** Subscribe, with no broadcast under way as the write lock has it. */
    method Subscribe(ghost c: nat) returns (ch: Subscriber)
      requires Valid() && Enabled(world, Step.Subscribe(c))
      modifies this
      ensures Valid() && world == Next(old(world), Step.Subscribe(c)) && made == old(made)[c := ch]
      ensures fresh(ch) && subs == old(subs) + {ch}
    {
      ch := new Subscriber(c);
      subs := subs + {ch};
      made := made[c := ch];
      Take(Step.Subscribe(c));
      forall k | k in made && k != c ensures ChannelIs(k) { assert old(ChannelIs(k)); }
    }

    /** The locked half of the function Subscribe returns. */
    method Delete(ch: Subscriber)
      requires Valid() && ch in subs && world.broadcasts == map[]
      modifies this`subs, this`world, this`steps
      ensures Valid() && Enabled(old(world), Step.Delete(ch.id)) && world == Next(old(world), Step.Delete(ch.id))
    {
      assert ChannelIs(ch.id);
      InvKept(START, steps, world);
      subs := subs - {ch};
      Take(Step.Delete(ch.id));
      forall k | k in made ensures ChannelIs(k) { assert old(ChannelIs(k)); }
    }

    /** Its other half, any time after the lock is released: the channel is closed, once. */
    method Close(ch: Subscriber)
      requires Valid() && ch.id in made && made[ch.id] == ch && Enabled(world, Step.Close(ch.id))
      modifies ch`closed, this`world, this`steps
      ensures Valid() && !old(ch.closed) && world == Next(old(world), Step.Close(ch.id))
    {
      assert ChannelIs(ch.id);
      ch.closed := true;
      Take(Step.Close(ch.id));
      forall k | k in made ensures ChannelIs(k) { assert old(ChannelIs(k)); }
    }

    /** The subscriber takes the event at the head of its queue; a closed channel still yields what is queued. */
    method Receive(ch: Subscriber) returns (ev: Event)
      requires Valid() && ch.id in made && made[ch.id] == ch && ch.queue != []
      modifies ch`queue, this`world, this`steps
      ensures Valid() && Enabled(old(world), Step.Receive(ch.id)) && world == Next(old(world), Step.Receive(ch.id))
      ensures old(ch.queue) == [ev] + ch.queue
    {
      assert ChannelIs(ch.id);
      ev := ch.queue[0];
      ch.queue := ch.queue[1..];
      Take(Step.Receive(ch.id));
      forall k | k in made ensures ChannelIs(k) { assert old(ChannelIs(k)); }
    }

    /** One send that does not wait. */
    method Offer(ghost b: nat, ch: Subscriber, ev: Event)
      requires Valid() && ch in subs && Enabled(world, Step.Offer(b, ch.id)) && ev == world.broadcasts[b].event
      modifies ch`queue, this`world, this`steps
      ensures Valid() && world == Next(old(world), Step.Offer(b, ch.id)) && old(steps) <= steps
      ensures b in world.broadcasts && world.broadcasts[b] == Sending(ev, old(world).broadcasts[b].todo - {ch.id})
      ensures world.broadcasts == old(world).broadcasts[b := world.broadcasts[b]]
      ensures ch.queue == Pushed(old(ch.queue), ev)
    {
      assert ChannelIs(ch.id);
      if |ch.queue| < CAPACITY {
        ch.queue := ch.queue + [ev];
      }
      Take(Step.Offer(b, ch.id));
      forall k | k in made ensures ChannelIs(k) { assert old(ChannelIs(k)); }
    }

    /** Beginning or ending a broadcast changes no channel. */
    ghost method Frame(s: Step)
      requires Valid() && Enabled(world, s) && (s.Begin? || s.End?)
      modifies this`world, this`steps
      ensures Valid() && world == Next(old(world), s) && steps == old(steps) + [s]
    {
      Take(s);
      forall k | k in made ensures ChannelIs(k) { assert old(ChannelIs(k)); }
    }

    lemma SubsAre()
      requires Valid()
      ensures Ids(subs) == world.subs
    {
      InvKept(START, steps, world);
      forall c | c in world.subs ensures c in Ids(subs) {
        assert ChannelIs(c);
      }
      forall ch | ch in subs ensures ch.id in world.subs {
        assert ChannelIs(ch.id);
      }
    }

    method Serve(ghost b: nat, ch: Subscriber, ev: Event, ghost todo: set<nat>)
      requires Valid() && ch in subs && ch.id in todo
      requires Sends(world, b, ev, todo)
      modifies ch`queue, this`world, this`steps
      ensures Valid() && old(steps) <= steps && ch.queue == Pushed(old(ch.queue), ev)
      ensures Sends(world, b, ev, todo - {ch.id}) && Others(world, b) == Others(old(world), b)
    {
      Offer(b, ch, ev);
    }

    /** The loop of broadcast, in no particular order. */
    method OfferAll(ghost b: nat, ev: Event)
      requires Valid() && Sends(world, b, ev, Ids(subs))
      modifies subs`queue, this`world, this`steps
      ensures Valid() && old(steps) <= steps
      ensures Sends(world, b, ev, {}) && Others(world, b) == Others(old(world), b)
      ensures forall ch :: ch in subs ==> ch.queue == Pushed(old(ch.queue), ev)
    {
      var todo := subs;
      while todo != {}
        invariant todo <= subs && Valid() && old(steps) <= steps
        invariant Sends(world, b, ev, Ids(todo)) && Others(world, b) == Others(old(world), b)
        invariant forall ch :: ch in subs ==>
                    ch.queue == if ch in todo then old(ch.queue) else Pushed(old(ch.queue), ev)
      {
        var ch :| ch in todo;
        IdsRemove(todo, ch, made);
        Serve(b, ch, ev, Ids(todo));
        todo := todo - {ch};
      }
      assert Ids(todo) == {};
    }

    /**
     A broadcast with nothing in between: its sends are a broadcast of the step model from beginning
     to end, every queue with room gets the event at its end, and a full one stays as it is.
     */
    method Broadcast(ghost b: nat, ev: Event)
      requires Valid() && b !in world.broadcasts
      modifies subs`queue, this`world, this`steps
      ensures Valid() && world.broadcasts == old(world).broadcasts
      ensures old(steps) + [Begin(b, ev)] <= steps && steps[|steps| - 1] == End(b)
      ensures forall ch :: ch in subs ==> ch.queue == Pushed(old(ch.queue), ev)
    {
      SubsAre();
      Frame(Begin(b, ev));
      OfferAll(b, ev);
      Frame(End(b));
    }
  }
}
