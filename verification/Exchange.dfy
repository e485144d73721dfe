/**
 The radio request/response protocol: relayExchange and noteAF as a state machine whose steps are
 the critical sections and channel operations of any number of exchanges and of any number of
 noteAF calls, interleaved arbitrarily. Timeouts and radio errors may strike at any time.
 */
module Exchange {
  import opened Common

  /** The capacity of an exchange's private channel. */
  const CAPACITY := 8

  /**
   An incoming AF message. `command` is the command id of its ZCL frame, None when it does not
   parse. Nothing here looks at `transaction`, the frame's sequence number, or at `reply`, the exchange
   whose request the device meant to answer, if any.
   */
  datatype Message = Message(src: nat, cluster: nat, command: Option<nat>, transaction: nat, reply: Option<nat>)

  datatype Request = Request(nwk: nat, cluster: nat, want: nat)

  /** A message in a channel, with the time at which noteAF read the slot for it. */
  datatype Delivery = Delivery(msg: Message, readAt: nat)

  /**
   Where an exchange is. It holds the radio from Holding to Unslotted and its slot is installed
   from Installed to Leaving.
   */
  datatype Phase =
    | Waiting
    | Holding
    | Installed
    | Listening
    | Leaving(result: Option<Delivery>)
    | Unslotted(result: Option<Delivery>)
    | Done(result: Option<Delivery>)

  datatype Exch = Exch(req: Request, phase: Phase, inbox: seq<Delivery>, installedAt: nat, transaction: nat)

  /** A noteAF call between reading the slot of exchange `slot`, which matched, and sending to it. */
  datatype Note = Note(slot: nat, delivery: Delivery)

  datatype World = World(
    radio: Option<nat>,
    afWait: Option<nat>,
    zclSeq: nat,
    exchanges: map<nat, Exch>,
    notes: map<nat, Note>,
    clock: nat,
    used: seq<nat>
  )

  datatype Step =
    | Begin(e: nat, req: Request)
    | Lock(e: nat)
    | Install(e: nat)
    | Confirm(e: nat)
    | Fail(e: nat)
    | Take(e: nat)
    | Uninstall(e: nat)
    | Unlock(e: nat)
    | Read(c: nat, msg: Message)
    | Deliver(c: nat)

  const START: World := World(None, None, 0, map[], map[], 0, [])

  predicate Enabled(w: World, s: Step) {
    match s
    case Begin(e, _) => e !in w.exchanges
    case Lock(e) => w.radio.None? && e in w.exchanges && w.exchanges[e].phase.Waiting?
    case Install(e) => e in w.exchanges && w.exchanges[e].phase.Holding?
    case Confirm(e) => e in w.exchanges && w.exchanges[e].phase.Installed?
    case Fail(e) => e in w.exchanges && (w.exchanges[e].phase.Installed? || w.exchanges[e].phase.Listening?)
    case Take(e) => e in w.exchanges && w.exchanges[e].phase.Listening? && w.exchanges[e].inbox != []
    case Uninstall(e) => e in w.exchanges && w.exchanges[e].phase.Leaving?
    case Unlock(e) => e in w.exchanges && w.exchanges[e].phase.Unslotted?
    case Read(c, _) => c !in w.notes
    case Deliver(c) => c in w.notes
  }

  /** zclSeq is a uint8 that skips zero. */
  function NextSeq(q: nat): nat {
    if (q + 1) % 256 == 0 then 1 else (q + 1) % 256
  }

  predicate Matches(req: Request, m: Message) {
    m.src == req.nwk && m.cluster == req.cluster
  }

  predicate Answers(req: Request, m: Message) {
    Matches(req, m) && m.command == Some(req.want)
  }

  function Send(x: Exch, d: Delivery): Exch {
    if |x.inbox| < CAPACITY then x.(inbox := x.inbox + [d]) else x
  }

  function Receive(x: Exch): Exch
    requires x.inbox != []
  {
    var d := x.inbox[0];
    var rest := x.(inbox := x.inbox[1..]);
    if d.msg.command == Some(x.req.want) then rest.(phase := Leaving(Some(d))) else rest
  }

  /** The exchange moves on to phase `p`. */
  function Move(w: World, e: nat, p: Phase): World
    requires e in w.exchanges
  {
    w.(exchanges := w.exchanges[e := w.exchanges[e].(phase := p)])
  }

  function Put(w: World, e: nat, x: Exch): World {
    w.(exchanges := w.exchanges[e := x])
  }

  function Apply(w: World, s: Step): World
    requires Enabled(w, s)
  {
    var now := w.(clock := w.clock + 1);
    match s
    case Begin(e, req) => Put(now, e, Exch(req, Waiting, [], 0, 0))
    case Lock(e) =>
      var q := NextSeq(w.zclSeq);
      Put(now, e, w.exchanges[e].(phase := Holding, transaction := q))
      .(radio := Some(e), zclSeq := q, used := w.used + [q])
    case Install(e) =>
      Put(now, e, w.exchanges[e].(phase := Installed, installedAt := now.clock)).(afWait := Some(e))
    case Confirm(e) => Move(now, e, Listening)
    case Fail(e) => Move(now, e, Leaving(None))
    case Take(e) => Put(now, e, Receive(w.exchanges[e]))
    case Uninstall(e) =>
      Move(now, e, Unslotted(w.exchanges[e].phase.result)).(afWait := if w.afWait == Some(e) then None else w.afWait)
    case Unlock(e) => Move(now, e, Done(w.exchanges[e].phase.result)).(radio := None)
    case Read(c, m) =>
      if w.afWait.Some? && w.afWait.value in w.exchanges && Matches(w.exchanges[w.afWait.value].req, m)
      then now.(notes := w.notes[c := Note(w.afWait.value, Delivery(m, now.clock))])
      else now
    case Deliver(c) =>
      var n := w.notes[c];
      var sent := now.(notes := w.notes - {c});
      if n.slot in w.exchanges then Put(sent, n.slot, Send(w.exchanges[n.slot], n.delivery)) else sent
  }

  /** The exchange a step may change. */
  function Target(w: World, s: Step): Option<nat>
    requires Enabled(w, s)
  {
    match s
    case Read(_, _) => None
    case Deliver(c) => Some(w.notes[c].slot)
    case _ => Some(s.e)
  }

  ghost predicate Reaches(w: World, steps: seq<Step>, v: World)
    decreases |steps|
  {
    if steps == [] then v == w
    else Enabled(w, steps[0]) && Reaches(Apply(w, steps[0]), steps[1..], v)
  }

  // ---------------------------------------------------------------- the invariant

  predicate HasRadio(p: Phase) { !p.Waiting? && !p.Done? }

  predicate HasSlot(p: Phase) { p.Installed? || p.Listening? || p.Leaving? }

  /** The slot of the exchange was installed at `installedAt`. */
  predicate WasInstalled(p: Phase) { !p.Waiting? && !p.Holding? }

  function Outcome(p: Phase): Option<Delivery> {
    if p.Leaving? || p.Unslotted? || p.Done? then p.result else None
  }

  /** The message matches the exchange and was read against its slot after installation. */
  predicate Own(x: Exch, d: Delivery) {
    WasInstalled(x.phase) && Matches(x.req, d.msg) && x.installedAt < d.readAt
  }

  predicate ExchOk(x: Exch) {
    && |x.inbox| <= CAPACITY
    && (forall i :: 0 <= i < |x.inbox| ==> Own(x, x.inbox[i]))
    && (Outcome(x.phase).Some? ==>
          Own(x, Outcome(x.phase).value) && Answers(x.req, Outcome(x.phase).value.msg))
  }

  /** The radio and the slot belong to the exchange whose phase says so, and to no other. */
  ghost predicate Owners(w: World) {
    && (forall e :: e in w.exchanges ==> (HasRadio(w.exchanges[e].phase) <==> w.radio == Some(e)))
    && (forall e :: e in w.exchanges ==> (HasSlot(w.exchanges[e].phase) <==> w.afWait == Some(e)))
    && (w.radio.Some? ==> w.radio.value in w.exchanges)
    && (w.afWait.Some? ==> w.afWait.value in w.exchanges)
  }

  ghost predicate Contents(w: World) {
    && (forall e :: e in w.exchanges ==> ExchOk(w.exchanges[e]))
    && (forall e :: e in w.exchanges ==> w.exchanges[e].installedAt <= w.clock)
    && (forall c :: c in w.notes ==>
          w.notes[c].slot in w.exchanges && Own(w.exchanges[w.notes[c].slot], w.notes[c].delivery))
  }

  /** The numbers used so far count 1..255 round and round. */
  ghost predicate Counting(w: World) {
    && (forall i :: 0 <= i < |w.used| ==> w.used[i] == i % 255 + 1)
    && w.zclSeq == if w.used == [] then 0 else w.used[|w.used| - 1]
  }

  ghost predicate Inv(w: World) { Owners(w) && Contents(w) && Counting(w) }

  /** A move that keeps the claims of exchange `e` on radio and slot keeps everybody's. */
  lemma OwnersPut(w: World, e: nat, x: Exch)
    requires Owners(w)
    requires HasRadio(x.phase) <==> e in w.exchanges && HasRadio(w.exchanges[e].phase)
    requires HasSlot(x.phase) <==> e in w.exchanges && HasSlot(w.exchanges[e].phase)
    ensures Owners(Put(w, e, x))
  {
  }

  lemma OwnersLock(w: World, e: nat)
    requires Owners(w) && Enabled(w, Lock(e))
    ensures Owners(Apply(w, Lock(e)))
  {
  }

  lemma OwnersInstall(w: World, e: nat)
    requires Owners(w) && Enabled(w, Install(e))
    ensures Owners(Apply(w, Install(e)))
  {
    assert w.radio == Some(e);
  }

  lemma OwnersUninstall(w: World, e: nat)
    requires Owners(w) && Enabled(w, Uninstall(e))
    ensures Owners(Apply(w, Uninstall(e)))
  {
    assert w.radio == Some(e) && w.afWait == Some(e);
  }

  lemma OwnersUnlock(w: World, e: nat)
    requires Owners(w) && Enabled(w, Unlock(e))
    ensures Owners(Apply(w, Unlock(e)))
  {
    assert w.radio == Some(e);
  }

  lemma OwnersDeliver(w: World, c: nat)
    requires Owners(w) && Enabled(w, Deliver(c))
    ensures Owners(Apply(w, Deliver(c)))
  {
    var n := w.notes[c];
    if n.slot in w.exchanges {
      OwnersPut(w.(clock := w.clock + 1, notes := w.notes - {c}), n.slot, Send(w.exchanges[n.slot], n.delivery));
    }
  }

  lemma OwnersKept(w: World, s: Step)
    requires Owners(w) && Enabled(w, s)
    ensures Owners(Apply(w, s))
  {
    var now := w.(clock := w.clock + 1);
    match s
    case Begin(e, req) => OwnersPut(now, e, Exch(req, Waiting, [], 0, 0));
    case Confirm(e) => OwnersPut(now, e, w.exchanges[e].(phase := Listening));
    case Fail(e) => OwnersPut(now, e, w.exchanges[e].(phase := Leaving(None)));
    case Take(e) => OwnersPut(now, e, Receive(w.exchanges[e]));
    case Deliver(c) => OwnersDeliver(w, c);
    case Lock(e) => OwnersLock(w, e);
    case Install(e) => OwnersInstall(w, e);
    case Uninstall(e) => OwnersUninstall(w, e);
    case Unlock(e) => OwnersUnlock(w, e);
    case Read(_, _) =>
  }

  /** Replacing an exchange by a sound one that keeps its slot's history. */
  lemma ContentsPut(w: World, e: nat, x: Exch)
    requires Contents(w) && ExchOk(x) && x.installedAt <= w.clock
    requires e in w.exchanges ==> x.req == w.exchanges[e].req
    requires e in w.exchanges && WasInstalled(w.exchanges[e].phase) ==>
               WasInstalled(x.phase) && x.installedAt == w.exchanges[e].installedAt
    ensures Contents(Put(w, e, x))
  {
  }

  lemma ContentsKept(w: World, s: Step)
    requires Owners(w) && Contents(w) && Enabled(w, s)
    ensures Contents(Apply(w, s))
  {
    match s
    case Read(c, m) => NoteKeepsContents(w, c, m);
    case Deliver(c) =>
      var n := w.notes[c];
      var now := w.(clock := w.clock + 1, notes := w.notes - {c});
      assert Own(w.exchanges[n.slot], n.delivery) && ExchOk(w.exchanges[n.slot]);
      ContentsPut(now, n.slot, Send(w.exchanges[n.slot], n.delivery));
    case Begin(e, req) => ContentsPut(w.(clock := w.clock + 1), e, Exch(req, Waiting, [], 0, 0));
    case _ => MoveKeepsContents(w, s);
  }

  /** A read while the slot is up happens after its installation. */
  lemma NoteKeepsContents(w: World, c: nat, m: Message)
    requires Owners(w) && Contents(w) && Enabled(w, Read(c, m))
    ensures Contents(Apply(w, Read(c, m)))
  {
    if w.afWait.Some? { assert HasSlot(w.exchanges[w.afWait.value].phase); }
  }

  lemma InstallKeepsContents(w: World, e: nat)
    requires Contents(w) && Enabled(w, Install(e))
    ensures Contents(Apply(w, Install(e)))
  {
    var x := w.exchanges[e];
    assert ExchOk(x);
    var now := w.(clock := w.clock + 1);
    assert forall i :: 0 <= i < |x.inbox| ==> !Own(x, x.inbox[i]);
    ContentsPut(now, e, x.(phase := Installed, installedAt := now.clock));
  }

  lemma TakeKeepsContents(w: World, e: nat)
    requires Contents(w) && Enabled(w, Take(e))
    ensures Contents(Apply(w, Take(e)))
  {
    var x := w.exchanges[e];
    assert ExchOk(x) && Own(x, x.inbox[0]);
    ReceiveOk(x);
    ContentsPut(w.(clock := w.clock + 1), e, Receive(x));
  }

  lemma ReceiveOk(x: Exch)
    requires ExchOk(x) && x.phase.Listening? && x.inbox != []
    ensures ExchOk(Receive(x))
  {
    assert Own(x, x.inbox[0]);
    forall i | 0 <= i < |x.inbox| - 1 ensures Own(Receive(x), Receive(x).inbox[i]) {
      assert Own(x, x.inbox[i + 1]);
    }
  }

  lemma MoveKeepsContents(w: World, s: Step)
    requires Contents(w) && Enabled(w, s)
    requires !s.Begin? && !s.Read? && !s.Deliver?
    ensures Contents(Apply(w, s))
  {
    var x := w.exchanges[s.e];
    assert ExchOk(x);
    var now := w.(clock := w.clock + 1);
    match s
    case Lock(e) => ContentsPut(now, e, x.(phase := Holding, transaction := NextSeq(w.zclSeq)));
    case Install(e) => InstallKeepsContents(w, e);
    case Confirm(e) => ContentsPut(now, e, x.(phase := Listening));
    case Fail(e) => ContentsPut(now, e, x.(phase := Leaving(None)));
    case Take(e) => TakeKeepsContents(w, e);
    case Uninstall(e) => ContentsPut(now, e, x.(phase := Unslotted(x.phase.result)));
    case Unlock(e) => ContentsPut(now, e, x.(phase := Done(x.phase.result)));
  }

  lemma CountingKept(w: World, s: Step)
    requires Counting(w) && Enabled(w, s)
    ensures Counting(Apply(w, s))
  {
    if s.Lock? {
      var n := |w.used|;
      if n > 0 { assert w.used[n - 1] == (n - 1) % 255 + 1; }
      NextNumber(w.zclSeq, n);
      assert Apply(w, s).used == w.used + [NextSeq(w.zclSeq)];
    }
  }

  lemma NextNumber(q: nat, n: nat)
    requires q == if n == 0 then 0 else (n - 1) % 255 + 1
    ensures NextSeq(q) == n % 255 + 1
  {
    if n > 0 { ModStep(n - 1); }
    assert q < 255 ==> (q + 1) % 256 == q + 1;
  }

  lemma ModStep(n: nat)
    ensures (n + 1) % 255 == if n % 255 == 254 then 0 else n % 255 + 1
  {
  }

  lemma {:induction false} InvKept(w: World, steps: seq<Step>, v: World)
    requires Inv(w) && Reaches(w, steps, v)
    ensures Inv(v)
    decreases |steps|
  {
    if steps != [] {
      OwnersKept(w, steps[0]);
      ContentsKept(w, steps[0]);
      CountingKept(w, steps[0]);
      InvKept(Apply(w, steps[0]), steps[1..], v);
    }
  }

  // ---------------------------------------------------------------- what it means

  /**
   In every reachable state the waiter slot is empty whenever the radio is free, it belongs to the
   holder of the radio otherwise, and the cleanup of an exchange finds its own slot in place.
   */
  lemma SlotBelongsToHolder(steps: seq<Step>, w: World)
    requires Reaches(START, steps, w)
    ensures w.radio.None? ==> w.afWait.None?
    ensures w.afWait.Some? ==> w.radio == w.afWait
    ensures forall e: nat :: Enabled(w, Uninstall(e)) ==> w.afWait == Some(e) && Apply(w, Uninstall(e)).afWait.None?
  {
    InvKept(START, steps, w);
    if w.afWait.Some? { assert HasRadio(w.exchanges[w.afWait.value].phase); }
  }

  /** Before its slot is installed, nothing can be in the channel of an exchange. */
  lemma NothingYet(steps: seq<Step>, w: World, e: nat)
    requires Reaches(START, steps, w) && e in w.exchanges && w.exchanges[e].phase.Holding?
    ensures w.exchanges[e].inbox == []
  {
    InvKept(START, steps, w);
    var x := w.exchanges[e];
    assert ExchOk(x);
    assert x.inbox != [] ==> Own(x, x.inbox[0]);
  }

  /**
   Isolation. Whatever the interleaving with other exchanges and with delayed noteAF calls, a frame
   that an exchange returns came from its device, on its cluster, with its command, and was read
   against its slot after that slot was installed.
   */
  lemma ReturnsItsOwn(steps: seq<Step>, w: World, e: nat)
    requires Reaches(START, steps, w) && e in w.exchanges
    requires w.exchanges[e].phase.Done? && w.exchanges[e].phase.result.Some?
    ensures var d := w.exchanges[e].phase.result.value;
            Answers(w.exchanges[e].req, d.msg) && w.exchanges[e].installedAt < d.readAt
  {
    InvKept(START, steps, w);
    assert ExchOk(w.exchanges[e]);
  }

  /**
   A delivery, however late, touches nothing but the private channel of the exchange whose slot was
   read: no other exchange, not the radio, the slot, or any result.
   */
  lemma LateDelivery(steps: seq<Step>, w: World, c: nat)
    requires Reaches(START, steps, w) && Enabled(w, Deliver(c))
    ensures var v := Apply(w, Deliver(c)); var e := w.notes[c].slot;
            && e in w.exchanges && v.radio == w.radio && v.afWait == w.afWait
            && v.exchanges == w.exchanges[e := w.exchanges[e].(inbox := v.exchanges[e].inbox)]
            && v.exchanges[e].inbox ==
               w.exchanges[e].inbox + (if |w.exchanges[e].inbox| < 8 then [w.notes[c].delivery] else [])
  {
    InvKept(START, steps, w);
    assert ExchOk(w.exchanges[w.notes[c].slot]);
  }

  /** The waiting loop takes what came first, and it is the result exactly if it has the wanted command. */
  lemma TakesFirst(steps: seq<Step>, w: World, e: nat)
    requires Reaches(START, steps, w) && Enabled(w, Take(e))
    ensures var x, y := w.exchanges[e], Apply(w, Take(e)).exchanges[e];
            && y.inbox == x.inbox[1..] && y.req == x.req
            && y.phase == (if x.inbox[0].msg.command == Some(x.req.want) then Leaving(Some(x.inbox[0])) else Listening)
            && x.inbox[0].msg.src == x.req.nwk && x.inbox[0].msg.cluster == x.req.cluster
  {
    InvKept(START, steps, w);
    assert ExchOk(w.exchanges[e]) && Own(w.exchanges[e], w.exchanges[e].inbox[0]);
  }

  /** Once an exchange has left its slot, no step of anything changes what it returns. */
  lemma {:induction false} ResultIsFinal(w: World, steps: seq<Step>, v: World, e: nat)
    requires Reaches(w, steps, v) && e in w.exchanges
    requires w.exchanges[e].phase.Leaving? || w.exchanges[e].phase.Unslotted? || w.exchanges[e].phase.Done?
    ensures e in v.exchanges && Outcome(v.exchanges[e].phase) == Outcome(w.exchanges[e].phase)
    ensures v.exchanges[e].phase.Leaving? || v.exchanges[e].phase.Unslotted? || v.exchanges[e].phase.Done?
    decreases |steps|
  {
    if steps != [] { ResultIsFinal(Apply(w, steps[0]), steps[1..], v, e); }
  }

  /** The n-th exchange to hold the radio, counting from one, uses number ((n-1) mod 255)+1. */
  lemma SequenceNumbers(steps: seq<Step>, w: World)
    requires Reaches(START, steps, w)
    ensures forall i :: 0 <= i < |w.used| ==> w.used[i] == i % 255 + 1
    ensures forall i, j :: 0 <= i < j < |w.used| && j - i < 255 ==> w.used[i] != w.used[j]
    ensures 0 !in w.used
  {
    InvKept(START, steps, w);
    forall i, j | 0 <= i < j < |w.used| && j - i < 255 ensures w.used[i] != w.used[j] {
      Residues(i, j);
    }
  }

  lemma Residues(i: nat, j: nat)
    requires i < j && j - i < 255
    ensures i % 255 != j % 255
  {
  }

  lemma Extend(steps: seq<Step>, w: World, s: Step) returns (longer: seq<Step>, v: World)
    requires Reaches(START, steps, w) && Enabled(w, s)
    ensures longer == steps + [s] && v == Apply(w, s) && Reaches(START, longer, v)
  {
    longer, v := steps + [s], Apply(w, s);
    Snoc(START, steps, w, s);
  }

  lemma {:induction false} Snoc(u: World, steps: seq<Step>, w: World, s: Step)
    requires Reaches(u, steps, w) && Enabled(w, s)
    ensures Reaches(u, steps + [s], Apply(w, s))
    decreases |steps|
  {
    if steps == [] {
      assert ([] + [s])[1..] == [];
    } else {
      Snoc(Apply(u, steps[0]), steps[1..], w, s);
      assert (steps + [s])[1..] == steps[1..] + [s];
    }
  }

  lemma {:induction false} Concat(u: World, a: seq<Step>, w: World, b: seq<Step>, v: World)
    requires Reaches(u, a, w) && Reaches(w, b, v)
    ensures Reaches(u, a + b, v)
    decreases |a|
  {
    if a == [] {
      assert a + b == b;
    } else {
      Concat(Apply(u, a[0]), a[1..], w, b, v);
      assert (a + b)[1..] == a[1..] + b;
    }
  }
}
