/**
 The fields behind the protocol of Exchange.dfy, updated in place: the sequence counter, the single
 waiter slot and the buffered channel of each exchange. Each method is one critical section or one
 channel operation, and performs the step of the protocol named in its contract.
 */
module Radio {
  import opened Common
  import E = Exchange

  /** What one pass of relayExchange's select can see. */
  datatype Wake = Cancelled | TimedOut | Arrived(msg: E.Message)

  class AfSlot {
    const nwk: nat
    const cluster: nat
    var ch: seq<E.Message>
    ghost const id: nat

    constructor (nwk: nat, cluster: nat, ghost id: nat)
      ensures this.nwk == nwk && this.cluster == cluster && this.id == id && ch == []
    {
      this.nwk := nwk;
      this.cluster := cluster;
      this.id := id;
      ch := [];
    }
  }

  ghost predicate Mirrors(s: AfSlot, x: E.Exch)
    reads s
  {
    s.nwk == x.req.nwk && s.cluster == x.req.cluster && E.WasInstalled(x.phase) && s.ch == Messages(x.inbox)
  }

  ghost function Messages(inbox: seq<E.Delivery>): seq<E.Message> {
    seq(|inbox|, i requires 0 <= i < |inbox| => inbox[i].msg)
  }

  lemma MessagesRest(inbox: seq<E.Delivery>)
    requires inbox != []
    ensures Messages(inbox[1..]) == Messages(inbox)[1..] && Messages(inbox)[0] == inbox[0].msg
  {
  }

  lemma MessagesMore(inbox: seq<E.Delivery>, d: E.Delivery)
    ensures Messages(inbox + [d]) == Messages(inbox) + [d.msg]
  {
  }

  class Coordinator {
    var zclSeq: nat
    var afWait: AfSlot?
    ghost var world: E.World
    /** Every slot ever installed, by exchange. */
    ghost var slots: map<nat, AfSlot>

    /** The steps that led to `world`. */
    ghost var steps: seq<E.Step>

    ghost predicate SlotOk(e: nat)
      requires e in slots
      reads this, slots[e]
    {
      var s := slots[e];
      e in world.exchanges && s.id == e && Mirrors(s, world.exchanges[e])
    }

    ghost predicate Valid()
      reads this, slots.Values
    {
      && E.Reaches(E.START, steps, world)
      && zclSeq == world.zclSeq
      && world.afWait == (if afWait == null then None else Some(afWait.id))
      && (afWait != null ==> afWait.id in slots && slots[afWait.id] == afWait)
      && (forall e :: e in slots ==> SlotOk(e))
    }

    constructor ()
      ensures Valid() && world == E.START
    {
      zclSeq := 0;
      afWait := null;
      world := E.START;
      slots := map[];
      steps := [];
    }

    /** The protocol takes step `s`, which touches at most one exchange. */
    ghost method Step(s: E.Step)
      requires E.Reaches(E.START, steps, world) && E.Enabled(world, s)
      modifies this`world, this`steps
      ensures world == E.Apply(old(world), s) && E.Reaches(E.START, steps, world)
      ensures forall k :: k in old(world).exchanges && Some(k) != E.Target(old(world), s) ==>
                k in world.exchanges && world.exchanges[k] == old(world).exchanges[k]
    {
      E.Snoc(E.START, steps, world, s);
      steps := steps + [s];
      world := E.Apply(world, s);
    }

    /** The radio lock has been granted to `e`, which draws the next sequence number. */
    method NextTransaction(ghost e: nat) returns (transaction: nat)
      requires Valid() && E.Enabled(world, E.Lock(e))
      modifies this`zclSeq, this`world, this`steps
      ensures Valid() && world == E.Apply(old(world), E.Lock(e))
      ensures transaction == world.exchanges[e].transaction
    {
      zclSeq := (zclSeq + 1) % 256;
      if zclSeq == 0 {
        zclSeq := 1;
      }
      transaction := zclSeq;
      Step(E.Lock(e));
      forall k | k in slots ensures SlotOk(k) { assert old(SlotOk(k)); }
    }

    method InstallSlot(ghost e: nat, nwk: nat, cluster: nat) returns (slot: AfSlot)
      requires Valid() && E.Enabled(world, E.Install(e))
      requires nwk == world.exchanges[e].req.nwk && cluster == world.exchanges[e].req.cluster
      modifies this`afWait, this`world, this`steps, this`slots
      ensures Valid() && world == E.Apply(old(world), E.Install(e))
      ensures fresh(slot) && afWait == slot && slots == old(slots)[e := slot]
    {
      E.NothingYet(steps, world, e);
      slot := new AfSlot(nwk, cluster, e);
      afWait := slot;
      slots := slots[e := slot];
      Step(E.Install(e));
      forall k | k in slots ensures SlotOk(k) { assert k != e ==> old(SlotOk(k)); }
    }

    /** The locked half of noteAF: the slot, if the message is for it. */
    method ReadSlot(ghost c: nat, msg: E.Message) returns (slot: AfSlot?)
      requires Valid() && E.Enabled(world, E.Read(c, msg))
      modifies this`world, this`steps
      ensures Valid() && world == E.Apply(old(world), E.Read(c, msg))
      ensures slot != null <==> c in world.notes
      ensures slot != null ==> slot == afWait && world.notes[c].slot == slot.id && world.notes[c].delivery.msg == msg
    {
      slot := afWait;
      assert slot != null ==> SlotOk(slot.id);
      if slot == null || msg.src != slot.nwk || msg.cluster != slot.cluster {
        slot := null;
      }
      Step(E.Read(c, msg));
    }

    /** The unlocked half of noteAF, any time later: send unless the channel is full. */
    method SendTo(ghost c: nat, slot: AfSlot, msg: E.Message)
      requires Valid() && E.Enabled(world, E.Deliver(c))
      requires slot.id in slots && slots[slot.id] == slot
      requires world.notes[c].slot == slot.id && world.notes[c].delivery.msg == msg
      modifies this`world, this`steps, slot`ch
      ensures Valid() && world == E.Apply(old(world), E.Deliver(c))
    {
      assert SlotOk(slot.id);
      MessagesMore(world.exchanges[slot.id].inbox, world.notes[c].delivery);
      if |slot.ch| < E.CAPACITY {
        slot.ch := slot.ch + [msg];
      }
      Step(E.Deliver(c));
      forall k | k in slots ensures SlotOk(k) { assert old(SlotOk(k)); }
    }

    /** One receive of the waiting loop: the answer, or None for a frame that is skipped. */
    method ReceiveFrom(ghost e: nat, slot: AfSlot, want: nat) returns (answer: Option<E.Message>)
      requires Valid() && E.Enabled(world, E.Take(e))
      requires e in slots && slots[e] == slot && want == world.exchanges[e].req.want
      modifies this`world, this`steps, slot`ch
      ensures Valid() && world == E.Apply(old(world), E.Take(e))
      ensures answer.Some? <==> world.exchanges[e].phase.Leaving?
      ensures answer.Some? ==>
                var got := world.exchanges[e].phase.result; got.Some? && got.value.msg == answer.value
    {
      assert SlotOk(e);
      MessagesRest(world.exchanges[e].inbox);
      var msg := slot.ch[0];
      slot.ch := slot.ch[1..];
      answer := if msg.command == Some(want) then Some(msg) else None;
      Step(E.Take(e));
      forall k | k in slots ensures SlotOk(k) { assert old(SlotOk(k)); }
    }

    /** The deferred cleanup, which compares the installed slot with its own. */
    method RemoveSlot(ghost e: nat, slot: AfSlot)
      requires Valid() && E.Enabled(world, E.Uninstall(e))
      requires e in slots && slots[e] == slot
      modifies this`world, this`steps, this`afWait
      ensures Valid() && world == E.Apply(old(world), E.Uninstall(e)) && afWait == null
    {
      assert SlotOk(e);
      E.SlotBelongsToHolder(steps, world);
      if afWait != null && afWait == slot {
        afWait := null;
      }
      Step(E.Uninstall(e));
      forall k | k in slots ensures SlotOk(k) { assert old(SlotOk(k)); }
    }
  }

  /** The wake-up at `i` is the one that ends the wait. */
  predicate Ends(w: Wake, want: nat) {
    !w.Arrived? || w.msg.command == Some(want)
  }

  /**
   The waiting loop of relayExchange over what its select sees, in order: it returns the first frame
   with the wanted command, unless the wait was cancelled or timed out before it.
   */
  method Await(wakes: seq<Wake>, want: nat) returns (answer: Option<E.Message>, skipped: seq<E.Message>)
    ensures answer.Some? <==>
              exists i :: 0 <= i < |wakes| && wakes[i].Arrived? && Ends(wakes[i], want)
                          && (forall j :: 0 <= j < i ==> !Ends(wakes[j], want))
    ensures answer.Some? ==> |skipped| < |wakes| && wakes[|skipped|] == Arrived(answer.value)
    ensures answer.Some? ==> answer.value.command == Some(want)
    ensures |skipped| <= |wakes|
    ensures forall j :: 0 <= j < |skipped| ==> wakes[j] == Arrived(skipped[j]) && !Ends(wakes[j], want)
  {
    skipped := [];
    answer := None;
    for i := 0 to |wakes|
      invariant |skipped| == i
      invariant answer == None
      invariant forall j :: 0 <= j < i ==> wakes[j] == Arrived(skipped[j]) && !Ends(wakes[j], want)
    {
      match wakes[i]
      case Cancelled => return;
      case TimedOut => return;
      case Arrived(m) =>
        if m.command == Some(want) {
          answer := Some(m);
          return;
        }
        skipped := skipped + [m];
    }
  }
}
