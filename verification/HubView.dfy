/**
 What the hub can know of its exchanges. It sees which of them returned an answer, not whose answer that was.
 Every run looks to the hub like one among truthful devices in which each answer was the exchange's own, so
 whether the next answer can be trusted depends on nothing but which earlier exchanges returned one.
 */
module HubView {
  import opened Common
  import opened Exchange
  import opened Replies

  // ---------------------------------------------------------------- what looks the same

  /** A phase without the parts of the answer that nothing looks at. */
  function Bare(p: Phase): Phase {
    match p
    case Leaving(Some(d)) => Leaving(Some(BareOf(d)))
    case Unslotted(Some(d)) => Unslotted(Some(BareOf(d)))
    case Done(Some(d)) => Done(Some(BareOf(d)))
    case _ => p
  }

  function BareOf(d: Delivery): Delivery { d.(msg := d.msg.(transaction := 0, reply := None)) }

  predicate SameToHub(a: Exch, b: Exch) {
    a.req == b.req && a.transaction == b.transaction && a.installedAt == b.installedAt && Bare(a.phase) == Bare(b.phase)
  }

  /** The same exchanges, with the same requests and numbers, as far along, with the same answers. */
  predicate LooksLike(u: World, v: World) {
    && v.radio == u.radio && v.afWait == u.afWait && v.zclSeq == u.zclSeq && v.used == u.used
    && v.exchanges.Keys == u.exchanges.Keys
    && forall x :: x in u.exchanges ==> SameToHub(u.exchanges[x], v.exchanges[x])
  }

  // ---------------------------------------------------------------- the truthful twin of a run

  /**
   A delivery to exchange `x` in the twin of a run that ends at `u`: the answer to its own request if `x` is to
   return it, and otherwise something that is no answer at all.
   */
  function Twin(u: World, x: nat, d: Delivery): Delivery {
    if x in u.exchanges && Outcome(u.exchanges[x].phase) == Some(d)
    then d.(msg := d.msg.(transaction := u.exchanges[x].transaction, reply := Some(x)))
    else d.(msg := Noise(d.msg))
  }

  function Noise(m: Message): Message { m.(command := None, reply := None) }

  function TwinPhase(u: World, x: nat, p: Phase): Phase {
    match p
    case Leaving(Some(d)) => Leaving(Some(Twin(u, x, d)))
    case Unslotted(Some(d)) => Unslotted(Some(Twin(u, x, d)))
    case Done(Some(d)) => Done(Some(Twin(u, x, d)))
    case _ => p
  }

  function TwinInbox(u: World, x: nat, inbox: seq<Delivery>): seq<Delivery> {
    seq(|inbox|, i requires 0 <= i < |inbox| => Twin(u, x, inbox[i]))
  }

  function TwinExch(u: World, x: nat, e: Exch): Exch {
    e.(inbox := TwinInbox(u, x, e.inbox), phase := TwinPhase(u, x, e.phase))
  }

  function TwinNote(u: World, n: Note): Note { n.(delivery := Twin(u, n.slot, n.delivery)) }

  function TwinWorld(u: World, w: World): World {
    w.(exchanges := map x | x in w.exchanges :: TwinExch(u, x, w.exchanges[x]),
       notes := map c | c in w.notes :: TwinNote(u, w.notes[c]))
  }

  function TwinStep(u: World, w: World, s: Step): Step {
    match s
    case Read(c, m) =>
      Read(c, if w.afWait.Some? then Twin(u, w.afWait.value, Delivery(m, w.clock + 1)).msg else Noise(m))
    case _ => s
  }

  /** What exchange `x` returns by `u` is settled as soon as it leaves. */
  predicate Settles(w: World, u: World) {
    forall x :: x in w.exchanges && Outcome(w.exchanges[x].phase).Some? ==>
                  x in u.exchanges && Outcome(u.exchanges[x].phase) == Outcome(w.exchanges[x].phase)
  }

  lemma RunSettles(w: World, steps: seq<Step>, u: World)
    requires Reaches(w, steps, u)
    ensures Settles(w, u)
  {
    forall x | x in w.exchanges && Outcome(w.exchanges[x].phase).Some?
      ensures x in u.exchanges && Outcome(u.exchanges[x].phase) == Outcome(w.exchanges[x].phase)
    {
      ResultIsFinal(w, steps, u, x);
    }
  }

  lemma TwinEnabled(u: World, w: World, s: Step)
    requires Enabled(w, s)
    ensures Enabled(TwinWorld(u, w), TwinStep(u, w, s))
  {
  }

  lemma TwinPut(u: World, w: World, e: nat, x: Exch)
    ensures TwinWorld(u, Put(w, e, x)) == Put(TwinWorld(u, w), e, TwinExch(u, e, x))
  {
    assert TwinWorld(u, Put(w, e, x)).exchanges == TwinWorld(u, w).exchanges[e := TwinExch(u, e, x)];
  }

  lemma TwinReceive(u: World, e: nat, x: Exch)
    requires x.inbox != [] && x.phase.Listening?
    requires x.inbox[0].msg.command == Some(x.req.want) ==>
               e in u.exchanges && Outcome(u.exchanges[e].phase) == Some(x.inbox[0])
    ensures TwinExch(u, e, x).inbox != [] && Receive(TwinExch(u, e, x)) == TwinExch(u, e, Receive(x))
  {
    assert TwinInbox(u, e, x.inbox)[1..] == TwinInbox(u, e, x.inbox[1..]);
  }

  lemma TwinSend(u: World, e: nat, x: Exch, d: Delivery)
    ensures Send(TwinExch(u, e, x), Twin(u, e, d)) == TwinExch(u, e, Send(x, d))
  {
    assert TwinInbox(u, e, x.inbox + [d]) == TwinInbox(u, e, x.inbox) + [Twin(u, e, d)];
  }

  lemma TwinRead(u: World, w: World, c: nat, m: Message)
    requires Owners(w) && Enabled(w, Read(c, m))
    ensures Apply(TwinWorld(u, w), TwinStep(u, w, Read(c, m))) == TwinWorld(u, Apply(w, Read(c, m)))
  {
    var v := TwinWorld(u, w);
    if w.afWait.Some? && Matches(w.exchanges[w.afWait.value].req, m) {
      var n := Note(w.afWait.value, Delivery(m, w.clock + 1));
      assert TwinWorld(u, Apply(w, Read(c, m))).notes == v.notes[c := TwinNote(u, n)];
    }
  }

  lemma TwinDeliver(u: World, w: World, c: nat)
    requires Contents(w) && Enabled(w, Deliver(c))
    ensures Apply(TwinWorld(u, w), Deliver(c)) == TwinWorld(u, Apply(w, Deliver(c)))
  {
    var n := w.notes[c];
    var sent := w.(clock := w.clock + 1, notes := w.notes - {c});
    TwinSend(u, n.slot, w.exchanges[n.slot], n.delivery);
    TwinPut(u, sent, n.slot, Send(w.exchanges[n.slot], n.delivery));
    TwinSent(u, w, c);
  }

  lemma TwinSent(u: World, w: World, c: nat)
    ensures TwinWorld(u, w.(clock := w.clock + 1, notes := w.notes - {c})) ==
            var v := TwinWorld(u, w); v.(clock := v.clock + 1, notes := v.notes - {c})
  {
    assert (map k | k in w.notes - {c} :: TwinNote(u, w.notes[k])) == TwinWorld(u, w).notes - {c};
  }

  lemma TwinTake(u: World, w: World, e: nat)
    requires Enabled(w, Take(e)) && Settles(Apply(w, Take(e)), u) && Enabled(TwinWorld(u, w), Take(e))
    ensures Apply(TwinWorld(u, w), Take(e)) == TwinWorld(u, Apply(w, Take(e)))
  {
    var x := w.exchanges[e];
    assert Apply(w, Take(e)).exchanges[e] == Receive(x);
    TwinReceive(u, e, x);
    TwinPut(u, w.(clock := w.clock + 1), e, Receive(x));
  }

  /** A step that moves an exchange on without touching its channel. */
  lemma TwinGoesOn(u: World, w: World, e: nat, p: Phase)
    requires e in w.exchanges
    ensures TwinWorld(u, Move(w, e, p)) == Move(TwinWorld(u, w), e, TwinPhase(u, e, p))
  {
    TwinPut(u, w, e, w.exchanges[e].(phase := p));
  }

  lemma TwinLock(u: World, w: World, e: nat)
    requires Enabled(w, Lock(e)) && Enabled(TwinWorld(u, w), Lock(e))
    ensures Apply(TwinWorld(u, w), Lock(e)) == TwinWorld(u, Apply(w, Lock(e)))
  {
    TwinPut(u, w.(clock := w.clock + 1), e, w.exchanges[e].(phase := Holding, transaction := NextSeq(w.zclSeq)));
  }

  lemma TwinInstall(u: World, w: World, e: nat)
    requires Enabled(w, Install(e)) && Enabled(TwinWorld(u, w), Install(e))
    ensures Apply(TwinWorld(u, w), Install(e)) == TwinWorld(u, Apply(w, Install(e)))
  {
    TwinPut(u, w.(clock := w.clock + 1), e, w.exchanges[e].(phase := Installed, installedAt := w.clock + 1));
  }

  lemma TwinUninstall(u: World, w: World, e: nat)
    requires Enabled(w, Uninstall(e)) && Enabled(TwinWorld(u, w), Uninstall(e))
    ensures Apply(TwinWorld(u, w), Uninstall(e)) == TwinWorld(u, Apply(w, Uninstall(e)))
  {
    TwinGoesOn(u, w.(clock := w.clock + 1), e, Unslotted(w.exchanges[e].phase.result));
  }

  lemma TwinUnlock(u: World, w: World, e: nat)
    requires Enabled(w, Unlock(e)) && Enabled(TwinWorld(u, w), Unlock(e))
    ensures Apply(TwinWorld(u, w), Unlock(e)) == TwinWorld(u, Apply(w, Unlock(e)))
  {
    TwinGoesOn(u, w.(clock := w.clock + 1), e, Done(w.exchanges[e].phase.result));
  }

  /** The twin makes the twin step. */
  lemma TwinApply(u: World, w: World, s: Step)
    requires Inv(w) && Enabled(w, s) && Settles(Apply(w, s), u)
    ensures Enabled(TwinWorld(u, w), TwinStep(u, w, s))
    ensures Apply(TwinWorld(u, w), TwinStep(u, w, s)) == TwinWorld(u, Apply(w, s))
  {
    TwinEnabled(u, w, s);
    match s
    case Read(c, m) => TwinRead(u, w, c, m);
    case Deliver(c) => TwinDeliver(u, w, c);
    case Begin(e, req) => TwinPut(u, w.(clock := w.clock + 1), e, Exch(req, Waiting, [], 0, 0));
    case Lock(e) => TwinLock(u, w, e);
    case Install(e) => TwinInstall(u, w, e);
    case Take(e) => TwinTake(u, w, e);
    case Uninstall(e) => TwinUninstall(u, w, e);
    case Unlock(e) => TwinUnlock(u, w, e);
    case Confirm(e) => TwinGoesOn(u, w.(clock := w.clock + 1), e, Listening);
    case Fail(e) => TwinGoesOn(u, w.(clock := w.clock + 1), e, Leaving(None));
  }

  /** The exchanges answered in the twin so far: only such as return an answer by `u`, each when it is read. */
  ghost predicate SaidInTwin(u: World, now: nat, said: set<nat>) {
    forall x :: x in said ==>
      x in u.exchanges && Outcome(u.exchanges[x].phase).Some? && Outcome(u.exchanges[x].phase).value.readAt <= now
  }

  /** Exchange `x` has asked, under the number it keeps, what the message answers. */
  predicate IsAnswer(u: World, w: World, x: nat, m: Message) {
    && x in w.exchanges && WasInstalled(w.exchanges[x].phase) && Answers(w.exchanges[x].req, m)
    && x in u.exchanges && u.exchanges[x].transaction == w.exchanges[x].transaction
  }

  /** The answer that `x` is to return, read for it now. */
  lemma OwnAnswer(u: World, w: World, m: Message, steps: seq<Step>)
    requires Inv(w) && Inv(u) && Reaches(w, steps, u) && ReadsOwn(u, w, m)
    ensures IsAnswer(u, w, w.afWait.value, m)
  {
    var x := w.afWait.value;
    assert HasSlot(w.exchanges[x].phase);
    RequestKept(w, steps, u, x);
    assert ExchOk(u.exchanges[x]);
  }

  lemma OwnIsTruthful(u: World, w: World, said: set<nat>, x: nat, d: Delivery)
    requires x in u.exchanges && Outcome(u.exchanges[x].phase) == Some(d) && x !in said
    requires IsAnswer(u, w, x, d.msg)
    ensures Truthful(TwinWorld(u, w), said, Twin(u, x, d).msg) && Twin(u, x, d).msg.reply == Some(x)
  {
    TwinKeepsRequest(u, w, x);
  }

  /** The message read now is the answer that the exchange in the slot is to return. */
  predicate ReadsOwn(u: World, w: World, m: Message) {
    && w.afWait.Some? && w.afWait.value in u.exchanges
    && Outcome(u.exchanges[w.afWait.value].phase) == Some(Delivery(m, w.clock + 1))
  }

  lemma OwnReadSaid(u: World, w: World, said: set<nat>, c: nat, m: Message)
    requires SaidInTwin(u, w.clock, said) && ReadsOwn(u, w, m)
    ensures w.afWait.value !in said
    ensures SaidInTwin(u, w.clock + 1, said + {w.afWait.value})
    ensures TwinStep(u, w, Read(c, m)) == Read(c, Twin(u, w.afWait.value, Delivery(m, w.clock + 1)).msg)
  {
  }

  lemma NoiseRead(u: World, w: World, said: set<nat>, c: nat, m: Message)
    requires SaidInTwin(u, w.clock, said) && !ReadsOwn(u, w, m)
    ensures TwinStep(u, w, Read(c, m)) == Read(c, Noise(m)) && SaidInTwin(u, w.clock + 1, said)
  {
  }

  /** What the twin reads is truthful. */
  lemma TwinTruthful(u: World, w: World, said: set<nat>, c: nat, m: Message)
    requires SaidInTwin(u, w.clock, said) && (ReadsOwn(u, w, m) ==> IsAnswer(u, w, w.afWait.value, m))
    ensures var t := TwinStep(u, w, Read(c, m));
            t.Read? && Truthful(TwinWorld(u, w), said, t.msg) && SaidInTwin(u, w.clock + 1, Said(said, t))
  {
    if ReadsOwn(u, w, m) {
      var x, d := w.afWait.value, Delivery(m, w.clock + 1);
      OwnReadSaid(u, w, said, c, m);
      OwnIsTruthful(u, w, said, x, d);
    } else {
      NoiseRead(u, w, said, c, m);
      NoiseIsTruthful(TwinWorld(u, w), said, m);
    }
  }

  lemma NoiseIsTruthful(v: World, said: set<nat>, m: Message)
    ensures Truthful(v, said, Noise(m))
  {
  }

  lemma TwinKeepsRequest(u: World, w: World, x: nat)
    requires x in w.exchanges
    ensures var v := TwinWorld(u, w);
            && x in v.exchanges && v.exchanges[x].req == w.exchanges[x].req
            && v.exchanges[x].transaction == w.exchanges[x].transaction
            && (WasInstalled(v.exchanges[x].phase) <==> WasInstalled(w.exchanges[x].phase))
  {
  }

  lemma ReadIsTruthful(u: World, w: World, said: set<nat>, c: nat, m: Message, steps: seq<Step>)
    requires Inv(w) && Inv(u) && Reaches(w, steps, u) && SaidInTwin(u, w.clock, said)
    ensures var t := TwinStep(u, w, Read(c, m));
            t.Read? && Truthful(TwinWorld(u, w), said, t.msg) && SaidInTwin(u, w.clock + 1, Said(said, t))
  {
    if ReadsOwn(u, w, m) { OwnAnswer(u, w, m, steps); }
    TwinTruthful(u, w, said, c, m);
  }

  lemma {:induction false} RequestKept(w: World, steps: seq<Step>, u: World, x: nat)
    requires Reaches(w, steps, u) && x in w.exchanges && WasInstalled(w.exchanges[x].phase)
    ensures x in u.exchanges && u.exchanges[x].req == w.exchanges[x].req
    ensures u.exchanges[x].transaction == w.exchanges[x].transaction
    decreases |steps|
  {
    if steps != [] {
      KeepsRequest(w, steps[0], x);
      RequestKept(Apply(w, steps[0]), steps[1..], u, x);
    }
  }

  lemma {:induction false} TwinRun(w: World, steps: seq<Step>, u: World, said: set<nat>)
      returns (twin: seq<Step>, after: set<nat>)
    requires Inv(w) && Reaches(w, steps, u) && SaidInTwin(u, w.clock, said)
    ensures TruthfulRun(TwinWorld(u, w), said, twin, TwinWorld(u, u), after)
    ensures SaidInTwin(u, u.clock, after)
    decreases |steps|
  {
    if steps == [] {
      twin, after := [], said;
    } else {
      var s := steps[0];
      var next, t := Apply(w, s), TwinStep(u, w, s);
      InvStep(w, s);
      InvKept(next, steps[1..], u);
      RunSettles(next, steps[1..], u);
      TwinApply(u, w, s);
      if s.Read? { ReadIsTruthful(u, w, said, s.c, s.msg, steps); }
      var rest;
      rest, after := TwinRun(next, steps[1..], u, Said(said, t));
      twin := [t] + rest;
      assert twin[1..] == rest;
    }
  }

  lemma TwinLooksLike(u: World)
    ensures LooksLike(u, TwinWorld(u, u))
  {
    forall x | x in u.exchanges ensures SameToHub(u.exchanges[x], TwinExch(u, x, u.exchanges[x])) {
      var p := u.exchanges[x].phase;
      if Outcome(p).Some? { assert BareOf(Twin(u, x, Outcome(p).value)) == BareOf(Outcome(p).value); }
    }
  }

  /**
   The hub cannot tell. Whatever has happened, some run among truthful devices looks the same to the hub, and
   has answered only exchanges that returned an answer.
   */
  lemma TruthfulTwin(before: seq<Step>, u: World) returns (twin: seq<Step>, v: World, said: set<nat>)
    requires Reaches(START, before, u)
    ensures TruthfulRun(START, {}, twin, v, said) && LooksLike(u, v)
    ensures forall x :: x in said ==> x in u.exchanges && Outcome(u.exchanges[x].phase).Some?
  {
    InvKept(START, before, u);
    v := TwinWorld(u, u);
    TwinLooksLike(u);
    twin, said := TwinRun(START, before, u, {});
    assert TwinWorld(u, START) == START;
  }

  // ---------------------------------------------------------------- when an answer can be trusted

  /** In every run among truthful devices that looks like `u`, `e` is sure to return its own answer. */
  ghost predicate Sure(u: World, e: nat) {
    forall before, v, said :: TruthfulRun(START, {}, before, v, said) && LooksLike(u, v) && Enabled(v, Install(e)) ==>
                                AlwaysOwnReply(Apply(v, Install(e)), said, e)
  }

  /**
   What the hub can count on, exactly. As its slot goes up, an exchange is sure to return the answer to its own
   request if and only if every earlier exchange for the same address, cluster and command has returned one.
   */
  lemma SureIff(before: seq<Step>, u: World, e: nat)
    requires Reaches(START, before, u) && Enabled(u, Install(e))
    ensures Sure(u, e) <==> forall y :: Asked(u, e, y) ==> Outcome(u.exchanges[y].phase).Some?
  {
    if y :| Asked(u, e, y) && Outcome(u.exchanges[y].phase).None? {
      var twin, v, said := TruthfulTwin(before, u);
      SameAsked(u, v, e, y);
      OwnReplyIff(twin, v, said, e);
      var w := Apply(v, Install(e));
      assert Outstanding(w, said, e, y);
    } else {
      forall twin, v, said | TruthfulRun(START, {}, twin, v, said) && LooksLike(u, v) && Enabled(v, Install(e))
        ensures AlwaysOwnReply(Apply(v, Install(e)), said, e)
      {
        forall y | Asked(v, e, y) ensures Outcome(v.exchanges[y].phase).Some? {
          SameAsked(u, v, e, y);
        }
        AnsweredInTurn(twin, v, said, e);
      }
    }
  }

  lemma SameAsked(u: World, v: World, e: nat, y: nat)
    requires LooksLike(u, v) && e in u.exchanges && y in u.exchanges
    ensures Asked(u, e, y) <==> Asked(v, e, y)
    ensures Outcome(u.exchanges[y].phase).Some? <==> Outcome(v.exchanges[y].phase).Some?
    ensures Enabled(u, Install(y)) <==> Enabled(v, Install(y))
  {
    assert SameToHub(u.exchanges[y], v.exchanges[y]) && SameToHub(u.exchanges[e], v.exchanges[e]);
  }
}
