/**
 Whose answer an exchange returns. The waiting loop matches source, cluster and command only, so an answer
 to an earlier exchange can be taken for the answer to a later one. This module says exactly when it cannot.
 */
module Replies {
  import opened Common
  import opened Exchange

  /** Message `m` is in the channel of exchange `x`, on its way there, or its result. */
  ghost predicate Holds(w: World, x: nat, m: Message) {
    && x in w.exchanges
    && (|| (exists i :: 0 <= i < |w.exchanges[x].inbox| && w.exchanges[x].inbox[i].msg == m)
        || (exists c :: c in w.notes && w.notes[c].slot == x && w.notes[c].delivery.msg == m)
        || (Outcome(w.exchanges[x].phase).Some? && Outcome(w.exchanges[x].phase).value.msg == m))
  }

  /** The only way to an exchange is to be read while its slot is up. */
  lemma HoldsStep(w: World, s: Step, x: nat, m: Message)
    requires Contents(w) && Enabled(w, s) && Holds(Apply(w, s), x, m)
    ensures Holds(w, x, m) || (s.Read? && s.msg == m && w.afWait == Some(x))
  {
    var v := Apply(w, s);
    if c :| c in v.notes && v.notes[c].slot == x && v.notes[c].delivery.msg == m {
      if !s.Read? || s.c != c { assert c in w.notes; }
    } else if i :| 0 <= i < |v.exchanges[x].inbox| && v.exchanges[x].inbox[i].msg == m {
      InboxStep(w, s, x, i);
    } else {
      OutcomeStep(w, s, x);
    }
  }

  lemma InboxStep(w: World, s: Step, x: nat, i: nat)
    requires Contents(w) && Enabled(w, s) && x in Apply(w, s).exchanges
    requires i < |Apply(w, s).exchanges[x].inbox|
    ensures Holds(w, x, Apply(w, s).exchanges[x].inbox[i].msg)
  {
    var d := Apply(w, s).exchanges[x].inbox[i];
    if s.Deliver? && w.notes[s.c].slot == x && i == |w.exchanges[x].inbox| {
      assert w.notes[s.c].delivery == d;
    } else if s.Take? && s.e == x {
      assert w.exchanges[x].inbox[i + 1] == d;
    } else {
      assert x in w.exchanges && w.exchanges[x].inbox[i] == d;
    }
  }

  lemma OutcomeStep(w: World, s: Step, x: nat)
    requires Contents(w) && Enabled(w, s) && x in Apply(w, s).exchanges
    requires Outcome(Apply(w, s).exchanges[x].phase).Some?
    ensures Holds(w, x, Outcome(Apply(w, s).exchanges[x].phase).value.msg)
  {
    if s.Take? && s.e == x {
      assert w.exchanges[x].inbox[0].msg == w.exchanges[x].inbox[0].msg;
    }
  }

  /** A slot that has just been installed has heard nothing. */
  lemma NothingHeld(u: World, e: nat, m: Message)
    requires Inv(u) && Enabled(u, Install(e))
    ensures !Holds(u, e, m) && !Holds(Apply(u, Install(e)), e, m)
  {
    var x := u.exchanges[e];
    assert ExchOk(x);
    assert forall i :: 0 <= i < |x.inbox| ==> !Own(x, x.inbox[i]);
    assert forall c :: c in u.notes && u.notes[c].slot == e ==> !Own(x, u.notes[c].delivery);
    if Holds(Apply(u, Install(e)), e, m) { HoldsStep(u, Install(e), e, m); }
  }

  /** Once installed, an exchange keeps its request and its number. */
  lemma KeepsRequest(w: World, s: Step, x: nat)
    requires Enabled(w, s) && x in w.exchanges && WasInstalled(w.exchanges[x].phase)
    ensures var v := Apply(w, s);
            && x in v.exchanges && WasInstalled(v.exchanges[x].phase)
            && v.exchanges[x].req == w.exchanges[x].req && v.exchanges[x].transaction == w.exchanges[x].transaction
            && v.exchanges[x].installedAt == w.exchanges[x].installedAt
  {
  }

  lemma InvStep(w: World, s: Step)
    requires Inv(w) && Enabled(w, s)
    ensures Inv(Apply(w, s))
  {
    OwnersKept(w, s);
    ContentsKept(w, s);
    CountingKept(w, s);
  }

  lemma {:induction false} FreshNote(taken: set<nat>) returns (n: nat)
    ensures forall c :: c in taken ==> c < n
    decreases |taken|
  {
    n := 0;
    if taken != {} {
      var c :| c in taken;
      var k := FreshNote(taken - {c});
      n := if k <= c then c + 1 else k;
      assert forall b :: b in taken ==> b == c || b in taken - {c};
    }
  }

  // ---------------------------------------------------------------- by sequence number

  /** Every message of the run that is read while the slot of `e` is up is in `heard`. */
  ghost predicate HearsOnly(w: World, steps: seq<Step>, e: nat, heard: set<Message>)
    decreases |steps|
  {
    steps == [] ||
    (&& Enabled(w, steps[0])
     && (steps[0].Read? && w.afWait == Some(e) ==> steps[0].msg in heard)
     && HearsOnly(Apply(w, steps[0]), steps[1..], e, heard))
  }

  /** If `e` has a result, it carries the number that `e` used. */
  predicate OwnNumber(v: World, e: nat) {
    e in v.exchanges &&
    var r := Outcome(v.exchanges[e].phase);
    r.Some? ==> r.value.msg.transaction == v.exchanges[e].transaction
  }

  lemma {:induction false} HeardOnly(w: World, steps: seq<Step>, v: World, e: nat, heard: set<Message>)
    requires Inv(w) && Reaches(w, steps, v) && HearsOnly(w, steps, e, heard)
    requires e in w.exchanges && WasInstalled(w.exchanges[e].phase)
    requires forall m :: Holds(w, e, m) ==> m in heard
    ensures Inv(v) && forall m :: Holds(v, e, m) ==> m in heard
    ensures e in v.exchanges && v.exchanges[e].req == w.exchanges[e].req
    ensures v.exchanges[e].transaction == w.exchanges[e].transaction
    decreases |steps|
  {
    if steps != [] {
      var next := Apply(w, steps[0]);
      InvStep(w, steps[0]);
      KeepsRequest(w, steps[0], e);
      forall m | Holds(next, e, m) ensures m in heard { HoldsStep(w, steps[0], e, m); }
      HeardOnly(next, steps[1..], v, e, heard);
    }
  }

  /** Steps that read nothing let nothing be heard. */
  lemma {:induction false} Quiet(w: World, steps: seq<Step>, v: World, e: nat, heard: set<Message>)
    requires Reaches(w, steps, v) && forall s :: s in steps ==> !s.Read?
    ensures HearsOnly(w, steps, e, heard)
    decreases |steps|
  {
    if steps != [] {
      assert steps[0] in steps && forall s :: s in steps[1..] ==> s in steps;
      Quiet(Apply(w, steps[0]), steps[1..], v, e, heard);
    }
  }

  /** Any answer read while the slot is up and the channel empty can become the result. */
  lemma Swallows(w: World, e: nat, m: Message) returns (c: nat, rest: seq<Step>, v: World)
    requires Inv(w) && w.afWait == Some(e) && e in w.exchanges
    requires w.exchanges[e].phase.Installed? && w.exchanges[e].inbox == [] && Answers(w.exchanges[e].req, m)
    ensures c !in w.notes && rest == [Deliver(c), Confirm(e), Take(e)]
    ensures Reaches(Apply(w, Read(c, m)), rest, v) && Reaches(w, [Read(c, m)] + rest, v)
    ensures e in v.exchanges && v.exchanges == w.exchanges[e := v.exchanges[e]]
    ensures v.exchanges[e].phase == Leaving(Some(Delivery(m, w.clock + 1)))
    ensures v.exchanges[e].transaction == w.exchanges[e].transaction
  {
    c := FreshNote(w.notes.Keys);
    var d := Delivery(m, w.clock + 1);
    var a := Apply(w, Read(c, m));
    var b := Received(w, e, m, c);
    var b' := Apply(b, Confirm(e));
    v := Apply(b', Take(e));
    rest := [Deliver(c), Confirm(e), Take(e)];
    ThreeSteps(a, Deliver(c), Confirm(e), Take(e));
    assert ([Read(c, m)] + rest)[1..] == rest;
  }

  lemma Received(w: World, e: nat, m: Message, c: nat) returns (b: World)
    requires w.afWait == Some(e) && e in w.exchanges && c !in w.notes
    requires w.exchanges[e].inbox == [] && Answers(w.exchanges[e].req, m)
    ensures var a := Apply(w, Read(c, m)); Enabled(a, Deliver(c)) && b == Apply(a, Deliver(c))
    ensures b.exchanges == w.exchanges[e := w.exchanges[e].(inbox := [Delivery(m, w.clock + 1)])]
  {
    var a := Apply(w, Read(c, m));
    assert a.notes[c] == Note(e, Delivery(m, w.clock + 1));
    b := Apply(a, Deliver(c));
    assert w.exchanges[e].inbox + [Delivery(m, w.clock + 1)] == [Delivery(m, w.clock + 1)];
    assert a.exchanges == w.exchanges;
    assert Send(a.exchanges[e], a.notes[c].delivery) == w.exchanges[e].(inbox := [Delivery(m, w.clock + 1)]);
  }

  lemma ThreeSteps(w: World, p: Step, q: Step, r: Step)
    requires Enabled(w, p) && Enabled(Apply(w, p), q) && Enabled(Apply(Apply(w, p), q), r)
    ensures Reaches(w, [p, q, r], Apply(Apply(Apply(w, p), q), r))
  {
    var v := Apply(Apply(Apply(w, p), q), r);
    assert [p, q, r][1..] == [q, r] && [q, r][1..] == [r] && [r][1..] == [];
    assert Reaches(Apply(Apply(w, p), q), [r], v);
    assert Reaches(Apply(w, p), [q, r], v);
  }

  /** The result of an exchange answers its request. */
  lemma ResultHeld(v: World, e: nat)
    requires Inv(v) && e in v.exchanges && Outcome(v.exchanges[e].phase).Some?
    ensures Holds(v, e, Outcome(v.exchanges[e].phase).value.msg)
    ensures Answers(v.exchanges[e].req, Outcome(v.exchanges[e].phase).value.msg)
  {
    assert ExchOk(v.exchanges[e]);
  }

  /** The slot of exchange `e` has just been installed, after a run from the start. */
  ghost predicate JustInstalled(w: World, e: nat) {
    && Inv(w) && w.afWait == Some(e) && e in w.exchanges
    && w.exchanges[e].phase.Installed? && w.exchanges[e].inbox == []
    && forall m :: !Holds(w, e, m)
  }

  lemma Installs(before: seq<Step>, u: World, e: nat)
    requires Reaches(START, before, u) && Enabled(u, Install(e))
    ensures Inv(u) && JustInstalled(Apply(u, Install(e)), e)
  {
    InvKept(START, before, u);
    InvStep(u, Install(e));
    NothingYet(before, u, e);
    forall m ensures !Holds(Apply(u, Install(e)), e, m) { NothingHeld(u, e, m); }
  }

  /** Every run that hears nothing but `heard` from here on returns, if anything, the number `e` used. */
  ghost predicate AlwaysOwnNumber(w: World, e: nat, heard: set<Message>) {
    forall steps, v :: Reaches(w, steps, v) && HearsOnly(w, steps, e, heard) ==> OwnNumber(v, e)
  }

  /** The messages of `heard` that would answer `e` carry its number. */
  predicate NumbersMatch(w: World, e: nat, heard: set<Message>)
    requires e in w.exchanges
  {
    forall m :: m in heard && Answers(w.exchanges[e].req, m) ==> m.transaction == w.exchanges[e].transaction
  }

  /**
   Whatever set of messages may be read while its slot is up, every run returns the exchange's own
   number exactly when every one of them that would answer it carries that number.
   */
  lemma OwnNumberIff(before: seq<Step>, u: World, e: nat, heard: set<Message>)
    requires Reaches(START, before, u) && Enabled(u, Install(e))
    ensures var w := Apply(u, Install(e));
            AlwaysOwnNumber(w, e, heard) <==> NumbersMatch(w, e, heard)
  {
    Installs(before, u, e);
    var w := Apply(u, Install(e));
    if NumbersMatch(w, e, heard) {
      forall steps, v | Reaches(w, steps, v) && HearsOnly(w, steps, e, heard) ensures OwnNumber(v, e) {
        OwnNumberIfMatching(w, steps, v, e, heard);
      }
    } else {
      var steps, v := ForeignNumber(w, e, heard);
    }
  }

  lemma OwnNumberIfMatching(w: World, steps: seq<Step>, v: World, e: nat, heard: set<Message>)
    requires JustInstalled(w, e) && NumbersMatch(w, e, heard)
    requires Reaches(w, steps, v) && HearsOnly(w, steps, e, heard)
    ensures OwnNumber(v, e)
  {
    HeardOnly(w, steps, v, e, heard);
    if Outcome(v.exchanges[e].phase).Some? { ResultHeld(v, e); }
  }

  lemma ForeignNumber(w: World, e: nat, heard: set<Message>) returns (steps: seq<Step>, v: World)
    requires JustInstalled(w, e) && !NumbersMatch(w, e, heard)
    ensures Reaches(w, steps, v) && HearsOnly(w, steps, e, heard) && !OwnNumber(v, e)
  {
    var m :| m in heard && Answers(w.exchanges[e].req, m) && m.transaction != w.exchanges[e].transaction;
    var c, rest;
    c, rest, v := Swallows(w, e, m);
    steps := [Read(c, m)] + rest;
    Quiet(Apply(w, Read(c, m)), rest, v, e, heard);
    assert steps[1..] == rest;
  }

  // ---------------------------------------------------------------- by the request answered

  /**
   A truthful device answers a request at most once, after it was sent and with its number, and sends
   nothing else that looks like an answer. `said` are the exchanges answered so far.
   */
  ghost predicate Truthful(w: World, said: set<nat>, m: Message) {
    match m.reply
    case None => forall x :: x in w.exchanges ==> !Answers(w.exchanges[x].req, m)
    case Some(x) =>
      && x in w.exchanges && x !in said && WasInstalled(w.exchanges[x].phase)
      && Answers(w.exchanges[x].req, m) && m.transaction == w.exchanges[x].transaction
  }

  function Said(said: set<nat>, s: Step): set<nat> {
    if s.Read? && s.msg.reply.Some? then said + {s.msg.reply.value} else said
  }

  /** A run among truthful devices, which ends with the exchanges in `after` answered. */
  ghost predicate TruthfulRun(w: World, said: set<nat>, steps: seq<Step>, v: World, after: set<nat>)
    decreases |steps|
  {
    if steps == [] then v == w && after == said
    else
      && Enabled(w, steps[0]) && (steps[0].Read? ==> Truthful(w, said, steps[0].msg))
      && TruthfulRun(Apply(w, steps[0]), Said(said, steps[0]), steps[1..], v, after)
  }

  lemma {:induction false} TruthfulReaches(w: World, said: set<nat>, steps: seq<Step>, v: World, after: set<nat>)
    requires TruthfulRun(w, said, steps, v, after)
    ensures Reaches(w, steps, v)
    decreases |steps|
  {
    if steps != [] { TruthfulReaches(Apply(w, steps[0]), Said(said, steps[0]), steps[1..], v, after); }
  }

  lemma {:induction false} QuietTruth(w: World, said: set<nat>, steps: seq<Step>, v: World)
    requires Reaches(w, steps, v) && forall s :: s in steps ==> !s.Read?
    ensures TruthfulRun(w, said, steps, v, said)
    decreases |steps|
  {
    if steps != [] {
      assert steps[0] in steps && forall s :: s in steps[1..] ==> s in steps;
      QuietTruth(Apply(w, steps[0]), said, steps[1..], v);
    }
  }

  /** The message is the answer to exchange `x`, with its number. */
  predicate IsReply(w: World, x: nat, m: Message)
    requires x in w.exchanges
  {
    m.reply == Some(x) && m.transaction == w.exchanges[x].transaction
  }

  /** If `e` has a result, it is the answer to its own request. */
  predicate OwnReply(v: World, e: nat) {
    e in v.exchanges &&
    var r := Outcome(v.exchanges[e].phase);
    r.Some? ==> IsReply(v, e, r.value.msg)
  }

  /** Exchange `y` has asked what `e` asks. */
  predicate Asked(w: World, e: nat, y: nat)
    requires e in w.exchanges
  {
    y in w.exchanges && WasInstalled(w.exchanges[y].phase) && w.exchanges[y].req == w.exchanges[e].req
  }

  /** Another exchange has asked what `e` asks, and its answer has yet to be read. */
  predicate Outstanding(w: World, said: set<nat>, e: nat, y: nat)
    requires e in w.exchanges
  {
    Asked(w, e, y) && y != e && y !in said
  }

  predicate NoneOutstanding(w: World, said: set<nat>, e: nat)
    requires e in w.exchanges
  {
    forall y :: y in w.exchanges ==> !Outstanding(w, said, e, y)
  }

  /** Everything on its way to `e` that would answer it is its own reply. */
  ghost predicate Mine(w: World, e: nat)
    requires e in w.exchanges
  {
    forall m :: Holds(w, e, m) && Answers(w.exchanges[e].req, m) ==> IsReply(w, e, m)
  }

  lemma NoneOutstandingStep(w: World, said: set<nat>, s: Step, e: nat)
    requires Inv(w) && Enabled(w, s) && e in w.exchanges && WasInstalled(w.exchanges[e].phase)
    requires e in Apply(w, s).exchanges && Apply(w, s).afWait == Some(e)
    requires w.afWait == Some(e) ==> NoneOutstanding(w, said, e)
    ensures NoneOutstanding(Apply(w, s), Said(said, s), e)
  {
    var v := Apply(w, s);
    KeepsRequest(w, s, e);
    forall y | y in v.exchanges ensures !Outstanding(v, Said(said, s), e, y) {
      if Outstanding(v, Said(said, s), e, y) {
        assert y in w.exchanges && WasInstalled(w.exchanges[y].phase);
        KeepsRequest(w, s, y);
        assert Outstanding(w, said, e, y);
      }
    }
  }

  lemma TruthIsMine(w: World, said: set<nat>, e: nat, m: Message)
    requires e in w.exchanges && NoneOutstanding(w, said, e) && Truthful(w, said, m) && Answers(w.exchanges[e].req, m)
    ensures IsReply(w, e, m)
  {
    if m.reply.Some? { assert !Outstanding(w, said, e, m.reply.value); }
  }

  lemma MineStep(w: World, said: set<nat>, s: Step, e: nat)
    requires Inv(w) && Enabled(w, s) && (s.Read? ==> Truthful(w, said, s.msg))
    requires e in w.exchanges && WasInstalled(w.exchanges[e].phase) && Mine(w, e)
    requires w.afWait == Some(e) ==> NoneOutstanding(w, said, e)
    ensures e in Apply(w, s).exchanges && Mine(Apply(w, s), e)
  {
    var v := Apply(w, s);
    KeepsRequest(w, s, e);
    forall m | Holds(v, e, m) && Answers(v.exchanges[e].req, m) ensures IsReply(v, e, m) {
      HoldsStep(w, s, e, m);
      if !Holds(w, e, m) { TruthIsMine(w, said, e, m); }
    }
  }

  lemma {:induction false} MineOverRun(w: World, said: set<nat>, steps: seq<Step>, v: World, after: set<nat>, e: nat)
    requires Inv(w) && TruthfulRun(w, said, steps, v, after)
    requires e in w.exchanges && WasInstalled(w.exchanges[e].phase) && Mine(w, e)
    requires w.afWait == Some(e) ==> NoneOutstanding(w, said, e)
    ensures OwnReply(v, e)
    decreases |steps|
  {
    if steps == [] {
      if Outcome(v.exchanges[e].phase).Some? { ResultHeld(v, e); }
    } else {
      var next := Apply(w, steps[0]);
      InvStep(w, steps[0]);
      KeepsRequest(w, steps[0], e);
      MineStep(w, said, steps[0], e);
      if next.afWait == Some(e) { NoneOutstandingStep(w, said, steps[0], e); }
      MineOverRun(next, Said(said, steps[0]), steps[1..], v, after, e);
    }
  }

  /** Every truthful run from here on returns, if anything, the answer to the request of `e`. */
  ghost predicate AlwaysOwnReply(w: World, said: set<nat>, e: nat) {
    forall steps, v, after :: TruthfulRun(w, said, steps, v, after) ==> OwnReply(v, e)
  }

  /**
   Among truthful devices, an exchange is sure to return the answer to its own request exactly when no
   answer to an earlier exchange that asked the same is still outstanding as its slot goes up.
   */
  lemma OwnReplyIff(before: seq<Step>, u: World, said: set<nat>, e: nat)
    requires TruthfulRun(START, {}, before, u, said) && Enabled(u, Install(e))
    ensures var w := Apply(u, Install(e)); AlwaysOwnReply(w, said, e) <==> NoneOutstanding(w, said, e)
  {
    TruthfulReaches(START, {}, before, u, said);
    Installs(before, u, e);
    var w := Apply(u, Install(e));
    if NoneOutstanding(w, said, e) {
      forall steps, v, after | TruthfulRun(w, said, steps, v, after) ensures OwnReply(v, e) {
        MineOverRun(w, said, steps, v, after, e);
      }
    } else {
      var steps, v, after := StrayReply(w, said, e);
    }
  }

  lemma StrayReply(w: World, said: set<nat>, e: nat) returns (steps: seq<Step>, v: World, after: set<nat>)
    requires JustInstalled(w, e) && !NoneOutstanding(w, said, e)
    ensures TruthfulRun(w, said, steps, v, after) && !OwnReply(v, e)
  {
    var y :| y in w.exchanges && Outstanding(w, said, e, y);
    var req := w.exchanges[e].req;
    var m := Message(req.nwk, req.cluster, Some(req.want), w.exchanges[y].transaction, Some(y));
    var c, rest;
    c, rest, v := Swallows(w, e, m);
    steps, after := [Read(c, m)] + rest, said + {y};
    QuietTruth(Apply(w, Read(c, m)), after, rest, v);
    assert steps[1..] == rest;
  }

  // ---------------------------------------------------------------- what a caller can see

  /** Every exchange that asked the same as `x` before it has returned an answer. */
  ghost predicate InTurn(w: World, x: nat)
    requires x in w.exchanges
  {
    forall y :: Asked(w, x, y) && w.exchanges[y].installedAt < w.exchanges[x].installedAt ==>
                  Outcome(w.exchanges[y].phase).Some?
  }

  /** The slot is that of the exchange installed last. */
  predicate Latest(w: World) {
    w.afWait.Some? && w.afWait.value in w.exchanges ==>
      forall y :: y in w.exchanges && WasInstalled(w.exchanges[y].phase) && y != w.afWait.value ==>
                    w.exchanges[y].installedAt < w.exchanges[w.afWait.value].installedAt
  }

  ghost predicate Logged(w: World, said: set<nat>) {
    forall x, m :: Holds(w, x, m) && m.reply.Some? ==> m.reply.value in said
  }

  ghost predicate Tidy(w: World) {
    forall x :: x in w.exchanges && WasInstalled(w.exchanges[x].phase) && InTurn(w, x) ==> Mine(w, x)
  }

  lemma LatestStep(w: World, s: Step)
    requires Inv(w) && Enabled(w, s) && Latest(w)
    ensures Latest(Apply(w, s))
  {
    var v := Apply(w, s);
    if v.afWait.Some? && v.afWait.value in v.exchanges {
      var e := v.afWait.value;
      forall y | y in v.exchanges && WasInstalled(v.exchanges[y].phase) && y != e
        ensures v.exchanges[y].installedAt < v.exchanges[e].installedAt
      {
        assert y in w.exchanges && WasInstalled(w.exchanges[y].phase);
        KeepsRequest(w, s, y);
        if !s.Install? { KeepsRequest(w, s, e); }
      }
    }
  }

  lemma LoggedStep(w: World, said: set<nat>, s: Step)
    requires Inv(w) && Enabled(w, s) && Logged(w, said)
    ensures Logged(Apply(w, s), Said(said, s))
  {
    var v := Apply(w, s);
    forall x, m | Holds(v, x, m) && m.reply.Some? ensures m.reply.value in Said(said, s) {
      HoldsStep(w, s, x, m);
    }
  }

  /** Whether an installed exchange came in turn was settled when it was installed. */
  lemma InTurnBefore(w: World, s: Step, x: nat)
    requires Inv(w) && Enabled(w, s) && Latest(w)
    requires x in w.exchanges && WasInstalled(w.exchanges[x].phase)
    requires x in Apply(w, s).exchanges && InTurn(Apply(w, s), x)
    ensures InTurn(w, x)
  {
    var v := Apply(w, s);
    KeepsRequest(w, s, x);
    forall y | Asked(w, x, y) && w.exchanges[y].installedAt < w.exchanges[x].installedAt
      ensures Outcome(w.exchanges[y].phase).Some?
    {
      KeepsRequest(w, s, y);
      assert Asked(v, x, y);
    }
  }

  lemma AnsweredIsSaid(w: World, said: set<nat>, y: nat)
    requires Inv(w) && Logged(w, said) && Tidy(w) && y in w.exchanges && WasInstalled(w.exchanges[y].phase)
    requires InTurn(w, y) && Outcome(w.exchanges[y].phase).Some?
    ensures y in said
  {
    ResultHeld(w, y);
    assert Mine(w, y);
  }

  /** While exchanges answer in turn, none of their answers is outstanding. */
  lemma InTurnNoneOutstanding(w: World, said: set<nat>, e: nat)
    requires Inv(w) && Latest(w) && Logged(w, said) && Tidy(w) && e in w.exchanges && InTurn(w, e)
    requires w.afWait == Some(e)
    ensures NoneOutstanding(w, said, e)
  {
    forall y | Asked(w, e, y) && y != e ensures y in said {
      assert forall z :: Asked(w, y, z) ==> Asked(w, e, z);
      AnsweredIsSaid(w, said, y);
    }
  }

  lemma TidyStep(w: World, said: set<nat>, s: Step)
    requires Inv(w) && Enabled(w, s) && (s.Read? ==> Truthful(w, said, s.msg))
    requires Latest(w) && Logged(w, said) && Tidy(w)
    ensures Tidy(Apply(w, s))
  {
    var v := Apply(w, s);
    forall x | x in v.exchanges && WasInstalled(v.exchanges[x].phase) && InTurn(v, x) ensures Mine(v, x) {
      if s.Install? && s.e == x {
        forall m ensures !Holds(v, x, m) { NothingHeld(w, x, m); }
      } else {
        InTurnBefore(w, s, x);
        if w.afWait == Some(x) { InTurnNoneOutstanding(w, said, x); }
        MineStep(w, said, s, x);
      }
    }
  }

  lemma {:induction false} TidyOverRun(w: World, said: set<nat>, steps: seq<Step>, v: World, after: set<nat>)
    requires Inv(w) && Latest(w) && Logged(w, said) && Tidy(w) && TruthfulRun(w, said, steps, v, after)
    ensures Inv(v) && Latest(v) && Logged(v, after) && Tidy(v)
    decreases |steps|
  {
    if steps != [] {
      var s := steps[0];
      InvStep(w, s);
      LatestStep(w, s);
      LoggedStep(w, said, s);
      TidyStep(w, said, s);
      TidyOverRun(Apply(w, s), Said(said, s), steps[1..], v, after);
    }
  }

  /**
   What a caller can check: if every exchange so far that asked the same has returned an answer, this one
   returns the answer to its own request, with its own number, or none.
   */
  lemma AnsweredInTurn(before: seq<Step>, u: World, said: set<nat>, e: nat)
    requires TruthfulRun(START, {}, before, u, said) && Enabled(u, Install(e))
    requires forall y :: Asked(u, e, y) ==> Outcome(u.exchanges[y].phase).Some?
    ensures AlwaysOwnReply(Apply(u, Install(e)), said, e)
  {
    TidyOverRun(START, {}, before, u, said);
    LatestStep(u, Install(e));
    LoggedStep(u, said, Install(e));
    TidyStep(u, said, Install(e));
    InvStep(u, Install(e));
    InTurnNoneOutstanding(Apply(u, Install(e)), said, e);
    OwnReplyIff(before, u, said, e);
  }

  lemma {:induction false} KeepsRequestOverRun(w: World, said: set<nat>, steps: seq<Step>, v: World,
                                               after: set<nat>, x: nat)
    requires TruthfulRun(w, said, steps, v, after) && x in w.exchanges && WasInstalled(w.exchanges[x].phase)
    ensures x in v.exchanges && v.exchanges[x].req == w.exchanges[x].req
    ensures v.exchanges[x].installedAt == w.exchanges[x].installedAt
    decreases |steps|
  {
    if steps != [] {
      KeepsRequest(w, steps[0], x);
      KeepsRequestOverRun(Apply(w, steps[0]), Said(said, steps[0]), steps[1..], v, after, x);
    }
  }

  /**
   So what such an answer says of the device is recent: if the device deals with each request after it was
   sent, it dealt with the one answered after this exchange went on the air. `handled` are those times.
   */
  lemma AnswerIsRecent(before: seq<Step>, u: World, said: set<nat>, e: nat,
                       steps: seq<Step>, v: World, after: set<nat>, handled: map<nat, nat>)
    requires TruthfulRun(START, {}, before, u, said) && Enabled(u, Install(e))
    requires forall y :: Asked(u, e, y) ==> Outcome(u.exchanges[y].phase).Some?
    requires TruthfulRun(Apply(u, Install(e)), said, steps, v, after)
    requires forall x :: x in v.exchanges && WasInstalled(v.exchanges[x].phase) ==>
                           x in handled && v.exchanges[x].installedAt <= handled[x]
    ensures e in v.exchanges
    ensures Outcome(v.exchanges[e].phase).Some? ==>
              var y := Outcome(v.exchanges[e].phase).value.msg.reply;
              y.Some? && y.value in handled && u.clock < handled[y.value]
  {
    AnsweredInTurn(before, u, said, e);
    assert OwnReply(v, e);
    KeepsRequestOverRun(Apply(u, Install(e)), said, steps, v, after, e);
  }

  // ---------------------------------------------------------------- a late answer

  /**
   The sequence number is not part of the match: a late answer to an earlier exchange is returned by
   a later one that asks the same device, cluster and command.
   */
  lemma LateAnswerAccepted() returns (steps: seq<Step>, w: World)
    ensures Reaches(START, steps, w)
    ensures 1 in w.exchanges && w.exchanges[1].phase.Done? && w.exchanges[1].phase.result.Some?
    ensures w.exchanges[1].phase.result.value.msg.transaction != w.exchanges[1].transaction
    ensures 0 in w.exchanges && w.exchanges[1].phase.result.value.msg.transaction == w.exchanges[0].transaction
  {
    steps, w := AbandonedExchange();
    steps, w := Extend(steps, w, Begin(1, Request(7, 6, 1)));
    steps, w := Extend(steps, w, Lock(1));
    steps, w := Extend(steps, w, Install(1));
    assert w.exchanges[1] == Exch(Request(7, 6, 1), Installed, [], 9, 2);
    steps, w := AnsweredBy(steps, w, 1, Message(7, 6, Some(1), 1, Some(0)));
  }

  /** An exchange that gives up before its answer arrives. */
  lemma AbandonedExchange() returns (steps: seq<Step>, w: World)
    ensures Reaches(START, steps, w)
    ensures w == World(None, None, 1, map[0 := Exch(Request(7, 6, 1), Done(None), [], 3, 1)], map[], 6, [1])
  {
    steps, w := [], START;
    steps, w := Extend(steps, w, Begin(0, Request(7, 6, 1)));
    steps, w := Extend(steps, w, Lock(0));
    steps, w := Extend(steps, w, Install(0));
    steps, w := Extend(steps, w, Fail(0));
    steps, w := Extend(steps, w, Uninstall(0));
    steps, w := Extend(steps, w, Unlock(0));
  }

  /** Any matching message read while the slot is up can become the answer. */
  lemma AnsweredBy(before: seq<Step>, u: World, e: nat, m: Message) returns (steps: seq<Step>, w: World)
    requires Reaches(START, before, u) && e in u.exchanges
    requires u.exchanges[e].phase.Installed? && u.exchanges[e].inbox == []
    requires u.afWait == Some(e) && Answers(u.exchanges[e].req, m)
    ensures Reaches(START, steps, w) && e in w.exchanges
    ensures w.exchanges[e].phase == Done(Some(Delivery(m, u.clock + 1)))
    ensures w.exchanges[e].transaction == u.exchanges[e].transaction
    ensures forall k :: k in u.exchanges && k != e ==> k in w.exchanges && w.exchanges[k] == u.exchanges[k]
  {
    InvKept(START, before, u);
    var c, rest;
    c, rest, w := Swallows(u, e, m);
    steps := before + ([Read(c, m)] + rest);
    Concat(START, before, u, [Read(c, m)] + rest, w);
    steps, w := Extend(steps, w, Uninstall(e));
    steps, w := Extend(steps, w, Unlock(e));
  }
}
