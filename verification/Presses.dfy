/**
 The shared map of press watches: startPress, finishPress, cancelPress and the callbacks they arm,
 updating the map and the watches in place. Watches are compared by identity, as the callbacks do.
 */
module Presses {
  import opened Common
  import G = Gesture

  class PressWatch {
    var held: bool
    const up: bool
    ghost const ieee: string
    ghost const armedAt: nat

    constructor (up: bool, ghost ieee: string, ghost armedAt: nat)
      ensures !this.held && this.up == up && this.ieee == ieee && this.armedAt == armedAt
    {
      this.held := false;
      this.up := up;
      this.ieee := ieee;
      this.armedAt := armedAt;
    }
  }

  /** Of each button, what happened to it so far. */
  ghost function Of<T>(all: map<string, seq<T>>, ieee: string): seq<T> {
    if ieee in all then all[ieee] else []
  }

  ghost function Extend<T>(all: map<string, seq<T>>, ieee: string, x: T): map<string, seq<T>> {
    all[ieee := Of(all, ieee) + [x]]
  }

  /** Every critical section so far, per button. */
  type Histories = map<string, seq<G.Event>>

  /** Beside every section, the watch it armed, or null. */
  type Armed = map<string, seq<PressWatch?>>

  type Watches = map<string, G.Watch>

  function At(watches: Watches, ieee: string): Option<G.Watch> {
    if ieee in watches then Some(watches[ieee]) else None
  }

  function Updated(watches: Watches, ieee: string, w: Option<G.Watch>): Watches {
    if w.None? then watches - {ieee} else watches[ieee := w.value]
  }

  /** A watch armed by a section stands for it. */
  ghost predicate StandsFor(w: PressWatch?, ieee: string, now: nat, e: G.Event) {
    w != null ==> w.ieee == ieee && w.armedAt == now && e == if w.up then G.Up else G.Down
  }

  /**
   The button's watch is the one its history calls for, no callback has run twice, and every watch stands for
   the section that armed it.
   */
  ghost predicate ButtonOk(watches: Watches, history: Histories, armed: Armed, k: string) {
    var es, ws := Of(history, k), Of(armed, k);
    && At(watches, k) == G.Run(es).cur && G.OneShot(es)
    && |ws| == |es| && forall i :: 0 <= i < |es| ==> StandsFor(ws[i], k, i, es[i])
  }

  ghost predicate HistoryOk(watches: Watches, history: Histories, armed: Armed) {
    forall k :: ButtonOk(watches, history, armed, k)
  }

  /** The watches after the button takes event `e`. */
  ghost function After(watches: Watches, history: Histories, ieee: string, e: G.Event): Watches {
    Updated(watches, ieee, G.Next(At(watches, ieee), |Of(history, ieee)|, e))
  }

  function Action(d: Option<G.Decision>): Option<string> {
    if d.Some? then Some(d.value.action) else None
  }

  /** What the event decides for the button, as the call of noteAction made after the unlock. */
  ghost function Decides(history: Histories, ieee: string, e: G.Event): Option<string> {
    Action(G.Decide(G.Run(Of(history, ieee)).cur, |Of(history, ieee)|, e))
  }

  lemma HistoryStep(watches: Watches, history: Histories, armed: Armed, ieee: string, e: G.Event, n: PressWatch?)
    requires HistoryOk(watches, history, armed) && (e.Fire? ==> e !in Of(history, ieee))
    requires StandsFor(n, ieee, |Of(history, ieee)|, e)
    ensures HistoryOk(After(watches, history, ieee, e), Extend(history, ieee, e), Extend(armed, ieee, n))
    ensures Decides(history, ieee, e) == Action(G.Decide(At(watches, ieee), |Of(history, ieee)|, e))
    ensures |Of(armed, ieee)| == |Of(history, ieee)|
  {
    var after, longer, more := After(watches, history, ieee, e), Extend(history, ieee, e), Extend(armed, ieee, n);
    assert ButtonOk(watches, history, armed, ieee);
    ButtonStep(watches, history, armed, ieee, e, n);
    forall k | k != ieee ensures ButtonOk(after, longer, more, k) {
      assert ButtonOk(watches, history, armed, k);
    }
  }

  lemma ButtonStep(watches: Watches, history: Histories, armed: Armed, ieee: string, e: G.Event, n: PressWatch?)
    requires ButtonOk(watches, history, armed, ieee) && (e.Fire? ==> e !in Of(history, ieee))
    requires StandsFor(n, ieee, |Of(history, ieee)|, e)
    ensures ButtonOk(After(watches, history, ieee, e), Extend(history, ieee, e), Extend(armed, ieee, n), ieee)
  {
    var es, ws := Of(history, ieee), Of(armed, ieee);
    G.RunAppend(es, e);
    G.OneShotAppend(es, e);
    forall i | 0 <= i < |es| + 1 ensures StandsFor((ws + [n])[i], ieee, i, (es + [e])[i]) {
      if i < |es| { assert StandsFor(ws[i], ieee, i, es[i]); }
    }
  }

  lemma DownStep(watches: Watches, history: Histories, armed: Armed, ieee: string, n: PressWatch)
    requires HistoryOk(watches, history, armed) && StandsFor(n, ieee, |Of(history, ieee)|, G.Down)
    ensures HistoryOk(watches[ieee := G.Watch(|Of(history, ieee)|, false, false)],
                      Extend(history, ieee, G.Down), Extend(armed, ieee, n))
    ensures Decides(history, ieee, G.Down) ==
            if ieee in watches && watches[ieee].up && !watches[ieee].held then Some("single") else None
    ensures |Of(armed, ieee)| == |Of(history, ieee)|
  {
    HistoryStep(watches, history, armed, ieee, G.Down, n);
  }

  /** An up without a watch, or after a hold. */
  lemma UpEnds(watches: Watches, history: Histories, armed: Armed, ieee: string)
    requires HistoryOk(watches, history, armed) && (ieee !in watches || watches[ieee].held)
    ensures HistoryOk(watches - {ieee}, Extend(history, ieee, G.Up), Extend(armed, ieee, null))
    ensures Decides(history, ieee, G.Up) == if ieee in watches then Some("release") else None
    ensures |Of(armed, ieee)| == |Of(history, ieee)|
  {
    HistoryStep(watches, history, armed, ieee, G.Up, null);
  }

  /** An up that ends a short press. */
  lemma UpArms(watches: Watches, history: Histories, armed: Armed, ieee: string, n: PressWatch)
    requires HistoryOk(watches, history, armed) && ieee in watches && !watches[ieee].held
    requires StandsFor(n, ieee, |Of(history, ieee)|, G.Up)
    ensures HistoryOk(watches[ieee := G.Watch(|Of(history, ieee)|, false, true)],
                      Extend(history, ieee, G.Up), Extend(armed, ieee, n))
    ensures Decides(history, ieee, G.Up) == None
    ensures |Of(armed, ieee)| == |Of(history, ieee)|
  {
    HistoryStep(watches, history, armed, ieee, G.Up, n);
  }

  lemma CancelStep(watches: Watches, history: Histories, armed: Armed, ieee: string, action: string)
    requires HistoryOk(watches, history, armed)
    ensures HistoryOk(watches - {ieee}, Extend(history, ieee, G.Cancel(action)), Extend(armed, ieee, null))
    ensures |Of(armed, ieee)| == |Of(history, ieee)|
  {
    HistoryStep(watches, history, armed, ieee, G.Cancel(action), null);
  }

  predicate Live(watches: Watches, ieee: string, t: nat) { ieee in watches && watches[ieee].id == t }

  lemma StaleFire(watches: Watches, history: Histories, armed: Armed, ieee: string, t: nat)
    requires HistoryOk(watches, history, armed) && G.Fire(t) !in Of(history, ieee) && !Live(watches, ieee, t)
    ensures HistoryOk(watches, Extend(history, ieee, G.Fire(t)), Extend(armed, ieee, null))
    ensures Decides(history, ieee, G.Fire(t)) == None
    ensures |Of(armed, ieee)| == |Of(history, ieee)|
  {
    HistoryStep(watches, history, armed, ieee, G.Fire(t), null);
    assert if ieee in watches then watches[ieee := watches[ieee]] == watches else watches - {ieee} == watches;
  }

  lemma LiveFire(watches: Watches, history: Histories, armed: Armed, ieee: string, t: nat)
    requires HistoryOk(watches, history, armed) && G.Fire(t) !in Of(history, ieee) && Live(watches, ieee, t)
    ensures HistoryOk(if watches[ieee].up then watches - {ieee} else watches[ieee := watches[ieee].(held := true)],
                      Extend(history, ieee, G.Fire(t)), Extend(armed, ieee, null))
    ensures Decides(history, ieee, G.Fire(t)) == Some(if watches[ieee].up then "single" else "hold")
    ensures |Of(armed, ieee)| == |Of(history, ieee)|
  {
    HistoryStep(watches, history, armed, ieee, G.Fire(t), null);
  }

  class PressMap {
    var presses: map<string, PressWatch>
    ghost var watches: Watches
    ghost var history: Histories
    ghost var armed: Armed

    /** The watch was armed for the button. */
    ghost predicate IsArmed(k: string, n: PressWatch)
      reads this`armed
    {
      n.ieee == k && n.armedAt < |Of(armed, k)| && Of(armed, k)[n.armedAt] == n
    }

    /** The map holds the watches in `watches`, each armed for its button. */
    ghost predicate Mirrors()
      reads this`presses, this`watches, this`armed, presses.Values
    {
      && presses.Keys == watches.Keys
      && forall k :: k in presses ==>
           IsArmed(k, presses[k]) && watches[k] == G.Watch(presses[k].armedAt, presses[k].held, presses[k].up)
    }

    ghost predicate Valid()
      reads this, presses.Values
    {
      HistoryOk(watches, history, armed) && Mirrors()
    }

    constructor ()
      ensures Valid() && history == map[]
    {
      presses := map[];
      watches := map[];
      history := map[];
      armed := map[];
    }

    /** The button takes event `e`, which arms `n` if there is one, and is left with the watches `after`. */
    ghost method Record(ieee: string, e: G.Event, n: PressWatch?, after: Watches)
      requires |Of(armed, ieee)| == |Of(history, ieee)| && StandsFor(n, ieee, |Of(history, ieee)|, e)
      modifies this`watches, this`history, this`armed
      ensures watches == after && history == Extend(old(history), ieee, e) && armed == Extend(old(armed), ieee, n)
      ensures forall k :: k in presses && old(IsArmed(k, presses[k])) ==> IsArmed(k, presses[k])
      ensures n != null ==> IsArmed(ieee, n)
    {
      watches := after;
      history := Extend(history, ieee, e);
      armed := Extend(armed, ieee, n);
    }

    /** startPress: returns the action to note after the unlock. */
    method StartPress(ieee: string) returns (note: Option<string>)
      requires Valid()
      modifies this
      ensures Valid() && history == Extend(old(history), ieee, G.Down)
      ensures note == Decides(old(history), ieee, G.Down)
      ensures ieee in presses && fresh(presses[ieee]) && armed == Extend(old(armed), ieee, presses[ieee])
    {
      var flushSingle := ieee in presses && presses[ieee].up && !presses[ieee].held;
      note := if flushSingle then Some("single") else None;
      var n := new PressWatch(false, ieee, |Of(history, ieee)|);
      DownStep(watches, history, armed, ieee, n);
      Record(ieee, G.Down, n, watches[ieee := G.Watch(n.armedAt, false, false)]);
      presses := presses[ieee := n];
    }

    /** finishPress: a release after a hold, or the start of the multi-click wait. */
    method FinishPress(ieee: string) returns (note: Option<string>)
      requires Valid()
      modifies this
      ensures Valid() && history == Extend(old(history), ieee, G.Up)
      ensures note == Decides(old(history), ieee, G.Up)
      ensures ieee in presses ==> fresh(presses[ieee])
      ensures armed == Extend(old(armed), ieee, if ieee in presses then presses[ieee] else null)
    {
      if ieee in presses && !presses[ieee].held {
        var n := new PressWatch(true, ieee, |Of(history, ieee)|);
        UpArms(watches, history, armed, ieee, n);
        Record(ieee, G.Up, n, watches[ieee := G.Watch(n.armedAt, false, true)]);
        presses := presses[ieee := n];
        return None;
      }
      UpEnds(watches, history, armed, ieee);
      note := if ieee in presses then Some("release") else None;
      Record(ieee, G.Up, null, watches - {ieee});
      presses := presses - {ieee};
    }

    /** cancelPress, called with the action of the frame that cancels, which is noted next. */
    method CancelPress(ieee: string, ghost action: string)
      requires Valid()
      modifies this
      ensures Valid() && history == Extend(old(history), ieee, G.Cancel(action))
      ensures armed == Extend(old(armed), ieee, null) && ieee !in presses
    {
      CancelStep(watches, history, armed, ieee, action);
      Record(ieee, G.Cancel(action), null, watches - {ieee});
      presses := presses - {ieee};
    }

    /** A callback whose watch is not the one in the map changes nothing. */
    ghost method StaleCallback(ieee: string, n: PressWatch)
      requires Valid() && IsArmed(ieee, n) && !(ieee in presses && presses[ieee] == n)
      requires G.Fire(n.armedAt) !in Of(history, ieee)
      modifies this`watches, this`history, this`armed
      ensures Valid() && history == Extend(old(history), ieee, G.Fire(n.armedAt))
      ensures Decides(old(history), ieee, G.Fire(n.armedAt)) == None
      ensures armed == Extend(old(armed), ieee, null)
    {
      StaleFire(watches, history, armed, ieee, n.armedAt);
      Record(ieee, G.Fire(n.armedAt), null, watches);
    }

    /** The callback armed by startPress, which may run at any time but only once. */
    method HoldCallback(ieee: string, n: PressWatch) returns (note: Option<string>)
      requires Valid() && IsArmed(ieee, n) && !n.up
      requires G.Fire(n.armedAt) !in Of(history, ieee)
      modifies this, n
      ensures Valid() && history == Extend(old(history), ieee, G.Fire(n.armedAt))
      ensures note == Decides(old(history), ieee, G.Fire(n.armedAt))
      ensures armed == Extend(old(armed), ieee, null) && presses == old(presses)
    {
      if !(ieee in presses && presses[ieee] == n) {
        StaleCallback(ieee, n);
        return None;
      }
      LiveFire(watches, history, armed, ieee, n.armedAt);
      Record(ieee, G.Fire(n.armedAt), null, watches[ieee := watches[ieee].(held := true)]);
      n.held := true;
      return Some("hold");
    }

    /** The callback armed by finishPress, which may run at any time but only once. */
    method SingleCallback(ieee: string, n: PressWatch) returns (note: Option<string>)
      requires Valid() && IsArmed(ieee, n) && n.up
      requires G.Fire(n.armedAt) !in Of(history, ieee)
      modifies this
      ensures Valid() && history == Extend(old(history), ieee, G.Fire(n.armedAt))
      ensures note == Decides(old(history), ieee, G.Fire(n.armedAt))
      ensures armed == Extend(old(armed), ieee, null)
    {
      if !(ieee in presses && presses[ieee] == n) {
        StaleCallback(ieee, n);
        return None;
      }
      LiveFire(watches, history, armed, ieee, n.armedAt);
      Record(ieee, G.Fire(n.armedAt), null, watches - {ieee});
      presses := presses - {ieee};
      return Some("single");
    }
  }
}
