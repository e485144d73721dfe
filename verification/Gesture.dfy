/**
 The button gesture recogniser (startPress, finishPress, cancelPress and the two timer callbacks),
 as a function of the order in which its critical sections under `pressMu` run.

 Everything here is about one button; Presses.dfy ties the shared map of all buttons to it.
 A watch is identified by the position, in that button's history, of the event that armed it. A
 callback that was armed may run at any later time, whether or not its timer was stopped.
 */
module Gesture {
  import opened Common

  /** `Cancel(a)` is a multi-click or command frame, which drops the watch and reports `a` at once. */
  datatype Event = Down | Up | Cancel(action: string) | Fire(watch: nat)

  datatype Watch = Watch(id: nat, held: bool, up: bool)

  /** An action handed to noteAction; `origin` is the watch, or the cancelling frame, that decided it. */
  datatype Decision = Decision(action: string, origin: nat, direct: bool)

  datatype State = State(cur: Option<Watch>, log: seq<Decision>)

  /** The watch in the map after event `e` at position `now`. */
  function Next(cur: Option<Watch>, now: nat, e: Event): Option<Watch> {
    match e
    case Down => Some(Watch(now, false, false))
    case Up =>
      if cur.None? || cur.value.held then None else Some(Watch(now, false, true))
    case Cancel(_) => None
    case Fire(t) =>
      if cur.None? || cur.value.id != t then cur
      else if cur.value.up then None
      else Some(cur.value.(held := true))
  }

  /** The action decided inside the critical section of event `e`, if any. */
  function Decide(cur: Option<Watch>, now: nat, e: Event): Option<Decision> {
    match e
    case Down =>
      if cur.Some? && cur.value.up && !cur.value.held then Some(Decision("single", cur.value.id, false)) else None
    case Up =>
      if cur.Some? && cur.value.held then Some(Decision("release", cur.value.id, false)) else None
    case Cancel(a) => Some(Decision(a, now, true))
    case Fire(t) =>
      if cur.None? || cur.value.id != t then None
      else Some(Decision(if cur.value.up then "single" else "hold", t, false))
  }

  function Append(log: seq<Decision>, d: Option<Decision>): seq<Decision> {
    if d.Some? then log + [d.value] else log
  }

  function Run(es: seq<Event>): State {
    if es == [] then State(None, [])
    else
      var n := |es| - 1;
      var s := Run(es[..n]);
      State(Next(s.cur, n, es[n]), Append(s.log, Decide(s.cur, n, es[n])))
  }

  lemma RunAppend(es: seq<Event>, e: Event)
    ensures var s := Run(es);
            Run(es + [e]) == State(Next(s.cur, |es|, e), Append(s.log, Decide(s.cur, |es|, e)))
  {
    assert (es + [e])[..|es|] == es;
  }

  // ---------------------------------------------------------------- what the history alone says

  /** The position of the last press input (anything but a timer callback) before `n`, or -1. */
  function LastInput(es: seq<Event>, n: nat): (t: int)
    requires n <= |es|
    ensures -1 <= t < n
    ensures t >= 0 ==> !es[t].Fire?
    ensures forall i :: t < i < n ==> es[i].Fire?
  {
    if n == 0 then -1 else if !es[n - 1].Fire? then n - 1 else LastInput(es, n - 1)
  }

  /** The position of the first press input after `t`, or the length of the history. */
  function NextInput(es: seq<Event>, t: nat): (n: nat)
    requires t < |es|
    ensures t < n <= |es|
    ensures n < |es| ==> !es[n].Fire?
    ensures forall i :: t < i < n ==> es[i].Fire?
    decreases |es| - t
  {
    if t + 1 == |es| || !es[t + 1].Fire? then t + 1 else NextInput(es, t + 1)
  }

  /** The callback of watch `t` ran after `t` and before position `n`. */
  ghost predicate Fired(es: seq<Event>, t: nat, n: nat)
    requires n <= |es|
  {
    exists f :: t < f < n && es[f] == Fire(t)
  }

  /** time.AfterFunc runs its callback at most once. */
  ghost predicate OneShot(es: seq<Event>) {
    forall f, g :: 0 <= f < g < |es| && es[f].Fire? ==> es[g] != es[f]
  }

  lemma OneShotAppend(es: seq<Event>, e: Event)
    requires OneShot(es) && (e.Fire? ==> e !in es)
    ensures OneShot(es + [e])
  {
  }

  /** The up report at `t` ended a short press, so it armed the multi-click wait. */
  ghost predicate Armed(es: seq<Event>, t: nat)
    requires t < |es|
  {
    es[t].Up? &&
    var p := LastInput(es, t);
    p >= 0 && !Fired(es, p, t) && (es[p].Down? || Armed(es, p))
  }

  /** The watch the map must hold, read off the history without running the recogniser. */
  ghost function Current(es: seq<Event>): Option<Watch> {
    var t := LastInput(es, |es|);
    if t < 0 then None
    else if es[t].Down? then Some(Watch(t, Fired(es, t, |es|), false))
    else if es[t].Up? && Armed(es, t) && !Fired(es, t, |es|) then Some(Watch(t, false, true))
    else None
  }

  lemma {:induction false} ArmedPrefix(es: seq<Event>, k: nat, t: nat)
    requires t < k <= |es|
    ensures LastInput(es[..k], t) == LastInput(es, t)
    ensures Armed(es[..k], t) == Armed(es, t)
  {
    LastInputPrefix(es, k, t);
    var p := LastInput(es, t);
    if p >= 0 {
      FiredPrefix(es, k, p, t);
      ArmedPrefix(es, k, p);
    }
  }

  lemma {:induction false} LastInputPrefix(es: seq<Event>, k: nat, n: nat)
    requires n <= k <= |es|
    ensures LastInput(es[..k], n) == LastInput(es, n)
  {
    if n > 0 && es[n - 1].Fire? { LastInputPrefix(es, k, n - 1); }
  }

  lemma FiredPrefix(es: seq<Event>, k: nat, t: nat, n: nat)
    requires n <= k <= |es|
    ensures Fired(es[..k], t, n) == Fired(es, t, n)
  {
    if Fired(es, t, n) {
      var f :| t < f < n && es[f] == Fire(t);
      assert es[..k][f] == Fire(t);
    }
    if Fired(es[..k], t, n) {
      var f :| t < f < n && es[..k][f] == Fire(t);
      assert es[f] == Fire(t);
    }
  }

  lemma FiredGrows(es: seq<Event>, t: nat, n: nat)
    requires n < |es|
    ensures Fired(es, t, n + 1) <==> Fired(es, t, n) || (t < n && es[n] == Fire(t))
  {
    if Fired(es, t, n) {
      var f :| t < f < n && es[f] == Fire(t);
      assert t < f < n + 1;
    }
  }

  /**
   For every order of presses, releases, cancellations and callbacks, the map holds exactly the
   watch that the history calls for.
   */
  lemma {:induction false} StateIsHistory(es: seq<Event>)
    ensures Run(es).cur == Current(es)
  {
    if es != [] {
      var n := |es| - 1;
      StateIsHistory(es[..n]);
      LastInputPrefix(es, n, n);
      var t := LastInput(es, n);
      if t >= 0 {
        ArmedPrefix(es, n, t);
        FiredPrefix(es, n, t, n);
        if es[n].Fire? { StateAfterFire(es, t); } else { StateAfterInput(es); }
      }
    }
  }

  lemma StateAfterInput(es: seq<Event>)
    requires es != [] && !es[|es| - 1].Fire?
    requires var n := |es| - 1; var t := LastInput(es, n);
             && t >= 0 && LastInput(es[..n], n) == t
             && Armed(es[..n], t) == Armed(es, t) && Fired(es[..n], t, n) == Fired(es, t, n)
    ensures Next(Current(es[..|es| - 1]), |es| - 1, es[|es| - 1]) == Current(es)
  {
    var n := |es| - 1;
    assert LastInput(es, n + 1) == n;
    assert !Fired(es, n, n + 1);
  }

  lemma StateAfterFire(es: seq<Event>, t: nat)
    requires es != [] && es[|es| - 1].Fire? && t == LastInput(es, |es| - 1)
    requires var n := |es| - 1;
             && LastInput(es[..n], n) == t
             && Armed(es[..n], t) == Armed(es, t) && Fired(es[..n], t, n) == Fired(es, t, n)
    ensures Next(Current(es[..|es| - 1]), |es| - 1, es[|es| - 1]) == Current(es)
  {
    FiredGrows(es, t, |es| - 1);
  }

  /**
   A callback whose watch was replaced or cancelled by any later input decides nothing and leaves
   the map alone; in particular no timer armed before a cancellation can act after it.
   */
  lemma StaleCallback(es: seq<Event>, t: nat, i: nat)
    requires t < i < |es| && !es[i].Fire?
    ensures Decide(Run(es).cur, |es|, Fire(t)) == None
    ensures Next(Run(es).cur, |es|, Fire(t)) == Run(es).cur
  {
    StateIsHistory(es);
  }

  // ---------------------------------------------------------------- exactly once

  /** The actions decided on behalf of watch (or cancelling frame) `t`, in order. */
  function ActionsOf(log: seq<Decision>, t: nat): seq<string> {
    if log == [] then []
    else
      var d := log[|log| - 1];
      ActionsOf(log[..|log| - 1], t) + if d.origin == t then [d.action] else []
  }

  /**
   What event `t` must lead to, given all that has happened since: a press is held once its callback
   ran before the next input, and released if that input is an up; a short press is a single
   once its wait ran out or the next input is another down; anything else ends it silently.
   */
  ghost function Verdict(es: seq<Event>, t: nat): seq<string>
    requires t < |es|
  {
    var nx := NextInput(es, t);
    match es[t]
    case Down =>
      if !Fired(es, t, nx) then []
      else if nx < |es| && es[nx].Up? then ["hold", "release"] else ["hold"]
    case Up =>
      if Armed(es, t) && (Fired(es, t, nx) || (nx < |es| && es[nx].Down?)) then ["single"] else []
    case Cancel(a) => [a]
    case Fire(_) => []
  }

  lemma {:induction false} NextInputGrows(es: seq<Event>, t: nat)
    requires t + 1 < |es|
    ensures var n := |es| - 1; var pre := NextInput(es[..n], t);
            NextInput(es, t) == if pre == n && es[n].Fire? then n + 1 else pre
    decreases |es| - t
  {
    if t + 2 < |es| && es[t + 1].Fire? { NextInputGrows(es, t + 1); }
  }

  /** What a decision adds to the actions of watch `t`. */
  function Of(d: Option<Decision>, t: nat): seq<string> {
    if d.Some? && d.value.origin == t then [d.value.action] else []
  }

  lemma ActionsOfAppend(log: seq<Decision>, d: Option<Decision>, t: nat)
    ensures ActionsOf(Append(log, d), t) == ActionsOf(log, t) + Of(d, t)
  {
    if d.Some? {
      assert (log + [d.value])[..|log|] == log;
    }
  }

  /** What the newest event decides, from the history before it. */
  ghost function Newest(es: seq<Event>): Option<Decision>
    requires es != []
  {
    Decide(Current(es[..|es| - 1]), |es| - 1, es[|es| - 1])
  }

  lemma RunStep(es: seq<Event>)
    requires es != []
    ensures Run(es).log == Append(Run(es[..|es| - 1]).log, Newest(es))
  {
    StateIsHistory(es[..|es| - 1]);
  }

  /** Only the watch of the last input, or the event itself, can decide anything. */
  lemma NewestOrigin(es: seq<Event>)
    requires es != []
    ensures var n := |es| - 1; Newest(es).Some? ==>
              Newest(es).value.origin == if es[n].Cancel? then n else LastInput(es[..n], n)
  {
  }

  /** Nothing is ever decided on behalf of an event that has not happened yet. */
  lemma {:induction false} OriginsArePast(es: seq<Event>, t: nat)
    requires t >= |es|
    ensures ActionsOf(Run(es).log, t) == []
  {
    if es != [] {
      var n := |es| - 1;
      OriginsArePast(es[..n], t);
      RunStep(es);
      NewestOrigin(es);
      ActionsOfAppend(Run(es[..n]).log, Newest(es), t);
    }
  }

  /**
   Exactly once under races. For arbitrary input and any order of callbacks, each watch decides the
   actions its history calls for, in order, and no others: one `single` at most for each short press,
   whether its own timer or the flush of the next press got there first.
   */
  lemma {:induction false} LogByWatch(es: seq<Event>, t: nat)
    requires OneShot(es) && t < |es|
    ensures ActionsOf(Run(es).log, t) == Verdict(es, t)
  {
    var n := |es| - 1;
    var pre := es[..n];
    RunStep(es);
    ActionsOfAppend(Run(pre).log, Newest(es), t);
    if t == n {
      OriginsArePast(pre, n);
      FreshVerdict(es);
    } else {
      LogByWatch(pre, t);
      if es[t].Fire? || NextInput(pre, t) < n {
        SettledVerdict(es, t);
      } else {
        LiveVerdict(es, t);
      }
    }
  }

  /**
   A multi-click report that arrives before the wait of the last short press has run out takes its
   place: that press decides nothing, then or later, and the report's own action is decided once.
   */
  lemma MultiClickReplaces(es: seq<Event>, t: nat)
    requires OneShot(es) && t < |es| && es[t].Up?
    requires var c := NextInput(es, t); c < |es| && es[c].Cancel? && !Fired(es, t, c)
    ensures var c := NextInput(es, t);
            ActionsOf(Run(es).log, t) == [] && ActionsOf(Run(es).log, c) == [es[c].action]
  {
    LogByWatch(es, t);
    LogByWatch(es, NextInput(es, t));
  }

  /** The newest event has decided nothing yet, unless it reports an action of its own. */
  lemma FreshVerdict(es: seq<Event>)
    requires es != []
    ensures Verdict(es, |es| - 1) == Of(Newest(es), |es| - 1)
  {
    assert NextInput(es, |es| - 1) == |es|;
  }

  /** A watch that a later input has replaced keeps its verdict. */
  lemma SettledInput(es: seq<Event>, t: nat)
    requires t < |es| - 1 && !es[t].Fire? && NextInput(es[..|es| - 1], t) < |es| - 1
    ensures Verdict(es, t) == Verdict(es[..|es| - 1], t)
  {
    var n := |es| - 1;
    var nx := NextInput(es[..n], t);
    NextInputGrows(es, t);
    ArmedPrefix(es, n, t);
    FiredPrefix(es, n, t, nx);
    assert es[..n][t] == es[t] && es[..n][nx] == es[nx];
  }

  /** A watch that a later input has replaced decides nothing more. */
  lemma SettledVerdict(es: seq<Event>, t: nat)
    requires t < |es| - 1
    requires es[t].Fire? || NextInput(es[..|es| - 1], t) < |es| - 1
    ensures Verdict(es, t) == Verdict(es[..|es| - 1], t) && Of(Newest(es), t) == []
  {
    var n := |es| - 1;
    var pre := es[..n];
    NewestOrigin(es);
    if es[t].Fire? {
      assert pre[t] == es[t];
    } else {
      var nx := NextInput(pre, t);
      assert LastInput(pre, n) > t by { assert pre[nx] == es[nx]; }
      SettledInput(es, t);
    }
  }

  /** The watch in the map decides exactly what the newest event adds to its verdict. */
  lemma LiveVerdict(es: seq<Event>, t: nat)
    requires OneShot(es) && t < |es| - 1
    requires !es[t].Fire? && NextInput(es[..|es| - 1], t) == |es| - 1
    ensures Verdict(es, t) == Verdict(es[..|es| - 1], t) + Of(Newest(es), t)
  {
    match es[t]
    case Down => LiveDown(es, t);
    case Up => LiveUp(es, t);
    case Cancel(_) => LastInputAt(es[..|es| - 1], t, |es| - 1);
  }

  lemma LiveDown(es: seq<Event>, t: nat)
    requires OneShot(es) && t < |es| - 1
    requires es[t].Down? && NextInput(es[..|es| - 1], t) == |es| - 1
    ensures Verdict(es, t) == Verdict(es[..|es| - 1], t) + Of(Newest(es), t)
  {
    LastInputAt(es[..|es| - 1], t, |es| - 1);
    NextInputGrows(es, t);
    FiredOnce(es, t);
  }

  lemma LiveUp(es: seq<Event>, t: nat)
    requires OneShot(es) && t < |es| - 1
    requires es[t].Up? && NextInput(es[..|es| - 1], t) == |es| - 1
    ensures Verdict(es, t) == Verdict(es[..|es| - 1], t) + Of(Newest(es), t)
  {
    var n := |es| - 1;
    LiveUpVerdicts(es, t);
    LiveUpDecision(es, t);
    FiredOnce(es, t);
  }

  lemma LiveUpVerdicts(es: seq<Event>, t: nat)
    requires t < |es| - 1
    requires es[t].Up? && NextInput(es[..|es| - 1], t) == |es| - 1
    ensures var n := |es| - 1;
            && Verdict(es[..n], t) == (if Armed(es, t) && Fired(es, t, n) then ["single"] else [])
            && Verdict(es, t) == if Armed(es, t) && (Fired(es, t, |es|) || es[n].Down?) then ["single"] else []
  {
    var n := |es| - 1;
    NextInputGrows(es, t);
    ArmedPrefix(es, n, t);
    FiredPrefix(es, n, t, n);
    FiredGrows(es, t, n);
  }

  lemma LiveUpDecision(es: seq<Event>, t: nat)
    requires t < |es| - 1
    requires es[t].Up? && NextInput(es[..|es| - 1], t) == |es| - 1
    ensures var n := |es| - 1;
            Of(Newest(es), t) ==
              if Armed(es, t) && !Fired(es, t, n) && (es[n] == Fire(t) || es[n].Down?) then ["single"] else []
  {
    var n := |es| - 1;
    LastInputAt(es[..n], t, n);
    ArmedPrefix(es, n, t);
    FiredPrefix(es, n, t, n);
  }

  lemma FiredOnce(es: seq<Event>, t: nat)
    requires OneShot(es) && t < |es| - 1
    ensures var n := |es| - 1;
            && Fired(es, t, n) == Fired(es[..n], t, n)
            && (Fired(es, t, |es|) <==> Fired(es, t, n) || es[n] == Fire(t))
            && (es[n] == Fire(t) ==> !Fired(es, t, n))
  {
    var n := |es| - 1;
    FiredPrefix(es, n, t, n);
    FiredGrows(es, t, n);
    if Fired(es, t, n) {
      var f :| t < f < n && es[f] == Fire(t);
      assert es[n] != es[f];
    }
  }

  lemma LastInputAt(es: seq<Event>, t: nat, n: nat)
    requires t < n <= |es| && !es[t].Fire?
    requires forall i :: t < i < n ==> es[i].Fire?
    ensures LastInput(es, n) == t
  {
    var l := LastInput(es, n);
  }

  // ---------------------------------------------------------------- well-formed pressing

  /** Downs and ups alternate, starting with a down, and no frame cancels. */
  ghost predicate Alternating(es: seq<Event>) {
    forall i :: 0 <= i < |es| ==> AlternatesAt(es, i)
  }

  ghost predicate AlternatesAt(es: seq<Event>, i: nat)
    requires i < |es|
  {
    var p := LastInput(es, i);
    match es[i]
    case Down => p < 0 || es[p].Up?
    case Up => p >= 0 && es[p].Down?
    case Cancel(_) => false
    case Fire(_) => true
  }

  /** What the press begun at `d` has meant so far. */
  ghost function PressGesture(es: seq<Event>, d: nat): seq<string>
    requires d < |es|
  {
    var u := NextInput(es, d);
    if Fired(es, d, u) then if u < |es| then ["hold", "release"] else ["hold"]
    else if u < |es| && (NextInput(es, u) < |es| || Fired(es, u, |es|)) then ["single"]
    else []
  }

  /** The gestures of the presses begun before `n`, in press order. */
  ghost function Gestures(es: seq<Event>, n: nat): seq<string>
    requires n <= |es|
  {
    if n == 0 then []
    else Gestures(es, n - 1) + if es[n - 1].Down? then PressGesture(es, n - 1) else []
  }

  function Actions(log: seq<Decision>): seq<string> {
    seq(|log|, i requires 0 <= i < |log| => log[i].action)
  }

  lemma {:induction false} AlternatingPrefix(es: seq<Event>, k: nat)
    requires Alternating(es) && k <= |es|
    ensures Alternating(es[..k])
  {
    forall i | 0 <= i < k ensures AlternatesAt(es[..k], i) {
      assert AlternatesAt(es, i);
      LastInputPrefix(es, k, i);
    }
  }

  lemma {:induction false} NoDownBetween(es: seq<Event>, a: nat, b: nat)
    requires a <= b <= |es|
    requires forall i :: a <= i < b ==> !es[i].Down?
    ensures Gestures(es, a) == Gestures(es, b)
  {
    if a < b { NoDownBetween(es, a, b - 1); }
  }

  /** Once a later press has begun, what an earlier press meant is settled and never changes. */
  lemma {:induction false} SettledPress(es: seq<Event>, d: nat, later: nat)
    requires Alternating(es) && d < later < |es| && es[d].Down? && es[later].Down?
    ensures PressGesture(es, d) == ["single"] || PressGesture(es, d) == ["hold", "release"]
    ensures later < |es| - 1 ==> PressGesture(es, d) == PressGesture(es[..|es| - 1], d)
  {
    var n := |es| - 1;
    var u := NextInput(es, d);
    LastInputAt(es, d, u);
    assert AlternatesAt(es, u);
    var v := NextInput(es, u);
    assert v <= later;
    if later < n {
      NextInputGrows(es, d);
      NextInputGrows(es, u);
      FiredPrefix(es, n, d, u);
    }
  }

  lemma {:induction false} EarlierPresses(es: seq<Event>, last: nat, m: nat)
    requires Alternating(es) && m <= last < |es| - 1 && es[last].Down?
    ensures Gestures(es, m) == Gestures(es[..|es| - 1], m)
  {
    if m > 0 {
      EarlierPresses(es, last, m - 1);
      if es[m - 1].Down? { SettledPress(es, m - 1, last); }
    }
  }

  lemma ActionsAppend(log: seq<Decision>, d: Option<Decision>)
    ensures Actions(Append(log, d)) == Actions(log) + if d.Some? then [d.value.action] else []
  {
  }

  /**
   Refinement of the gesture specification. When downs and ups alternate, the actions
   decided are, in press order, `single` or `hold` then `release` for each press, whatever the
   order in which the callbacks run; by SettledPress only the last press can still be pending.
   */
  lemma {:induction false} DecidesGestures(es: seq<Event>)
    requires Alternating(es) && OneShot(es)
    ensures Actions(Run(es).log) == Gestures(es, |es|)
  {
    if es != [] {
      var n := |es| - 1;
      var pre := es[..n];
      AlternatingPrefix(es, n);
      DecidesGestures(pre);
      RunStep(es);
      ActionsAppend(Run(pre).log, Newest(es));
      GesturesStep(es);
    }
  }

  /** The newest event adds to the gestures exactly what it decides. */
  lemma GesturesStep(es: seq<Event>)
    requires es != [] && Alternating(es) && OneShot(es)
    ensures Gestures(es, |es|) == Gestures(es[..|es| - 1], |es| - 1) + Added(es)
  {
    var n := |es| - 1;
    LastInputPrefix(es, n, n);
    PressJustBegun(es);
    var t := LastInput(es, n);
    if t < 0 {
      NoPressYet(es);
    } else {
      assert AlternatesAt(es, t);
      var d := if es[t].Down? then t else LastInput(es, t);
      GesturesUpTo(es, d);
      if es[t].Down? { HeldPressStep(es, t); } else { ReleasedPressStep(es, d, t); }
      Associative(Gestures(es, d), PressGesture(es[..n], d), Added(es));
    }
  }

  lemma Associative(a: seq<string>, b: seq<string>, c: seq<string>)
    ensures a + (b + c) == a + b + c
  {
  }

  lemma PressJustBegun(es: seq<Event>)
    requires es != []
    ensures Gestures(es, |es|) == Gestures(es, |es| - 1)
  {
    assert NextInput(es, |es| - 1) == |es|;
  }

  lemma NoPressYet(es: seq<Event>)
    requires es != [] && Alternating(es) && LastInput(es, |es| - 1) < 0
    ensures Gestures(es, |es| - 1) == [] == Gestures(es[..|es| - 1], |es| - 1) && Added(es) == []
  {
    var n := |es| - 1;
    LastInputPrefix(es, n, n);
    NoDownBetween(es, 0, n);
    NoDownBetween(es[..n], 0, n);
    assert AlternatesAt(es, n);
  }

  /** Appending an event changes only what the last press means. */
  lemma GesturesUpTo(es: seq<Event>, d: nat)
    requires es != [] && Alternating(es) && d < |es| - 1 && es[d].Down?
    requires forall i :: d < i < |es| - 1 ==> !es[i].Down?
    ensures Gestures(es, |es| - 1) == Gestures(es, d) + PressGesture(es, d)
    ensures Gestures(es[..|es| - 1], |es| - 1) == Gestures(es, d) + PressGesture(es[..|es| - 1], d)
  {
    var n := |es| - 1;
    EarlierPresses(es, d, d);
    NoDownBetween(es, d + 1, n);
    NoDownBetween(es[..n], d + 1, n);
  }

  ghost function Added(es: seq<Event>): seq<string>
    requires es != []
  {
    if Newest(es).Some? then [Newest(es).value.action] else []
  }

  /** The button was down before the newest event. */
  lemma HeldPressStep(es: seq<Event>, t: nat)
    requires es != [] && Alternating(es) && OneShot(es)
    requires t == LastInput(es, |es| - 1) && es[t].Down?
    ensures PressGesture(es, t) == PressGesture(es[..|es| - 1], t) + Added(es)
  {
    var n := |es| - 1;
    assert AlternatesAt(es, n);
    LastInputPrefix(es, n, n);
    NextInputGrows(es, t);
    FiredOnce(es, t);
    assert NextInput(es[..n], t) == n;
    assert Current(es[..n]) == Some(Watch(t, Fired(es, t, n), false));
    if !es[n].Fire? {
      assert NextInput(es, n) == n + 1;
      assert !Fired(es, n, n + 1);
    }
  }

  /** The button was up before the newest event. */
  lemma ReleasedPressStep(es: seq<Event>, d: nat, t: nat)
    requires es != [] && Alternating(es) && OneShot(es)
    requires t == LastInput(es, |es| - 1) && es[t].Up? && d == LastInput(es, t) && es[d].Down?
    ensures PressGesture(es, d) == PressGesture(es[..|es| - 1], d) + Added(es)
  {
    var n := |es| - 1;
    assert AlternatesAt(es, n);
    LastInputPrefix(es, n, n);
    NextInputGrows(es, d);
    NextInputGrows(es, t);
    ArmedPrefix(es, n, t);
    FiredPrefix(es, n, d, t);
    FiredOnce(es, t);
    assert NextInput(es[..n], d) == t && NextInput(es[..n], t) == n;
  }

  /** Nothing is lost: once the map holds no watch, every press has come to a single or to hold and release. */
  lemma NothingPending(es: seq<Event>, d: nat)
    requires Alternating(es) && d < |es| && es[d].Down? && Run(es).cur.None?
    ensures PressGesture(es, d) == ["single"] || PressGesture(es, d) == ["hold", "release"]
  {
    UpIsLast(es, d);
    var u := NextInput(es, d);
    LastInputAt(es, d, u);
    assert AlternatesAt(es, u);
    if !Fired(es, d, u) && NextInput(es, u) == |es| {
      LastInputAt(es, u, |es|);
      assert Armed(es, u);
      StateIsHistory(es);
    }
  }

  /** With no watch left, the last input ended a press. */
  lemma UpIsLast(es: seq<Event>, d: nat)
    requires Alternating(es) && d < |es| && es[d].Down? && Run(es).cur.None?
    ensures NextInput(es, d) < |es|
  {
    StateIsHistory(es);
    if NextInput(es, d) == |es| { LastInputAt(es, d, |es|); }
  }

  // ---------------------------------------------------------------- conservation

  function One(b: bool): nat { if b then 1 else 0 }

  /** How many events of the history met `p` together with the watch they found. */
  function Count(es: seq<Event>, p: (Option<Watch>, Event) -> bool): nat {
    if es == [] then 0
    else
      var n := |es| - 1;
      Count(es[..n], p) + One(p(Run(es[..n]).cur, es[n]))
  }

  /** How many of the decisions made by the recogniser itself were `action`. */
  function Total(log: seq<Decision>, action: string): nat {
    if log == [] then 0
    else
      var d := log[|log| - 1];
      Total(log[..|log| - 1], action) + One(!d.direct && d.action == action)
  }

  predicate AcceptedUp(w: Option<Watch>, e: Event) { e.Up? && w.Some? && !w.value.held }

  predicate CancelledUp(w: Option<Watch>, e: Event) { e.Cancel? && w.Some? && w.value.up }

  predicate SupersededUp(w: Option<Watch>, e: Event) { e.Up? && w.Some? && w.value.up }

  predicate CancelledHold(w: Option<Watch>, e: Event) { e.Cancel? && w.Some? && w.value.held }

  predicate OverwrittenHold(w: Option<Watch>, e: Event) { e.Down? && w.Some? && w.value.held }

  function PendingUp(w: Option<Watch>): nat { if w.Some? && w.value.up then 1 else 0 }

  function PendingHold(w: Option<Watch>): nat { if w.Some? && w.value.held then 1 else 0 }

  lemma TotalAppend(log: seq<Decision>, d: Option<Decision>, action: string)
    ensures Total(Append(log, d), action) ==
            Total(log, action) + One(d.Some? && !d.value.direct && d.value.action == action)
  {
    if d.Some? { assert (log + [d.value])[..|log|] == log; }
  }

  /** Every short press that was accepted became a single, or was cancelled or superseded, or is waiting. */
  lemma {:induction false} SinglesConserved(es: seq<Event>)
    ensures Count(es, AcceptedUp) ==
            Total(Run(es).log, "single") + PendingUp(Run(es).cur)
            + Count(es, CancelledUp) + Count(es, SupersededUp)
  {
    if es != [] {
      var n := |es| - 1;
      SinglesConserved(es[..n]);
      var s := Run(es[..n]);
      UpIsNotHeld(es[..n]);
      SinglesStep(s.cur, n, es[n]);
      TotalAppend(s.log, Decide(s.cur, n, es[n]), "single");
    }
  }

  predicate Decides(w: Option<Watch>, now: nat, e: Event, action: string) {
    var d := Decide(w, now, e);
    d.Some? && !d.value.direct && d.value.action == action
  }

  /** The balance of short presses over one event. */
  lemma SinglesStep(w: Option<Watch>, now: nat, e: Event)
    requires w.Some? && w.value.up ==> !w.value.held
    ensures PendingUp(w) + One(AcceptedUp(w, e)) ==
            PendingUp(Next(w, now, e)) + One(Decides(w, now, e, "single"))
            + One(CancelledUp(w, e)) + One(SupersededUp(w, e))
  {
  }

  /** The balance of holds over one event, which must not fire a hold twice. */
  lemma HoldsStep(w: Option<Watch>, now: nat, e: Event)
    requires w.Some? && w.value.up ==> !w.value.held
    requires w.Some? && w.value.held ==> e != Fire(w.value.id)
    ensures PendingHold(w) + One(Decides(w, now, e, "hold")) ==
            PendingHold(Next(w, now, e)) + One(Decides(w, now, e, "release"))
            + One(CancelledHold(w, e)) + One(OverwrittenHold(w, e))
  {
  }

  /** Every hold was released, cancelled, overwritten by a repeated down, or is still held. */
  lemma {:induction false} HoldsConserved(es: seq<Event>)
    requires OneShot(es)
    ensures Total(Run(es).log, "hold") ==
            Total(Run(es).log, "release") + PendingHold(Run(es).cur)
            + Count(es, CancelledHold) + Count(es, OverwrittenHold)
  {
    if es != [] {
      var n := |es| - 1;
      var s := Run(es[..n]);
      HoldsConserved(es[..n]);
      if es[n].Fire? { NeverHeldTwice(es); }
      UpIsNotHeld(es[..n]);
      HoldsStep(s.cur, n, es[n]);
      TotalAppend(s.log, Decide(s.cur, n, es[n]), "hold");
      TotalAppend(s.log, Decide(s.cur, n, es[n]), "release");
    }
  }

  lemma UpIsNotHeld(es: seq<Event>)
    ensures var w := Run(es).cur; w.Some? && w.value.up ==> !w.value.held
  {
    StateIsHistory(es);
  }

  lemma NeverHeldTwice(es: seq<Event>)
    requires es != [] && OneShot(es) && es[|es| - 1].Fire?
    ensures var w := Run(es[..|es| - 1]).cur;
            w.Some? && w.value.id == es[|es| - 1].watch ==> !w.value.held
  {
    var n := |es| - 1;
    StateIsHistory(es[..n]);
    var w := Current(es[..n]);
    if w.Some? && w.value.id == es[n].watch { FiredOnce(es, w.value.id); }
  }
}
