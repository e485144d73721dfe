/**
 What a subscriber sees last. A section that changes a device is followed, after `mu` is released, by a look at
 the record and then by a broadcast of what was seen. Sections, looks and sends of different callers interleave,
 so events can overtake each other. Here for one device and one subscriber; a record is known by its version.
 */
module LastEvent {

  /** Between its section and its send, a caller has yet to look, or holds the version it saw. */
  datatype Caller = Changed | Holds(version: nat)

  datatype World = World(version: nat, callers: map<nat, Caller>, received: seq<nat>)

  /** `room` tells whether the subscriber's queue had room for the event. */
  datatype Step = Section(i: nat) | Look(i: nat) | Send(i: nat, room: bool)

  const START: World := World(0, map[], [])

  predicate Enabled(w: World, s: Step) {
    match s
    case Section(i) => i !in w.callers
    case Look(i) => i in w.callers && w.callers[i].Changed?
    case Send(i, _) => i in w.callers && w.callers[i].Holds?
  }

  function Next(w: World, s: Step): World
    requires Enabled(w, s)
  {
    match s
    case Section(i) => w.(version := w.version + 1, callers := w.callers[i := Changed])
    case Look(i) => w.(callers := w.callers[i := Holds(w.version)])
    case Send(i, room) =>
      w.(callers := w.callers - {i}, received := w.received + if room then [w.callers[i].version] else [])
  }

  /** The callers that have looked and not yet sent. */
  function Holding(w: World): set<nat> { set i | i in w.callers && w.callers[i].Holds? }

  /** A run in which at most `n` callers hold an event at a time, and no event is dropped unless `drops`. */
  ghost predicate Runs(w: World, steps: seq<Step>, v: World, n: nat, drops: bool)
    decreases |steps|
  {
    if steps == [] then v == w
    else
      && Enabled(w, steps[0]) && (steps[0].Send? ==> steps[0].room || drops)
      && |Holding(Next(w, steps[0]))| <= n
      && Runs(Next(w, steps[0]), steps[1..], v, n, drops)
  }

  /** The last event shows the record as it is. */
  predicate IsLatest(w: World) {
    w.version == 0 || (w.received != [] && w.received[|w.received| - 1] == w.version)
  }

  /** Whenever no caller is under way, the last event is the latest. */
  ghost predicate AlwaysLatest(n: nat, drops: bool) {
    forall steps, w :: Runs(START, steps, w, n, drops) && w.callers == map[] ==> IsLatest(w)
  }

  // ---------------------------------------------------------------- one holder at a time

  predicate SomeChanged(w: World) { exists i :: i in w.callers && w.callers[i].Changed? }

  predicate SomeHoldsLatest(w: World) { exists i :: i in w.callers && w.callers[i] == Holds(w.version) }

  /** The latest record is on its way or there, and a caller holds an older one only while somebody has yet to look. */
  predicate Inv(w: World) {
    && (SomeChanged(w) || SomeHoldsLatest(w) || IsLatest(w))
    && (forall i :: i in w.callers && w.callers[i].Holds? && w.callers[i].version != w.version ==> SomeChanged(w))
  }

  lemma OneHolder(w: World, i: nat, j: nat)
    requires |Holding(w)| <= 1 && i in Holding(w) && j in Holding(w)
    ensures i == j
  {
    if i != j {
      assert {i, j} <= Holding(w);
      Subset({i, j}, Holding(w));
    }
  }

  lemma {:induction false} Subset(a: set<nat>, b: set<nat>)
    requires a <= b
    ensures |a| <= |b|
  {
    if a != {} {
      var x :| x in a;
      Subset(a - {x}, b - {x});
    }
  }

  lemma SectionKeeps(w: World, i: nat)
    requires Enabled(w, Section(i))
    ensures Inv(Next(w, Section(i)))
  {
    assert Next(w, Section(i)).callers[i] == Changed;
  }

  lemma LookKeeps(w: World, i: nat)
    requires Enabled(w, Look(i)) && |Holding(Next(w, Look(i)))| <= 1
    ensures Inv(Next(w, Look(i)))
  {
    var v := Next(w, Look(i));
    assert v.callers[i] == Holds(v.version);
    forall j | j in v.callers && v.callers[j].Holds? ensures v.callers[j].version == v.version {
      OneHolder(v, i, j);
    }
  }

  lemma SendKeeps(w: World, i: nat)
    requires Inv(w) && Enabled(w, Send(i, true)) && |Holding(w)| <= 1
    ensures Inv(Next(w, Send(i, true)))
  {
    var v := Next(w, Send(i, true));
    if SomeChanged(w) {
      var j :| j in w.callers && w.callers[j].Changed?;
      assert v.callers[j].Changed?;
    }
    forall j | j in v.callers && v.callers[j].Holds? ensures false { OneHolder(w, i, j); }
  }

  lemma {:induction false} InvKept(w: World, steps: seq<Step>, v: World, n: nat)
    requires n <= 1 && Inv(w) && |Holding(w)| <= n && Runs(w, steps, v, n, false)
    ensures Inv(v)
    decreases |steps|
  {
    if steps != [] {
      match steps[0] {
        case Section(i) => SectionKeeps(w, i);
        case Look(i) => LookKeeps(w, i);
        case Send(i, _) => SendKeeps(w, i);
      }
      InvKept(Next(w, steps[0]), steps[1..], v, n);
    }
  }

  // ---------------------------------------------------------------- what goes wrong otherwise

  lemma {:induction false} Snoc(u: World, steps: seq<Step>, w: World, s: Step, n: nat, drops: bool)
    requires Runs(u, steps, w, n, drops) && Enabled(w, s)
    requires (s.Send? ==> s.room || drops) && |Holding(Next(w, s))| <= n
    ensures Runs(u, steps + [s], Next(w, s), n, drops)
    decreases |steps|
  {
    if steps == [] {
      assert ([] + [s])[1..] == [];
    } else {
      Snoc(Next(u, steps[0]), steps[1..], w, s, n, drops);
      assert (steps + [s])[1..] == steps[1..] + [s];
    }
  }

  lemma Extend(steps: seq<Step>, w: World, s: Step, n: nat, drops: bool, holding: set<nat>)
      returns (longer: seq<Step>, v: World)
    requires Runs(START, steps, w, n, drops) && Enabled(w, s) && (s.Send? ==> s.room || drops)
    requires Holding(Next(w, s)) == holding && |holding| <= n
    ensures longer == steps + [s] && v == Next(w, s) && Runs(START, longer, v, n, drops)
  {
    longer, v := steps + [s], Next(w, s);
    Snoc(START, steps, w, s, n, drops);
  }

  /** The second caller looks later and sends first. */
  lemma Overtaking(n: nat, drops: bool) returns (steps: seq<Step>, w: World)
    requires n >= 2
    ensures Runs(START, steps, w, n, drops) && w.callers == map[] && !IsLatest(w)
  {
    steps, w := [], START;
    steps, w := Extend(steps, w, Section(0), n, drops, {});
    steps, w := Extend(steps, w, Look(0), n, drops, {0});
    steps, w := Extend(steps, w, Section(1), n, drops, {0});
    steps, w := Extend(steps, w, Look(1), n, drops, {0, 1});
    steps, w := Extend(steps, w, Send(1, true), n, drops, {0});
    steps, w := Extend(steps, w, Send(0, true), n, drops, {});
    assert w == World(2, map[], [2, 1]);
  }

  lemma Dropped(n: nat) returns (steps: seq<Step>, w: World)
    requires n >= 1
    ensures Runs(START, steps, w, n, true) && w.callers == map[] && !IsLatest(w)
  {
    steps, w := [], START;
    steps, w := Extend(steps, w, Section(0), n, true, {});
    steps, w := Extend(steps, w, Look(0), n, true, {0});
    steps, w := Extend(steps, w, Send(0, false), n, true, {});
    assert w == World(1, map[], []);
  }

  /** With no holder at all no event is ever sent, and no caller ever done. */
  lemma {:induction false} NobodySends(w: World, steps: seq<Step>, v: World, drops: bool)
    requires Runs(w, steps, v, 0, drops) && Holding(w) == {}
    ensures v.version == w.version || SomeChanged(v)
    ensures SomeChanged(w) ==> SomeChanged(v)
    decreases |steps|
  {
    if steps != [] {
      var s := steps[0];
      var x := Next(w, s);
      assert Holding(x) == {};
      assert s.Look? ==> s.i in Holding(x);
      assert s.Send? ==> s.i in Holding(w);
      assert x.callers[s.i] == Changed;
      NobodySends(x, steps[1..], v, drops);
    }
  }

  /**
   When the last event is the latest. Once all callers are done, the last event a subscriber received is sure to
   show the record as it is exactly when no two callers ever hold an event at a time and none is dropped (or when no
   caller ever gets to look).
   */
  lemma LatestIff(n: nat, drops: bool)
    ensures AlwaysLatest(n, drops) <==> n == 0 || (n == 1 && !drops)
  {
    if n >= 2 {
      var steps, w := Overtaking(n, drops);
    } else if n == 1 && drops {
      var steps, w := Dropped(n);
    } else {
      forall steps, w | Runs(START, steps, w, n, drops) && w.callers == map[] ensures IsLatest(w) {
        if n == 0 { NobodySends(START, steps, w, drops); } else { InvKept(START, steps, w, n); }
      }
    }
  }
}
