/**
 Background workers, one per device at a time: recovery (recovering), relay setup (relayBusy) and
 motion setup (motionReady). A worker claims its device's key under a lock before it starts and gives
 the claim back when it ends, except that a motion setup that bound something keeps it for good.
 */
module Workers {

  /** `won` means some attempt of the worker succeeded: for motion setup, that something was bound. */
  datatype Worker = Worker(key: string, won: bool)

  /** `sticky` tells motion setup from the others; `kept` are the claims kept for good. */
  datatype World = World(sticky: bool, claims: set<string>, live: map<nat, Worker>, kept: set<string>)

  datatype Step =
    | Request(id: nat, key: string)
    | Attempt(id: nat, ok: bool)
    | Finish(id: nat)

  predicate Enabled(w: World, s: Step) {
    match s
    case Request(id, _) => id !in w.live
    case Attempt(id, _) => id in w.live
    case Finish(id) => id in w.live
  }

  function Next(w: World, s: Step): World
    requires Enabled(w, s)
  {
    match s
    case Request(id, key) =>
      if key in w.claims then w
      else w.(claims := w.claims + {key}, live := w.live[id := Worker(key, false)])
    case Attempt(id, ok) =>
      var x := w.live[id];
      w.(live := w.live[id := x.(won := x.won || ok)])
    case Finish(id) =>
      var x := w.live[id];
      var rest := w.live - {id};
      if w.sticky && x.won then w.(live := rest, kept := w.kept + {x.key})
      else w.(live := rest, claims := w.claims - {x.key})
  }

  ghost predicate Reaches(w: World, steps: seq<Step>, v: World)
    decreases |steps|
  {
    if steps == [] then v == w
    else Enabled(w, steps[0]) && Reaches(Next(w, steps[0]), steps[1..], v)
  }

  predicate Working(w: World, key: string) {
    exists id :: id in w.live && w.live[id].key == key
  }

  ghost predicate Inv(w: World) {
    && (forall k :: k in w.claims <==> k in w.kept || Working(w, k))
    && (forall i, j :: i in w.live && j in w.live && w.live[i].key == w.live[j].key ==> i == j)
    && (forall i :: i in w.live ==> w.live[i].key !in w.kept)
    && (!w.sticky ==> w.kept == {})
  }

  /** A key is worked on after the step if it was before, or if its worker has just started. */
  lemma RequestKeeps(w: World, id: nat, key: string)
    requires Inv(w) && Enabled(w, Request(id, key))
    ensures Inv(Next(w, Request(id, key)))
  {
    var v := Next(w, Request(id, key));
    if key !in w.claims {
      forall k ensures Working(v, k) <==> Working(w, k) || k == key {
        assert v.live[id].key == key;
        if Working(w, k) {
          var i :| i in w.live && w.live[i].key == k;
          assert i in v.live && v.live[i].key == k;
        }
      }
    }
  }

  lemma AttemptKeeps(w: World, id: nat, ok: bool)
    requires Inv(w) && Enabled(w, Attempt(id, ok))
    ensures Inv(Next(w, Attempt(id, ok)))
  {
    var v := Next(w, Attempt(id, ok));
    forall k ensures Working(v, k) <==> Working(w, k) {
      if Working(w, k) {
        var i :| i in w.live && w.live[i].key == k;
        assert v.live[i].key == k;
      }
      if Working(v, k) {
        var i :| i in v.live && v.live[i].key == k;
        assert w.live[i].key == k;
      }
    }
  }

  lemma FinishKeeps(w: World, id: nat)
    requires Inv(w) && Enabled(w, Finish(id))
    ensures Inv(Next(w, Finish(id)))
  {
    var v := Next(w, Finish(id));
    forall k ensures Working(v, k) <==> Working(w, k) && k != w.live[id].key {
      if Working(w, k) && k != w.live[id].key {
        var i :| i in w.live && w.live[i].key == k;
        assert i in v.live && v.live[i].key == k;
      }
      if Working(v, k) {
        var i :| i in v.live && v.live[i].key == k;
        assert i in w.live && w.live[i].key == k;
      }
    }
  }

  lemma StepKeeps(w: World, s: Step)
    requires Inv(w) && Enabled(w, s)
    ensures Inv(Next(w, s)) && Next(w, s).sticky == w.sticky
  {
    match s
    case Request(id, key) => RequestKeeps(w, id, key);
    case Attempt(id, ok) => AttemptKeeps(w, id, ok);
    case Finish(id) => FinishKeeps(w, id);
  }

  /**
   In every interleaving a key is claimed exactly while its one worker is live or its claim was kept,
   and no two workers for a key overlap.
   */
  lemma {:induction false} SingleFlight(sticky: bool, w: World, steps: seq<Step>, v: World)
    requires Inv(w) && Reaches(w, steps, v) && w.sticky == sticky
    ensures Inv(v) && v.sticky == sticky
    decreases |steps|
  {
    if steps != [] {
      StepKeeps(w, steps[0]);
      SingleFlight(sticky, Next(w, steps[0]), steps[1..], v);
    }
  }

  /**
   From the start: a key is claimed exactly while its worker is live or, for motion setup only, once
   something was bound; and no two workers share a key.
   */
  lemma ClaimsAreExact(sticky: bool, steps: seq<Step>, v: World)
    requires Reaches(World(sticky, {}, map[], {}), steps, v)
    ensures forall k :: k in v.claims <==> Working(v, k) || k in v.kept
    ensures forall i, j :: i in v.live && j in v.live && i != j ==> v.live[i].key != v.live[j].key
    ensures !sticky ==> v.kept == {}
  {
    SingleFlight(sticky, World(sticky, {}, map[], {}), steps, v);
  }

  /** A claim kept by motion setup is never given back, so that device is not set up again. */
  lemma {:induction false} KeptForGood(w: World, steps: seq<Step>, v: World, k: string)
    requires Inv(w) && Reaches(w, steps, v) && k in w.kept
    ensures k in v.kept && k in v.claims && !Working(v, k)
    decreases |steps|
  {
    if steps != [] {
      StepKeeps(w, steps[0]);
      KeptForGood(Next(w, steps[0]), steps[1..], v, k);
    } else {
      assert forall i :: i in w.live ==> w.live[i].key !in w.kept;
    }
  }

  /** Some attempt of the worker in the run succeeded. */
  predicate Succeeded(steps: seq<Step>, id: nat) { Attempt(id, true) in steps }

  /** What a worker has won is what its attempts won, however other workers come and go. */
  lemma {:induction false} WonIff(w: World, steps: seq<Step>, v: World, id: nat)
    requires Reaches(w, steps, v) && id in w.live && Finish(id) !in steps
    ensures id in v.live && v.live[id].key == w.live[id].key && v.sticky == w.sticky
    ensures v.live[id].won <==> w.live[id].won || Succeeded(steps, id)
    decreases |steps|
  {
    if steps != [] {
      assert steps == [steps[0]] + steps[1..];
      WonIff(Next(w, steps[0]), steps[1..], v, id);
    }
  }

  /**
   Over a worker's whole life: its claim is kept at its end exactly if it is a motion setup of which some attempt
   succeeded, whatever its other attempts came to.
   */
  lemma KeptIff(w: World, id: nat, key: string, steps: seq<Step>, v: World)
    requires Inv(w) && Enabled(w, Request(id, key)) && key !in w.claims
    requires Reaches(Next(w, Request(id, key)), steps, v) && Finish(id) !in steps
    ensures Enabled(v, Finish(id))
    ensures key in Next(v, Finish(id)).claims <==> w.sticky && Succeeded(steps, id)
    ensures key in Next(v, Finish(id)).kept <==> w.sticky && Succeeded(steps, id)
  {
    var x := Next(w, Request(id, key));
    WonIff(x, steps, v, id);
    RequestKeeps(w, id, key);
    SingleFlight(w.sticky, x, steps, v);
    FinishKeeps(v, id);
    NoLonger(v, id, Next(v, Finish(id)));
  }

  /** The lock-protected set of claims, updated in place. */
  class Claims {
    var busy: set<string>
    ghost var world: World
    ghost var steps: seq<Step>
    const sticky: bool

    ghost predicate Valid()
      reads this
    {
      && Inv(world) && world.sticky == sticky && busy == world.claims
      && Reaches(World(sticky, {}, map[], {}), steps, world)
    }

    constructor (sticky: bool)
      ensures Valid() && world == World(sticky, {}, map[], {}) && this.sticky == sticky
    {
      this.sticky := sticky;
      busy := {};
      world := World(sticky, {}, map[], {});
      steps := [];
    }

    ghost method Take(s: Step)
      requires Inv(world) && Enabled(world, s) && Reaches(World(sticky, {}, map[], {}), steps, world)
      modifies this`world, this`steps
      ensures world == Next(old(world), s) && Inv(world) && world.sticky == old(world).sticky
      ensures Reaches(World(sticky, {}, map[], {}), steps, world)
    {
      StepKeeps(world, s);
      Snoc(World(sticky, {}, map[], {}), steps, world, s);
      steps := steps + [s];
      world := Next(world, s);
    }

    /** Claim a key for a new worker; false if the key is taken, and then no worker starts. */
    method TryClaim(ghost id: nat, key: string) returns (started: bool)
      requires Valid() && Enabled(world, Request(id, key))
      modifies this`busy, this`world, this`steps
      ensures Valid() && world == Next(old(world), Request(id, key))
      ensures started <==> id in world.live
      ensures started ==> !Working(old(world), key) && Working(world, key)
    {
      Take(Request(id, key));
      if key in busy {
        return false;
      }
      busy := busy + {key};
      assert world.live[id].key == key;
      return true;
    }

    /** The end of a worker. */
    method Release(ghost id: nat, key: string, bound: bool)
      requires Valid() && Enabled(world, Finish(id))
      requires world.live[id].key == key && world.live[id].won == bound
      modifies this`busy, this`world, this`steps
      ensures Valid() && world == Next(old(world), Finish(id))
      ensures !Working(world, key) && (key in busy <==> sticky && bound)
    {
      assert Working(world, key);
      Take(Finish(id));
      if !(sticky && bound) {
        busy := busy - {key};
      }
      NoLonger(old(world), id, world);
    }
  }

  lemma NoLonger(w: World, id: nat, v: World)
    requires Inv(w) && Enabled(w, Finish(id)) && v == Next(w, Finish(id))
    ensures !Working(v, w.live[id].key)
  {
    assert forall i :: i in v.live ==> i in w.live && i != id && v.live[i].key == w.live[i].key;
  }

  lemma {:induction false} Snoc(u: World, steps: seq<Step>, w: World, s: Step)
    requires Reaches(u, steps, w) && Enabled(w, s)
    ensures Reaches(u, steps + [s], Next(w, s))
    decreases |steps|
  {
    if steps == [] {
      assert ([] + [s])[1..] == [];
    } else {
      Snoc(Next(u, steps[0]), steps[1..], w, s);
      assert (steps + [s])[1..] == steps[1..] + [s];
    }
  }
}
