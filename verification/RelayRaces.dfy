/**
 Reads and patches of one relay at the same time. The radio is held for one exchange, not for a whole
 ReadRelay or ApplyRelay, so their exchanges interleave: a read copies the cached settings when it begins,
 collects answers while others write and store, and stores its copy with what it collected at the end. An
 answer can be late: it may belong to an earlier request and carry what the device had then.
 */
module RelayRaces {
  import opened Common
  import opened RelayCodec
  import opened RelayConfig
  import opened RelayHub

  /** A ReadRelay under way: the settings it copied, and the results of its reads so far. */
  datatype Pending = Pending(next: Relay, results: seq<ReadResult>)

  /** The relay's attributes, all they were before, the hub's cached settings, and the reads under way. */
  datatype World = World(attrs: Store, past: seq<Store>, cache: Relay, pending: map<nat, Pending>)

  /**
   `Answer` carries what the device had at time `at`, counted in writes. `Write` is what any exchange of any
   patch changes on the device.
   */
  datatype Step =
    | Begin(r: nat)
    | Answer(r: nat, at: nat, results: seq<ReadResult>)
    | Finish(r: nat)
    | Write(vals: Store)

  /** The device's attributes at a time up to now. */
  function StoreAt(w: World, at: nat): Store {
    if at < |w.past| then w.past[at] else w.attrs
  }

  function Now(w: World): nat { |w.past| }

  /** What the device would show for the field. */
  function Shown(attrs: Store, f: Field): Option<Value> {
    if AttrOf(f) in attrs then Decode(f, attrs[AttrOf(f)]) else None
  }

  /** Whatever attributes the results name, possibly others than were asked for, they carry these values. */
  predicate Truthful(attrs: Store, results: seq<ReadResult>) {
    forall i :: 0 <= i < |results| ==> IsTrue(attrs, results[i])
  }

  predicate IsTrue(attrs: Store, r: ReadResult) {
    r.status == SUCCESS && FieldOf(r.id).Some? ==>
      AttrOf(FieldOf(r.id).value) in attrs && attrs[AttrOf(FieldOf(r.id).value)] == r.value
  }

  predicate Enabled(w: World, s: Step) {
    match s
    case Begin(r) => r !in w.pending
    case Answer(r, at, results) => r in w.pending && at <= Now(w) && Truthful(StoreAt(w, at), results)
    case Finish(r) => r in w.pending
    case Write(_) => true
  }

  function Next(w: World, s: Step): World
    requires Enabled(w, s)
  {
    match s
    case Begin(r) => w.(pending := w.pending[r := Pending(w.cache, [])])
    case Answer(r, _, results) =>
      w.(pending := w.pending[r := w.pending[r].(results := w.pending[r].results + results)])
    case Finish(r) =>
      var p := w.pending[r];
      w.(cache := if AnyApplies(p.results) then ApplyAll(p.next, p.results) else w.cache, pending := w.pending - {r})
    case Write(vals) => w.(attrs := w.attrs + vals, past := w.past + [w.attrs])
  }

  ghost predicate Reaches(w: World, steps: seq<Step>, v: World)
    decreases |steps|
  {
    if steps == [] then v == w
    else Enabled(w, steps[0]) && Reaches(Next(w, steps[0]), steps[1..], v)
  }

  lemma {:induction false} Concat(u: World, a: seq<Step>, w: World, b: seq<Step>, v: World)
    requires Reaches(u, a, w) && Reaches(w, b, v)
    ensures Reaches(u, a + b, v)
    decreases |a|
  {
    if a == [] {
      assert a + b == b;
    } else {
      Concat(Next(u, a[0]), a[1..], w, b, v);
      assert (a + b)[1..] == a[1..] + b;
    }
  }

  lemma Snoc(u: World, a: seq<Step>, w: World, s: Step)
    requires Reaches(u, a, w) && Enabled(w, s)
    ensures Reaches(u, a + [s], Next(w, s))
  {
    assert [s][1..] == [];
    Concat(u, a, w, [s], Next(w, s));
  }

  lemma {:induction false} LatestIsShown(attrs: Store, results: seq<ReadResult>, f: Field)
    requires Truthful(attrs, results) && Latest(results, f).Some?
    ensures Latest(results, f) == Shown(attrs, f)
  {
    var n := |results| - 1;
    assert FieldOf(Id(f)) == Some(f);
    if Gives(results[n], f).Some? {
      assert IsTrue(attrs, results[n]);
    } else {
      assert forall i :: 0 <= i < n ==> results[..n][i] == results[i];
      LatestIsShown(attrs, results[..n], f);
    }
  }

  lemma {:induction false} LatestApplies(results: seq<ReadResult>, f: Field)
    requires Latest(results, f).Some?
    ensures AnyApplies(results)
  {
    var n := |results| - 1;
    assert FieldOf(Id(f)) == Some(f);
    if Gives(results[n], f).Some? {
      assert Applies(results[n]);
    } else {
      LatestApplies(results[..n], f);
      var i :| 0 <= i < n && Applies(results[..n][i]);
      assert Applies(results[i]);
    }
  }

  // ---------------------------------------------------------------- the reads of ReadRelay

  lemma KeptIsTruthful(attrs: Store, fates: Fates, f: Field)
    ensures Truthful(attrs, Kept(attrs, fates, f))
  {
    KeptIs(attrs, fates, f);
    assert FieldOf(Id(f)) == Some(f);
  }

  lemma {:induction false} GatherIsTruthful(attrs: Store, fates: Fates, fields: seq<Field>)
    ensures Truthful(attrs, Gather(attrs, fates, fields))
  {
    if fields != [] {
      var n := |fields| - 1;
      GatherIsTruthful(attrs, fates, fields[..n]);
      KeptIsTruthful(attrs, fates, fields[n]);
    }
  }

  /**
   ReadRelay with nothing in between is such a read: what it collects are answers true of the device, and what
   the read stores is what ReadRelay returns.
   */
  lemma ReadRelayIsRead(w: World, r: nat, fates: Fates, f: Field) returns (steps: seq<Step>, u: World)
    requires r !in w.pending
    ensures Reaches(Next(w, Begin(r)), steps, u) && r in u.pending
    ensures forall s :: s in steps ==> s.Answer? && s.at == Now(w)
    ensures AnyApplies(u.pending[r].results) <==> AnyRead(w.attrs, fates)
    ensures AnyRead(w.attrs, fates) ==>
              Get(Next(u, Finish(r)).cache, f) == ReadField(w.attrs, w.cache, fates, f)
  {
    var a, b := Kept(w.attrs, fates, PowerOnBehavior), Gather(w.attrs, fates, EWELINK_FIELDS);
    KeptIsTruthful(w.attrs, fates, PowerOnBehavior);
    GatherIsTruthful(w.attrs, fates, EWELINK_FIELDS);
    u := TwoAnswers(w, r, a, b);
    steps := [Answer(r, Now(w), a), Answer(r, Now(w), b)];
    ReadBackIs(w.attrs, w.cache, fates, a, b);
    ApplyConcat(w.cache, a, b);
  }

  lemma TwoAnswers(w: World, r: nat, a: seq<ReadResult>, b: seq<ReadResult>) returns (u: World)
    requires r !in w.pending && Truthful(w.attrs, a) && Truthful(w.attrs, b)
    ensures Reaches(Next(w, Begin(r)), [Answer(r, Now(w), a), Answer(r, Now(w), b)], u)
    ensures r in u.pending && u.pending[r] == Pending(w.cache, a + b) && u.cache == w.cache
  {
    var v, x, y := Next(w, Begin(r)), Answer(r, Now(w), a), Answer(r, Now(w), b);
    assert StoreAt(v, Now(w)) == w.attrs;
    var t := Next(v, x);
    assert StoreAt(t, Now(w)) == w.attrs;
    u := Next(t, y);
    assert [] + a + b == a + b;
    assert [x, y][1..] == [y] && [y][1..] == [];
    assert Reaches(t, [y], u);
  }

  // ---------------------------------------------------------------- any interleaving

  /** All that is cached, copied or collected for the field, and what the device has ever shown, is among `known`. */
  ghost predicate Among(w: World, f: Field, known: iset<Option<Value>>) {
    && Get(w.cache, f) in known
    && (forall at :: 0 <= at <= Now(w) ==> Shown(StoreAt(w, at), f) in known)
    && forall r :: r in w.pending ==> PendingAmong(w.pending[r], f, known)
  }

  ghost predicate PendingAmong(p: Pending, f: Field, known: iset<Option<Value>>) {
    Get(p.next, f) in known && (Latest(p.results, f).Some? ==> Latest(p.results, f) in known)
  }

  /** Everything the device comes to show for the field during the run is among `known`. */
  ghost predicate ShowsOnly(w: World, steps: seq<Step>, f: Field, known: iset<Option<Value>>)
    decreases |steps|
  {
    steps == [] ||
    (&& Enabled(w, steps[0]) && Shown(Next(w, steps[0]).attrs, f) in known
     && ShowsOnly(Next(w, steps[0]), steps[1..], f, known))
  }

  lemma SameStores(w: World, v: World)
    requires v.attrs == w.attrs && v.past == w.past
    ensures Now(v) == Now(w) && forall at :: StoreAt(v, at) == StoreAt(w, at)
  {
  }

  lemma AmongStep(w: World, s: Step, f: Field, known: iset<Option<Value>>)
    requires Among(w, f, known) && Enabled(w, s) && Shown(Next(w, s).attrs, f) in known
    ensures Among(Next(w, s), f, known)
  {
    match s
    case Begin(_) => SameStores(w, Next(w, s));
    case Answer(r, at, results) =>
      SameStores(w, Next(w, s));
      assert PendingAmong(w.pending[r], f, known);
      LatestConcat(w.pending[r].results, results, f);
      if Latest(results, f).Some? { LatestIsShown(StoreAt(w, at), results, f); }
    case Finish(r) =>
      SameStores(w, Next(w, s));
      assert PendingAmong(w.pending[r], f, known);
      LastValueWins(w.pending[r].next, w.pending[r].results, f);
    case Write(_) => assert forall at :: 0 <= at <= Now(w) ==> StoreAt(Next(w, s), at) == StoreAt(w, at);
  }

  /**
   However reads and patches interleave, and however late answers are, a cached field never holds anything but
   what was already cached or collected for it, or what the device has shown for it.
   */
  lemma {:induction false} CacheIsPast(w: World, steps: seq<Step>, v: World, f: Field, known: iset<Option<Value>>)
    requires Among(w, f, known) && Reaches(w, steps, v) && ShowsOnly(w, steps, f, known)
    ensures Get(v.cache, f) in known
    decreases |steps|
  {
    if steps != [] {
      AmongStep(w, steps[0], f, known);
      CacheIsPast(Next(w, steps[0]), steps[1..], v, f, known);
    }
  }

  // ---------------------------------------------------------------- one read among others

  /** A read under way keeps the settings it copied and only adds results. */
  lemma {:induction false} KeepsCopy(w: World, steps: seq<Step>, v: World, r: nat)
    requires Reaches(w, steps, v) && r in w.pending && Finish(r) !in steps
    ensures r in v.pending && v.pending[r].next == w.pending[r].next
    decreases |steps|
  {
    if steps != [] { KeepsCopy(Next(w, steps[0]), steps[1..], v, r); }
  }

  /**
   What a read stores, whatever happens between its beginning at `w` and its end at `u`: if it got anything,
   each field as it read it last, and the fields it could not read as they were cached when it began.
   */
  lemma FinishStores(w: World, r: nat, steps: seq<Step>, u: World, f: Field)
    requires Enabled(w, Begin(r)) && Reaches(Next(w, Begin(r)), steps, u) && Finish(r) !in steps
    ensures r in u.pending
    ensures var got := u.pending[r].results;
            Get(Next(u, Finish(r)).cache, f) ==
              if !AnyApplies(got) then Get(u.cache, f)
              else if Latest(got, f).Some? then Latest(got, f)
              else Get(w.cache, f)
  {
    KeepsCopy(Next(w, Begin(r)), steps, u, r);
    LastValueWins(w.cache, u.pending[r].results, f);
  }

  // ---------------------------------------------------------------- overlapping reads

  /** Only reads of `others` end. */
  predicate EndsOnly(steps: seq<Step>, others: set<nat>) {
    forall i :: 0 <= i < |steps| && steps[i].Finish? ==> steps[i].r in others
  }

  /** A run in which `r` ends at `u` having got something, but not the field. */
  ghost predicate MissesField(w: World, r: nat, others: set<nat>, f: Field, steps: seq<Step>, u: World)
    requires Enabled(w, Begin(r))
  {
    && Reaches(Next(w, Begin(r)), steps, u) && EndsOnly(steps, others)
    && r in u.pending && AnyApplies(u.pending[r].results) && Latest(u.pending[r].results, f).None?
  }

  /** Read `r`, begun here, never changes the cached value of a field it does not get, while only `others` end. */
  ghost predicate NeverRestores(w: World, r: nat, others: set<nat>, f: Field)
    requires Enabled(w, Begin(r))
  {
    forall steps, u :: MissesField(w, r, others, f, steps, u) ==> Get(Next(u, Finish(r)).cache, f) == Get(u.cache, f)
  }

  /**
   Which overlap breaks it. A read that misses a field is sure to leave its cached value alone exactly when no
   other read may end between its beginning and its end; as soon as one may, the older value can come back.
   */
  lemma OverlapIff(w: World, r: nat, others: set<nat>, f: Field)
    requires r !in w.pending && r !in others
    ensures NeverRestores(w, r, others, f) <==> others == {}
  {
    if others == {} {
      forall steps, u | MissesField(w, r, others, f, steps, u)
        ensures Get(Next(u, Finish(r)).cache, f) == Get(u.cache, f)
      {
        NoEndKeepsCache(Next(w, Begin(r)), steps, u);
        FinishStores(w, r, steps, u, f);
      }
    } else {
      var s :| s in others;
      var steps, u := OlderCopyStored(w, r, s, f);
      assert EndsOnly(steps, others);
      assert MissesField(w, r, others, f, steps, u);
    }
  }

  lemma {:induction false} NoEndKeepsCache(w: World, steps: seq<Step>, v: World)
    requires Reaches(w, steps, v) && EndsOnly(steps, {})
    ensures v.cache == w.cache && forall r :: Finish(r) !in steps
    decreases |steps|
  {
    if steps != [] {
      assert forall i :: 0 <= i < |steps| - 1 ==> steps[1..][i] == steps[i + 1];
      NoEndKeepsCache(Next(w, steps[0]), steps[1..], v);
    }
  }

  /** A raw value of the field that means something other than `v`. */
  function Unlike(f: Field, v: Option<Value>): (raw: Raw)
    ensures Decode(f, raw).Some? && Decode(f, raw) != v
  {
    match f
    case PowerOnBehavior => if v == Some(Text("on")) then U8(0) else U8(1)
    case ExternalTriggerMode => if v == Some(Text("pulse")) then U8(0) else U8(1)
    case DelayedPowerOnTime => if v == Some(Seconds(DelaySeconds(1))) then U16(2) else U16(1)
    case TurboMode => if v == Some(Flag(true)) then I16(TurboValue(false)) else I16(TurboValue(true))
    case _ => Bool(v != Some(Flag(true)))
  }

  function OtherField(f: Field): (g: Field)
    ensures g != f
  {
    if f.NetworkIndicator? then DetachRelayMode else NetworkIndicator
  }

  /** One successful result. */
  function Got(f: Field, raw: Raw): ReadResult { ReadResult(Id(f), SUCCESS, raw) }

  lemma GotGives(attrs: Store, f: Field, raw: Raw, g: Field)
    requires AttrOf(f) in attrs && attrs[AttrOf(f)] == raw && Decode(f, raw).Some?
    ensures Truthful(attrs, [Got(f, raw)]) && AnyApplies([Got(f, raw)])
    ensures Latest([Got(f, raw)], g) == if f == g then Decode(f, raw) else None
  {
    assert FieldOf(Id(f)) == Some(f) && FieldOf(Id(g)) == Some(g);
    assert [Got(f, raw)][..0] == [];
    assert Applies([Got(f, raw)][0]);
  }

  /**
   In any world: the device gets a new value for the field, `r` reads another field only, `s` reads the field
   and ends, and then `r` ends and puts back what was cached before.
   */
  lemma OlderCopyStored(w: World, r: nat, s: nat, f: Field) returns (steps: seq<Step>, u: World)
    requires r !in w.pending && r != s
    ensures Reaches(Next(w, Begin(r)), steps, u) && r in u.pending
    ensures forall t :: t in steps && t.Finish? ==> t.r == s
    ensures AnyApplies(u.pending[r].results) && Latest(u.pending[r].results, f).None?
    ensures Get(u.cache, f) == Shown(u.attrs, f) != Get(w.cache, f) == Get(Next(u, Finish(r)).cache, f)
  {
    var b, g, raw := Next(w, Begin(r)), OtherField(f), Unlike(f, Get(w.cache, f));
    var first, d, got := NewValues(b, r, f, raw, g, Unlike(g, None));
    var more;
    more, u := ReadsAndEnds(d, s, f, raw);
    Concat(b, first, d, more, u);
    steps := first + more;
    LastValueWins(w.cache, got, f);
  }

  /** The device gets new values for two fields, and read `r`, which has nothing yet, gets one of them. */
  lemma NewValues(b: World, r: nat, f: Field, raw: Raw, g: Field, other: Raw)
      returns (steps: seq<Step>, d: World, got: seq<ReadResult>)
    requires r in b.pending && b.pending[r].results == [] && f != g && Decode(g, other).Some?
    ensures Reaches(b, steps, d) && forall t :: t in steps ==> !t.Finish?
    ensures AttrOf(f) in d.attrs && d.attrs[AttrOf(f)] == raw
    ensures d.cache == b.cache && d.pending == b.pending[r := Pending(b.pending[r].next, got)]
    ensures AnyApplies(got) && Latest(got, f).None?
  {
    var vals := map[AttrOf(f) := raw, AttrOf(g) := other];
    assert AttrOf(f) != AttrOf(g) by { assert FieldOf(Id(f)) == Some(f) && FieldOf(Id(g)) == Some(g); }
    var attrs := b.attrs + vals;
    got := [Got(g, other)];
    GotGives(attrs, g, other, f);
    steps, d := WriteThenAnswer(b, r, vals, got);
  }

  lemma WriteThenAnswer(b: World, r: nat, vals: Store, got: seq<ReadResult>) returns (steps: seq<Step>, d: World)
    requires r in b.pending && b.pending[r].results == [] && Truthful(b.attrs + vals, got)
    ensures Reaches(b, steps, d) && forall t :: t in steps ==> !t.Finish?
    ensures d.attrs == b.attrs + vals && d.cache == b.cache
    ensures d.pending == b.pending[r := Pending(b.pending[r].next, got)]
  {
    var c := Next(b, Write(vals));
    var x := Answer(r, Now(c), got);
    d := Next(c, x);
    assert [] + got == got;
    steps := [Write(vals), x];
    assert steps[1..] == [x] && [x][1..] == [];
    assert Reaches(c, [x], d);
  }

  /** Any other read, begun already or not, can get the field now and end. */
  lemma ReadsAndEnds(w: World, s: nat, f: Field, raw: Raw) returns (steps: seq<Step>, u: World)
    requires AttrOf(f) in w.attrs && w.attrs[AttrOf(f)] == raw && Decode(f, raw).Some?
    ensures Reaches(w, steps, u) && u.attrs == w.attrs && Get(u.cache, f) == Decode(f, raw)
    ensures forall t :: t in steps && t.Finish? ==> t.r == s
    ensures forall q :: q in w.pending && q != s ==> q in u.pending && u.pending[q] == w.pending[q]
  {
    var a, started := w, [];
    if s !in w.pending {
      a := Next(w, Begin(s));
      Snoc(w, [], w, Begin(s));
      started := [] + [Begin(s)];
    }
    GotGives(w.attrs, f, raw, f);
    var x := Answer(s, Now(a), [Got(f, raw)]);
    var b := Next(a, x);
    u := Next(b, Finish(s));
    Snoc(w, started, a, x);
    Snoc(w, started + [x], b, Finish(s));
    steps := started + [x] + [Finish(s)];
    LatestConcat(a.pending[s].results, x.results, f);
    AnyAppliesConcat(a.pending[s].results, x.results);
    LastValueWins(b.pending[s].next, b.pending[s].results, f);
  }

  // ---------------------------------------------------------------- late answers

  /** No read ends, and no patch writes the field. */
  predicate Alone(steps: seq<Step>, f: Field) {
    forall i :: 0 <= i < |steps| ==> !steps[i].Finish? && !(steps[i].Write? && AttrOf(f) in steps[i].vals)
  }

  /** No answer to `r` is older than time `from`. */
  predicate Since(steps: seq<Step>, r: nat, from: nat) {
    forall i :: 0 <= i < |steps| && steps[i].Answer? && steps[i].r == r ==> from <= steps[i].at
  }

  /** Whatever the device has meant by the field from time `from` on, it means now. */
  predicate SteadySince(w: World, f: Field, from: nat) {
    forall at :: from <= at <= Now(w) && Shown(StoreAt(w, at), f).Some? ==>
                   Shown(StoreAt(w, at), f) == Shown(w.attrs, f)
  }

  lemma SteadyStep(w: World, s: Step, f: Field, from: nat)
    requires Enabled(w, s) && SteadySince(w, f, from) && !(s.Write? && AttrOf(f) in s.vals)
    ensures SteadySince(Next(w, s), f, from) && Shown(Next(w, s).attrs, f) == Shown(w.attrs, f)
  {
    var v := Next(w, s);
    forall at | from <= at <= Now(v) && Shown(StoreAt(v, at), f).Some?
      ensures Shown(StoreAt(v, at), f) == Shown(v.attrs, f)
    {
      if at <= Now(w) { assert StoreAt(v, at) == StoreAt(w, at); }
    }
  }

  /** While steady, what a read collects for the field is what the device shows. */
  lemma {:induction false} AloneKeeps(w: World, steps: seq<Step>, v: World, r: nat, f: Field, from: nat)
    requires Reaches(w, steps, v) && Alone(steps, f) && Since(steps, r, from) && SteadySince(w, f, from)
    requires r in w.pending
    requires Latest(w.pending[r].results, f).Some? ==> Latest(w.pending[r].results, f) == Shown(w.attrs, f)
    ensures v.cache == w.cache && Shown(v.attrs, f) == Shown(w.attrs, f) && r in v.pending
    ensures Latest(v.pending[r].results, f).Some? ==> Latest(v.pending[r].results, f) == Shown(v.attrs, f)
    decreases |steps|
  {
    if steps != [] {
      var s := steps[0];
      SteadyStep(w, s, f, from);
      if s.Answer? && s.r == r {
        LatestConcat(w.pending[r].results, s.results, f);
        if Latest(s.results, f).Some? { LatestIsShown(StoreAt(w, s.at), s.results, f); }
      }
      assert forall i :: 0 <= i < |steps| - 1 ==> steps[1..][i] == steps[i + 1];
      AloneKeeps(Next(w, s), steps[1..], v, r, f, from);
    }
  }

  lemma AloneHasNoFinish(steps: seq<Step>, r: nat, f: Field)
    requires Alone(steps, f)
    ensures Finish(r) !in steps
  {
    if i :| 0 <= i < |steps| && steps[i] == Finish(r) { assert false; }
  }

  /** A run in which `r`, alone and with no answer older than `from`, gets the field and is about to end. */
  ghost predicate GetsField(w: World, r: nat, f: Field, from: nat, steps: seq<Step>, u: World)
    requires Enabled(w, Begin(r))
  {
    && Reaches(Next(w, Begin(r)), steps, u) && Alone(steps, f) && Since(steps, r, from)
    && r in u.pending && Latest(u.pending[r].results, f).Some?
  }

  ghost predicate AlwaysCurrent(w: World, r: nat, f: Field, from: nat)
    requires Enabled(w, Begin(r))
  {
    forall steps, u :: GetsField(w, r, f, from, steps, u) ==> Get(Next(u, Finish(r)).cache, f) == Shown(u.attrs, f)
  }

  /**
   How late answers may be. A field that is read alone is sure to be cached as the device shows it exactly when
   the device has not meant anything else by it since the oldest time an answer may come from.
   */
  lemma CurrentIff(w: World, r: nat, f: Field, from: nat)
    requires r !in w.pending
    ensures AlwaysCurrent(w, r, f, from) <==> SteadySince(w, f, from)
  {
    var b := Next(w, Begin(r));
    if SteadySince(w, f, from) {
      forall steps, u | GetsField(w, r, f, from, steps, u)
        ensures Get(Next(u, Finish(r)).cache, f) == Shown(u.attrs, f)
      {
        SteadyStep(w, Begin(r), f, from);
        AloneKeeps(b, steps, u, r, f, from);
        AloneHasNoFinish(steps, r, f);
        FinishStores(w, r, steps, u, f);
        LatestApplies(u.pending[r].results, f);
      }
    } else {
      var at :| from <= at <= Now(w) && Shown(StoreAt(w, at), f).Some? && Shown(StoreAt(w, at), f) != Shown(w.attrs, f);
      var steps, u := LateAnswer(w, r, f, at);
      assert GetsField(w, r, f, from, steps, u);
    }
  }

  /** A read answered with what the device had at `at`. */
  lemma LateAnswer(w: World, r: nat, f: Field, at: nat) returns (steps: seq<Step>, u: World)
    requires r !in w.pending && at <= Now(w) && Shown(StoreAt(w, at), f).Some?
    ensures Reaches(Next(w, Begin(r)), steps, u) && Alone(steps, f) && Since(steps, r, at)
    ensures r in u.pending && Latest(u.pending[r].results, f).Some? && u.attrs == w.attrs
    ensures Get(Next(u, Finish(r)).cache, f) == Shown(StoreAt(w, at), f)
  {
    var got := [Got(f, StoreAt(w, at)[AttrOf(f)])];
    GotGives(StoreAt(w, at), f, StoreAt(w, at)[AttrOf(f)], f);
    u := OneAnswer(w, r, at, got);
    steps := [Answer(r, at, got)];
    FinishStores(w, r, steps, u, f);
  }

  lemma OneAnswer(w: World, r: nat, at: nat, got: seq<ReadResult>) returns (u: World)
    requires r !in w.pending && at <= Now(w) && Truthful(StoreAt(w, at), got)
    ensures Reaches(Next(w, Begin(r)), [Answer(r, at, got)], u)
    ensures r in u.pending && u.pending[r].results == got && u.attrs == w.attrs
  {
    var b, x := Next(w, Begin(r)), Answer(r, at, got);
    assert StoreAt(b, at) == StoreAt(w, at);
    u := Next(b, x);
    assert [] + got == got && [x][1..] == [];
  }

  /**
   If every answer to the read comes from after its beginning, no read ends meanwhile, and the field is not
   written: after the read the field is what the device shows if it was read, and as it was otherwise.
   */
  lemma AloneIsCurrent(w: World, r: nat, steps: seq<Step>, u: World, f: Field)
    requires Enabled(w, Begin(r)) && Reaches(Next(w, Begin(r)), steps, u)
    requires Alone(steps, f) && Since(steps, r, Now(w))
    ensures r in u.pending && Shown(u.attrs, f) == Shown(w.attrs, f)
    ensures Get(Next(u, Finish(r)).cache, f) ==
              if Latest(u.pending[r].results, f).Some? then Shown(u.attrs, f) else Get(u.cache, f)
  {
    SteadyStep(w, Begin(r), f, Now(w));
    AloneKeeps(Next(w, Begin(r)), steps, u, r, f, Now(w));
    AloneHasNoFinish(steps, r, f);
    FinishStores(w, r, steps, u, f);
    if Latest(u.pending[r].results, f).Some? { LatestApplies(u.pending[r].results, f); }
  }

  /**
   Apply then read, with late answers about. Once a patch has been written, a read alone whose answers come from
   after its beginning caches each field it gets in canonical form if the patch mentions it, and as the device had
   it before the patch otherwise; the fields it does not get stay as they were.
   */
  lemma PatchThenRead(w: World, p: Patch, r: nat, steps: seq<Step>, u: World, f: Field)
    requires Refuses(p).None? && r !in w.pending
    requires var v := Next(w, Write(StartupVals(p) + EwelinkVals(p)));
             Reaches(Next(v, Begin(r)), steps, u) && Alone(steps, f) && Since(steps, r, Now(v))
    ensures r in u.pending
    ensures Get(Next(u, Finish(r)).cache, f) ==
              if Latest(u.pending[r].results, f).None? then Get(u.cache, f)
              else if Mentions(p, f) then Some(Canonical(p, f))
              else Shown(w.attrs, f)
  {
    var v := Next(w, Write(StartupVals(p) + EwelinkVals(p)));
    AloneIsCurrent(v, r, steps, u, f);
    PatchVals(p, f);
    EncodedDecodes(p, f);
  }
}
