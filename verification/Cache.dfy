/**
 The registry together with its cache file, over whole runs with restarts. saveCache reads the
 registry under the lock and writes the file after releasing it, so several saves can be under way and
 their writes can land in any order.
 */
module Cache {
  import opened Common
  import opened Ieee
  import opened Registry

  /** What a save read, and when. */
  datatype Snapshot = Snapshot(reg: Reg, at: nat)

  datatype World = World(reg: Reg, saves: set<Snapshot>, disk: Option<Snapshot>, removing: set<string>, clock: nat)

  datatype Step =
    | Section(op: Op)
    | RemoveFound(ieee: string)
    | SaveRead
    | SaveWrite(s: Snapshot)
    | Restart

  const FRESH: World := World(NO_DEVICES, {}, None, {}, 0)

  predicate Misfiled(d: Device) { d.tag.kind.Plug? && IsSonoffMini(d) }

  /** loadCache's only change: a plug that is really a ZBMINIR2 becomes a relay. */
  function Migrated(d: Device): Device {
    if Misfiled(d) then d.(tag := d.tag.(kind := Relay)) else d
  }

  /** A plug of one of the two models becomes a relay; nothing else changes in any device. */
  lemma MigratedIs(d: Device)
    ensures Migrated(d) ==
            d.(tag := d.tag.(kind := if d.tag.kind == Plug && d.info.model in {"ZBMINIR2", "MINI-ZBD"} then Relay
                                     else d.tag.kind))
  {
  }

  function Migrate(reg: Reg): Reg {
    reg.(devices := map k | k in reg.devices :: Migrated(reg.devices[k]))
  }

  /** The cache file: a record per address, and the forgotten addresses in any order. */
  datatype CacheFile = CacheFile(devices: map<string, Device>, forgotten: seq<string>)

  function FileReg(cf: CacheFile): Reg { Reg(cf.devices, set k | k in cf.forgotten) }

  /** The registry after loading the given entries of a file, in order. */
  function LoadInOrder(before: Reg, cf: CacheFile, order: seq<string>): Reg
    requires forall j :: j in order ==> j in cf.devices
  {
    if order == [] then before
    else
      var j := order[|order| - 1];
      With(LoadInOrder(before, cf, order[..|order| - 1]), CompactIEEE(j), Migrated(cf.devices[j]))
  }

  /** The record at `k` is that of a loaded entry, or of `before` if no entry loaded was for `k`. */
  ghost predicate LoadedAt(before: Reg, cf: CacheFile, done: set<string>, after: Reg, k: string)
    requires done <= cf.devices.Keys && k in after.devices
  {
    || (exists j :: j in done && CompactIEEE(j) == k && after.devices[k] == Migrated(cf.devices[j]))
    || (k in before.devices && after.devices[k] == before.devices[k] && forall j :: j in done ==> CompactIEEE(j) != k)
  }

  /** What loading a file on top of `before` may leave, whatever order its entries come in. */
  ghost predicate Loaded(before: Reg, cf: CacheFile, after: Reg) {
    && after.devices.Keys == before.devices.Keys + (set j | j in cf.devices :: CompactIEEE(j))
    && (forall k :: k in after.devices ==> LoadedAt(before, cf, cf.devices.Keys, after, k))
    && after.forgotten == before.forgotten + set j | j in cf.forgotten :: CompactIEEE(j)
  }

  lemma {:induction false} AnyOrderLoads(before: Reg, cf: CacheFile, order: seq<string>)
    requires forall j :: j in order ==> j in cf.devices
    ensures var done := set j | j in order; var after := LoadInOrder(before, cf, order);
            && after.forgotten == before.forgotten
            && after.devices.Keys == before.devices.Keys + (set j | j in order :: CompactIEEE(j))
            && forall k :: k in after.devices ==> LoadedAt(before, cf, done, after, k)
  {
    if order != [] {
      var n := |order| - 1;
      AnyOrderLoads(before, cf, order[..n]);
      assert order == order[..n] + [order[n]];
      var mid, after := LoadInOrder(before, cf, order[..n]), LoadInOrder(before, cf, order);
      forall k | k in after.devices ensures LoadedAt(before, cf, (set j | j in order), after, k) {
        if k != CompactIEEE(order[n]) {
          assert LoadedAt(before, cf, (set j | j in order[..n]), mid, k);
        }
      }
    }
  }

  /** A file that a sound registry was saved to loads, into a new hub, as that registry migrated. */
  lemma LoadedFromSave(cf: CacheFile, after: Reg)
    requires RegOk(FileReg(cf)) && Loaded(NO_DEVICES, cf, after)
    ensures after == Migrate(FileReg(cf))
  {
    SavedKeys(cf);
    assert after.devices.Keys == cf.devices.Keys;
    forall k | k in after.devices ensures after.devices[k] == Migrated(cf.devices[k]) {
      assert LoadedAt(NO_DEVICES, cf, cf.devices.Keys, after, k);
    }
    assert after.devices == Migrate(FileReg(cf)).devices;
    assert after.forgotten == FileReg(cf).forgotten;
  }

  lemma SavedKeys(cf: CacheFile)
    requires RegOk(FileReg(cf))
    ensures forall j :: j in cf.devices ==> CompactIEEE(j) == j
    ensures forall j :: j in cf.forgotten ==> CompactIEEE(j) == j
  {
    forall j | j in cf.devices ensures CompactIEEE(j) == j {
      assert DeviceOk(j, FileReg(cf).devices[j]);
      CompactCanonical(j);
    }
    forall j | j in cf.forgotten ensures CompactIEEE(j) == j {
      assert j in FileReg(cf).forgotten;
      CompactCanonical(j);
    }
  }

  predicate Enabled(w: World, s: Step) {
    match s
    case Section(Refresh(rows)) => forall r :: r in rows ==> Canonical(r.ieee)
    case Section(Join(ieee, _)) => Canonical(ieee)
    case Section(Remove(ieee)) => CompactIEEE(ieee) in w.removing
    case Section(_) => true
    case RemoveFound(ieee) => CompactIEEE(ieee) in w.reg.devices
    case SaveRead => true
    case SaveWrite(x) => x in w.saves
    case Restart => true
  }

  function Next(hints: Hints, w: World, s: Step): World {
    var w := w.(clock := w.clock + 1);
    match s
    case Section(op) => w.(reg := Apply(hints, w.reg, op))
    case RemoveFound(ieee) => w.(removing := w.removing + {CompactIEEE(ieee)})
    case SaveRead => w.(saves := w.saves + {Snapshot(w.reg, w.clock)})
    case SaveWrite(x) => w.(disk := Some(x), saves := w.saves - {x})
    case Restart =>
      w.(reg := if w.disk.Some? then Migrate(w.disk.value.reg) else NO_DEVICES, saves := {}, removing := {})
  }

  ghost predicate Reaches(hints: Hints, w: World, steps: seq<Step>, v: World)
    decreases |steps|
  {
    if steps == [] then v == w
    else Enabled(w, steps[0]) && Reaches(hints, Next(hints, w, steps[0]), steps[1..], v)
  }

  // ---------------------------------------------------------------- the registry invariant over runs

  ghost predicate Inv(w: World) {
    && RegOk(w.reg)
    && (forall x :: x in w.saves ==> RegOk(x.reg) && x.at <= w.clock)
    && (w.disk.Some? ==> RegOk(w.disk.value.reg) && w.disk.value.at <= w.clock)
    && (forall k :: k in w.removing ==> Canonical(k))
  }

  lemma MigrateKeeps(reg: Reg)
    requires RegOk(reg)
    ensures RegOk(Migrate(reg))
  {
  }

  lemma StepKeeps(hints: Hints, w: World, s: Step)
    requires Inv(w) && Enabled(w, s)
    ensures Inv(Next(hints, w, s))
  {
    match s
    case Section(op) => ApplyKeeps(hints, w.reg, op);
    case Restart => if w.disk.Some? { MigrateKeeps(w.disk.value.reg); }
    case RemoveFound(_) =>
    case SaveRead =>
    case SaveWrite(_) =>
  }

  /**
   In every reachable state, across restarts and whatever order saves land in: no device is both
   registered and forgotten, every key is canonical and is its device's address, and a reachable
   device shows no error.
   */
  lemma {:induction false} RegistrySound(hints: Hints, w: World, steps: seq<Step>, v: World)
    requires Inv(w) && Reaches(hints, w, steps, v)
    ensures Inv(v)
    decreases |steps|
  {
    if steps != [] {
      StepKeeps(hints, w, steps[0]);
      RegistrySound(hints, Next(hints, w, steps[0]), steps[1..], v);
    }
  }

  // ---------------------------------------------------------------- load after save

  /** Loading what was saved is the identity up to the migration, which loading again does not repeat. */
  lemma LoadAfterSave(hints: Hints, w: World)
    ensures var x := Snapshot(w.reg, w.clock + 1);
            var saved := Next(hints, Next(hints, w, SaveRead), SaveWrite(x));
            Next(hints, saved, Restart).reg == Migrate(w.reg)
    ensures Migrate(Migrate(w.reg)) == Migrate(w.reg)
    ensures Migrate(w.reg) == w.reg <==> forall k :: k in w.reg.devices ==> !Misfiled(w.reg.devices[k])
  {
    var m := Migrate(w.reg);
    if exists k :: k in w.reg.devices && Misfiled(w.reg.devices[k]) {
      var k :| k in w.reg.devices && Misfiled(w.reg.devices[k]);
      assert m.devices[k].tag.kind == Relay;
    }
  }

  // ---------------------------------------------------------------- labels over runs

  /** Memory, and every snapshot read since `since`, has the property. */
  ghost predicate Held(w: World, p: Reg -> bool, since: nat) {
    && p(w.reg)
    && (forall x :: x in w.saves && x.at > since ==> p(x.reg))
    && (w.disk.Some? && w.disk.value.at > since ==> p(w.disk.value.reg))
    && since <= w.clock
  }

  /** No section is barred, and every restart loads a snapshot read after `since`. */
  ghost predicate Undisturbed(hints: Hints, w: World, steps: seq<Step>, barred: Op -> bool, since: nat)
    decreases |steps|
  {
    steps == [] ||
    var s := steps[0];
    && (s.Section? ==> !barred(s.op))
    && (s.Restart? ==> w.disk.Some? && w.disk.value.at > since)
    && Undisturbed(hints, Next(hints, w, s), steps[1..], barred, since)
  }

  /** Unbarred sections and the migration keep the property. */
  ghost predicate Inductive(hints: Hints, p: Reg -> bool, barred: Op -> bool) {
    && (forall reg, op :: RegOk(reg) && Sound(op) && p(reg) && !barred(op) ==> p(Apply(hints, reg, op)))
    && (forall reg :: p(reg) ==> p(Migrate(reg)))
  }

  /**
   A property that the sections of a run keep holds to its end, restarts included, as long as each
   restart loads a cache that was read after the property was established.
   */
  lemma {:induction false} Stable(hints: Hints, w: World, steps: seq<Step>, v: World,
                                  p: Reg -> bool, barred: Op -> bool, since: nat)
    requires Inductive(hints, p, barred) && Inv(w) && Held(w, p, since)
    requires Reaches(hints, w, steps, v) && Undisturbed(hints, w, steps, barred, since)
    ensures p(v.reg) && Held(v, p, since)
    decreases |steps|
  {
    if steps != [] {
      var s := steps[0];
      StepKeeps(hints, w, s);
      assert s.Section? ==> Sound(s.op);
      Stable(hints, Next(hints, w, s), steps[1..], v, p, barred, since);
    }
  }

  /** The registry holds device `k` under the user's name. */
  predicate Labelled(reg: Reg, k: string, name: string) {
    k in reg.devices && reg.devices[k].tag.userLabel && reg.devices[k].tag.name == name
  }

  /** The registry holds device `k` labelled by the user, with a kind `kind` may have drifted to. */
  predicate Typed(reg: Reg, k: string, kind: Kind) {
    k in reg.devices && reg.devices[k].tag.userLabel && Drifts(kind, reg.devices[k].tag.kind)
  }

  function HasLabel(k: string, name: string): Reg -> bool { (reg: Reg) => Labelled(reg, k, name) }

  function HasKind(k: string, kind: Kind): Reg -> bool { (reg: Reg) => Typed(reg, k, kind) }

  function Knows(k: string): Reg -> bool { (reg: Reg) => k in reg.devices }

  function Forgot(k: string): Reg -> bool { (reg: Reg) => k in reg.forgotten }

  function Renaming(k: string): Op -> bool { (op: Op) => Renames(op, k) || Removes(op, k) }

  function Retyping(k: string): Op -> bool { (op: Op) => Retypes(op, k) || Removes(op, k) }

  function Removing(k: string): Op -> bool { (op: Op) => Removes(op, k) }

  function Joining(k: string): Op -> bool { (op: Op) => op.Join? && CompactIEEE(op.ieee) == k }

  /**
   Label stability over whole runs. A name the user gave stays, and stays the user's, until the next
   renaming or removal, through any joins, interviews, refreshes, reports and saves, and through every
   restart from a cache that was read after the name was given.
   */
  lemma LabelStable(hints: Hints, w: World, steps: seq<Step>, v: World, k: string, name: string, since: nat)
    requires Inv(w) && Held(w, HasLabel(k, name), since) && Reaches(hints, w, steps, v)
    requires Undisturbed(hints, w, steps, Renaming(k), since)
    ensures Labelled(v.reg, k, name)
  {
    LabelHeld(hints, w, steps, v, k, name, since);
  }

  lemma LabelHeld(hints: Hints, w: World, steps: seq<Step>, v: World, k: string, name: string, since: nat)
    requires Inv(w) && Held(w, HasLabel(k, name), since) && Reaches(hints, w, steps, v)
    requires Undisturbed(hints, w, steps, Renaming(k), since)
    ensures Held(v, HasLabel(k, name), since)
  {
    var p, barred := HasLabel(k, name), Renaming(k);
    forall reg, op | p(reg) && !barred(op) ensures p(Apply(hints, reg, op)) {
      LabelSurvives(hints, reg, op, k);
    }
    Stable(hints, w, steps, v, p, barred, since);
  }

  /**
   The kind of a labelled device, in the same circumstances, is what the user gave, or motion after
   sensor or unknown, or relay after plug; only an update changes it otherwise.
   */
  lemma KindStable(hints: Hints, w: World, steps: seq<Step>, v: World, k: string, kind: Kind, since: nat)
    requires Inv(w) && Held(w, HasKind(k, kind), since) && Reaches(hints, w, steps, v)
    requires Undisturbed(hints, w, steps, Retyping(k), since)
    ensures Typed(v.reg, k, kind)
    ensures var now := v.reg.devices[k].tag.kind;
            now == kind || (kind in {Sensor, Unknown} && now == Motion) || (kind == Plug && now == Relay)
  {
    var p, barred := HasKind(k, kind), Retyping(k);
    forall reg, op | p(reg) && !barred(op) ensures p(Apply(hints, reg, op)) {
      LabelSurvives(hints, reg, op, k);
      DriftsOn(kind, reg.devices[k].tag.kind, Apply(hints, reg, op).devices[k].tag.kind);
    }
    Stable(hints, w, steps, v, p, barred, since);
  }

  /** A removed device stays away, in the same circumstances, until it joins again. */
  lemma RemovedStaysAway(hints: Hints, w: World, steps: seq<Step>, v: World, k: string, since: nat)
    requires Inv(w) && Held(w, Forgot(k), since) && Reaches(hints, w, steps, v)
    requires Undisturbed(hints, w, steps, Joining(k), since)
    ensures k in v.reg.forgotten && k !in v.reg.devices
  {
    var p, barred := Forgot(k), Joining(k);
    forall reg, op | RegOk(reg) && Sound(op) && p(reg) && !barred(op) ensures p(Apply(hints, reg, op)) {
      if !p(Apply(hints, reg, op)) { OnlyJoinReturns(hints, reg, op, k); }
    }
    Stable(hints, w, steps, v, p, barred, since);
    RegistrySound(hints, w, steps, v);
  }

  /** A registered device stays registered, in the same circumstances, until it is removed. */
  lemma RegisteredStays(hints: Hints, w: World, steps: seq<Step>, v: World, k: string, since: nat)
    requires Inv(w) && Held(w, Knows(k), since) && Reaches(hints, w, steps, v)
    requires Undisturbed(hints, w, steps, Removing(k), since)
    ensures k in v.reg.devices
  {
    var p, barred := Knows(k), Removing(k);
    forall reg, op | RegOk(reg) && Sound(op) && p(reg) && !barred(op) ensures p(Apply(hints, reg, op)) {
      if !p(Apply(hints, reg, op)) { OnlyRemoveDeletes(hints, reg, op, k); }
    }
    Stable(hints, w, steps, v, p, barred, since);
  }

  /** So the name an update gives stays, whatever happens next, until it is changed or the device removed. */
  lemma UpdateThenStable(hints: Hints, w: World, op: Op, k: string, steps: seq<Step>, v: World)
    requires Inv(w) && Renames(op, k) && k in w.reg.devices && (op.kind.Blank? || ValidKind(op.kind))
    requires var u := Next(hints, w, Section(op));
             Reaches(hints, u, steps, v) && Undisturbed(hints, u, steps, Renaming(k), u.clock)
    ensures Labelled(v.reg, k, op.name)
  {
    var u := Next(hints, w, Section(op));
    StepKeeps(hints, w, Section(op));
    LabelStable(hints, u, steps, v, k, op.name, u.clock);
  }

  /** And a device that is removed stays away until it joins again. */
  lemma RemoveThenAway(hints: Hints, w: World, ieee: string, steps: seq<Step>, v: World)
    requires Inv(w) && Enabled(w, Section(Remove(ieee)))
    requires var u := Next(hints, w, Section(Remove(ieee)));
             Reaches(hints, u, steps, v) && Undisturbed(hints, u, steps, Joining(CompactIEEE(ieee)), u.clock)
    ensures CompactIEEE(ieee) in v.reg.forgotten && CompactIEEE(ieee) !in v.reg.devices
  {
    var u := Next(hints, w, Section(Remove(ieee)));
    StepKeeps(hints, w, Section(Remove(ieee)));
    RemovedStaysAway(hints, u, steps, v, CompactIEEE(ieee), u.clock);
  }

  /** Snapshots read no later than `since` do not hold the label. */
  ghost predicate OldUnlabelled(w: World, k: string, name: string, since: nat) {
    && since <= w.clock
    && (forall x :: x in w.saves && x.at <= since ==> !Labelled(x.reg, k, name))
    && (w.disk.Some? && w.disk.value.at <= since ==> !Labelled(w.disk.value.reg, k, name))
  }

  lemma OldStepKeeps(hints: Hints, w: World, s: Step, k: string, name: string, since: nat)
    requires OldUnlabelled(w, k, name, since) && Enabled(w, s)
    ensures OldUnlabelled(Next(hints, w, s), k, name, since)
  {
  }

  lemma {:induction false} OldUnlabelledOverRun(hints: Hints, w: World, steps: seq<Step>, v: World,
                                                k: string, name: string, since: nat)
    requires OldUnlabelled(w, k, name, since) && Reaches(hints, w, steps, v)
    ensures OldUnlabelled(v, k, name, since)
    decreases |steps|
  {
    if steps != [] {
      OldStepKeeps(hints, w, steps[0], k, name, since);
      OldUnlabelledOverRun(hints, Next(hints, w, steps[0]), steps[1..], v, k, name, since);
    }
  }

  /**
   Which save landed last decides. Anywhere in such a run, if no snapshot from before the label was given
   holds it, a restart keeps the label exactly when the file is one that was read after it was given.
   */
  lemma RestartKeepsLabelIff(hints: Hints, w: World, steps: seq<Step>, v: World, k: string, name: string, since: nat)
    requires Inv(w) && Held(w, HasLabel(k, name), since) && OldUnlabelled(w, k, name, since)
    requires Reaches(hints, w, steps, v) && Undisturbed(hints, w, steps, Renaming(k), since)
    ensures Labelled(Next(hints, v, Restart).reg, k, name) <==> v.disk.Some? && v.disk.value.at > since
  {
    OldUnlabelledOverRun(hints, w, steps, v, k, name, since);
    LabelHeld(hints, w, steps, v, k, name, since);
  }

  /** The same for the name an update gives, if no earlier snapshot has it as the user's name already. */
  lemma UpdateSurvivesRestartIff(hints: Hints, w: World, op: Op, k: string, steps: seq<Step>, v: World)
    requires Inv(w) && Renames(op, k) && k in w.reg.devices && (op.kind.Blank? || ValidKind(op.kind))
    requires OldUnlabelled(w, k, op.name, w.clock)
    requires var u := Next(hints, w, Section(op));
             Reaches(hints, u, steps, v) && Undisturbed(hints, u, steps, Renaming(k), u.clock)
    ensures var given := Next(hints, w, Section(op)).clock;
            Labelled(Next(hints, v, Restart).reg, k, op.name) <==> v.disk.Some? && v.disk.value.at > given
  {
    var u := Next(hints, w, Section(op));
    StepKeeps(hints, w, Section(op));
    RestartKeepsLabelIff(hints, u, steps, v, k, op.name, u.clock);
  }

  /**
   Freshness is needed: with two saves under way, the older one can be written last, and a restart
   then loses the name the user gave although a save of it was already on disk.
   */
  lemma OlderSaveWins(hints: Hints, k: string, name: string) returns (steps: seq<Step>, w: World, v: World)
    requires Canonical(k) && !IsZeroIEEE(k) && name != "" && name != k
    ensures Reaches(hints, FRESH, steps, w) && Labelled(w.reg, k, name)
    ensures w.disk.Some? && Labelled(w.disk.value.reg, k, name)
    ensures exists older :: Reaches(hints, w, [SaveWrite(older), Restart], v)
    ensures k in v.reg.devices && v.reg.devices[k].tag.name == k
  {
    var older, newer;
    steps, w, older, newer := TwoSavesUnderWay(hints, k, name);
    steps, w := Extend(hints, steps, w, SaveWrite(newer));
    var u := Next(hints, w, SaveWrite(older));
    v := Next(hints, u, Restart);
    assert [SaveWrite(older), Restart][1..] == [Restart] && [Restart][1..] == [];
    assert Reaches(hints, u, [Restart], v);
    assert Reaches(hints, w, [SaveWrite(older), Restart], v);
  }

  lemma TwoSavesUnderWay(hints: Hints, k: string, name: string)
      returns (steps: seq<Step>, w: World, older: Snapshot, newer: Snapshot)
    requires Canonical(k) && !IsZeroIEEE(k) && name != ""
    ensures Reaches(hints, FRESH, steps, w) && Labelled(w.reg, k, name)
    ensures older in w.saves && newer in w.saves && older != newer && Labelled(newer.reg, k, name)
    ensures k in older.reg.devices && older.reg.devices[k].tag.name == k && !Misfiled(older.reg.devices[k])
  {
    var joined, updated := JoinThenUpdate(hints, k, name);
    older, newer := Snapshot(joined, 2), Snapshot(updated, 4);
    steps, w := SavedAfterEach(hints, Join(k, 1), joined, Update(k, name, Blank, None), updated);
  }

  lemma SavedAfterEach(hints: Hints, one: Op, a: Reg, two: Op, b: Reg) returns (steps: seq<Step>, w: World)
    requires Enabled(FRESH, Section(one)) && a == Apply(hints, NO_DEVICES, one)
    requires two.Update? && b == Apply(hints, a, two)
    ensures Reaches(hints, FRESH, steps, w) && w.reg == b
    ensures w.saves == {Snapshot(a, 2), Snapshot(b, 4)}
  {
    steps, w := ApplyAndSave(hints, [], FRESH, one, a);
    steps, w := ApplyAndSave(hints, steps, w, two, b);
  }

  lemma ApplyAndSave(hints: Hints, before: seq<Step>, u: World, op: Op, reg: Reg) returns (steps: seq<Step>, w: World)
    requires Reaches(hints, FRESH, before, u) && Enabled(u, Section(op)) && reg == Apply(hints, u.reg, op)
    ensures Reaches(hints, FRESH, steps, w)
    ensures w == World(reg, u.saves + {Snapshot(reg, u.clock + 2)}, u.disk, u.removing, u.clock + 2)
  {
    steps, w := Extend(hints, before, u, Section(op));
    steps, w := Extend(hints, steps, w, SaveRead);
  }

  lemma JoinThenUpdate(hints: Hints, k: string, name: string) returns (joined: Reg, updated: Reg)
    requires Canonical(k) && !IsZeroIEEE(k) && name != ""
    ensures joined == Apply(hints, NO_DEVICES, Join(k, 1))
    ensures updated == Apply(hints, joined, Update(k, name, Blank, None))
    ensures k in joined.devices && joined.devices[k].tag.name == k && !Misfiled(joined.devices[k])
    ensures Labelled(updated, k, name)
  {
    CompactCanonical(k);
    joined := Apply(hints, NO_DEVICES, Join(k, 1));
    updated := Apply(hints, joined, Update(k, name, Blank, None));
  }

  lemma Extend(hints: Hints, steps: seq<Step>, w: World, s: Step) returns (longer: seq<Step>, v: World)
    requires Reaches(hints, FRESH, steps, w) && Enabled(w, s)
    ensures longer == steps + [s] && v == Next(hints, w, s) && Reaches(hints, FRESH, longer, v)
  {
    longer, v := steps + [s], Next(hints, w, s);
    Snoc(hints, FRESH, steps, w, s);
  }

  lemma {:induction false} Snoc(hints: Hints, u: World, steps: seq<Step>, w: World, s: Step)
    requires Reaches(hints, u, steps, w) && Enabled(w, s)
    ensures Reaches(hints, u, steps + [s], Next(hints, w, s))
    decreases |steps|
  {
    if steps == [] {
      assert ([] + [s])[1..] == [];
    } else {
      Snoc(hints, Next(hints, u, steps[0]), steps[1..], w, s);
      assert (steps + [s])[1..] == steps[1..] + [s];
    }
  }
}
