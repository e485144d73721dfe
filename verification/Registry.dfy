/**
 The device registry as a value: the devices and forgotten addresses, and what each critical section
 under `mu` does to them. HubState.dfy updates the same registry in place.
 */
module Registry {
  import opened Common
  import opened Strings
  import opened Ieee
  import RelayConfig

  /** The device classes; `Blank` is the empty string and `Odd` any other text. */
  datatype Kind = Light | Plug | Relay | Switch | Sensor | Motion | Unknown | Blank | Odd(text: string)

  predicate ValidKind(kind: Kind) { !kind.Blank? && !kind.Odd? }

  /**
   The fields of a device, grouped: what the user sees it as, what an interview found, whether it
   answers, and its state.
   */
  datatype Device = Device(ieee: string, nwkAddr: nat, tag: Label, info: Info, link: Link, state: State)

  datatype Label = Label(name: string, kind: Kind, userLabel: bool, isNew: bool, archived: bool)

  datatype Info = Info(manufacturer: string, model: string, endpoint: nat,
                       hasOnOff: bool, hasLevel: bool, hasOccupancy: bool)

  datatype Link = Link(reachable: bool, error: string)

  datatype State = State(on: Option<bool>, brightness: Option<nat>, occupancy: Option<bool>, lastClick: string,
                         clickSeq: nat, relay: Option<RelayConfig.Relay>)

  const UP: Link := Link(true, "")

  /** A device seen for the first time. */
  function NewDevice(ieee: string, isNew: bool): Device {
    Device(ieee, 0, Label(ieee, Unknown, false, isNew, false), Info("", "", 1, false, false, false), Link(false, ""),
           State(None, None, None, "", 0, None))
  }

  datatype Hint = Hint(name: string, kind: Kind)

  /** knownByIEEE, the optional hints built into the program. */
  type Hints = map<string, Hint>

  function Lookup(hints: Hints, ieee: string): Option<Hint> {
    if CompactIEEE(ieee) in hints then Some(hints[CompactIEEE(ieee)]) else None
  }

  datatype Reg = Reg(devices: map<string, Device>, forgotten: set<string>)

  /** The registry with one device's record replaced. */
  function With(reg: Reg, k: string, d: Device): Reg { reg.(devices := reg.devices[k := d]) }

  lemma WithTwice(reg: Reg, k: string, a: Device, b: Device)
    ensures With(With(reg, k, a), k, b) == With(reg, k, b)
  {
    assert reg.devices[k := a][k := b] == reg.devices[k := b];
  }

  const NO_DEVICES: Reg := Reg(map[], {})

  // ---------------------------------------------------------------- what happens to one device

  predicate IsSonoffMini(d: Device) { d.info.model == "ZBMINIR2" || d.info.model == "MINI-ZBD" }

  function Relabelled(l: Label, name: string, kind: Kind, archived: Option<bool>): Label {
    Label(
      if name != "" then name else l.name,
      if !kind.Blank? then kind else l.kind,
      l.userLabel || name != "" || !kind.Blank?,
      l.isNew && name == "" && kind.Blank?,
      if archived.Some? then archived.value else l.archived
    )
  }

  /** What an interview finds out; `inferred` is the kind its clusters suggest. */
  datatype Interview = Interview(manufacturer: string, model: string, hasOnOff: bool, hasLevel: bool,
                                 hasOccupancy: bool, endpoint: Option<nat>, inferred: Kind)

  /** The name an interview suggests. */
  function FoundName(i: Interview): Option<string> {
    if i.model != "" then Some(TrimSpace(i.manufacturer + " " + i.model)) else None
  }

  function InterviewLabel(hint: Option<Hint>, l: Label, i: Interview): Label {
    if l.userLabel then l
    else if hint.Some? then l.(name := hint.value.name, kind := hint.value.kind)
    else l.(kind := i.inferred, name := if FoundName(i).Some? then FoundName(i).value else l.name)
  }

  function Interviewed(hint: Option<Hint>, d: Device, i: Interview): Device {
    d.(tag := InterviewLabel(hint, d.tag, i),
       info := Info(i.manufacturer, i.model, if i.endpoint.Some? then i.endpoint.value else d.info.endpoint,
                    i.hasOnOff, i.hasLevel, i.hasOccupancy),
       link := d.link.(error := ""))
  }

  function Moved(d: Device, occ: bool): Device {
    d.(tag := if d.tag.kind.Sensor? || d.tag.kind.Unknown? then d.tag.(kind := Motion) else d.tag,
       info := d.info.(hasOccupancy := true),
       link := UP,
       state := d.state.(occupancy := Some(occ)))
  }

  /** One row of the coordinator's table, its address already formatted. */
  datatype Row = Row(ieee: string, nwk: nat)

  /** The coordinator's table lists the device. */
  function ListedLabel(hint: Option<Hint>, ieee: string, l: Label): Label {
    if l.userLabel then l
    else if hint.Some? then
      l.(name := hint.value.name, kind := if l.kind.Blank? || l.kind.Unknown? then hint.value.kind else l.kind)
    else if l.name == "" then l.(name := ieee, kind := Unknown)
    else l
  }

  function Listed(hint: Option<Hint>, d: Device, row: Row): Device {
    d.(nwkAddr := row.nwk, tag := ListedLabel(hint, row.ieee, d.tag))
  }

  function Clicked(d: Device, action: string): Device {
    d.(link := UP, state := d.state.(lastClick := action, clickSeq := (d.state.clickSeq + 1) % 0x1_0000_0000_0000_0000))
  }

  /** The state a successful command or read reports; None leaves a part alone. */
  datatype Reading = Reading(on: Option<bool>, brightness: Option<nat>, occupancy: Option<bool>)

  function Read(d: Device, r: Reading): Device {
    d.(link := UP,
       state := d.state.(on := if r.on.Some? then r.on else d.state.on,
                         brightness := if r.brightness.Some? then r.brightness else d.state.brightness,
                         occupancy := if r.occupancy.Some? then r.occupancy else d.state.occupancy))
  }

  // ---------------------------------------------------------------- critical sections

  datatype Op =
    | Refresh(rows: seq<Row>)
    | InterviewFailed(ieee: string, error: string)
    | InterviewDone(ieee: string, found: Interview)
    | Update(ieee: string, name: string, kind: Kind, archived: Option<bool>)
    | Remove(ieee: string)
    | Join(ieee: string, nwk: nat)
    | Unavailable(ieee: string, error: string)
    | Silent(ieee: string)
    | Reads(ieee: string, reading: Reading)
    | Click(ieee: string, action: string)
    | Occupied(ieee: string, occ: bool)
    | StoreRelay(ieee: string, relay: RelayConfig.Relay)
    | Readdress(ieee: string, nwk: nat)

  /** The sections that look up one device and change nothing else. */
  predicate OnOne(op: Op) { !op.Refresh? && !op.Remove? && !op.Join? }

  /** What such a section does to the device it finds. */
  function Changed(hint: Option<Hint>, d: Device, op: Op): Device
    requires OnOne(op)
  {
    match op
    case InterviewFailed(_, e) => d.(link := Link(false, e))
    case InterviewDone(_, i) => Interviewed(hint, d, i)
    case Update(_, name, kind, archived) =>
      if !kind.Blank? && !ValidKind(kind) then d else d.(tag := Relabelled(d.tag, name, kind, archived))
    case Unavailable(_, e) => d.(link := Link(false, e))
    case Silent(_) => d.(link := d.link.(reachable := false))
    case Reads(_, r) => Read(d, r)
    case Click(_, a) => Clicked(d, a)
    case Occupied(_, occ) => Moved(d, occ)
    case StoreRelay(_, r) => d.(link := UP, state := d.state.(relay := Some(r)))
    case Readdress(_, nwk) => d.(nwkAddr := nwk)
  }

  function RefreshRow(hints: Hints, reg: Reg, row: Row): Reg {
    if row.ieee in reg.forgotten then reg
    else
      var d := if row.ieee in reg.devices then reg.devices[row.ieee]
               else NewDevice(row.ieee, Lookup(hints, row.ieee).None?);
      With(reg, row.ieee, Listed(Lookup(hints, row.ieee), d, row))
  }

  function RefreshRows(hints: Hints, reg: Reg, rows: seq<Row>): Reg {
    if rows == [] then reg
    else RefreshRow(hints, RefreshRows(hints, reg, rows[..|rows| - 1]), rows[|rows| - 1])
  }

  function RowsSeen(rows: seq<Row>, forgotten: set<string>): set<string> {
    set r | r in rows && r.ieee !in forgotten :: r.ieee
  }

  function Lost(d: Device): Device { d.(link := d.link.(reachable := false)) }

  function Refreshed(hints: Hints, reg: Reg, rows: seq<Row>): Reg {
    var next := RefreshRows(hints, reg, rows);
    var seen := RowsSeen(rows, reg.forgotten);
    next.(devices := map k | k in next.devices ::
                       if k in seen then next.devices[k] else Lost(next.devices[k]))
  }

  function Admitted(reg: Reg, key: string, nwk: nat): Reg {
    var d := if key in reg.devices then reg.devices[key] else NewDevice(key, true);
    Reg(reg.devices[key := (if nwk != 0 then d.(nwkAddr := nwk) else d).(link := UP)], reg.forgotten - {key})
  }

  function Joined(reg: Reg, ieee: string, nwk: nat): Reg {
    var key := CompactIEEE(ieee);
    if IsZeroIEEE(key) then reg else Admitted(reg, key, nwk)
  }

  function Removed(reg: Reg, key: string): Reg {
    Reg(reg.devices - {key}, reg.forgotten + {key})
  }

  function Apply(hints: Hints, reg: Reg, op: Op): Reg {
    match op
    case Refresh(rows) => Refreshed(hints, reg, rows)
    case Remove(ieee) => Removed(reg, CompactIEEE(ieee))
    case Join(ieee, nwk) => Joined(reg, ieee, nwk)
    case _ =>
      var k := CompactIEEE(op.ieee);
      if k in reg.devices then With(reg, k, Changed(Lookup(hints, k), reg.devices[k], op)) else reg
  }

  /**
   What the callers of a section guarantee: the coordinator and join events hand over formatted
   addresses, and a removal goes on only for a device that was found registered.
   */
  predicate Sound(op: Op) {
    match op
    case Refresh(rows) => forall r :: r in rows ==> Canonical(r.ieee)
    case Join(ieee, _) => Canonical(ieee)
    case Remove(ieee) => Canonical(CompactIEEE(ieee))
    case _ => true
  }

  // ---------------------------------------------------------------- the invariant

  predicate LinkOk(l: Link) { l.reachable ==> l.error == "" }

  predicate DeviceOk(k: string, d: Device) {
    Canonical(k) && d.ieee == k && LinkOk(d.link)
  }

  ghost predicate RegOk(reg: Reg) {
    && reg.devices.Keys !! reg.forgotten
    && (forall k :: k in reg.devices ==> DeviceOk(k, reg.devices[k]))
    && (forall k :: k in reg.forgotten ==> Canonical(k))
  }

  lemma ChangedKeeps(hint: Option<Hint>, d: Device, op: Op)
    requires OnOne(op) && LinkOk(d.link)
    ensures var e := Changed(hint, d, op); e.ieee == d.ieee && LinkOk(e.link)
  {
  }

  lemma ListedKeeps(hint: Option<Hint>, d: Device, row: Row)
    ensures var e := Listed(hint, d, row);
            e.ieee == d.ieee && e.link == d.link && (d.tag.userLabel ==> e.tag == d.tag)
  {
  }

  lemma RefreshRowKeeps(hints: Hints, reg: Reg, row: Row)
    requires RegOk(reg) && Canonical(row.ieee)
    ensures var next := RefreshRow(hints, reg, row);
            RegOk(next) && next.forgotten == reg.forgotten
            && next.devices.Keys == reg.devices.Keys + if row.ieee in reg.forgotten then {} else {row.ieee}
  {
    var d := if row.ieee in reg.devices then reg.devices[row.ieee]
             else NewDevice(row.ieee, Lookup(hints, row.ieee).None?);
    ListedKeeps(Lookup(hints, row.ieee), d, row);
  }

  lemma RowsSeenGrows(rows: seq<Row>, forgotten: set<string>)
    requires rows != []
    ensures var n := |rows| - 1;
            RowsSeen(rows, forgotten) ==
            RowsSeen(rows[..n], forgotten) + if rows[n].ieee in forgotten then {} else {rows[n].ieee}
  {
    var n := |rows| - 1;
    assert rows == rows[..n] + [rows[n]];
  }

  lemma {:induction false} RefreshRowsKeeps(hints: Hints, reg: Reg, rows: seq<Row>)
    requires RegOk(reg) && forall r :: r in rows ==> Canonical(r.ieee)
    ensures var next := RefreshRows(hints, reg, rows);
            RegOk(next) && next.forgotten == reg.forgotten
            && next.devices.Keys == reg.devices.Keys + RowsSeen(rows, reg.forgotten)
  {
    if rows != [] {
      var n := |rows| - 1;
      RefreshRowsKeeps(hints, reg, rows[..n]);
      RefreshRowKeeps(hints, RefreshRows(hints, reg, rows[..n]), rows[n]);
      RowsSeenGrows(rows, reg.forgotten);
    }
  }

  lemma JoinKeeps(reg: Reg, ieee: string, nwk: nat)
    requires RegOk(reg) && Canonical(ieee)
    ensures RegOk(Joined(reg, ieee, nwk))
  {
    CompactCanonical(ieee);
  }

  lemma ChangeKeeps(hints: Hints, reg: Reg, op: Op)
    requires RegOk(reg) && OnOne(op)
    ensures RegOk(Apply(hints, reg, op))
  {
    var k := CompactIEEE(op.ieee);
    if k in reg.devices {
      assert DeviceOk(k, reg.devices[k]);
      ChangedKeeps(Lookup(hints, k), reg.devices[k], op);
    }
  }

  /** Every critical section keeps the registry sound. */
  lemma ApplyKeeps(hints: Hints, reg: Reg, op: Op)
    requires RegOk(reg) && Sound(op)
    ensures RegOk(Apply(hints, reg, op))
  {
    match op
    case Refresh(rows) => RefreshRowsKeeps(hints, reg, rows);
    case Remove(_) =>
    case Join(ieee, nwk) => JoinKeeps(reg, ieee, nwk);
    case _ => ChangeKeeps(hints, reg, op);
  }

  /** Only a removal deletes a device, and it is then forgotten. */
  lemma OnlyRemoveDeletes(hints: Hints, reg: Reg, op: Op, k: string)
    requires k in reg.devices && k !in Apply(hints, reg, op).devices && RegOk(reg) && Sound(op)
    ensures op.Remove? && CompactIEEE(op.ieee) == k && k in Apply(hints, reg, op).forgotten
  {
    if op.Refresh? { RefreshRowsKeeps(hints, reg, op.rows); }
  }

  /** A forgotten device stays away until it joins again, whatever the coordinator's table says. */
  lemma OnlyJoinReturns(hints: Hints, reg: Reg, op: Op, k: string)
    requires k in reg.forgotten && RegOk(reg) && Sound(op)
    requires k !in Apply(hints, reg, op).forgotten || k in Apply(hints, reg, op).devices
    ensures op.Join? && CompactIEEE(op.ieee) == k
  {
    if op.Refresh? { RefreshRowsKeeps(hints, reg, op.rows); }
  }

  // ---------------------------------------------------------------- labels

  predicate Removes(op: Op, k: string) { op.Remove? && CompactIEEE(op.ieee) == k }

  predicate Renames(op: Op, k: string) { op.Update? && op.name != "" && CompactIEEE(op.ieee) == k }

  predicate Retypes(op: Op, k: string) { op.Update? && !op.kind.Blank? && CompactIEEE(op.ieee) == k }

  /** The kinds a labelled device of kind `kind` may come to have without being relabelled. */
  predicate Drifts(kind: Kind, kind': Kind) {
    kind' == kind || ((kind.Sensor? || kind.Unknown?) && kind'.Motion?) || (kind.Plug? && kind'.Relay?)
  }

  lemma DriftsOn(a: Kind, b: Kind, c: Kind)
    requires Drifts(a, b) && Drifts(b, c)
    ensures Drifts(a, c)
  {
  }

  lemma {:induction false} RefreshRowsLabel(hints: Hints, reg: Reg, rows: seq<Row>, k: string)
    requires k in reg.devices && reg.devices[k].tag.userLabel
    ensures var next := RefreshRows(hints, reg, rows);
            k in next.devices && next.devices[k].tag == reg.devices[k].tag
  {
    if rows != [] {
      var n := |rows| - 1;
      RefreshRowsLabel(hints, reg, rows[..n], k);
      ListedKeeps(Lookup(hints, k), RefreshRows(hints, reg, rows[..n]).devices[k], rows[n]);
    }
  }

  lemma ChangedLabel(hint: Option<Hint>, d: Device, op: Op)
    requires OnOne(op) && d.tag.userLabel
    ensures var e := Changed(hint, d, op);
            && e.tag.userLabel
            && (!(op.Update? && op.name != "") ==> e.tag.name == d.tag.name)
            && (!(op.Update? && !op.kind.Blank?) ==> Drifts(d.tag.kind, e.tag.kind))
  {
  }

  /** A user's label survives every section but a removal; only an update renames it, and its kind may only drift. */
  lemma LabelSurvives(hints: Hints, reg: Reg, op: Op, k: string)
    requires k in reg.devices && reg.devices[k].tag.userLabel && !Removes(op, k)
    ensures var next := Apply(hints, reg, op);
            && k in next.devices && next.devices[k].tag.userLabel
            && (!Renames(op, k) ==> next.devices[k].tag.name == reg.devices[k].tag.name)
            && (!Retypes(op, k) ==> Drifts(reg.devices[k].tag.kind, next.devices[k].tag.kind))
  {
    match op
    case Refresh(rows) => RefreshRowsLabel(hints, reg, rows, k);
    case Remove(_) =>
    case Join(_, _) =>
    case _ => ChangedLabel(Lookup(hints, k), reg.devices[k], op);
  }

  // ---------------------------------------------------------------- network addresses

  predicate HasNwk(reg: Reg, nwk: nat) {
    exists k :: k in reg.devices && reg.devices[k].nwkAddr == nwk
  }

  predicate At(reg: Reg, k: string, nwk: nat) { k in reg.devices && reg.devices[k].nwkAddr == nwk }

  /** `k` is the only switch. */
  predicate OnlySwitch(reg: Reg, k: string) {
    && k in reg.devices && reg.devices[k].tag.kind.Switch?
    && forall j :: j in reg.devices && reg.devices[j].tag.kind.Switch? ==> j == k
  }

  /** An answer deviceForNwk may give, depending on the order in which it meets the devices. */
  ghost predicate Resolves(reg: Reg, nwk: nat, answer: Option<string>) {
    if HasNwk(reg, nwk) then
      answer.Some? && answer.value in reg.devices && reg.devices[answer.value].nwkAddr == nwk
    else if exists k :: OnlySwitch(reg, k) then answer.Some? && OnlySwitch(reg, answer.value)
    else answer == None
  }

  /** The registry after that answer: the only switch takes over an unknown address. */
  ghost function Resolved(reg: Reg, nwk: nat, answer: Option<string>): Reg
    requires Resolves(reg, nwk, answer)
  {
    if answer.None? then reg
    else With(reg, answer.value, reg.devices[answer.value].(nwkAddr := nwk))
  }

  ghost predicate DistinctNwk(reg: Reg) {
    forall j, k :: j in reg.devices && k in reg.devices && j != k ==> reg.devices[j].nwkAddr != reg.devices[k].nwkAddr
  }

  /** The answer does not depend on the order exactly when no two devices have the address asked for. */
  lemma OrderIndependentIff(reg: Reg, nwk: nat)
    ensures (forall a, b :: Resolves(reg, nwk, a) && Resolves(reg, nwk, b) ==> a == b) <==>
            (forall j, k :: At(reg, j, nwk) && At(reg, k, nwk) ==> j == k)
  {
    if j, k :| At(reg, j, nwk) && At(reg, k, nwk) && j != k {
      assert Resolves(reg, nwk, Some(j)) && Resolves(reg, nwk, Some(k));
    } else {
      forall a, b | Resolves(reg, nwk, a) && Resolves(reg, nwk, b) ensures a == b {
        assert HasNwk(reg, nwk) ==> At(reg, a.value, nwk) && At(reg, b.value, nwk);
      }
    }
  }

  /** At most one address changes, only when no device had it, and distinct addresses stay distinct. */
  lemma ResolvedKeeps(reg: Reg, nwk: nat, answer: Option<string>)
    requires Resolves(reg, nwk, answer)
    ensures HasNwk(reg, nwk) ==> Resolved(reg, nwk, answer) == reg
    ensures forall k :: k in reg.devices && Some(k) != answer ==>
              Resolved(reg, nwk, answer).devices[k] == reg.devices[k]
    ensures DistinctNwk(reg) ==> DistinctNwk(Resolved(reg, nwk, answer))
  {
  }

  /** Two joins that do not say their address yet share address zero. */
  lemma JoinsMayShareZero(hints: Hints, j: string, k: string)
    requires Canonical(j) && Canonical(k) && j != k && !IsZeroIEEE(j) && !IsZeroIEEE(k)
    ensures !DistinctNwk(Apply(hints, Apply(hints, NO_DEVICES, Join(j, 0)), Join(k, 0)))
  {
    CompactCanonical(j);
    CompactCanonical(k);
    var reg := Apply(hints, Apply(hints, NO_DEVICES, Join(j, 0)), Join(k, 0));
    assert j in reg.devices && k in reg.devices && reg.devices[j].nwkAddr == reg.devices[k].nwkAddr;
  }

  // ---------------------------------------------------------------- reading the state of a device

  /** What the radio answers to the three reads of readState; None is an error. */
  datatype Probe = Probe(onOff: Option<bool>, level: Option<nat>, occupancy: Option<bool>)

  predicate AsksOnOff(d: Device) { d.info.hasOnOff || d.tag.kind.Light? || d.tag.kind.Plug? || d.tag.kind.Relay? }

  predicate AsksLevel(d: Device) { d.info.hasLevel || d.tag.kind.Light? }

  predicate AsksOccupancy(d: Device) { d.info.hasOccupancy || d.tag.kind.Motion? }

  predicate Reached(d: Device, p: Probe) {
    (AsksOnOff(d) && p.onOff.Some?) || (AsksLevel(d) && p.level.Some?) || (AsksOccupancy(d) && p.occupancy.Some?)
  }

  function AfterOnOff(d: Device, onOff: Option<bool>): Device {
    if onOff.Some? then Read(d, Reading(onOff, None, None)) else Lost(d)
  }

  /** The device after readState has run undisturbed. */
  function AfterProbe(d: Device, p: Probe): Device {
    var a := if AsksOnOff(d) then AfterOnOff(d, p.onOff) else d;
    var b := if AsksLevel(d) && p.level.Some? then Read(a, Reading(None, p.level, None)) else a;
    if AsksOccupancy(d) && p.occupancy.Some? then Read(b, Reading(None, None, p.occupancy)) else b
  }

  /** If any read is answered the device ends up reachable and without an error. */
  lemma ReachedIsUp(d: Device, p: Probe)
    ensures Reached(d, p) ==> AfterProbe(d, p).link == UP
    ensures !Reached(d, p) ==> AfterProbe(d, p) == if AsksOnOff(d) then Lost(d) else d
  {
  }
}
