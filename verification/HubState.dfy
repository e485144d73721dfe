/**
 The registry updated in place: a map from address to a pointer to the device's record, as the hub
 keeps it. Each method is what one function does under `mu`, and performs the section of Registry.dfy
 named in its contract.
 */
module HubState {
  import opened Common
  import opened Ieee
  import opened Registry
  import RelayConfig
  import C = Cache

  /** A pointer to a device record. */
  class Cell {
    var v: Device

    constructor (v: Device)
      ensures this.v == v
    {
      this.v := v;
    }
  }

  /** An occupancy report tells something about the device itself, so the cache must be saved. */
  predicate MetaChanges(d: Registry.Device) {
    !d.info.hasOccupancy || d.tag.kind == Sensor || d.tag.kind == Unknown
  }

  // ---------------------------------------------------------------- one record

  /** The changes Update makes, one by one. */
  method Relabel(l: Label, name: string, kind: Kind, archived: Option<bool>) returns (r: Label)
    ensures r == Relabelled(l, name, kind, archived)
  {
    r := l;
    if name != "" {
      r := r.(name := name, userLabel := true);
    }
    if !kind.Blank? {
      r := r.(kind := kind, userLabel := true);
    }
    if archived.Some? {
      r := r.(archived := archived.value);
    }
    if name != "" || !kind.Blank? {
      r := r.(isNew := false);
    }
  }

  /** The changes noteOccupancy makes, one by one. */
  method Occupy(d: Registry.Device, occ: bool) returns (e: Registry.Device, meta: bool)
    ensures e == Moved(d, occ) && (meta <==> MetaChanges(d))
  {
    meta := false;
    var info, tag := d.info, d.tag;
    if !info.hasOccupancy {
      info := info.(hasOccupancy := true);
      meta := true;
    }
    if tag.kind == Sensor || tag.kind == Unknown {
      tag := tag.(kind := Motion);
      meta := true;
    }
    e := Registry.Device(d.ieee, d.nwkAddr, tag, info, Link(true, ""), d.state.(occupancy := Some(occ)));
  }

  /** What Refresh does to the label of a device in the table. */
  method Relist(l: Label, ieee: string, known: Option<Hint>) returns (r: Label)
    ensures r == ListedLabel(known, ieee, l)
  {
    r := l;
    if !l.userLabel {
      if known.Some? {
        r := r.(name := known.value.name);
        if l.kind == Blank || l.kind == Unknown {
          r := r.(kind := known.value.kind);
        }
      } else if l.name == "" {
        r := r.(name := ieee, kind := Unknown);
      }
    }
  }

  /** What an interview does to the label. */
  method Reinterview(l: Label, known: Option<Hint>, i: Interview) returns (r: Label)
    ensures r == InterviewLabel(known, l, i)
  {
    r := l;
    if !l.userLabel {
      if known.Some? {
        r := r.(name := known.value.name, kind := known.value.kind);
      } else {
        r := r.(kind := i.inferred);
        if FoundName(i).Some? {
          r := r.(name := FoundName(i).value);
        }
      }
    }
  }

  // ---------------------------------------------------------------- the registry

  class Hub {
    const hints: Hints
    var devices: map<string, Cell>
    var forgotten: set<string>

    /** No two addresses share a record. */
    ghost predicate Valid()
      reads this
    {
      forall j, k :: j in devices && k in devices && j != k ==> devices[j] != devices[k]
    }

    ghost function Model(): Reg
      reads this, devices.Values
    {
      Reg(map k | k in devices :: devices[k].v, forgotten)
    }

    constructor (hints: Hints)
      ensures Valid() && Model() == NO_DEVICES && this.hints == hints
    {
      this.hints := hints;
      devices := map[];
      forgotten := {};
    }

    /** Device: a copy of the record. */
    function Device(ieee: string): Option<Device>
      reads this, devices.Values
    {
      var k := CompactIEEE(ieee);
      if k in devices then Some(devices[k].v) else None
    }

    /** Writing through one pointer changes that device and no other. */
    method Set(k: string, d: Device)
      requires Valid() && k in devices
      modifies devices[k]
      ensures Valid() && Model() == With(old(Model()), k, d) && devices[k].v == d
    {
      devices[k].v := d;
      assert Model().devices == old(Model()).devices[k := d];
    }

    /** A pointer to a new record, in place of any other at that key. */
    method Insert(k: string, d: Device)
      requires Valid()
      modifies this`devices
      ensures Valid() && forgotten == old(forgotten) && Model() == With(old(Model()), k, d)
      ensures k in devices && fresh(devices[k]) && devices[k].v == d && devices == old(devices)[k := devices[k]]
    {
      var n := new Cell(d);
      devices := devices[k := n];
      assert Model().devices == old(Model()).devices[k := d];
    }

    method Update(ieee: string, name: string, kind: Kind, archived: Option<bool>)
        returns (found: bool, renamedFrom: Option<string>)
      requires Valid()
      modifies devices.Values
      ensures Valid() && Model() == Apply(hints, old(Model()), Op.Update(ieee, name, kind, archived))
      ensures found <==> (kind.Blank? || ValidKind(kind)) && CompactIEEE(ieee) in devices
      ensures renamedFrom.Some? <==>
                found && name != "" && old(Device(ieee)).value.tag.name !in {"", name}
      ensures renamedFrom.Some? ==> renamedFrom.value == old(Device(ieee)).value.tag.name
    {
      found, renamedFrom := false, None;
      if !kind.Blank? && !ValidKind(kind) {
        return;
      }
      var key := CompactIEEE(ieee);
      if key !in devices {
        return;
      }
      found := true;
      var dev := devices[key].v;
      var oldName := dev.tag.name;
      var tag := Relabel(dev.tag, name, kind, archived);
      if name != "" && oldName != "" && oldName != tag.name {
        renamedFrom := Some(oldName);
      }
      Set(key, dev.(tag := tag));
    }

    /** The locked part of Remove. */
    method Remove(ieee: string)
      requires Valid()
      modifies this`devices, this`forgotten
      ensures Valid() && Model() == Apply(hints, old(Model()), Op.Remove(ieee))
    {
      var key := CompactIEEE(ieee);
      devices := devices - {key};
      forgotten := forgotten + {key};
      assert Model().devices == old(Model()).devices - {key};
    }

    method NoteJoined(ieee: string, nwk: nat) returns (ok: bool)
      requires Valid()
      modifies this`devices, this`forgotten, devices.Values
      ensures Valid() && Model() == Apply(hints, old(Model()), Join(ieee, nwk))
      ensures ok <==> !IsZeroIEEE(CompactIEEE(ieee))
    {
      var key := CompactIEEE(ieee);
      if IsZeroIEEE(key) {
        return false;
      }
      Admit(key, nwk);
      return true;
    }

    /** A device that has joined is no longer forgotten, is added if it is new, and is reachable. */
    method Admit(key: string, nwk: nat)
      requires Valid()
      modifies this`devices, this`forgotten, devices.Values
      ensures Valid() && Model() == Admitted(old(Model()), key, nwk)
    {
      forgotten := forgotten - {key};
      Greet(key, nwk);
    }

    method Greet(key: string, nwk: nat)
      requires Valid()
      modifies this`devices, devices.Values
      ensures Valid() && Model() == Reg(Admitted(old(Model()), key, nwk).devices, old(forgotten))
    {
      if key !in devices {
        Insert(key, NewDevice(key, true));
      }
      var d := devices[key].v;
      if nwk != 0 {
        d := d.(nwkAddr := nwk);
      }
      d := d.(link := Link(true, ""));
      WithTwice(old(Model()), key, devices[key].v, d);
      Set(key, d);
    }

    method NoteUnavailable(ieee: string, error: string)
      requires Valid()
      modifies devices.Values
      ensures Valid() && Model() == Apply(hints, old(Model()), Unavailable(ieee, error))
    {
      var key := CompactIEEE(ieee);
      if key in devices {
        Set(key, devices[key].v.(link := Link(false, error)));
      }
    }

    method NoteAction(ieee: string, action: string)
      requires Valid()
      modifies devices.Values
      ensures Valid() && Model() == Apply(hints, old(Model()), Click(ieee, action))
    {
      var key := CompactIEEE(ieee);
      if key in devices {
        var d := devices[key].v;
        d := d.(state := d.state.(lastClick := action));
        d := d.(state := d.state.(clickSeq := (d.state.clickSeq + 1) % 0x1_0000_0000_0000_0000));
        Set(key, d.(link := Link(true, "")));
      }
    }

    method NoteOccupancy(ieee: string, occ: bool) returns (changed: bool, meta: bool)
      requires Valid()
      modifies devices.Values
      ensures Valid() && Model() == Apply(hints, old(Model()), Occupied(ieee, occ))
      ensures CompactIEEE(ieee) !in devices ==> !changed && !meta
      ensures CompactIEEE(ieee) in devices ==>
                var d := old(Model()).devices[CompactIEEE(ieee)];
                && (changed <==> d.state.occupancy != Some(occ))
                && (meta <==> !d.info.hasOccupancy || d.tag.kind in {Sensor, Unknown})
    {
      changed, meta := false, false;
      var key := CompactIEEE(ieee);
      if key in devices {
        var d := devices[key].v;
        changed := d.state.occupancy.None? || d.state.occupancy.value != occ;
        var seen;
        seen, meta := Occupy(d, occ);
        Set(key, seen);
      }
    }

    method Store(ieee: string, relay: RelayConfig.Relay)
      requires Valid()
      modifies devices.Values
      ensures Valid() && Model() == Apply(hints, old(Model()), StoreRelay(ieee, relay))
    {
      var key := CompactIEEE(ieee);
      if key in devices {
        var d := devices[key].v;
        Set(key, d.(state := d.state.(relay := Some(relay)), link := Link(true, "")));
      }
    }

    /** The locked part of Interview, after a failed or a finished interview. */
    method NoteInterview(ieee: string, found: Result<Interview, string>)
      requires Valid()
      modifies devices.Values
      ensures Valid()
      ensures Model() == Apply(hints, old(Model()),
                               if found.Ok? then InterviewDone(ieee, found.value)
                               else InterviewFailed(ieee, found.error))
    {
      var key := CompactIEEE(ieee);
      if key !in devices {
        return;
      }
      var d := devices[key].v;
      if found.Err? {
        Set(key, d.(link := Link(false, found.error)));
        return;
      }
      var i := found.value;
      d := d.(info := d.info.(manufacturer := i.manufacturer, model := i.model), link := d.link.(error := ""));
      d := d.(info := d.info.(hasOnOff := i.hasOnOff, hasLevel := i.hasLevel, hasOccupancy := i.hasOccupancy));
      if i.endpoint.Some? {
        d := d.(info := d.info.(endpoint := i.endpoint.value));
      }
      var tag := Reinterview(d.tag, Lookup(hints, key), i);
      Set(key, d.(tag := tag));
    }
  
    /** readState, with no other section in between. */
    method ReadState(ieee: string, p: Probe) returns (reached: bool)
      requires Valid()
      modifies devices.Values
      ensures Valid()
      ensures old(Device(ieee)).None? ==> !reached && Model() == old(Model())
      ensures old(Device(ieee)).Some? ==>
                var d := old(Device(ieee)).value;
                && (reached <==> Reached(d, p))
                && Model() == With(old(Model()), CompactIEEE(ieee), AfterProbe(d, p))
      ensures reached ==> Device(ieee).Some? && Device(ieee).value.link == UP
    {
      var key := CompactIEEE(ieee);
      reached := false;
      if key !in devices {
        return;
      }
      var d := devices[key].v;
      ghost var base := Model();
      assert base == With(base, key, d);
      if d.info.hasOnOff || d.tag.kind == Light || d.tag.kind == Plug || d.tag.kind == Relay {
        reached := p.onOff.Some?;
        NoteOnOff(key, p.onOff);
      }
      ghost var a := devices[key].v;
      if d.info.hasLevel || d.tag.kind == Light {
        if p.level.Some? {
          reached := true;
          Set(key, Read(devices[key].v, Reading(None, p.level, None)));
          WithTwice(base, key, a, devices[key].v);
        }
      }
      ghost var b := devices[key].v;
      if d.info.hasOccupancy || d.tag.kind == Motion {
        if p.occupancy.Some? {
          reached := true;
          Set(key, Read(devices[key].v, Reading(None, None, p.occupancy)));
          WithTwice(base, key, b, devices[key].v);
        }
      }
      ReachedIsUp(d, p);
    }

    /** The first section of readState. */
    method NoteOnOff(key: string, onOff: Option<bool>)
      requires Valid() && key in devices
      modifies devices[key]
      ensures Valid() && Model() == With(old(Model()), key, AfterOnOff(old(devices[key].v), onOff))
      ensures devices[key].v == AfterOnOff(old(devices[key].v), onOff)
    {
      if onOff.None? {
        Set(key, devices[key].v.(link := devices[key].v.link.(reachable := false)));
      } else {
        Set(key, Read(devices[key].v, Reading(onOff, None, None)));
      }
    }

    /** deviceForNwk: the devices come in no particular order. */
    method DeviceForNwk(nwk: nat) returns (answer: Option<string>)
      requires Valid()
      modifies devices.Values
      ensures Valid() && Resolves(old(Model()), nwk, answer) && Model() == Resolved(old(Model()), nwk, answer)
      ensures answer.Some? ==> answer.value in devices && devices[answer.value].v.nwkAddr == nwk
    {
      var todo := devices.Keys;
      var switches: set<string> := {};
      while todo != {}
        invariant todo <= devices.Keys && switches <= devices.Keys
        invariant forall k :: k in devices && k !in todo ==> devices[k].v.nwkAddr != nwk
        invariant forall k :: k in switches <==> k in devices && k !in todo && devices[k].v.tag.kind == Switch
        invariant Model() == old(Model())
      {
        var k :| k in todo;
        todo := todo - {k};
        var d := devices[k];
        if d.v.nwkAddr == nwk {
          assert old(Model()).devices[k].nwkAddr == nwk;
          answer := Some(k);
          assert old(Model()).devices[k := old(Model()).devices[k].(nwkAddr := nwk)] == old(Model()).devices;
          return;
        }
        if d.v.tag.kind == Switch {
          switches := switches + {k};
        }
      }
      if |switches| == 1 {
        var k :| k in switches;
        OnlyMember(switches, k);
        assert OnlySwitch(old(Model()), k);
        Set(k, devices[k].v.(nwkAddr := nwk));
        return Some(k);
      }
      forall k ensures !OnlySwitch(old(Model()), k) {
        if OnlySwitch(old(Model()), k) { OnlyIsOne(old(Model()), switches, k); }
      }
      return None;
    }

    /** One row of Refresh: an unknown device is added unless it is forgotten. */
    method RefreshRow(row: Row)
      requires Valid()
      modifies this`devices, devices.Values
      ensures Valid() && Model() == Registry.RefreshRow(hints, old(Model()), row)
      ensures forall k :: k in devices ==> (k in old(devices) && devices[k] == old(devices[k])) || fresh(devices[k])
    {
      if row.ieee in forgotten {
        return;
      }
      if row.ieee !in devices {
        Insert(row.ieee, NewDevice(row.ieee, Lookup(hints, row.ieee).None?));
      }
      var d := devices[row.ieee].v;
      var tag := Relist(d.tag, row.ieee, Lookup(hints, row.ieee));
      var listed := d.(nwkAddr := row.nwk, tag := tag);
      WithTwice(old(Model()), row.ieee, d, listed);
      Set(row.ieee, listed);
    }

    /** The locked part of Refresh: the rows of the coordinator's table, then everything that was not in it. */
    method Refresh(rows: seq<Row>)
      requires Valid()
      modifies this`devices, devices.Values
      ensures Valid() && Model() == Apply(hints, old(Model()), Op.Refresh(rows))
    {
      var seen: set<string> := {};
      for i := 0 to |rows|
        invariant Valid() && forgotten == old(forgotten)
        invariant Model() == RefreshRows(hints, old(Model()), rows[..i])
        invariant seen == RowsSeen(rows[..i], forgotten)
        invariant forall k :: k in devices ==> devices[k] in old(devices.Values) || fresh(devices[k])
      {
        assert rows[..i + 1][..i] == rows[..i];
        RowsSeenGrows(rows[..i + 1], forgotten);
        if rows[i].ieee !in forgotten {
          seen := seen + {rows[i].ieee};
        }
        label before:
        RefreshRow(rows[i]);
        assert forall k :: k in devices ==>
                 (k in old@before(devices) && devices[k] == old@before(devices[k])) || fresh@before(devices[k]);
      }
      assert rows[..|rows|] == rows;
      LoseUnseen(seen);
    }

    /** Devices the table did not list are no longer reachable. */
    method LoseUnseen(seen: set<string>)
      requires Valid()
      modifies devices.Values
      ensures Valid() && devices == old(devices)
      ensures Model() == old(Model()).(devices := map k | k in old(Model()).devices ::
                  if k in seen then old(Model()).devices[k] else Lost(old(Model()).devices[k]))
      ensures forall k :: k in devices ==>
                devices[k].v.link.reachable == (k in seen && old(devices[k].v.link.reachable))
    {
      var todo := devices.Keys;
      while todo != {}
        invariant todo <= devices.Keys && devices == old(devices) && forgotten == old(forgotten)
        invariant forall k :: k in devices ==>
                    devices[k].v == if k in todo || k in seen then old(devices[k].v) else Lost(old(devices[k].v))
      {
        var k :| k in todo;
        todo := todo - {k};
        if k !in seen {
          devices[k].v := Lost(devices[k].v);
        }
      }
    }

    /** The locked half of saveCache. */
    method SaveCache() returns (cf: C.CacheFile)
      ensures C.FileReg(cf) == Model()
    {
      var records: map<string, Registry.Device> := map[];
      var todo := devices.Keys;
      while todo != {}
        invariant todo <= devices.Keys && records.Keys == devices.Keys - todo
        invariant forall k :: k in records ==> records[k] == devices[k].v
      {
        var k :| k in todo;
        todo := todo - {k};
        records := records[k := devices[k].v];
      }
      var away: seq<string> := [];
      var left := forgotten;
      while left != {}
        invariant left <= forgotten
        invariant forall k :: k in away <==> k in forgotten && k !in left
      {
        var k :| k in left;
        left := left - {k};
        away := away + [k];
      }
      cf := C.CacheFile(records, away);
      assert C.FileReg(cf).devices == Model().devices;
    }

    /** loadCache, once the file has been decoded; true iff something was migrated. */
    method LoadCache(cf: C.CacheFile) returns (changed: bool)
      requires Valid()
      modifies this`devices, this`forgotten
      ensures Valid() && C.Loaded(old(Model()), cf, Model())
      ensures changed <==> exists j :: j in cf.devices && C.Misfiled(cf.devices[j])
    {
      ghost var order;
      changed, order := LoadDevices(cf);
      C.AnyOrderLoads(old(Model()), cf, order);
      assert (set j | j in order) == cf.devices.Keys;
      LoadForgotten(cf);
    }

    /** The entries of the file come in some order. */
    method LoadDevices(cf: C.CacheFile) returns (changed: bool, ghost order: seq<string>)
      requires Valid()
      modifies this`devices
      ensures Valid() && forgotten == old(forgotten)
      ensures forall j :: j in order <==> j in cf.devices
      ensures Model() == C.LoadInOrder(old(Model()), cf, order)
      ensures changed <==> exists j :: j in cf.devices && C.Misfiled(cf.devices[j])
    {
      changed, order := false, [];
      var todo := cf.devices.Keys;
      while todo != {}
        invariant todo <= cf.devices.Keys && Valid() && forgotten == old(forgotten)
        invariant forall j :: j in order <==> j in cf.devices && j !in todo
        invariant Model() == C.LoadInOrder(old(Model()), cf, order)
        invariant changed <==> exists j :: j in cf.devices && j !in todo && C.Misfiled(cf.devices[j])
      {
        var j :| j in todo;
        todo := todo - {j};
        var migrated := LoadEntry(j, cf.devices[j]);
        changed := changed || migrated;
        assert (order + [j])[..|order|] == order;
        order := order + [j];
      }
    }

    method LoadEntry(ieee: string, d: Registry.Device) returns (migrated: bool)
      requires Valid()
      modifies this`devices
      ensures Valid() && Model() == With(old(Model()), CompactIEEE(ieee), C.Migrated(d))
      ensures migrated <==> C.Misfiled(d)
    {
      var cp := d;
      migrated := false;
      if cp.tag.kind == Plug && IsSonoffMini(cp) {
        cp := cp.(tag := cp.tag.(kind := Relay));
        migrated := true;
      }
      Insert(CompactIEEE(ieee), cp);
    }

    method LoadForgotten(cf: C.CacheFile)
      modifies this`forgotten
      ensures forgotten == old(forgotten) + set j | j in cf.forgotten :: CompactIEEE(j)
    {
      for i := 0 to |cf.forgotten|
        invariant forgotten == old(forgotten) + set j | j in cf.forgotten[..i] :: CompactIEEE(j)
      {
        forgotten := forgotten + {CompactIEEE(cf.forgotten[i])};
      }
      assert cf.forgotten[..|cf.forgotten|] == cf.forgotten;
    }
  }

  lemma OnlyMember(s: set<string>, k: string)
    requires |s| == 1 && k in s
    ensures forall j :: j in s ==> j == k
  {
    assert |s - {k}| == 0;
  }

  lemma OnlyIsOne(reg: Reg, switches: set<string>, k: string)
    requires forall j :: j in switches <==> j in reg.devices && reg.devices[j].tag.kind == Switch
    requires OnlySwitch(reg, k)
    ensures |switches| == 1
  {
    assert switches == {k};
  }
}
