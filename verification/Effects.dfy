/**
 What each critical section does to the registry, as the hub's users see it: which device it touches, which of
 its fields change and to what, and that nothing else does. Stated of whole sections, in plain field values.
 */
module Effects {
  import opened Common
  import opened Ieee
  import opened Registry
  import opened Strings
  import RelayConfig

  /** The registry but for device `k`. */
  function Rest(reg: Reg, k: string): Reg { Reg(reg.devices - {k}, reg.forgotten) }

  /** A section about one device leaves the others alone, and does nothing if that device is not there. */
  lemma OneDeviceOnly(hints: Hints, reg: Reg, op: Op)
    requires OnOne(op)
    ensures var k := CompactIEEE(op.ieee); var next := Apply(hints, reg, op);
            && Rest(next, k) == Rest(reg, k) && (k in next.devices <==> k in reg.devices)
            && (k !in reg.devices ==> next == reg)
  {
    var k := CompactIEEE(op.ieee);
    if k in reg.devices {
      var e := Changed(Lookup(hints, k), reg.devices[k], op);
      assert reg.devices[k := e] - {k} == reg.devices - {k};
    }
  }

  // ---------------------------------------------------------------- updates and interviews

  /** An update gives exactly what it names; a kind that is none of the known ones is refused. */
  lemma UpdateGives(hints: Hints, reg: Reg, ieee: string, name: string, kind: Kind, archived: Option<bool>)
    requires CompactIEEE(ieee) in reg.devices
    ensures var k := CompactIEEE(ieee); var next := Apply(hints, reg, Update(ieee, name, kind, archived));
            k in next.devices &&
            var d, e := reg.devices[k], next.devices[k];
            && (kind.Odd? ==> e == d)
            && (!kind.Odd? ==>
                  && e.tag.name == (if name == "" then d.tag.name else name)
                  && e.tag.kind == (if kind == Blank then d.tag.kind else kind)
                  && e.tag.archived == (if archived == None then d.tag.archived else archived.value)
                  && e.tag.userLabel == (d.tag.userLabel || name != "" || kind != Blank)
                  && e.tag.isNew == (d.tag.isNew && name == "" && kind == Blank)
                  && e.(tag := d.tag) == d)
  {
  }

  /** A failed interview marks the device unreachable; a finished one records what it found. */
  lemma InterviewGives(hints: Hints, reg: Reg, ieee: string, i: Interview, error: string)
    requires CompactIEEE(ieee) in reg.devices && Canonical(CompactIEEE(ieee))
    ensures var k := CompactIEEE(ieee); var d := reg.devices[k];
            && k in Apply(hints, reg, InterviewFailed(ieee, error)).devices
            && Apply(hints, reg, InterviewFailed(ieee, error)).devices[k] == d.(link := Link(false, error))
    ensures var k := CompactIEEE(ieee); var next := Apply(hints, reg, InterviewDone(ieee, i));
            k in next.devices &&
            var d, e := reg.devices[k], next.devices[k];
            && e.info.manufacturer == i.manufacturer && e.info.model == i.model
            && e.info.hasOnOff == i.hasOnOff && e.info.hasLevel == i.hasLevel && e.info.hasOccupancy == i.hasOccupancy
            && e.info.endpoint == (if i.endpoint == None then d.info.endpoint else i.endpoint.value)
            && e.link == Link(d.link.reachable, "")
            && e.(info := d.info, link := d.link, tag := d.tag) == d
            && e.tag == d.tag.(name := e.tag.name, kind := e.tag.kind)
    ensures var k := CompactIEEE(ieee); var next := Apply(hints, reg, InterviewDone(ieee, i));
            var d, e := reg.devices[k], next.devices[k];
            && (d.tag.userLabel ==> e.tag == d.tag)
            && (!d.tag.userLabel && k in hints ==> e.tag.name == hints[k].name && e.tag.kind == hints[k].kind)
            && (!d.tag.userLabel && k !in hints ==>
                  e.tag.kind == i.inferred
                  && e.tag.name == if i.model == "" then d.tag.name else TrimSpace(i.manufacturer + " " + i.model))
  {
    CompactCanonical(CompactIEEE(ieee));
  }

  // ---------------------------------------------------------------- joins, removals and reports

  /** A device that joins is reachable, no longer forgotten, and has the address it reports, if it reports one. */
  lemma JoinGives(hints: Hints, reg: Reg, k: string, nwk: nat)
    requires Canonical(k) && k != Zeros()
    ensures var next := Apply(hints, reg, Join(k, nwk));
            && Rest(next, k).devices == Rest(reg, k).devices && next.forgotten == reg.forgotten - {k}
            && k in next.devices && next.devices[k].link == Link(true, "")
            && (nwk != 0 ==> next.devices[k].nwkAddr == nwk)
    ensures var e := Apply(hints, reg, Join(k, nwk)).devices[k];
            && (k in reg.devices ==>
                  var d := reg.devices[k];
                  e.(link := d.link, nwkAddr := d.nwkAddr) == d && (nwk == 0 ==> e.nwkAddr == d.nwkAddr))
            && (k !in reg.devices ==>
                  && e.ieee == k && e.tag == Label(k, Unknown, false, true, false)
                  && e.info == Info("", "", 1, false, false, false)
                  && e.state == State(None, None, None, "", 0, None) && (nwk == 0 ==> e.nwkAddr == 0))
  {
    CompactCanonical(k);
    ZeroIff(k);
    var next := Apply(hints, reg, Join(k, nwk));
    assert reg.devices[k := next.devices[k]] - {k} == reg.devices - {k};
  }

  /** An address that is all zeros, or does not come down to sixteen digits, does not join. */
  lemma ZeroDoesNotJoin(hints: Hints, reg: Reg, ieee: string, nwk: nat)
    requires CompactIEEE(ieee) == Zeros() || |CompactIEEE(CompactIEEE(ieee))| != 16
    ensures Apply(hints, reg, Join(ieee, nwk)) == reg
  {
    var k := CompactIEEE(ieee);
    if k == Zeros() { ZeroIff(k); }
  }

  /** A removed device is forgotten, and nothing else is touched. */
  lemma RemoveGives(hints: Hints, reg: Reg, ieee: string)
    ensures var k := CompactIEEE(ieee); var next := Apply(hints, reg, Remove(ieee));
            next.devices == reg.devices - {k} && next.forgotten == reg.forgotten + {k}
  {
  }

  /** A click, read settings, and the two ways of not answering: what is recorded. */
  lemma ReportsGive(hints: Hints, reg: Reg, ieee: string, action: string, relay: RelayConfig.Relay, error: string)
    requires CompactIEEE(ieee) in reg.devices
    ensures var k := CompactIEEE(ieee); var d := reg.devices[k];
            && Apply(hints, reg, Click(ieee, action)).devices[k] ==
               d.(link := Link(true, ""),
                  state := d.state.(lastClick := action, clickSeq := (d.state.clickSeq + 1) % 0x1_0000_0000_0000_0000))
            && Apply(hints, reg, StoreRelay(ieee, relay)).devices[k] ==
               d.(link := Link(true, ""), state := d.state.(relay := Some(relay)))
            && Apply(hints, reg, Unavailable(ieee, error)).devices[k] == d.(link := Link(false, error))
            && Apply(hints, reg, Silent(ieee)).devices[k] == d.(link := Link(false, d.link.error))
  {
  }

  /** An occupancy report is recorded, and turns a sensor or an unknown device into a motion sensor. */
  lemma OccupancyGives(hints: Hints, reg: Reg, ieee: string, occ: bool)
    requires CompactIEEE(ieee) in reg.devices
    ensures var k := CompactIEEE(ieee); var d := reg.devices[k];
            var e := Apply(hints, reg, Occupied(ieee, occ)).devices[k];
            && e == d.(link := Link(true, ""), state := d.state.(occupancy := Some(occ)),
                       info := d.info.(hasOccupancy := true), tag := d.tag.(kind := e.tag.kind))
            && e.tag.kind == if d.tag.kind in {Sensor, Unknown} then Motion else d.tag.kind
  {
  }

  /** A command or a single read records what it says and leaves the rest of the state alone. */
  lemma ReadingGives(hints: Hints, reg: Reg, ieee: string, r: Reading)
    requires CompactIEEE(ieee) in reg.devices
    ensures var k := CompactIEEE(ieee); var d, e := reg.devices[k], Apply(hints, reg, Reads(ieee, r)).devices[k];
            && e == d.(link := Link(true, ""), state := d.state.(on := e.state.on, brightness := e.state.brightness,
                                                                 occupancy := e.state.occupancy))
            && e.state.on == (if r.on == None then d.state.on else r.on)
            && e.state.brightness == (if r.brightness == None then d.state.brightness else r.brightness)
            && e.state.occupancy == (if r.occupancy == None then d.state.occupancy else r.occupancy)
  {
  }

  // ---------------------------------------------------------------- Refresh

  /** The address the last row for `k` gives it. */
  function LastNwk(rows: seq<Row>, k: string): Option<nat> {
    if rows == [] then None
    else
      var last := rows[|rows| - 1];
      if last.ieee == k then Some(last.nwk) else LastNwk(rows[..|rows| - 1], k)
  }

  predicate Names(rows: seq<Row>, k: string) { exists r :: r in rows && r.ieee == k }

  lemma {:induction false} NamesIff(rows: seq<Row>, k: string)
    ensures Names(rows, k) <==> LastNwk(rows, k).Some?
  {
    if rows != [] {
      var n := |rows| - 1;
      NamesIff(rows[..n], k);
      assert rows == rows[..n] + [rows[n]];
      assert rows[n] in rows && forall r :: r in rows[..n] ==> r in rows;
    }
  }

  /** The rows for `k` set its address and, unless the user named it, its label; other rows leave it alone. */
  lemma {:induction false} RowsGive(hints: Hints, reg: Reg, rows: seq<Row>, k: string)
    requires Canonical(k) && k !in reg.forgotten
    ensures var next := RefreshRows(hints, reg, rows); var nwk := LastNwk(rows, k);
            && next.forgotten == reg.forgotten
            && (nwk == None ==> (k in next.devices <==> k in reg.devices)
                                && (k in reg.devices ==> next.devices[k] == reg.devices[k]))
            && (nwk.Some? ==> k in next.devices && next.devices[k].nwkAddr == nwk.value
                              && RowGives(hints, reg, k, next.devices[k]))
  {
    if rows != [] {
      var n := |rows| - 1;
      RowsGive(hints, reg, rows[..n], k);
      RowGivesMore(hints, reg, RefreshRows(hints, reg, rows[..n]), rows[n], k);
    }
  }

  /** One more row, after which everything said of the rows before it still holds. */
  lemma RowGivesMore(hints: Hints, reg: Reg, mid: Reg, row: Row, k: string)
    requires Canonical(k) && k !in reg.forgotten && mid.forgotten == reg.forgotten
    requires k in mid.devices ==>
               RowGives(hints, reg, k, mid.devices[k]) || (k in reg.devices && mid.devices[k] == reg.devices[k])
    requires k !in mid.devices ==> k !in reg.devices
    ensures var next := RefreshRow(hints, mid, row);
            && next.forgotten == reg.forgotten
            && (row.ieee != k ==> (k in next.devices <==> k in mid.devices)
                                  && (k in mid.devices ==> next.devices[k] == mid.devices[k]))
            && (row.ieee == k ==> k in next.devices && next.devices[k].nwkAddr == row.nwk
                                  && RowGives(hints, reg, k, next.devices[k]))
  {
    if row.ieee == k {
      CompactCanonical(k);
      var d := if k in mid.devices then mid.devices[k] else NewDevice(k, k !in hints);
      LabelsTwice(hints, k, d.tag);
    }
  }

  /** What a row does to a label, and that doing it again changes nothing. */
  lemma LabelsTwice(hints: Hints, k: string, l: Label)
    requires Canonical(k)
    ensures var hint := Lookup(hints, k); var m := ListedLabel(hint, k, l);
            RowLabels(hints, k, l, m) && ListedLabel(hint, k, m) == m
  {
    CompactCanonical(k);
  }

  /** Device `k` after a row for it: new, or as it was, but for address and label. */
  predicate RowGives(hints: Hints, reg: Reg, k: string, e: Device) {
    if k in reg.devices then
      var d := reg.devices[k];
      && e.(nwkAddr := d.nwkAddr, tag := d.tag) == d
      && RowLabels(hints, k, d.tag, e.tag)
    else
      && e.ieee == k && e.link == Link(false, "") && e.info == Info("", "", 1, false, false, false)
      && e.state == State(None, None, None, "", 0, None)
      && e.tag.isNew == (k !in hints) && !e.tag.userLabel && !e.tag.archived
      && (k in hints ==> e.tag.name == hints[k].name && e.tag.kind == hints[k].kind)
      && (k !in hints ==> e.tag.name == k && e.tag.kind == Unknown)
  }

  /** A user's label stays; otherwise a built-in hint names the device, and a device without a name gets its address. */
  predicate RowLabels(hints: Hints, k: string, old': Label, new': Label) {
    && new'.(name := old'.name, kind := old'.kind) == old'
    && (old'.userLabel ==> new' == old')
    && (!old'.userLabel && k in hints ==>
          new'.name == hints[k].name && new'.kind == if old'.kind in {Blank, Unknown} then hints[k].kind else old'.kind)
    && (!old'.userLabel && k !in hints ==>
          if old'.name == "" then new'.name == k && new'.kind == Unknown else new' == old')
  }

  /**
   Refresh, as seen in the list. A registered device that the coordinator's table does not name is still there,
   unreachable, and otherwise as it was; one that it names keeps its link and has the address of its last row.
   */
  lemma RefreshGives(hints: Hints, reg: Reg, rows: seq<Row>, k: string)
    requires RegOk(reg) && Canonical(k) && forall r :: r in rows ==> Canonical(r.ieee)
    ensures var next := Apply(hints, reg, Refresh(rows));
            && next.forgotten == reg.forgotten
            && (k in reg.devices && !Names(rows, k) ==>
                  k in next.devices
                  && next.devices[k] == reg.devices[k].(link := Link(false, reg.devices[k].link.error)))
            && (k !in reg.forgotten && Names(rows, k) ==>
                  k in next.devices && Some(next.devices[k].nwkAddr) == LastNwk(rows, k)
                  && RowGives(hints, reg, k, next.devices[k]))
            && (k in next.devices <==> k in reg.devices || (k !in reg.forgotten && Names(rows, k)))
  {
    RefreshRowsKeeps(hints, reg, rows);
    NamesIff(rows, k);
    if k in reg.devices { assert k !in reg.forgotten; }
    if k !in reg.forgotten {
      RowsGive(hints, reg, rows, k);
      assert k in RowsSeen(rows, reg.forgotten) <==> Names(rows, k);
    }
  }

  // ---------------------------------------------------------------- deviceForNwk

  /** Who is answered, in plain words: a device with the address, else the only switch, else nobody. */
  lemma WhoIsAnswered(reg: Reg, nwk: nat, a: Option<string>)
    requires Resolves(reg, nwk, a)
    ensures a.Some? ==> a.value in reg.devices
    ensures (exists k :: At(reg, k, nwk)) ==> a.Some? && reg.devices[a.value].nwkAddr == nwk
    ensures !(exists k :: At(reg, k, nwk)) && a.Some? ==>
              reg.devices[a.value].tag.kind == Switch
              && forall j :: j in reg.devices && j != a.value ==> reg.devices[j].tag.kind != Switch
    ensures a.None? <==>
              && !(exists k :: At(reg, k, nwk))
              && forall k :: k in reg.devices && reg.devices[k].tag.kind == Switch ==>
                   exists j :: j in reg.devices && j != k && reg.devices[j].tag.kind == Switch
  {
    if k :| At(reg, k, nwk) {
      assert HasNwk(reg, nwk);
    } else {
      assert !HasNwk(reg, nwk) by {
        if HasNwk(reg, nwk) {
          var k :| k in reg.devices && reg.devices[k].nwkAddr == nwk;
          assert At(reg, k, nwk);
        }
      }
    }
    if a.None? {
      forall k | k in reg.devices && reg.devices[k].tag.kind == Switch
        ensures exists j :: j in reg.devices && j != k && reg.devices[j].tag.kind == Switch
      {
        assert !OnlySwitch(reg, k);
      }
    }
  }

  /** The device answered has the address from then on, and nothing else about it changes. */
  lemma AnsweredHasAddress(reg: Reg, nwk: nat, a: Option<string>)
    requires Resolves(reg, nwk, a)
    ensures var next := Resolved(reg, nwk, a);
            && (a.Some? ==> At(next, a.value, nwk)
                            && next.devices[a.value] == reg.devices[a.value].(nwkAddr := next.devices[a.value].nwkAddr))
            && (a.None? ==> next == reg)
            && next.forgotten == reg.forgotten && next.devices.Keys == reg.devices.Keys
  {
  }

  /** Asking again gives the same device for as long as it has the address and no other takes it. */
  lemma AskedAgain(reg: Reg, nwk: nat, a: Option<string>, later: Reg, b: Option<string>)
    requires Resolves(reg, nwk, a) && a.Some?
    requires At(later, a.value, nwk) && forall j :: At(later, j, nwk) ==> j == a.value
    requires Resolves(later, nwk, b)
    ensures b == a
  {
    assert HasNwk(later, nwk);
    assert At(later, b.value, nwk);
  }

  /** In particular after another device, a second switch for one, has joined at another address. */
  lemma AskedAfterJoin(hints: Hints, reg: Reg, nwk: nat, a: Option<string>, k: string, other: nat, b: Option<string>)
    requires DistinctNwk(reg) && Resolves(reg, nwk, a) && a.Some?
    requires Canonical(k) && k != a.value && other != nwk && (other != 0 || nwk != 0)
    requires Resolves(Apply(hints, Resolved(reg, nwk, a), Join(k, other)), nwk, b)
    ensures b == a
  {
    var mid := Resolved(reg, nwk, a);
    var later := Apply(hints, mid, Join(k, other));
    AnsweredHasAddress(reg, nwk, a);
    ResolvedKeeps(reg, nwk, a);
    CompactCanonical(k);
    forall j | At(later, j, nwk) ensures j == a.value {
      if j != k { assert At(mid, j, nwk); }
    }
    AskedAgain(reg, nwk, a, later, b);
  }

  // ---------------------------------------------------------------- readState

  /** What readState records, field by field, of the answers to the reads it makes. */
  lemma ProbeGives(d: Device, p: Probe)
    ensures var e := AfterProbe(d, p);
            var onOff := d.info.hasOnOff || d.tag.kind in {Light, Plug, Relay};
            var level := d.info.hasLevel || d.tag.kind == Light;
            var occupancy := d.info.hasOccupancy || d.tag.kind == Motion;
            && e.state.on == (if onOff && p.onOff.Some? then p.onOff else d.state.on)
            && e.state.brightness == (if level && p.level.Some? then p.level else d.state.brightness)
            && e.state.occupancy == (if occupancy && p.occupancy.Some? then p.occupancy else d.state.occupancy)
            && (Reached(d, p) <==>
                  (onOff && p.onOff.Some?) || (level && p.level.Some?) || (occupancy && p.occupancy.Some?))
            && e.link == (if Reached(d, p) then Link(true, "")
                          else if onOff then Link(false, d.link.error) else d.link)
    ensures var e := AfterProbe(d, p);
            e == d.(link := e.link, state := d.state.(on := e.state.on, brightness := e.state.brightness,
                                                      occupancy := e.state.occupancy))
  {
  }
}
