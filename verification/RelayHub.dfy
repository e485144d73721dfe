/**
 ReadRelay and ApplyRelay: the settings of a relay, read and patched over an unreliable radio. The relay is
 a store of raw attribute values; the radio decides the fate of every exchange. A failed write may have
 applied any part of its attributes. An answer belongs to its request.
 */
module RelayHub {
  import opened Common
  import opened RelayCodec
  import opened RelayConfig
  import opened Strings

  // ---------------------------------------------------------------- the radio

  /** An attribute read gets no answer, a failure status, or the value. */
  datatype ReadFate = Silent | Refused | Answers

  /** A write is confirmed in full, or fails after applying the attributes in `applied`. */
  datatype WriteFate = WriteFate(ok: bool, applied: set<Attr>)

  /** What happens to each exchange of one patch: the writes, the pulse, and the reads, plain or manufacturer-coded. */
  datatype Fates = Fates(
    startup: WriteFate,
    plain: WriteFate,
    manuf: WriteFate,
    pulseOk: bool,
    pulseHeard: bool,
    answers: (Field, bool) -> ReadFate
  )

  type Store = map<Attr, Raw>

  const UNSUPPORTED := 0x86

  function Written(attrs: Store, vals: Store, fate: WriteFate): Store {
    if fate.ok then attrs + vals else attrs + (map a | a in vals && a in fate.applied :: vals[a])
  }

  /** The answer to one read, None when there is none. */
  function Response(attrs: Store, f: Field, fate: ReadFate): Option<seq<ReadResult>> {
    match fate
    case Silent => None
    case Refused => Some([ReadResult(Id(f), UNSUPPORTED, Other)])
    case Answers =>
      if AttrOf(f) in attrs then Some([ReadResult(Id(f), SUCCESS, attrs[AttrOf(f)])])
      else Some([ReadResult(Id(f), UNSUPPORTED, Other)])
  }

  predicate AttrsOk(results: seq<ReadResult>) {
    exists i :: 0 <= i < |results| && results[i].status == SUCCESS
  }

  /** The read of the field succeeds, plainly or, for eWeLink attributes, with the manufacturer code. */
  predicate Readable(attrs: Store, fates: Fates, f: Field) {
    AttrOf(f) in attrs && (fates.answers(f, false).Answers? || (!f.PowerOnBehavior? && fates.answers(f, true).Answers?))
  }

  // ---------------------------------------------------------------- reading back

  datatype Failure = NotFound | NotRelay | Input(why: Refusal) | Closed | RadioFailed | SettingsUnread

  /** The settings after a read: each readable field as its device value decodes, the rest as cached. */
  function ReadField(attrs: Store, cached: Relay, fates: Fates, f: Field): Option<Value> {
    if Readable(attrs, fates, f) && Decode(f, attrs[AttrOf(f)]).Some? then Decode(f, attrs[AttrOf(f)])
    else Get(cached, f)
  }

  /** Some field can be read and decoded, so the read as a whole succeeds. */
  ghost predicate AnyRead(attrs: Store, fates: Fates) {
    exists f :: ReadsAs(attrs, fates, f)
  }

  /** The results ReadRelay keeps for one field: the plain ones, unless only the coded read succeeds. */
  function Kept(attrs: Store, fates: Fates, f: Field): seq<ReadResult> {
    var plain := Response(attrs, f, fates.answers(f, false));
    if f.PowerOnBehavior? then (if plain.Some? then plain.value else [])
    else if plain.Some? && AttrsOk(plain.value) then plain.value
    else
      var again := Response(attrs, f, fates.answers(f, true));
      if again.None? then []
      else if AttrsOk(again.value) then again.value
      else if plain.Some? then plain.value
      else []
  }

  /** Reading the field met a radio error: at once, or when it was retried with the manufacturer code. */
  predicate Broke(attrs: Store, fates: Fates, f: Field) {
    var plain := Response(attrs, f, fates.answers(f, false));
    plain.None? || (!f.PowerOnBehavior? && !AttrsOk(plain.value) && Response(attrs, f, fates.answers(f, true)).None?)
  }

  ghost predicate SomeBroke(attrs: Store, fates: Fates, fields: seq<Field>) {
    exists f :: f in fields && Broke(attrs, fates, f)
  }

  lemma GatherStep(attrs: Store, fates: Fates, fields: seq<Field>, f: Field)
    ensures Gather(attrs, fates, fields + [f]) == Gather(attrs, fates, fields) + Kept(attrs, fates, f)
    ensures SomeBroke(attrs, fates, fields + [f]) <==> SomeBroke(attrs, fates, fields) || Broke(attrs, fates, f)
  {
    assert (fields + [f])[..|fields|] == fields;
    if Broke(attrs, fates, f) { assert f in fields + [f]; }
    if SomeBroke(attrs, fates, fields) {
      var g :| g in fields && Broke(attrs, fates, g);
      assert g in fields + [f];
    }
  }

  function Gather(attrs: Store, fates: Fates, fields: seq<Field>): seq<ReadResult> {
    if fields == [] then []
    else Gather(attrs, fates, fields[..|fields| - 1]) + Kept(attrs, fates, fields[|fields| - 1])
  }

  predicate ReadsAs(attrs: Store, fates: Fates, f: Field) {
    Readable(attrs, fates, f) && Decode(f, attrs[AttrOf(f)]).Some?
  }

  /** A readable field yields its device value, an unreadable one no success. */
  lemma KeptIs(attrs: Store, fates: Fates, f: Field)
    ensures Readable(attrs, fates, f) ==> Kept(attrs, fates, f) == [ReadResult(Id(f), SUCCESS, attrs[AttrOf(f)])]
    ensures !Readable(attrs, fates, f) ==>
              Kept(attrs, fates, f) == [] || Kept(attrs, fates, f) == [ReadResult(Id(f), UNSUPPORTED, Other)]
  {
    var one := Response(attrs, f, Answers).value;
    assert one[0].status == SUCCESS <==> AttrOf(f) in attrs;
  }

  lemma KeptLatest(attrs: Store, fates: Fates, f: Field, g: Field)
    ensures Latest(Kept(attrs, fates, f), g) ==
            if f == g && ReadsAs(attrs, fates, f) then Decode(f, attrs[AttrOf(f)]) else None
    ensures AnyApplies(Kept(attrs, fates, f)) <==> ReadsAs(attrs, fates, f)
  {
    KeptIs(attrs, fates, f);
    var kept := Kept(attrs, fates, f);
    if kept != [] {
      assert kept[..0] == [] && kept[0] in kept;
      assert FieldOf(Id(f)) == Some(f) && FieldOf(Id(g)) == Some(g);
    }
  }

  lemma {:induction false} GatherLatest(attrs: Store, fates: Fates, fields: seq<Field>, g: Field)
    ensures Latest(Gather(attrs, fates, fields), g) ==
            if g in fields && ReadsAs(attrs, fates, g) then Decode(g, attrs[AttrOf(g)]) else None
  {
    if fields != [] {
      var n := |fields| - 1;
      GatherLatest(attrs, fates, fields[..n], g);
      KeptLatest(attrs, fates, fields[n], g);
      assert g in fields <==> g in fields[..n] || g == fields[n];
      LatestConcat(Gather(attrs, fates, fields[..n]), Kept(attrs, fates, fields[n]), g);
    }
  }

  lemma {:induction false} GatherApplies(attrs: Store, fates: Fates, fields: seq<Field>)
    ensures AnyApplies(Gather(attrs, fates, fields)) <==> exists f :: f in fields && ReadsAs(attrs, fates, f)
  {
    if fields != [] {
      var n := |fields| - 1;
      GatherApplies(attrs, fates, fields[..n]);
      KeptLatest(attrs, fates, fields[n], fields[n]);
      AnyAppliesConcat(Gather(attrs, fates, fields[..n]), Kept(attrs, fates, fields[n]));
    }
  }

  /** The seven fields determine the settings. */
  lemma FieldsDetermine(r: Relay, r': Relay)
    requires forall f :: Get(r, f) == Get(r', f)
    ensures r == r'
  {
    assert Get(r, PowerOnBehavior) == Get(r', PowerOnBehavior);
    assert Get(r, NetworkIndicator) == Get(r', NetworkIndicator);
    assert Get(r, TurboMode) == Get(r', TurboMode);
    assert Get(r, DelayedPowerOnState) == Get(r', DelayedPowerOnState);
    assert Get(r, DelayedPowerOnTime) == Get(r', DelayedPowerOnTime);
    assert Get(r, ExternalTriggerMode) == Get(r', ExternalTriggerMode);
    assert Get(r, DetachRelayMode) == Get(r', DetachRelayMode);
  }

  // ---------------------------------------------------------------- patches

  datatype InchingSet = InchingSet(control: string, time: real, mode: string)

  datatype Patch = Patch(
    powerOnBehavior: Option<string>,
    networkIndicator: Option<bool>,
    turboMode: Option<bool>,
    delayedPowerOnState: Option<bool>,
    delayedPowerOnTime: Option<real>,
    detachRelayMode: Option<bool>,
    externalTriggerMode: Option<string>,
    inching: Option<InchingSet>
  )

  predicate IsEmpty(p: Patch) {
    p.powerOnBehavior.None? && p.networkIndicator.None? && p.turboMode.None? && p.delayedPowerOnState.None?
    && p.delayedPowerOnTime.None? && p.detachRelayMode.None? && p.externalTriggerMode.None? && p.inching.None?
  }

  /** The first thing wrong with a patch, in the order ApplyRelay looks. */
  function Refuses(p: Patch): Option<Refusal> {
    if IsEmpty(p) then Some(Empty)
    else if p.powerOnBehavior.Some? && PowerOnValue(p.powerOnBehavior.value).Err? then Some(PowerOn)
    else if p.externalTriggerMode.Some? && TriggerValue(p.externalTriggerMode.value).Err? then Some(Trigger)
    else if p.delayedPowerOnTime.Some? && DelayRaw(p.delayedPowerOnTime.value).Err? then
      Some(DelayRaw(p.delayedPowerOnTime.value).error)
    else if p.inching.Some? then InchingRefusal(p.inching.value.control, p.inching.value.mode, p.inching.value.time)
    else None
  }

  /** What is refused, in plain words, and in which order. */
  lemma RefusesIs(p: Patch)
    ensures Refuses(p) == Some(Empty) <==> p == Patch(None, None, None, None, None, None, None, None)
    ensures Refuses(p) == Some(PowerOn) <==> PowerOnIsWrong(p)
    ensures Refuses(p) == Some(Trigger) <==> !PowerOnIsWrong(p) && TriggerIsWrong(p)
    ensures !PowerOnIsWrong(p) && !TriggerIsWrong(p) ==>
              p.delayedPowerOnTime.Some? && DelayRaw(p.delayedPowerOnTime.value).Err? ==>
                Refuses(p) == Some(DelayRaw(p.delayedPowerOnTime.value).error)
    ensures Refuses(p).None? <==>
              && p != Patch(None, None, None, None, None, None, None, None)
              && !PowerOnIsWrong(p) && !TriggerIsWrong(p)
              && (p.delayedPowerOnTime.Some? ==> DelayRaw(p.delayedPowerOnTime.value).Ok?)
              && (p.inching.Some? ==>
                    ToUpper(TrimSpace(p.inching.value.control)) in {"ENABLE", "DISABLE"}
                    && ToUpper(TrimSpace(p.inching.value.mode)) in {"ON", "OFF"}
                    && DelayRaw(p.inching.value.time).Ok?)
  {
    if p.powerOnBehavior.Some? { AcceptedNames(p.powerOnBehavior.value); }
    if p.externalTriggerMode.Some? { AcceptedNames(p.externalTriggerMode.value); }
    if p.delayedPowerOnTime.Some? { DelayErrors(p.delayedPowerOnTime.value); }
    if p.inching.Some? { DelayErrors(p.inching.value.time); }
  }

  predicate PowerOnIsWrong(p: Patch) {
    p.powerOnBehavior.Some? && Folded(p.powerOnBehavior.value) !in {"off", "on", "toggle", "previous"}
  }

  predicate TriggerIsWrong(p: Patch) {
    p.externalTriggerMode.Some?
    && Folded(p.externalTriggerMode.value) !in {"edge", "pulse", "following(off)", "following(on)"}
  }

  /** The raw value the patch asks for, if it mentions the field with an acceptable value. */
  function Encoded(p: Patch, f: Field): Option<Raw> {
    match f
    case PowerOnBehavior => if p.powerOnBehavior.Some? then AsU8Raw(PowerOnValue(p.powerOnBehavior.value)) else None
    case ExternalTriggerMode =>
      if p.externalTriggerMode.Some? then AsU8Raw(TriggerValue(p.externalTriggerMode.value)) else None
    case DelayedPowerOnTime =>
      if p.delayedPowerOnTime.None? then None
      else
        var n := DelayRaw(p.delayedPowerOnTime.value);
        if n.Ok? then Some(U16(n.value)) else None
    case TurboMode => if p.turboMode.Some? then Some(I16(TurboValue(p.turboMode.value))) else None
    case NetworkIndicator => if p.networkIndicator.Some? then Some(Bool(p.networkIndicator.value)) else None
    case DelayedPowerOnState => if p.delayedPowerOnState.Some? then Some(Bool(p.delayedPowerOnState.value)) else None
    case DetachRelayMode => if p.detachRelayMode.Some? then Some(Bool(p.detachRelayMode.value)) else None
  }

  function AsU8Raw(v: Result<nat, Refusal>): Option<Raw> {
    if v.Ok? then Some(U8(v.value)) else None
  }

  /** The patch mentions the field. */
  predicate Mentions(p: Patch, f: Field) {
    match f
    case PowerOnBehavior => p.powerOnBehavior.Some?
    case ExternalTriggerMode => p.externalTriggerMode.Some?
    case DelayedPowerOnTime => p.delayedPowerOnTime.Some?
    case TurboMode => p.turboMode.Some?
    case NetworkIndicator => p.networkIndicator.Some?
    case DelayedPowerOnState => p.delayedPowerOnState.Some?
    case DetachRelayMode => p.detachRelayMode.Some?
  }

  /** The canonical form of what an acceptable patch asks for: names folded, delays a multiple of one half. */
  function Canonical(p: Patch, f: Field): Value
    requires Refuses(p).None? && Mentions(p, f)
  {
    match f
    case PowerOnBehavior => Text(Folded(p.powerOnBehavior.value))
    case ExternalTriggerMode => Text(Folded(p.externalTriggerMode.value))
    case DelayedPowerOnTime => Seconds(Round(p.delayedPowerOnTime.value * 2.0) as real / 2.0)
    case TurboMode => Flag(p.turboMode.value)
    case NetworkIndicator => Flag(p.networkIndicator.value)
    case DelayedPowerOnState => Flag(p.delayedPowerOnState.value)
    case DetachRelayMode => Flag(p.detachRelayMode.value)
  }

  /** What the device stores for a patched field decodes to the canonical form of the patch. */
  lemma EncodedDecodes(p: Patch, f: Field)
    requires Refuses(p).None?
    ensures Mentions(p, f) <==> Encoded(p, f).Some?
    ensures Mentions(p, f) ==> Decode(f, Encoded(p, f).value) == Some(Canonical(p, f))
  {
    match f
    case PowerOnBehavior =>
      if Mentions(p, f) { NamesInvert(p.powerOnBehavior.value, PowerOnValue(p.powerOnBehavior.value).value); }
    case ExternalTriggerMode =>
      if Mentions(p, f) { NamesInvert(p.externalTriggerMode.value, TriggerValue(p.externalTriggerMode.value).value); }
    case _ =>
  }

  /** The attributes to write for the given fields, when `enc` gives their values. */
  function Vals(enc: Field -> Option<Raw>, fields: seq<Field>): Store {
    if fields == [] then map[]
    else
      var f := fields[|fields| - 1];
      var rest := Vals(enc, fields[..|fields| - 1]);
      if enc(f).Some? then rest[AttrOf(f) := enc(f).value] else rest
  }

  lemma {:induction false} ValsAt(enc: Field -> Option<Raw>, fields: seq<Field>, f: Field)
    ensures AttrOf(f) in Vals(enc, fields) <==> f in fields && enc(f).Some?
    ensures AttrOf(f) in Vals(enc, fields) ==> Vals(enc, fields)[AttrOf(f)] == enc(f).value
  {
    if fields != [] {
      ValsAt(enc, fields[..|fields| - 1], f);
      assert FieldOf(Id(f)) == Some(f) && FieldOf(Id(fields[|fields| - 1])) == Some(fields[|fields| - 1]);
    }
  }

  lemma {:induction false} ValsOnly(enc: Field -> Option<Raw>, fields: seq<Field>, a: Attr)
    requires a in Vals(enc, fields)
    ensures exists f :: f in fields && a == AttrOf(f)
  {
    var f := fields[|fields| - 1];
    if a == AttrOf(f) {
      assert f in fields;
    } else {
      ValsOnly(enc, fields[..|fields| - 1], a);
    }
  }

  function StartupVals(p: Patch): Store { Vals(f => Encoded(p, f), [PowerOnBehavior]) }

  function EwelinkVals(p: Patch): Store { Vals(f => Encoded(p, f), EWELINK_FIELDS) }

  /**
   The device after the attribute writes, and whether they all succeeded: startup first, then eWeLink,
   twice if need be.
   */
  function WriteStages(attrs: Store, startup: Store, ewelink: Store, fates: Fates): (Store, bool) {
    var first := if startup == map[] then attrs else Written(attrs, startup, fates.startup);
    if startup != map[] && !fates.startup.ok then (first, false)
    else if ewelink == map[] then (first, true)
    else
      var plain := Written(first, ewelink, fates.plain);
      if fates.plain.ok then (plain, true) else (Written(plain, ewelink, fates.manuf), fates.manuf.ok)
  }

  /** The device after a patch has been written, and whether every step of it succeeded. */
  function WritePhase(attrs: Store, p: Patch, fates: Fates): (Store, bool) {
    var (after, ok) := WriteStages(attrs, StartupVals(p), EwelinkVals(p), fates);
    (after, ok && (p.inching.Some? ==> fates.pulseOk))
  }

  /**
   Framing, for every fate of the radio: writing leaves alone every attribute outside the values to
   write, leaves each of those as it was or as asked, and if it succeeds leaves all as asked.
   */
  lemma WriteFraming(attrs: Store, startup: Store, ewelink: Store, fates: Fates)
    requires startup.Keys !! ewelink.Keys
    ensures var (after, ok) := WriteStages(attrs, startup, ewelink, fates);
            Framed(attrs, startup + ewelink, after) && (ok ==> after == attrs + (startup + ewelink))
  {
    WritesFramed(attrs, startup, ewelink, fates);
    WritesDone(attrs, startup, ewelink, fates);
  }

  lemma WritesFramed(attrs: Store, startup: Store, ewelink: Store, fates: Fates)
    requires startup.Keys !! ewelink.Keys
    ensures Framed(attrs, startup + ewelink, WriteStages(attrs, startup, ewelink, fates).0)
  {
    var first := if startup == map[] then attrs else Written(attrs, startup, fates.startup);
    WrittenFrame(attrs, startup, fates.startup);
    var plain := Written(first, ewelink, fates.plain);
    WrittenFrame(first, ewelink, fates.plain);
    WrittenFrame(plain, ewelink, fates.manuf);
    FramedTwice(first, ewelink, plain, Written(plain, ewelink, fates.manuf));
    FramedApart(attrs, startup, first, ewelink, WriteStages(attrs, startup, ewelink, fates).0);
  }

  lemma WritesDone(attrs: Store, startup: Store, ewelink: Store, fates: Fates)
    ensures var (after, ok) := WriteStages(attrs, startup, ewelink, fates);
            ok ==> after == attrs + (startup + ewelink)
  {
    var first := if startup == map[] then attrs else Written(attrs, startup, fates.startup);
    if startup == map[] || fates.startup.ok {
      assert first == attrs + startup;
      assert Written(first, ewelink, fates.plain) + ewelink == first + ewelink;
      assert first + ewelink == attrs + (startup + ewelink);
    }
  }

  /** Writing `vals` leaves alone what is not in it, and the rest as it was or as asked. */
  predicate Framed(attrs: Store, vals: Store, after: Store) {
    && attrs.Keys <= after.Keys <= attrs.Keys + vals.Keys
    && (forall a :: a in attrs && a !in vals ==> after[a] == attrs[a])
    && (forall a :: a in vals && a in after ==> after[a] == vals[a] || (a in attrs && after[a] == attrs[a]))
  }

  lemma WrittenFrame(attrs: Store, vals: Store, fate: WriteFate)
    ensures Framed(attrs, vals, Written(attrs, vals, fate))
  {
  }

  lemma FramedTwice(a: Store, vals: Store, b: Store, c: Store)
    requires Framed(a, vals, b) && Framed(b, vals, c)
    ensures Framed(a, vals, c)
  {
  }

  lemma FramedApart(a: Store, u: Store, b: Store, v: Store, c: Store)
    requires Framed(a, u, b) && Framed(b, v, c) && u.Keys !! v.Keys
    ensures Framed(a, u + v, c)
  {
  }

  /** Whether the writes succeed, by their fates alone: each cluster's, and eWeLink's at the first or second try. */
  lemma WritesSucceedIff(attrs: Store, startup: Store, ewelink: Store, fates: Fates)
    ensures WriteStages(attrs, startup, ewelink, fates).1 <==>
            (startup == map[] || fates.startup.ok) && (ewelink == map[] || fates.plain.ok || fates.manuf.ok)
  {
  }

  /** The attribute is as it was. */
  predicate SameAt(attrs: Store, after: Store, a: Attr) {
    (a in after <==> a in attrs) && (a in attrs ==> after[a] == attrs[a])
  }

  /**
   Which values reach the device, attribute by attribute, whatever becomes of the phase as a whole: a startup
   value with its write; an eWeLink value, unless the startup write failed, with either of two writes.
   */
  lemma WrittenWhere(attrs: Store, startup: Store, ewelink: Store, fates: Fates, a: Attr)
    requires startup.Keys !! ewelink.Keys
    ensures var after := WriteStages(attrs, startup, ewelink, fates).0;
            && (a in startup ==>
                  if fates.startup.ok || a in fates.startup.applied then a in after && after[a] == startup[a]
                  else SameAt(attrs, after, a))
            && (a in ewelink ==>
                  if && (startup == map[] || fates.startup.ok)
                     && (fates.plain.ok || a in fates.plain.applied || fates.manuf.ok || a in fates.manuf.applied)
                  then a in after && after[a] == ewelink[a]
                  else SameAt(attrs, after, a))
            && (a !in startup && a !in ewelink ==> SameAt(attrs, after, a))
  {
    var first := if startup == map[] then attrs else Written(attrs, startup, fates.startup);
    WrittenAt(attrs, startup, fates.startup, a);
    var plain := Written(first, ewelink, fates.plain);
    WrittenAt(first, ewelink, fates.plain, a);
    WrittenAt(plain, ewelink, fates.manuf, a);
  }

  lemma WrittenAt(attrs: Store, vals: Store, fate: WriteFate, a: Attr)
    ensures var after := Written(attrs, vals, fate);
            if a in vals && (fate.ok || a in fate.applied) then a in after && after[a] == vals[a]
            else SameAt(attrs, after, a)
  {
  }

  predicate MentionsEwelink(p: Patch) {
    p.networkIndicator.Some? || p.turboMode.Some? || p.delayedPowerOnState.Some? || p.delayedPowerOnTime.Some?
    || p.externalTriggerMode.Some? || p.detachRelayMode.Some?
  }

  /** The fates under which every step of writing the patch succeeds. */
  predicate Succeeds(p: Patch, fates: Fates) {
    && (p.powerOnBehavior.Some? ==> fates.startup.ok)
    && (MentionsEwelink(p) ==> fates.plain.ok || fates.manuf.ok)
    && (p.inching.Some? ==> fates.pulseOk)
  }

  lemma PatchSucceedsIff(attrs: Store, p: Patch, fates: Fates)
    requires Refuses(p).None?
    ensures WritePhase(attrs, p, fates).1 <==> Succeeds(p, fates)
  {
    StartupPatch(p);
    EwelinkEmptyIff(p);
    WritesSucceedIff(attrs, StartupVals(p), EwelinkVals(p), fates);
    if p.powerOnBehavior.Some? { assert AttrOf(PowerOnBehavior) in StartupVals(p); }
  }

  lemma EwelinkEmptyIff(p: Patch)
    requires Refuses(p).None?
    ensures EwelinkVals(p) == map[] <==> !MentionsEwelink(p)
  {
    var enc := f => Encoded(p, f);
    forall f: Field | f != PowerOnBehavior ensures AttrOf(f) in EwelinkVals(p) <==> Mentions(p, f) {
      ValsAt(enc, EWELINK_FIELDS, f);
      EveryField(f);
      EncodedDecodes(p, f);
    }
    if MentionsEwelink(p) {
      assert Mentions(p, NetworkIndicator) || Mentions(p, TurboMode) || Mentions(p, DelayedPowerOnState)
             || Mentions(p, DelayedPowerOnTime) || Mentions(p, ExternalTriggerMode) || Mentions(p, DetachRelayMode);
      var f: Field :| f != PowerOnBehavior && Mentions(p, f);
      assert AttrOf(f) in EwelinkVals(p);
    } else {
      assert PowerOnBehavior !in EWELINK_FIELDS;
      forall a ensures a !in EwelinkVals(p) {
        if a in EwelinkVals(p) { ValsOnly(enc, EWELINK_FIELDS, a); }
      }
    }
  }

  /** No run of ApplyRelay, successful or not, changes an attribute the patch does not mention. */
  lemma PatchFraming(attrs: Store, p: Patch, fates: Fates, f: Field)
    ensures var (after, ok) := WritePhase(attrs, p, fates); var a := AttrOf(f);
            && (a !in after || (a in attrs && after[a] == attrs[a]) || Some(after[a]) == Encoded(p, f))
            && (a in attrs ==> a in after)
            && (ok && Encoded(p, f).Some? ==> a in after && after[a] == Encoded(p, f).value)
            && (ok && Encoded(p, f).None? ==> (a in after <==> a in attrs) && (a in attrs ==> after[a] == attrs[a]))
  {
    PatchVals(p, f);
    TwoClusters(p);
    WriteFraming(attrs, StartupVals(p), EwelinkVals(p), fates);
  }

  /** The attributes a patch writes are those of the fields it gives values to. */
  lemma PatchVals(p: Patch, f: Field)
    ensures var vals := StartupVals(p) + EwelinkVals(p);
            && (AttrOf(f) in vals <==> Encoded(p, f).Some?)
            && (AttrOf(f) in vals ==> vals[AttrOf(f)] == Encoded(p, f).value)
  {
    var enc := f => Encoded(p, f);
    ValsAt(enc, [PowerOnBehavior], f);
    ValsAt(enc, EWELINK_FIELDS, f);
    EveryField(f);
  }

  lemma TwoClusters(p: Patch)
    ensures StartupVals(p).Keys !! EwelinkVals(p).Keys
    ensures forall a :: a in StartupVals(p) + EwelinkVals(p) ==> exists f :: a == AttrOf(f)
  {
    var enc := f => Encoded(p, f);
    forall a | a in StartupVals(p) ensures a.cluster == ON_OFF && exists f :: a == AttrOf(f) {
      ValsOnly(enc, [PowerOnBehavior], a);
    }
    forall a | a in EwelinkVals(p) ensures a.cluster == EWELINK && exists f :: a == AttrOf(f) {
      ValsOnly(enc, EWELINK_FIELDS, a);
      assert PowerOnBehavior !in EWELINK_FIELDS;
    }
  }

  /** Attributes that stand for no field are not touched either. */
  lemma OtherAttrs(attrs: Store, p: Patch, fates: Fates, a: Attr)
    requires forall f :: AttrOf(f) != a
    ensures var after := WritePhase(attrs, p, fates).0;
            (a in after <==> a in attrs) && (a in attrs ==> after[a] == attrs[a])
  {
    TwoClusters(p);
    WriteFraming(attrs, StartupVals(p), EwelinkVals(p), fates);
  }

  lemma EveryField(f: Field)
    ensures f in [PowerOnBehavior] || f in EWELINK_FIELDS
  {
    var e := EWELINK_FIELDS;
    assert e == [NetworkIndicator, TurboMode, DelayedPowerOnState,
                 DelayedPowerOnTime, ExternalTriggerMode, DetachRelayMode];
    assert e[0] == NetworkIndicator && e[1] == TurboMode && e[2] == DelayedPowerOnState;
    assert e[3] == DelayedPowerOnTime && e[4] == ExternalTriggerMode && e[5] == DetachRelayMode;
  }

  /**
   Apply then read. After a successful write phase, a field read back is the canonical form of the patch
   if the patch mentions it, and otherwise what the device held before the patch; a field
   that cannot be read, or whose old device value means nothing, is what was cached.
   */
  lemma ApplyThenRead(attrs: Store, cached: Relay, p: Patch, fates: Fates, f: Field)
    requires Refuses(p).None? && WritePhase(attrs, p, fates).1
    ensures var after := WritePhase(attrs, p, fates).0;
            ReadField(after, cached, fates, f) ==
              if !Readable(after, fates, f) then Get(cached, f)
              else if Mentions(p, f) then Some(Canonical(p, f))
              else if AttrOf(f) in attrs && Decode(f, attrs[AttrOf(f)]).Some? then Decode(f, attrs[AttrOf(f)])
              else Get(cached, f)
  {
    PatchFraming(attrs, p, fates, f);
    EncodedDecodes(p, f);
  }

  // ---------------------------------------------------------------- the hub's side

  /** The part of a registered device that matters here. */
  datatype Entry = Entry(model: string, relay: Option<Relay>)

  predicate IsSonoffMini(e: Entry) { e.model == "ZBMINIR2" || e.model == "MINI-ZBD" }

  function Cached(e: Entry): Relay {
    if e.relay.Some? then e.relay.value else UNREAD
  }

  /** The hub's entry for one relay, the adapter, and the relay itself. */
  class RelayClient {
    var device: Option<Entry>
    var adapterOpen: bool
    var attrs: Store
    var pulses: seq<seq<Byte>>

    constructor (device: Option<Entry>, adapterOpen: bool, attrs: Store)
      ensures this.device == device && this.adapterOpen == adapterOpen && this.attrs == attrs && pulses == []
    {
      this.device := device;
      this.adapterOpen := adapterOpen;
      this.attrs := attrs;
      pulses := [];
    }

    /** readAttrs for one attribute. */
    method ReadAttrs(fates: Fates, f: Field, coded: bool) returns (res: Option<seq<ReadResult>>)
      ensures res == Response(attrs, f, fates.answers(f, coded))
    {
      res := Response(attrs, f, fates.answers(f, coded));
    }

    /** writeAttrs; true iff every record was confirmed. */
    method WriteAttrs(vals: Store, fate: WriteFate) returns (ok: bool)
      modifies this`attrs
      ensures attrs == Written(old(attrs), vals, fate) && ok == fate.ok
    {
      attrs := Written(attrs, vals, fate);
      ok := fate.ok;
    }

    /** One eWeLink attribute, read plainly and then, if need be, with the manufacturer code. */
    method ReadCoded(fates: Fates, f: Field) returns (results: seq<ReadResult>, failed: bool)
      requires !f.PowerOnBehavior?
      ensures results == Kept(attrs, fates, f) && (failed <==> Broke(attrs, fates, f))
    {
      failed := false;
      var res := ReadAttrs(fates, f, false);
      if res.None? || !AttrsOk(res.value) {
        failed := res.None?;
        var again := ReadAttrs(fates, f, true);
        if again.Some? && AttrsOk(again.value) {
          res := again;
        } else if again.None? {
          return [], true;
        }
      }
      results := if res.Some? then res.value else [];
    }

    /** ReadRelay's loop over the eWeLink attributes. */
    method ReadEwelink(fates: Fates) returns (results: seq<ReadResult>, failed: bool)
      ensures results == Gather(attrs, fates, EWELINK_FIELDS)
      ensures failed <==> SomeBroke(attrs, fates, EWELINK_FIELDS)
    {
      results := [];
      failed := false;
      for i := 0 to |EWELINK_FIELDS|
        invariant results == Gather(attrs, fates, EWELINK_FIELDS[..i])
        invariant failed <==> SomeBroke(attrs, fates, EWELINK_FIELDS[..i])
      {
        var f := EWELINK_FIELDS[i];
        GatherStep(attrs, fates, EWELINK_FIELDS[..i], f);
        assert EWELINK_FIELDS[..i] + [f] == EWELINK_FIELDS[..i + 1];
        var res, broke := ReadCoded(fates, f);
        results := results + res;
        failed := failed || broke;
      }
      assert EWELINK_FIELDS[..|EWELINK_FIELDS|] == EWELINK_FIELDS;
    }

    /**
     ReadRelay: fails for a device that is not there, not a relay or not reachable at all; otherwise
     every field it can read is the device's, and the rest keep their cached values.
     */
    method ReadRelay(fates: Fates) returns (r: Result<Relay, Failure>)
      modifies this`device
      ensures ReadOutcome(old(device), adapterOpen, attrs, fates, r)
      ensures device == Stored(old(device), r)
      ensures r.Ok? ==> device.Some? && device.value.relay == Some(r.value)
      ensures r.Ok? ==> device.value.model == old(device).value.model
      ensures r.Err? ==> device == old(device)
    {
      if device.None? {
        return Err(NotFound);
      }
      var d := device.value;
      if !IsSonoffMini(d) {
        return Err(NotRelay);
      }
      if !adapterOpen {
        return Err(Closed);
      }
      var startup := ReadAttrs(fates, PowerOnBehavior, false);
      var first := if startup.Some? then startup.value else [];
      var ewelink, failed := ReadEwelink(fates);
      var next := new RelayBox(Cached(d));
      var gotStartup := ApplyRelayRead(next, first);
      var gotEwelink := ApplyRelayRead(next, ewelink);
      ReadBackIs(attrs, Cached(d), fates, first, ewelink);
      assert failed || startup.None? <==> exists f :: Broke(attrs, fates, f) by {
        forall f ensures f in [PowerOnBehavior] || f in EWELINK_FIELDS { EveryField(f); }
        assert startup.None? <==> Broke(attrs, fates, PowerOnBehavior);
      }
      if !(gotStartup || gotEwelink) {
        return Err(if failed || startup.None? then RadioFailed else SettingsUnread);
      }
      device := Some(d.(relay := Some(next.relay)));
      return Ok(next.relay);
    }

    /** The eWeLink part of a patch, attribute by attribute. */
    method EwelinkPatch(p: Patch) returns (vals: Store)
      requires Refuses(p).None?
      ensures vals == EwelinkVals(p)
    {
      EncodedValues(p);
      vals := map[];
      ghost var enc := f => Encoded(p, f);
      ValsUpTo(enc);
      if p.networkIndicator.Some? {
        vals := vals[AttrOf(NetworkIndicator) := Bool(p.networkIndicator.value)];
      }
      if p.turboMode.Some? {
        vals := vals[AttrOf(TurboMode) := I16(TurboValue(p.turboMode.value))];
      }
      if p.delayedPowerOnState.Some? {
        vals := vals[AttrOf(DelayedPowerOnState) := Bool(p.delayedPowerOnState.value)];
      }
      if p.delayedPowerOnTime.Some? {
        vals := vals[AttrOf(DelayedPowerOnTime) := U16(DelayRaw(p.delayedPowerOnTime.value).value)];
      }
      if p.externalTriggerMode.Some? {
        vals := vals[AttrOf(ExternalTriggerMode) := U8(TriggerValue(p.externalTriggerMode.value).value)];
      }
      if p.detachRelayMode.Some? {
        vals := vals[AttrOf(DetachRelayMode) := Bool(p.detachRelayMode.value)];
      }
    }

    /** The attribute writes of ApplyRelay; true iff all of them succeeded. */
    method WritePatch(p: Patch, fates: Fates) returns (ok: bool)
      requires Refuses(p).None?
      modifies this`attrs
      ensures (attrs, ok) == WriteStages(old(attrs), StartupVals(p), EwelinkVals(p), fates)
    {
      StartupPatch(p);
      if p.powerOnBehavior.Some? {
        var startup := PowerOnValue(p.powerOnBehavior.value).value;
        assert AttrOf(PowerOnBehavior) in StartupVals(p);
        ok := WriteAttrs(map[AttrOf(PowerOnBehavior) := U8(startup)], fates.startup);
        if !ok {
          return;
        }
      }
      var vals := EwelinkPatch(p);
      ok := true;
      if |vals| > 0 {
        ok := WriteAttrs(vals, fates.plain);
        if !ok {
          ok := WriteAttrs(vals, fates.manuf);
        }
      }
    }

    /** The radio half of ApplyRelay: write, pulse, read back. */
    method WriteAndRead(p: Patch, inch: array?<Byte>, fates: Fates) returns (r: Result<Relay, Failure>)
      requires device.Some? && IsSonoffMini(device.value) && adapterOpen && Refuses(p).None?
      requires (inch != null <==> p.inching.Some?) && (inch != null ==> Asks(inch[..], p.inching.value))
      modifies this`device, this`attrs, this`pulses
      ensures attrs == WritePhase(old(attrs), p, fates).0
      ensures if WritePhase(old(attrs), p, fates).1 then ReadOutcome(old(device), adapterOpen, attrs, fates, r)
              else r == Err(RadioFailed)
      ensures if PulseSent(old(attrs), p, fates) then Pulsed(old(pulses), pulses, p.inching.value)
              else pulses == old(pulses)
      ensures device == Stored(old(device), r)
    {
      var ok := WritePatch(p, fates);
      if !ok {
        return Err(RadioFailed);
      }
      if inch != null {
        if fates.pulseOk || fates.pulseHeard {
          pulses := pulses + [inch[..]];
        }
        if !fates.pulseOk {
          return Err(RadioFailed);
        }
      }
      r := ReadRelay(fates);
    }

    /**
     ApplyRelay. A patch that is refused, for whatever reason, reaches neither the device nor the relay.
     Otherwise the write phase runs, and if it succeeds the settings are read back: a mentioned field
     that can be read is in canonical form, every other one is the device's old value or the cached one.
     */
    method ApplyRelay(p: Patch, fates: Fates) returns (r: Result<Relay, Failure>)
      modifies this`device, this`attrs, this`pulses
      ensures var blocked := Blocks(old(device), adapterOpen, p);
              if blocked.Some? then r == Err(blocked.value) && attrs == old(attrs) && pulses == old(pulses)
              else
                && attrs == WritePhase(old(attrs), p, fates).0
                && (if WritePhase(old(attrs), p, fates).1 then ReadOutcome(old(device), adapterOpen, attrs, fates, r)
                    else r == Err(RadioFailed))
                && (if PulseSent(old(attrs), p, fates) then Pulsed(old(pulses), pulses, p.inching.value)
                    else pulses == old(pulses))
      ensures device == Stored(old(device), r)
      ensures r.Ok? && p.inching.Some? ==> |pulses| == |old(pulses)| + 1 && DecodeInching(pulses[|old(pulses)|]).Some?
      ensures r.Ok? <==> Blocks(old(device), adapterOpen, p).None? && Succeeds(p, fates) && AnyRead(attrs, fates)
      ensures r.Ok? ==> device.Some? && device.value.relay == Some(r.value)
      ensures r.Ok? ==> device.value.model == old(device).value.model
      ensures r.Err? ==> device == old(device)
      ensures r.Ok? ==>
                forall f :: Readable(attrs, fates, f) && Mentions(p, f) ==> Get(r.value, f) == Some(Canonical(p, f))
    {
      if device.None? {
        return Err(NotFound);
      }
      if !IsSonoffMini(device.value) {
        return Err(NotRelay);
      }
      var inch: array?<Byte>, refused := Validate(p);
      if refused.Some? {
        return Err(Input(refused.value));
      }
      if !adapterOpen {
        return Err(Closed);
      }
      PatchSucceedsIff(old(attrs), p, fates);
      r := WriteAndRead(p, inch, fates);
      ReadsCanonical(old(attrs), Cached(old(device).value), p, fates);
    }
  }

  lemma ReadsCanonical(attrs: Store, cached: Relay, p: Patch, fates: Fates)
    requires Refuses(p).None?
    ensures var (after, ok) := WritePhase(attrs, p, fates);
            ok ==> forall f :: Readable(after, fates, f) && Mentions(p, f) ==>
                     ReadField(after, cached, fates, f) == Some(Canonical(p, f))
  {
    var (after, ok) := WritePhase(attrs, p, fates);
    if ok {
      forall f | Readable(after, fates, f) && Mentions(p, f)
        ensures ReadField(after, cached, fates, f) == Some(Canonical(p, f))
      {
        ApplyThenRead(attrs, cached, p, fates, f);
      }
    }
  }

  lemma StartupPatch(p: Patch)
    requires Refuses(p).None?
    ensures StartupVals(p) ==
            if p.powerOnBehavior.None? then map[]
            else map[AttrOf(PowerOnBehavior) := U8(PowerOnValue(p.powerOnBehavior.value).value)]
  {
    assert [PowerOnBehavior][..0] == [];
  }

  /** The values an acceptable patch gives to the eWeLink fields. */
  lemma EncodedValues(p: Patch)
    requires Refuses(p).None?
    ensures forall f :: Mentions(p, f) <==> Encoded(p, f).Some?
    ensures p.externalTriggerMode.Some? ==>
              Encoded(p, ExternalTriggerMode) == Some(U8(TriggerValue(p.externalTriggerMode.value).value))
    ensures p.delayedPowerOnTime.Some? ==>
              Encoded(p, DelayedPowerOnTime) == Some(U16(DelayRaw(p.delayedPowerOnTime.value).value))
  {
    forall f ensures Mentions(p, f) <==> Encoded(p, f).Some? { EncodedDecodes(p, f); }
  }

  function PutVal(enc: Field -> Option<Raw>, f: Field, vals: Store): Store {
    if enc(f).Some? then vals[AttrOf(f) := enc(f).value] else vals
  }

  lemma ValsUpTo(enc: Field -> Option<Raw>)
    ensures Vals(enc, EWELINK_FIELDS) ==
            PutVal(enc, DetachRelayMode, PutVal(enc, ExternalTriggerMode, PutVal(enc, DelayedPowerOnTime,
            PutVal(enc, DelayedPowerOnState, PutVal(enc, TurboMode, PutVal(enc, NetworkIndicator, map[]))))))
  {
    assert EWELINK_FIELDS[..6] == EWELINK_FIELDS && EWELINK_FIELDS[..0] == [];
    ValsStep(enc, 5);
    ValsStep(enc, 4);
    ValsStep(enc, 3);
    ValsStep(enc, 2);
    ValsStep(enc, 1);
    ValsStep(enc, 0);
  }

  lemma ValsStep(enc: Field -> Option<Raw>, k: nat)
    requires k < |EWELINK_FIELDS|
    ensures Vals(enc, EWELINK_FIELDS[..k + 1]) == PutVal(enc, EWELINK_FIELDS[k], Vals(enc, EWELINK_FIELDS[..k]))
  {
    assert EWELINK_FIELDS[..k + 1][..k] == EWELINK_FIELDS[..k];
  }

  /** What keeps a patch from being written at all. */
  function Blocks(device: Option<Entry>, adapterOpen: bool, p: Patch): Option<Failure> {
    if device.None? then Some(NotFound)
    else if !IsSonoffMini(device.value) then Some(NotRelay)
    else if Refuses(p).Some? then Some(Input(Refuses(p).value))
    else if !adapterOpen then Some(Closed)
    else None
  }

  /** The inching pulse goes out after the attribute writes, and may get there without being confirmed. */
  predicate PulseSent(attrs: Store, p: Patch, fates: Fates) {
    && p.inching.Some? && WriteStages(attrs, StartupVals(p), EwelinkVals(p), fates).1
    && (fates.pulseOk || fates.pulseHeard)
  }

  /** When the pulse goes out, by the fates alone. */
  lemma PulseSentIff(attrs: Store, p: Patch, fates: Fates)
    requires Refuses(p).None?
    ensures PulseSent(attrs, p, fates) <==>
            && p.inching != None && (p.powerOnBehavior != None ==> fates.startup.ok)
            && (MentionsEwelink(p) ==> fates.plain.ok || fates.manuf.ok) && (fates.pulseOk || fates.pulseHeard)
  {
    StartupPatch(p);
    EwelinkEmptyIff(p);
    WritesSucceedIff(attrs, StartupVals(p), EwelinkVals(p), fates);
    if p.powerOnBehavior.Some? { assert AttrOf(PowerOnBehavior) in StartupVals(p); }
  }

  /** One pulse was sent, and it says what was asked. */
  ghost predicate Pulsed(before: seq<seq<Byte>>, after: seq<seq<Byte>>, x: InchingSet) {
    && |after| == |before| + 1 && before <= after
    && Asks(after[|before|], x)
  }

  predicate Asks(payload: seq<Byte>, x: InchingSet) {
    && ControlOf(x.control).Some? && ModeOf(x.mode).Some? && DelayRaw(x.time).Ok?
    && DecodeInching(payload) == Some(Inching(ControlOf(x.control).value, ModeOf(x.mode).value, DelayRaw(x.time).value))
  }

  /** The validation half of ApplyRelay, which also builds the inching payload. */
  method Validate(p: Patch) returns (inch: array?<Byte>, refused: Option<Refusal>)
    ensures refused == Refuses(p)
    ensures refused.None? ==> (inch != null <==> p.inching.Some?)
    ensures refused.None? && inch != null ==> fresh(inch) && Asks(inch[..], p.inching.value)
  {
    inch := null;
    if IsEmpty(p) {
      return null, Some(Empty);
    }
    if p.powerOnBehavior.Some? {
      var startup := PowerOnValue(p.powerOnBehavior.value);
      if startup.Err? {
        return null, Some(startup.error);
      }
    }
    if p.externalTriggerMode.Some? {
      var trigger := TriggerValue(p.externalTriggerMode.value);
      if trigger.Err? {
        return null, Some(trigger.error);
      }
    }
    if p.delayedPowerOnTime.Some? {
      var delay := DelayRaw(p.delayedPowerOnTime.value);
      if delay.Err? {
        return null, Some(delay.error);
      }
    }
    if p.inching.Some? {
      var made := InchingPayload(p.inching.value.control, p.inching.value.mode, p.inching.value.time);
      if made.Err? {
        return null, Some(made.error);
      }
      inch := made.value;
    }
    refused := None;
  }

  /** What ReadRelay may answer. */
  ghost predicate ReadOutcome(device: Option<Entry>, adapterOpen: bool, attrs: Store, fates: Fates,
                              r: Result<Relay, Failure>) {
    if device.None? then r == Err(NotFound)
    else if !IsSonoffMini(device.value) then r == Err(NotRelay)
    else if !adapterOpen then r == Err(Closed)
    else
      && (r.Ok? <==> AnyRead(attrs, fates))
      && (r.Err? ==> r.error == if exists f :: Broke(attrs, fates, f) then RadioFailed else SettingsUnread)
      && (r.Ok? ==> forall f :: Get(r.value, f) == ReadField(attrs, Cached(device.value), fates, f))
  }

  /** What keeps a patch from being written, in order. */
  lemma BlocksIs(device: Option<Entry>, adapterOpen: bool, p: Patch)
    ensures Blocks(device, adapterOpen, p) == Some(NotFound) <==> device == None
    ensures Blocks(device, adapterOpen, p) == Some(NotRelay) <==>
              device != None && device.value.model !in {"ZBMINIR2", "MINI-ZBD"}
    ensures device != None && device.value.model in {"ZBMINIR2", "MINI-ZBD"} ==>
              var b := Blocks(device, adapterOpen, p);
              && (Refuses(p).Some? ==> b == Some(Input(Refuses(p).value)))
              && (Refuses(p).None? && !adapterOpen ==> b == Some(Closed))
              && (Refuses(p).None? && adapterOpen ==> b == None)
  {
  }

  /** Some read of the field is answered with a value that means something. */
  predicate IsShown(attrs: Store, fates: Fates, f: Field) {
    && AttrOf(f) in attrs && Decode(f, attrs[AttrOf(f)]) != None
    && (fates.answers(f, false) == Answers || (f != PowerOnBehavior && fates.answers(f, true) == Answers))
  }

  /** Some read of the field gets no answer: the plain one, or the coded one it needs. */
  predicate IsSilent(attrs: Store, fates: Fates, f: Field) {
    || fates.answers(f, false) == Silent
    || (&& f != PowerOnBehavior && !(fates.answers(f, false) == Answers && AttrOf(f) in attrs)
        && fates.answers(f, true) == Silent)
  }

  /**
   ReadRelay starts from the cached settings. It succeeds exactly when some field is shown; then every field that
   is shown is the device's, and every other one is as cached, or unset if nothing was cached.
   */
  lemma ReadStartsFromCache(e: Entry, attrs: Store, fates: Fates, r: Result<Relay, Failure>, f: Field)
    requires e.model in {"ZBMINIR2", "MINI-ZBD"} && ReadOutcome(Some(e), true, attrs, fates, r)
    ensures r.Ok? <==> exists g :: IsShown(attrs, fates, g)
    ensures r.Ok? && IsShown(attrs, fates, f) ==> Get(r.value, f) == Decode(f, attrs[AttrOf(f)])
    ensures r.Ok? && !IsShown(attrs, fates, f) && e.relay.Some? ==> Get(r.value, f) == Get(e.relay.value, f)
    ensures r.Ok? && !IsShown(attrs, fates, f) && e.relay.None? ==>
              Get(r.value, f) == Get(Relay("", None, None, None, None, None, ""), f)
    ensures r == Err(RadioFailed) <==> r.Err? && exists g :: IsSilent(attrs, fates, g)
  {
    forall g ensures IsShown(attrs, fates, g) <==> ReadsAs(attrs, fates, g) {
    }
    forall g ensures IsSilent(attrs, fates, g) <==> Broke(attrs, fates, g) {
      BrokeIs(attrs, fates, g);
    }
  }

  lemma BrokeIs(attrs: Store, fates: Fates, f: Field)
    ensures Broke(attrs, fates, f) <==> IsSilent(attrs, fates, f)
  {
    var plain := Response(attrs, f, fates.answers(f, false));
    if plain.Some? { assert AttrsOk(plain.value) <==> plain.value[0].status == SUCCESS; }
  }

  /** A device that is not there, is no such relay, or has no adapter behind it, cannot be read. */
  lemma ReadStops(device: Option<Entry>, adapterOpen: bool, attrs: Store, fates: Fates, r: Result<Relay, Failure>)
    requires ReadOutcome(device, adapterOpen, attrs, fates, r)
    ensures r == Err(NotFound) <==> device == None
    ensures r == Err(NotRelay) <==> device != None && device.value.model !in {"ZBMINIR2", "MINI-ZBD"}
    ensures r == Err(Closed) <==> device != None && device.value.model in {"ZBMINIR2", "MINI-ZBD"} && !adapterOpen
  {
  }

  /** ReadRelay has one answer, so its contract fixes it: the error, or all seven fields. */
  lemma ReadOutcomeIsUnique(device: Option<Entry>, adapterOpen: bool, attrs: Store, fates: Fates,
                            r: Result<Relay, Failure>, r': Result<Relay, Failure>)
    requires ReadOutcome(device, adapterOpen, attrs, fates, r) && ReadOutcome(device, adapterOpen, attrs, fates, r')
    ensures r == r'
  {
    if r.Ok? && r'.Ok? { FieldsDetermine(r.value, r'.value); }
  }

  /** storeRelay: a successful read becomes the cached settings. */
  function Stored(device: Option<Entry>, r: Result<Relay, Failure>): Option<Entry> {
    if r.Ok? && device.Some? then Some(device.value.(relay := Some(r.value))) else device
  }

  /** What the two applications of ReadRelay amount to. */
  lemma ReadBackIs(attrs: Store, cached: Relay, fates: Fates, startup: seq<ReadResult>, ewelink: seq<ReadResult>)
    requires startup == Kept(attrs, fates, PowerOnBehavior) && ewelink == Gather(attrs, fates, EWELINK_FIELDS)
    ensures forall f :: Get(ApplyAll(ApplyAll(cached, startup), ewelink), f) == ReadField(attrs, cached, fates, f)
    ensures AnyApplies(startup) || AnyApplies(ewelink) <==> AnyRead(attrs, fates)
  {
    ApplyConcat(cached, startup, ewelink);
    forall f ensures Get(ApplyAll(cached, startup + ewelink), f) == ReadField(attrs, cached, fates, f) {
      LastValueWins(cached, startup + ewelink, f);
      LatestConcat(startup, ewelink, f);
      KeptLatest(attrs, fates, PowerOnBehavior, f);
      GatherLatest(attrs, fates, EWELINK_FIELDS, f);
      EveryField(f);
    }
    SomeApplies(attrs, fates, startup, ewelink);
  }

  lemma SomeApplies(attrs: Store, fates: Fates, startup: seq<ReadResult>, ewelink: seq<ReadResult>)
    requires startup == Kept(attrs, fates, PowerOnBehavior) && ewelink == Gather(attrs, fates, EWELINK_FIELDS)
    ensures AnyApplies(startup) || AnyApplies(ewelink) <==> AnyRead(attrs, fates)
  {
    KeptLatest(attrs, fates, PowerOnBehavior, PowerOnBehavior);
    GatherApplies(attrs, fates, EWELINK_FIELDS);
    if AnyRead(attrs, fates) {
      var f :| ReadsAs(attrs, fates, f);
      EveryField(f);
    }
  }
}
