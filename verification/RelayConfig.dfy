/**
 The settings of a ZBMINIR2 relay, one field per device attribute, and how the results of attribute
 reads are applied to them.
 */
module RelayConfig {
  import opened Common
  import opened RelayCodec

  /** The fields of a relay's settings, one per device attribute. */
  datatype Field = PowerOnBehavior | NetworkIndicator | TurboMode | DelayedPowerOnState | DelayedPowerOnTime
    | ExternalTriggerMode | DetachRelayMode

  datatype Attr = Attr(cluster: nat, id: nat)

  const ON_OFF := 0x0006
  const EWELINK := 0xFC11
  const START_UP_ON_OFF := 0x4003

  function Id(f: Field): nat {
    match f
    case PowerOnBehavior => START_UP_ON_OFF
    case NetworkIndicator => 0x0001
    case TurboMode => 0x0012
    case DelayedPowerOnState => 0x0014
    case DelayedPowerOnTime => 0x0015
    case ExternalTriggerMode => 0x0016
    case DetachRelayMode => 0x0017
  }

  function AttrOf(f: Field): Attr {
    Attr(if f.PowerOnBehavior? then ON_OFF else EWELINK, Id(f))
  }

  /** The eWeLink attributes, in the order ReadRelay asks for them. */
  const EWELINK_FIELDS: seq<Field> :=
    [NetworkIndicator, TurboMode, DelayedPowerOnState, DelayedPowerOnTime, ExternalTriggerMode, DetachRelayMode]

  // ---------------------------------------------------------------- settings

  datatype Relay = Relay(
    powerOnBehavior: string,
    networkIndicator: Option<bool>,
    turboMode: Option<bool>,
    delayedPowerOnState: Option<bool>,
    delayedPowerOnTime: Option<real>,
    detachRelayMode: Option<bool>,
    externalTriggerMode: string
  )

  const UNREAD: Relay := Relay("", None, None, None, None, None, "")

  datatype Value = Text(s: string) | Flag(b: bool) | Seconds(r: real)

  predicate Fits(f: Field, v: Value) {
    match f
    case PowerOnBehavior | ExternalTriggerMode => v.Text?
    case DelayedPowerOnTime => v.Seconds?
    case _ => v.Flag?
  }

  function Get(r: Relay, f: Field): Option<Value> {
    match f
    case PowerOnBehavior => Some(Text(r.powerOnBehavior))
    case ExternalTriggerMode => Some(Text(r.externalTriggerMode))
    case DelayedPowerOnTime => if r.delayedPowerOnTime.Some? then Some(Seconds(r.delayedPowerOnTime.value)) else None
    case NetworkIndicator => if r.networkIndicator.Some? then Some(Flag(r.networkIndicator.value)) else None
    case TurboMode => if r.turboMode.Some? then Some(Flag(r.turboMode.value)) else None
    case DelayedPowerOnState => if r.delayedPowerOnState.Some? then Some(Flag(r.delayedPowerOnState.value)) else None
    case DetachRelayMode => if r.detachRelayMode.Some? then Some(Flag(r.detachRelayMode.value)) else None
  }

  function Put(r: Relay, f: Field, v: Value): Relay
    requires Fits(f, v)
  {
    match f
    case PowerOnBehavior => r.(powerOnBehavior := v.s)
    case ExternalTriggerMode => r.(externalTriggerMode := v.s)
    case DelayedPowerOnTime => r.(delayedPowerOnTime := Some(v.r))
    case NetworkIndicator => r.(networkIndicator := Some(v.b))
    case TurboMode => r.(turboMode := Some(v.b))
    case DelayedPowerOnState => r.(delayedPowerOnState := Some(v.b))
    case DetachRelayMode => r.(detachRelayMode := Some(v.b))
  }

  /** What a raw attribute value means for its field, if anything. */
  function Decode(f: Field, v: Raw): (d: Option<Value>)
    ensures d.Some? ==> Fits(f, d.value)
  {
    match f
    case PowerOnBehavior =>
      var name := PowerOnName(AsU8(v)); if name.Some? then Some(Text(name.value)) else None
    case ExternalTriggerMode =>
      var name := TriggerName(AsU8(v)); if name.Some? then Some(Text(name.value)) else None
    case TurboMode =>
      var on := TurboOn(AsI16(v)); if on.Some? then Some(Flag(on.value)) else None
    case DelayedPowerOnTime => Some(Seconds(DelaySeconds(AsU16(v))))
    case _ => Some(Flag(AsBool(v)))
  }

  // ---------------------------------------------------------------- applyRelayRead

  datatype ReadResult = ReadResult(id: nat, status: nat, value: Raw)

  const SUCCESS := 0

  function FieldOf(id: nat): (f: Option<Field>)
    ensures forall g :: f == Some(g) <==> Id(g) == id
  {
    if id == START_UP_ON_OFF then Some(PowerOnBehavior)
    else if id == 0x0001 then Some(NetworkIndicator)
    else if id == 0x0012 then Some(TurboMode)
    else if id == 0x0014 then Some(DelayedPowerOnState)
    else if id == 0x0015 then Some(DelayedPowerOnTime)
    else if id == 0x0016 then Some(ExternalTriggerMode)
    else if id == 0x0017 then Some(DetachRelayMode)
    else None
  }

  /** The result gives field `f` the value. */
  function Gives(r: ReadResult, f: Field): Option<Value> {
    if r.status == SUCCESS && r.id == Id(f) then Decode(f, r.value) else None
  }

  predicate Applies(r: ReadResult) {
    r.status == SUCCESS && FieldOf(r.id).Some? && Decode(FieldOf(r.id).value, r.value).Some?
  }

  /** Which attribute sets which field, and how its value is read, one by one. */
  lemma AttributesMean(next: Relay, v: Raw)
    ensures ApplyOne(next, ReadResult(0x4003, 0, v)) ==
            if PowerOnName(AsU8(v)) == None then next else next.(powerOnBehavior := PowerOnName(AsU8(v)).value)
    ensures ApplyOne(next, ReadResult(0x0001, 0, v)) == next.(networkIndicator := Some(AsBool(v)))
    ensures ApplyOne(next, ReadResult(0x0012, 0, v)) ==
            if TurboOn(AsI16(v)) == None then next else next.(turboMode := TurboOn(AsI16(v)))
    ensures ApplyOne(next, ReadResult(0x0014, 0, v)) == next.(delayedPowerOnState := Some(AsBool(v)))
    ensures ApplyOne(next, ReadResult(0x0015, 0, v)) == next.(delayedPowerOnTime := Some(AsU16(v) as real / 2.0))
    ensures ApplyOne(next, ReadResult(0x0016, 0, v)) ==
            if TriggerName(AsU8(v)) == None then next else next.(externalTriggerMode := TriggerName(AsU8(v)).value)
    ensures ApplyOne(next, ReadResult(0x0017, 0, v)) == next.(detachRelayMode := Some(AsBool(v)))
    ensures forall id, status ::
              status != 0 || id !in {0x4003, 0x0001, 0x0012, 0x0014, 0x0015, 0x0016, 0x0017} ==>
                ApplyOne(next, ReadResult(id, status, v)) == next
    ensures forall f :: AttrOf(f) == Attr(if f == PowerOnBehavior then 0x0006 else 0xFC11, Id(f))
  {
    assert Id(PowerOnBehavior) == 0x4003 && Id(NetworkIndicator) == 0x0001 && Id(TurboMode) == 0x0012;
    assert Id(DelayedPowerOnState) == 0x0014 && Id(DelayedPowerOnTime) == 0x0015;
    assert Id(ExternalTriggerMode) == 0x0016 && Id(DetachRelayMode) == 0x0017;
  }

  /** Some result changes the settings. */
  predicate AnyApplies(results: seq<ReadResult>) {
    exists i :: 0 <= i < |results| && Applies(results[i])
  }

  function ApplyOne(next: Relay, r: ReadResult): Relay {
    if Applies(r) then Put(next, FieldOf(r.id).value, Decode(FieldOf(r.id).value, r.value).value) else next
  }

  function ApplyAll(next: Relay, results: seq<ReadResult>): Relay {
    if results == [] then next
    else ApplyOne(ApplyAll(next, results[..|results| - 1]), results[|results| - 1])
  }

  /** The value the last decodable result gives to a field. */
  function Latest(results: seq<ReadResult>, f: Field): Option<Value> {
    if results == [] then None
    else
      var last := Gives(results[|results| - 1], f);
      if last.Some? then last else Latest(results[..|results| - 1], f)
  }

  /** Each field ends as its last successful decodable value, or as it was. */
  lemma {:induction false} LastValueWins(next: Relay, results: seq<ReadResult>, f: Field)
    ensures Get(ApplyAll(next, results), f) ==
            if Latest(results, f).Some? then Latest(results, f) else Get(next, f)
  {
    if results != [] { LastValueWins(next, results[..|results| - 1], f); }
  }

  /**
   Applying two lists one after the other is applying their concatenation, and something in that
   applies exactly when something in either does, as ReadRelay's two calls assume.
   */
  lemma {:induction false} ApplyConcat(next: Relay, a: seq<ReadResult>, b: seq<ReadResult>)
    ensures ApplyAll(ApplyAll(next, a), b) == ApplyAll(next, a + b)
    ensures AnyApplies(a + b) <==> AnyApplies(a) || AnyApplies(b)
  {
    AnyAppliesConcat(a, b);
    if b == [] {
      assert a + b == a;
    } else {
      ApplyConcat(next, a, b[..|b| - 1]);
      assert (a + b)[..|a + b| - 1] == a + b[..|b| - 1];
    }
  }

  lemma AnyAppliesConcat(a: seq<ReadResult>, b: seq<ReadResult>)
    ensures AnyApplies(a + b) <==> AnyApplies(a) || AnyApplies(b)
  {
    if AnyApplies(a) {
      var i :| 0 <= i < |a| && Applies(a[i]);
      assert Applies((a + b)[i]);
    }
    if AnyApplies(b) {
      var i :| 0 <= i < |b| && Applies(b[i]);
      assert Applies((a + b)[|a| + i]);
    }
  }

  lemma {:induction false} LatestConcat(a: seq<ReadResult>, b: seq<ReadResult>, f: Field)
    ensures Latest(a + b, f) == if Latest(b, f).Some? then Latest(b, f) else Latest(a, f)
  {
    if b == [] {
      assert a + b == a;
    } else {
      LatestConcat(a, b[..|b| - 1], f);
      assert (a + b)[..|a + b| - 1] == a + b[..|b| - 1];
    }
  }

  class RelayBox {
    var relay: Relay

    constructor (relay: Relay)
      ensures this.relay == relay
    {
      this.relay := relay;
    }
  }

  /** One result, written through `next`; true iff it was applied. */
  method ApplyResult(next: RelayBox, r: ReadResult) returns (applied: bool)
    modifies next
    ensures next.relay == ApplyOne(old(next.relay), r) && (applied <==> Applies(r))
  {
    applied := false;
    if r.status == SUCCESS {
      if r.id == START_UP_ON_OFF {
        var name := PowerOnName(AsU8(r.value));
        if name.Some? {
          next.relay := next.relay.(powerOnBehavior := name.value);
          applied := true;
        }
      } else if r.id == 0x0001 {
        next.relay := next.relay.(networkIndicator := Some(AsBool(r.value)));
        applied := true;
      } else if r.id == 0x0012 {
        var on := TurboOn(AsI16(r.value));
        if on.Some? {
          next.relay := next.relay.(turboMode := on);
          applied := true;
        }
      } else if r.id == 0x0014 {
        next.relay := next.relay.(delayedPowerOnState := Some(AsBool(r.value)));
        applied := true;
      } else if r.id == 0x0015 {
        var sec := AsU16(r.value) as real / 2.0;
        next.relay := next.relay.(delayedPowerOnTime := Some(sec));
        applied := true;
      } else if r.id == 0x0016 {
        var name := TriggerName(AsU8(r.value));
        if name.Some? {
          next.relay := next.relay.(externalTriggerMode := name.value);
          applied := true;
        }
      } else if r.id == 0x0017 {
        next.relay := next.relay.(detachRelayMode := Some(AsBool(r.value)));
        applied := true;
      }
    }
  }

  /** applyRelayRead, writing through `next`; true iff some result was applied. */
  method ApplyRelayRead(next: RelayBox, results: seq<ReadResult>) returns (got: bool)
    modifies next
    ensures next.relay == ApplyAll(old(next.relay), results)
    ensures got <==> AnyApplies(results)
  {
    got := false;
    for k := 0 to |results|
      invariant next.relay == ApplyAll(old(next.relay), results[..k])
      invariant got <==> exists i :: 0 <= i < k && Applies(results[i])
    {
      assert results[..k + 1][..k] == results[..k];
      var applied := ApplyResult(next, results[k]);
      got := got || applied;
    }
    assert results[..|results|] == results;
  }
}
