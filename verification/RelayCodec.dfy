/** Encoding and decoding of the settings of a ZBMINIR2 relay. */
module RelayCodec {
  import opened Common
  import opened Strings

  /** Why a setting is refused. */
  datatype Refusal = Empty | PowerOn | Trigger | DelayRange | DelayStep | InchingControl | InchingMode

  /** A decoded attribute value, by its Go type. */
  datatype Raw = U8(u8: nat) | I8(i8: int) | U16(u16: nat) | I16(i16: int) | Bool(b: bool) | Other

  function AsU8(v: Raw): nat {
    match v
    case U8(n) => n
    case I8(n) => n % 0x100
    case Bool(b) => if b then 1 else 0
    case _ => 0
  }

  function AsU16(v: Raw): nat {
    match v
    case U16(n) => n
    case U8(n) => n
    case _ => 0
  }

  function AsI16(v: Raw): int {
    match v
    case I16(n) => n
    case U16(n) => if n < 0x8000 then n else n - 0x1_0000
    case U8(n) => n
    case _ => 0
  }

  function AsBool(v: Raw): bool {
    match v
    case Bool(b) => b
    case U8(n) => n != 0
    case _ => false
  }

  /** Go's conversions between signed and unsigned types of one width keep the value modulo that width. */
  lemma ConversionsWrap(n: nat, k: int)
    requires n < 0x1_0000 && -0x80 <= k < 0x80
    ensures -0x8000 <= AsI16(U16(n)) < 0x8000 && (AsI16(U16(n)) - n) % 0x1_0000 == 0
    ensures 0 <= AsU8(I8(k)) < 0x100 && (AsU8(I8(k)) - k) % 0x100 == 0
  {
  }

  // ---------------------------------------------------------------- names

  function Folded(name: string): string { ToLower(TrimSpace(name)) }

  function PowerOnValue(name: string): Result<nat, Refusal> {
    var n := Folded(name);
    if n == "off" then Ok(0)
    else if n == "on" then Ok(1)
    else if n == "toggle" then Ok(2)
    else if n == "previous" then Ok(255)
    else Err(PowerOn)
  }

  function PowerOnName(v: nat): Option<string> {
    if v == 0 then Some("off")
    else if v == 1 then Some("on")
    else if v == 2 then Some("toggle")
    else if v == 255 then Some("previous")
    else None
  }

  function TriggerValue(name: string): Result<nat, Refusal> {
    var n := Folded(name);
    if n == "edge" then Ok(0)
    else if n == "pulse" then Ok(1)
    else if n == "following(off)" then Ok(2)
    else if n == "following(on)" then Ok(130)
    else Err(Trigger)
  }

  function TriggerName(v: nat): Option<string> {
    if v == 0 then Some("edge")
    else if v == 1 then Some("pulse")
    else if v == 2 then Some("following(off)")
    else if v == 130 then Some("following(on)")
    else None
  }

  function TurboValue(on: bool): int { if on then 0x14 else 0x09 }

  function TurboOn(v: int): Option<bool> {
    if v == 0x14 then Some(true) else if v == 0x09 then Some(false) else None
  }

  /** A name is accepted exactly when its folded form is the name of some value, and encodes that value. */
  lemma NamesInvert(name: string, v: nat)
    ensures PowerOnValue(name) == Ok(v) <==> PowerOnName(v) == Some(Folded(name))
    ensures TriggerValue(name) == Ok(v) <==> TriggerName(v) == Some(Folded(name))
  {
  }

  /** The accepted names and the values the relay knows them by. */
  lemma AcceptedNames(name: string)
    ensures PowerOnValue(name).Ok? <==> Folded(name) in {"off", "on", "toggle", "previous"}
    ensures PowerOnValue(name).Err? ==> PowerOnValue(name).error == PowerOn
    ensures TriggerValue(name).Ok? <==> Folded(name) in {"edge", "pulse", "following(off)", "following(on)"}
    ensures TriggerValue(name).Err? ==> TriggerValue(name).error == Trigger
    ensures forall v :: PowerOnName(v) == (match v case 0 => Some("off") case 1 => Some("on") case 2 => Some("toggle")
                                                     case 255 => Some("previous") case _ => None)
    ensures forall v :: TriggerName(v) == (match v case 0 => Some("edge") case 1 => Some("pulse")
                                                     case 2 => Some("following(off)") case 130 => Some("following(on)")
                                                     case _ => None)
    ensures forall v :: TurboOn(v) == (match v case 20 => Some(true) case 9 => Some(false) case _ => None)
    ensures forall on :: TurboOn(TurboValue(on)) == Some(on)
  {
  }

  // ---------------------------------------------------------------- delays

  /** math.Round: to the nearest integer, halves away from zero. */
  function Round(x: real): int {
    if x >= 0.0 then (x + 0.5).Floor else -((0.5 - x).Floor)
  }

  function Abs(x: real): real { if x < 0.0 then -x else x }

  function DelayRaw(seconds: real): Result<nat, Refusal> {
    if seconds < 0.5 || seconds > 3599.5 then Err(DelayRange)
    else
      var scaled := seconds * 2.0;
      var raw := Round(scaled);
      if Abs(scaled - raw as real) > 0.05 || raw < 1 || raw > 7199 then Err(DelayStep) else Ok(raw)
  }

  function DelaySeconds(raw: nat): real { raw as real / 2.0 }

  /**
   A delay is accepted exactly when it is in range and within a fortieth of a second of a multiple
   of one half, and is encoded by that multiple.
   */
  lemma DelayExact(s: real, n: nat)
    ensures DelayRaw(s) == Ok(n) <==> 0.5 <= s <= 3599.5 && Abs(s * 2.0 - n as real) <= 0.05
    ensures DelayRaw(s) == Ok(n) ==> 1 <= n <= 7199 && Abs(DelaySeconds(n) - s) <= 0.025
  {
    if 0.5 <= s <= 3599.5 {
      RoundNearest(s * 2.0, n);
      RoundBounds(s * 2.0, 1, 7199);
    }
  }

  /** The delay is within a fortieth of a second of `n` halves. */
  predicate Near(s: real, n: nat) { -0.05 <= s * 2.0 - n as real <= 0.05 }

  /** A delay that is not accepted is out of range, or off every step. */
  lemma DelayErrors(s: real)
    ensures DelayRaw(s) == Err(DelayRange) <==> !(0.5 <= s <= 3599.5)
    ensures DelayRaw(s) == Err(DelayStep) <==> 0.5 <= s <= 3599.5 && forall n: nat :: !Near(s, n)
    ensures DelayRaw(s).Err? ==> DelayRaw(s).error == DelayRange || DelayRaw(s).error == DelayStep
  {
    if 0.5 <= s <= 3599.5 {
      RangeTestRedundant(s);
      if DelayRaw(s).Ok? {
        DelayExact(s, DelayRaw(s).value);
        assert Near(s, DelayRaw(s).value);
      } else {
        forall n: nat ensures !Near(s, n) { DelayExact(s, n); }
      }
    }
  }

  lemma RoundNearest(x: real, n: int)
    requires x >= 0.0
    ensures Abs(x - n as real) < 0.5 ==> Round(x) == n
  {
  }

  lemma RoundBounds(x: real, lo: int, hi: int)
    requires 0 <= lo && lo as real <= x <= hi as real
    ensures lo <= Round(x) <= hi
  {
  }

  /** In range, rounding never leaves 1..7199, so the last test of delayRaw decides nothing. */
  lemma RangeTestRedundant(s: real)
    requires 0.5 <= s <= 3599.5
    ensures 1 <= Round(s * 2.0) <= 7199
    ensures DelayRaw(s).Ok? <==> Abs(s * 2.0 - Round(s * 2.0) as real) <= 0.05
  {
    RoundBounds(s * 2.0, 1, 7199);
  }

  /** Decoding and encoding again is the identity on every value the device can be given. */
  lemma DelayRoundTrip(n: nat)
    requires 1 <= n <= 7199
    ensures DelayRaw(DelaySeconds(n)) == Ok(n)
  {
    DelayExact(DelaySeconds(n), n);
  }

  // ---------------------------------------------------------------- inching

  datatype Inching = Inching(enable: bool, on: bool, halves: nat)

  function ControlOf(control: string): Option<bool> {
    var c := ToUpper(TrimSpace(control));
    if c == "ENABLE" then Some(true) else if c == "DISABLE" then Some(false) else None
  }

  function ModeOf(mode: string): Option<bool> {
    var m := ToUpper(TrimSpace(mode));
    if m == "ON" then Some(true) else if m == "OFF" then Some(false) else None
  }

  type Byte = b: nat | b < 0x100

  /** Bitwise exclusive or of two bytes. */
  function XorBits(a: nat, b: nat): nat {
    if a == 0 && b == 0 then 0 else (a + b) % 2 + 2 * XorBits(a / 2, b / 2)
  }

  /** b | bit, for a power of two `bit`. */
  function SetBit(b: nat, bit: nat): nat
    requires bit > 0
  {
    if b / bit % 2 == 1 then b else b + bit
  }

  /** The exclusive or of all bytes. */
  function Xor(p: seq<Byte>): nat {
    if p == [] then 0 else XorBits(Xor(p[..|p| - 1]), p[|p| - 1])
  }

  function Halves(lo: nat, hi: nat): nat { lo + 0x100 * hi }

  /** What the relay reads from a payload with an intact frame and checksum. */
  function DecodeInching(p: seq<Byte>): Option<Inching> {
    if |p| == 11 && p[..4] == [0x01, 0x17, 0x07, 0x80] && p[5] == 0 && p[8] == 0 && p[9] == 0
       && p[4] in {0x00, 0x01, 0x80, 0x81} && Xor(p) == 0
    then Some(Inching(p[4] >= 0x80, p[4] % 2 == 1, Halves(p[6], p[7])))
    else None
  }

  /** Why the settings are refused, in the order in which they are looked at. */
  function InchingRefusal(control: string, mode: string, seconds: real): Option<Refusal> {
    if ControlOf(control).None? then Some(InchingControl)
    else if ModeOf(mode).None? then Some(InchingMode)
    else match DelayRaw(seconds) case Err(e) => Some(e) case Ok(_) => None
  }

  /** An accepted payload decodes, checksum included, to the settings it was made from. */
  method InchingPayload(control: string, mode: string, seconds: real) returns (r: Result<array<Byte>, Refusal>)
    ensures r.Err? <==> InchingRefusal(control, mode, seconds).Some?
    ensures r.Err? ==> Some(r.error) == InchingRefusal(control, mode, seconds)
    ensures r.Ok? ==> fresh(r.value)
    ensures r.Ok? ==> DecodeInching(r.value[..]) ==
                      Some(Inching(ControlOf(control).value, ModeOf(mode).value, DelayRaw(seconds).value))
    ensures r.Ok? ==>
              && r.value.Length == 11 && r.value[..4] == [0x01, 0x17, 0x07, 0x80]
              && r.value[4] == (if ToUpper(TrimSpace(control)) == "ENABLE" then 0x80 else 0)
                               + (if ToUpper(TrimSpace(mode)) == "ON" then 0x01 else 0)
              && r.value[5..10] == [0, DelayRaw(seconds).value % 0x100, DelayRaw(seconds).value / 0x100, 0, 0]
  {
    var ctrl := ToUpper(TrimSpace(control));
    var md := ToUpper(TrimSpace(mode));
    if ctrl != "ENABLE" && ctrl != "DISABLE" {
      return Err(InchingControl);
    }
    if md != "ON" && md != "OFF" {
      return Err(InchingMode);
    }
    var raw := DelayRaw(seconds);
    if raw.Err? {
      return Err(raw.error);
    }
    DelayExact(seconds, raw.value);
    var enable, on := ctrl == "ENABLE", md == "ON";
    assert ControlOf(control) == Some(enable) && ModeOf(mode) == Some(on);
    var payload := Body(raw.value, enable, on);
    ghost var body := payload[..];
    Seal(payload);
    BodyDecodes(body, payload[..], Inching(enable, on, raw.value));
    BodyBytes(body, payload[..], Inching(enable, on, raw.value));
    r := Ok(payload);
  }

  /** The frame before its checksum. */
  ghost predicate IsBody(p: seq<Byte>, x: Inching) {
    && |p| == 11 && p[..4] == [0x01, 0x17, 0x07, 0x80] && p[5] == 0 && p[8] == 0 && p[9] == 0
    && p[4] == (if x.enable then 0x80 else 0) + (if x.on then 0x01 else 0)
    && Halves(p[6], p[7]) == x.halves
  }

  method Body(raw: nat, enable: bool, on: bool) returns (payload: array<Byte>)
    requires raw < 0x1_0000
    ensures fresh(payload) && IsBody(payload[..], Inching(enable, on, raw))
  {
    payload := new Byte[11][0x01, 0x17, 0x07, 0x80, 0x00, 0x00, raw % 0x100, raw / 0x100, 0x00, 0x00, 0x00];
    if enable {
      payload[4] := SetBit(payload[4], 0x80);
    }
    if on {
      payload[4] := SetBit(payload[4], 0x01);
    }
  }

  lemma BodyBytes(body: seq<Byte>, sealed: seq<Byte>, x: Inching)
    requires IsBody(body, x) && |sealed| == 11 && sealed[..10] == body[..10]
    ensures sealed[..4] == [0x01, 0x17, 0x07, 0x80]
    ensures sealed[4] == (if x.enable then 0x80 else 0) + (if x.on then 0x01 else 0)
    ensures sealed[5..10] == [0, x.halves % 0x100, x.halves / 0x100, 0, 0]
  {
    assert forall i :: 0 <= i < 10 ==> sealed[i] == sealed[..10][i] && body[i] == body[..10][i];
    assert sealed[..4] == body[..4];
    var lo: nat, hi: nat := body[6], body[7];
    assert x.halves == lo + 0x100 * hi;
    assert x.halves % 0x100 == lo && x.halves / 0x100 == hi;
  }

  lemma BodyDecodes(body: seq<Byte>, sealed: seq<Byte>, x: Inching)
    requires IsBody(body, x) && |sealed| == 11 && sealed[..10] == body[..10] && Xor(sealed) == 0
    ensures DecodeInching(sealed) == Some(x)
  {
    assert forall i :: 0 <= i < 10 ==> sealed[i] == sealed[..10][i] && body[i] == body[..10][i];
    assert sealed[..4] == body[..4];
  }

  /** The checksum loop. */
  method Seal(payload: array<Byte>)
    requires payload.Length == 11
    modifies payload
    ensures payload[..10] == old(payload[..10]) && Xor(payload[..]) == 0
  {
    ghost var body := payload[..10];
    var sum: Byte := 0;
    for i := 0 to 10
      invariant payload[..10] == body
      invariant sum == Xor(payload[..i])
    {
      XorFits(sum, payload[i], 8);
      sum := XorBits(sum, payload[i]);
      assert payload[..i + 1][..i] == payload[..i];
    }
    payload[10] := sum;
    assert payload[..10] == body;
    assert payload[..][..10] == payload[..10];
    XorSelf(sum);
  }

  function Pow2(n: nat): nat { if n == 0 then 1 else 2 * Pow2(n - 1) }

  lemma {:induction false} XorFits(a: nat, b: nat, n: nat)
    requires a < Pow2(n) && b < Pow2(n)
    ensures XorBits(a, b) < Pow2(n)
  {
    if n > 0 { XorFits(a / 2, b / 2, n - 1); }
  }

  lemma {:induction false} XorSelf(a: nat)
    ensures XorBits(a, a) == 0
  {
    if a > 0 { XorSelf(a / 2); }
  }

  lemma {:induction false} XorZero(a: nat)
    ensures XorBits(0, a) == a == XorBits(a, 0)
  {
    if a > 0 { XorZero(a / 2); }
  }

  lemma {:induction false} XorSwap(a: nat, b: nat, c: nat)
    ensures XorBits(XorBits(a, b), c) == XorBits(XorBits(a, c), b)
  {
    if a > 0 || b > 0 || c > 0 {
      XorSwap(a / 2, b / 2, c / 2);
      XorThree(a, b, c);
      XorThree(a, c, b);
      HalfAndParity(XorBits(XorBits(a, b), c), XorBits(XorBits(a, c), b));
    }
  }

  /** The halves and the parity of a double exclusive or. */
  lemma XorThree(a: nat, b: nat, c: nat)
    ensures XorBits(XorBits(a, b), c) / 2 == XorBits(XorBits(a / 2, b / 2), c / 2)
    ensures XorBits(XorBits(a, b), c) % 2 == (a + b + c) % 2
  {
    var x := XorBits(a, b);
    XorHalf(a, b);
    XorHalf(x, c);
    Parity(x, a, b, c);
  }

  lemma XorHalf(a: nat, b: nat)
    ensures XorBits(a, b) / 2 == XorBits(a / 2, b / 2)
    ensures XorBits(a, b) % 2 == (a + b) % 2
  {
  }

  lemma Parity(x: nat, a: nat, b: nat, c: nat)
    requires x % 2 == (a + b) % 2
    ensures (x + c) % 2 == (a + b + c) % 2
  {
  }

  lemma HalfAndParity(x: nat, y: nat)
    requires x / 2 == y / 2 && x % 2 == y % 2
    ensures x == y
  {
  }

  /** Changing one byte changes the checksum by exactly that change. */
  lemma {:induction false} XorUpdate(p: seq<Byte>, i: nat, b: Byte)
    requires i < |p|
    ensures XorBits(Xor(p[i := b]), p[i]) == XorBits(Xor(p), b)
  {
    var n := |p| - 1;
    if i == n {
      assert p[i := b][..n] == p[..n];
      XorSwap(Xor(p[..n]), b, p[n]);
    } else {
      XorUpdate(p[..n], i, b);
      assert p[i := b][..n] == p[..n][i := b];
      XorSwap(Xor(p[..n][i := b]), p[n], p[i]);
      XorSwap(Xor(p[..n]), p[n], b);
    }
  }

  /** Any single corrupted byte of an inching payload is detected. */
  lemma CorruptionDetected(p: seq<Byte>, i: nat, b: Byte)
    requires DecodeInching(p).Some? && i < |p| && p[i] != b
    ensures Xor(p[i := b]) != 0 && DecodeInching(p[i := b]) == None
  {
    XorUpdate(p, i, b);
    XorZero(p[i]);
    XorZero(b);
  }
}
