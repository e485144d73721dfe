/**
 The two parsers of incoming AF frames, which read the frame through a moving cursor, and the frame
 layouts they invert (AF_INCOMING_MSG and AF_INCOMING_MSG_EXT of the Z-Stack monitor and test API).
 */
module AfFrames {
  import opened Common

  type Byte = b: nat | b < 0x100

  datatype Incoming = Incoming(
    groupId: nat,
    clusterId: nat,
    srcAddr: nat,
    srcEndpoint: Byte,
    dstEndpoint: Byte,
    wasBroadcast: bool,
    linkQuality: Byte,
    securityUse: bool,
    timestamp: nat,
    transSeqNum: Byte,
    data: seq<Byte>
  )

  function Num(b: Byte): nat { b }

  /** Little-endian fields. */
  function Le16(d: seq<Byte>, off: nat): (v: nat)
    requires off + 2 <= |d|
    ensures v < 0x1_0000
  {
    var lo: nat := d[off];
    var hi: nat := d[off + 1];
    lo + 0x100 * hi
  }

  function Le32(d: seq<Byte>, off: nat): (v: nat)
    requires off + 4 <= |d|
    ensures v < 0x1_0000_0000
  {
    Le16(d, off) + 0x1_0000 * Le16(d, off + 2)
  }

  function Put16(v: nat): (b: seq<Byte>)
    requires v < 0x1_0000
    ensures |b| == 2
  {
    [v % 0x100, v / 0x100]
  }

  function Put32(v: nat): (b: seq<Byte>)
    requires v < 0x1_0000_0000
    ensures |b| == 4
  {
    Put16(v % 0x1_0000) + Put16(v / 0x1_0000)
  }

  function Flag(b: bool): Byte { if b then 1 else 0 }

  /** The fields fit their widths on the wire. */
  predicate Wire(m: Incoming) {
    m.groupId < 0x1_0000 && m.clusterId < 0x1_0000 && m.srcAddr < 0x1_0000 && m.timestamp < 0x1_0000_0000
  }

  // ---------------------------------------------------------------- the short form

  function ShortHeader(m: Incoming): (d: seq<Byte>)
    requires Wire(m) && |m.data| < 0x100
    ensures |d| == 17
  {
    Put16(m.groupId) + Put16(m.clusterId) + Put16(m.srcAddr)
    + [m.srcEndpoint, m.dstEndpoint, Flag(m.wasBroadcast), m.linkQuality, Flag(m.securityUse)]
    + Put32(m.timestamp) + [m.transSeqNum, |m.data|]
  }

  function EncodeShort(m: Incoming): (d: seq<Byte>)
    requires Wire(m) && |m.data| < 0x100
    ensures |d| == 17 + |m.data|
  {
    ShortHeader(m) + m.data
  }

  predicate ShortFits(d: seq<Byte>) { |d| >= 17 && 17 + d[16] <= |d| }

  /** The frame with the flag bytes at `i` and `j` written as 0 or 1; any non-zero byte means true. */
  function Normal(d: seq<Byte>, i: nat, j: nat): (e: seq<Byte>)
    requires i < |d| && j < |d|
    ensures |e| == |d|
  {
    d[i := Flag(d[i] != 0)][j := Flag(d[j] != 0)]
  }

  /** `d` is the short form of `m`, possibly followed by other bytes. */
  predicate IsShort(d: seq<Byte>, m: Incoming) {
    Wire(m) && |m.data| < 0x100 && |d| >= 17 && EncodeShort(m) <= Normal(d, 8, 10)
  }

  /** parseAFIncoming. No field is read outside the frame, and nothing but the length can fail. */
  method ParseShort(data: seq<Byte>) returns (r: Result<Incoming, string>)
    ensures r.Ok? <==> ShortFits(data)
    ensures r.Ok? ==> IsShort(data, r.value)
    ensures r.Ok? ==>
              var m := r.value;
              && m.groupId == Num(data[0]) + 0x100 * Num(data[1]) && m.clusterId == Num(data[2]) + 0x100 * Num(data[3])
              && m.srcAddr == Num(data[4]) + 0x100 * Num(data[5])
              && m.srcEndpoint == data[6] && m.dstEndpoint == data[7]
              && (m.wasBroadcast <==> data[8] != 0) && m.linkQuality == data[9] && (m.securityUse <==> data[10] != 0)
              && m.timestamp == Num(data[11]) + 0x100 * Num(data[12])
                                + 0x1_0000 * Num(data[13]) + 0x100_0000 * Num(data[14])
              && m.transSeqNum == data[15] && m.data == data[17..17 + Num(data[16])]
    ensures r.Err? ==> r.error == if |data| < 17 then "short" else "payload"
  {
    if |data| < 17 {
      return Err("short");
    }
    var off := 0;
    var group := Le16(data, off);
    off := off + 2;
    var cluster := Le16(data, off);
    off := off + 2;
    var src := Le16(data, off);
    off := off + 2;
    var srcEp := data[off];
    off := off + 1;
    var dstEp := data[off];
    off := off + 1;
    var bcast := data[off];
    off := off + 1;
    var lqi := data[off];
    off := off + 1;
    var sec := data[off];
    off := off + 1;
    var ts := Le32(data, off);
    off := off + 4;
    var trans := data[off];
    off := off + 1;
    var n: nat := data[off];
    off := off + 1;
    if off + n > |data| {
      return Err("payload");
    }
    var payload := data[off..off + n];
    var m := Incoming(group, cluster, src, srcEp, dstEp, bcast != 0, lqi, sec != 0, ts, trans, payload);
    ShortLayout(data, m);
    return Ok(m);
  }

  predicate ShortFields(d: seq<Byte>, m: Incoming)
    requires ShortFits(d)
  {
    m == Incoming(Le16(d, 0), Le16(d, 2), Le16(d, 4), d[6], d[7], d[8] != 0, d[9], d[10] != 0,
                  Le32(d, 11), d[15], d[17..17 + d[16]])
  }

  lemma ShortLayout(d: seq<Byte>, m: Incoming)
    requires ShortFits(d) && ShortFields(d, m)
    ensures EncodeShort(m) <= Normal(d, 8, 10)
  {
    var n := Normal(d, 8, 10);
    ShortHead(d, m);
    assert n[17..17 + d[16]] == d[17..17 + d[16]];
    assert n[..17 + d[16]] == n[..17] + n[17..17 + d[16]];
  }

  lemma ShortHead(d: seq<Byte>, m: Incoming)
    requires ShortFits(d) && ShortFields(d, m)
    ensures ShortHeader(m) == Normal(d, 8, 10)[..17]
  {
    Put16Le16(d, 0);
    Put16Le16(d, 2);
    Put16Le16(d, 4);
    Put32Le32(d, 11);
    assert d[..6] == d[0..2] + d[2..4] + d[4..6];
    assert Normal(d, 8, 10)[..17] ==
           d[..6] + [d[6], d[7], Flag(d[8] != 0), d[9], Flag(d[10] != 0)] + d[11..15] + d[15..17];
  }

  lemma Put16Le16(d: seq<Byte>, off: nat)
    requires off + 2 <= |d|
    ensures Put16(Le16(d, off)) == d[off..off + 2]
  {
  }

  lemma Put32Le32(d: seq<Byte>, off: nat)
    requires off + 4 <= |d|
    ensures Put32(Le32(d, off)) == d[off..off + 4]
  {
    Put16Le16(d, off);
    Put16Le16(d, off + 2);
    var lo, hi := Le16(d, off), Le16(d, off + 2);
    assert (lo + 0x1_0000 * hi) % 0x1_0000 == lo && (lo + 0x1_0000 * hi) / 0x1_0000 == hi;
  }

  /** A frame is the short form of at most one message, so the contract of ParseShort fixes its result. */
  lemma ShortIsUnique(d: seq<Byte>, m: Incoming, m': Incoming)
    requires IsShort(d, m) && IsShort(d, m')
    ensures m == m'
  {
    var e, e' := EncodeShort(m), EncodeShort(m');
    assert e[16] == |m.data| && e'[16] == |m'.data|;
    assert e == e';
    EncodeShortInverts(m);
    EncodeShortInverts(m');
  }

  /** Every field of a message can be read back from its short form. */
  lemma EncodeShortInverts(m: Incoming)
    requires Wire(m) && |m.data| < 0x100
    ensures var e := EncodeShort(m);
            m == Incoming(Le16(e, 0), Le16(e, 2), Le16(e, 4), e[6], e[7], e[8] != 0, e[9], e[10] != 0,
                          Le32(e, 11), e[15], e[17..])
  {
    var e := EncodeShort(m);
    Le16Put16(m.groupId);
    Le16Put16(m.clusterId);
    Le16Put16(m.srcAddr);
    Le32Put32(m.timestamp);
    assert e[0..2] == Put16(m.groupId) && e[2..4] == Put16(m.clusterId) && e[4..6] == Put16(m.srcAddr);
    assert e[11..15] == Put32(m.timestamp);
    assert e[17..] == m.data;
  }

  lemma Le16Put16(v: nat)
    requires v < 0x1_0000
    ensures Le16(Put16(v), 0) == v
  {
  }

  lemma Le32Put32(v: nat)
    requires v < 0x1_0000_0000
    ensures Le32(Put32(v), 0) == v
  {
    Le16Put16(v % 0x1_0000);
    Le16Put16(v / 0x1_0000);
    assert Put32(v)[0..2] == Put16(v % 0x1_0000) && Put32(v)[2..4] == Put16(v / 0x1_0000);
  }

  /** The short form of a message, with anything after it, is accepted and means that message. */
  lemma ShortRoundTrip(m: Incoming, trailing: seq<Byte>)
    requires Wire(m) && |m.data| < 0x100
    ensures ShortFits(EncodeShort(m) + trailing) && IsShort(EncodeShort(m) + trailing, m)
  {
    var e := EncodeShort(m);
    assert e[8] == Flag(m.wasBroadcast) && e[10] == Flag(m.securityUse);
    assert Normal(e + trailing, 8, 10) == e + trailing;
  }

  // ---------------------------------------------------------------- the extended form

  /** What the extended form carries and the parser skips. */
  datatype Extra = Extra(addrMode: Byte, addrRest: seq<Byte>, srcPan: nat)

  function EncodeExt(m: Incoming, x: Extra): (d: seq<Byte>)
    requires Wire(m) && |m.data| < 0x1_0000 && |x.addrRest| == 6 && x.srcPan < 0x1_0000
    ensures |d| == 27 + |m.data|
  {
    ExtFirst(m, x) + ExtSecond(m, x) + Put16(|m.data|) + m.data
  }

  function ExtFirst(m: Incoming, x: Extra): (d: seq<Byte>)
    requires Wire(m) && |x.addrRest| == 6
    ensures |d| == 13
  {
    Put16(m.groupId) + Put16(m.clusterId) + [x.addrMode] + Put16(m.srcAddr) + x.addrRest
  }

  function ExtSecond(m: Incoming, x: Extra): (d: seq<Byte>)
    requires Wire(m) && x.srcPan < 0x1_0000
    ensures |d| == 12
  {
    [m.srcEndpoint] + Put16(x.srcPan)
    + [m.dstEndpoint, Flag(m.wasBroadcast), m.linkQuality, Flag(m.securityUse)]
    + Put32(m.timestamp) + [m.transSeqNum]
  }

  predicate ExtFits(d: seq<Byte>) { |d| >= 27 && 27 + Le16(d, 25) <= |d| }

  /** `d` is the extended form of `m`, possibly followed by other bytes. */
  ghost predicate IsExt(d: seq<Byte>, m: Incoming) {
    && Wire(m) && |m.data| < 0x1_0000 && |d| >= 27
    && exists x: Extra :: |x.addrRest| == 6 && x.srcPan < 0x1_0000 && EncodeExt(m, x) <= Normal(d, 17, 19)
  }

  /** parseAFIncomingExt. */
  method ParseExt(data: seq<Byte>) returns (r: Result<Incoming, string>)
    ensures r.Ok? <==> ExtFits(data)
    ensures r.Ok? ==> IsExt(data, r.value)
    ensures r.Ok? ==>
              var m := r.value;
              && m.groupId == Num(data[0]) + 0x100 * Num(data[1]) && m.clusterId == Num(data[2]) + 0x100 * Num(data[3])
              && m.srcAddr == Num(data[5]) + 0x100 * Num(data[6])
              && m.srcEndpoint == data[13] && m.dstEndpoint == data[16]
              && (m.wasBroadcast <==> data[17] != 0) && m.linkQuality == data[18] && (m.securityUse <==> data[19] != 0)
              && m.timestamp == Num(data[20]) + 0x100 * Num(data[21])
                                + 0x1_0000 * Num(data[22]) + 0x100_0000 * Num(data[23])
              && m.transSeqNum == data[24]
              && |m.data| == Num(data[25]) + 0x100 * Num(data[26]) && m.data == data[27..27 + |m.data|]
    ensures r.Err? ==> r.error == if |data| < 27 then "short ext" else "payload"
  {
    if |data| < 27 {
      return Err("short ext");
    }
    var off := 0;
    var group := Le16(data, off);
    off := off + 2;
    var cluster := Le16(data, off);
    off := off + 2;
    off := off + 1; // address mode
    var src := Le16(data, off);
    off := off + 8;
    var srcEp := data[off];
    off := off + 1;
    off := off + 2; // source PAN
    var dstEp := data[off];
    off := off + 1;
    var bcast := data[off];
    off := off + 1;
    var lqi := data[off];
    off := off + 1;
    var sec := data[off];
    off := off + 1;
    var ts := Le32(data, off);
    off := off + 4;
    var trans := data[off];
    off := off + 1;
    var n := Le16(data, off);
    off := off + 2;
    if off + n > |data| {
      return Err("payload");
    }
    var payload := data[off..off + n];
    var m := Incoming(group, cluster, src, srcEp, dstEp, bcast != 0, lqi, sec != 0, ts, trans, payload);
    ExtLayout(data, m, Extra(data[4], data[7..13], Le16(data, 14)));
    return Ok(m);
  }

  lemma ExtLayout(d: seq<Byte>, m: Incoming, x: Extra)
    requires ExtFits(d) && ExtFields(d, m, x)
    ensures EncodeExt(m, x) <= Normal(d, 17, 19)
  {
    var e, n := EncodeExt(m, x), Normal(d, 17, 19);
    ExtHead(d, m, x);
    ExtMiddle(d, m, x);
    Put16Le16(d, 25);
    assert n[..13] == d[..13] && n[25..27] == d[25..27] && n[27..|e|] == m.data;
    assert n[..|e|] == n[..13] + n[13..25] + n[25..27] + n[27..|e|];
  }

  predicate ExtFields(d: seq<Byte>, m: Incoming, x: Extra)
    requires ExtFits(d)
  {
    && m == Incoming(Le16(d, 0), Le16(d, 2), Le16(d, 5), d[13], d[16], d[17] != 0, d[18], d[19] != 0,
                     Le32(d, 20), d[24], d[27..27 + Le16(d, 25)])
    && x == Extra(d[4], d[7..13], Le16(d, 14))
  }

  lemma ExtHead(d: seq<Byte>, m: Incoming, x: Extra)
    requires ExtFits(d) && ExtFields(d, m, x)
    ensures ExtFirst(m, x) == d[..13]
  {
    Put16Le16(d, 0);
    Put16Le16(d, 2);
    Put16Le16(d, 5);
    assert d[..13] == d[0..2] + d[2..4] + [d[4]] + d[5..7] + d[7..13];
  }

  lemma ExtMiddle(d: seq<Byte>, m: Incoming, x: Extra)
    requires ExtFits(d) && ExtFields(d, m, x)
    ensures ExtSecond(m, x) == Normal(d, 17, 19)[13..25]
  {
    Put16Le16(d, 14);
    Put32Le32(d, 20);
    assert Normal(d, 17, 19)[13..25] ==
           [d[13]] + d[14..16] + [d[16], Flag(d[17] != 0), d[18], Flag(d[19] != 0)] + d[20..24] + [d[24]];
  }

  lemma EncodeExtInverts(m: Incoming, x: Extra)
    requires Wire(m) && |m.data| < 0x1_0000 && |x.addrRest| == 6 && x.srcPan < 0x1_0000
    ensures var e := EncodeExt(m, x);
            && Le16(e, 25) == |m.data|
            && m == Incoming(Le16(e, 0), Le16(e, 2), Le16(e, 5), e[13], e[16], e[17] != 0, e[18], e[19] != 0,
                             Le32(e, 20), e[24], e[27..])
  {
    var e := EncodeExt(m, x);
    Le16Put16(m.groupId);
    Le16Put16(m.clusterId);
    Le16Put16(m.srcAddr);
    Le16Put16(|m.data|);
    Le32Put32(m.timestamp);
    assert e[0..2] == Put16(m.groupId) && e[2..4] == Put16(m.clusterId) && e[5..7] == Put16(m.srcAddr);
    assert e[20..24] == Put32(m.timestamp) && e[25..27] == Put16(|m.data|);
    assert e[27..] == m.data;
  }

  lemma ExtIsUnique(d: seq<Byte>, m: Incoming, m': Incoming)
    requires IsExt(d, m) && IsExt(d, m')
    ensures m == m'
  {
    var x: Extra :| |x.addrRest| == 6 && x.srcPan < 0x1_0000 && EncodeExt(m, x) <= Normal(d, 17, 19);
    var x': Extra :| |x'.addrRest| == 6 && x'.srcPan < 0x1_0000 && EncodeExt(m', x') <= Normal(d, 17, 19);
    EncodeExtInverts(m, x);
    EncodeExtInverts(m', x');
    assert Le16(EncodeExt(m, x), 25) == Le16(EncodeExt(m', x'), 25);
    assert EncodeExt(m, x) == EncodeExt(m', x');
  }

  /** The extended form of a message, with anything after it, is accepted and means that message. */
  lemma ExtRoundTrip(m: Incoming, x: Extra, trailing: seq<Byte>)
    requires Wire(m) && |m.data| < 0x1_0000 && |x.addrRest| == 6 && x.srcPan < 0x1_0000
    ensures ExtFits(EncodeExt(m, x) + trailing) && IsExt(EncodeExt(m, x) + trailing, m)
  {
    var e := EncodeExt(m, x);
    EncodeExtInverts(m, x);
    assert Le16(e + trailing, 25) == Le16(e, 25);
    assert e[17] == Flag(m.wasBroadcast) && e[19] == Flag(m.securityUse);
    assert Normal(e + trailing, 17, 19) == e + trailing;
  }

  /** Both forms of one message parse to that message, whatever follows them. */
  method BothFormsAgree(m: Incoming, x: Extra, tail: seq<Byte>, tail': seq<Byte>)
      returns (short: Result<Incoming, string>, ext: Result<Incoming, string>)
    requires Wire(m) && |m.data| < 0x100 && |x.addrRest| == 6 && x.srcPan < 0x1_0000
    ensures short == ext == Ok(m)
  {
    ShortRoundTrip(m, tail);
    ExtRoundTrip(m, x, tail');
    short := ParseShort(EncodeShort(m) + tail);
    ext := ParseExt(EncodeExt(m, x) + tail');
    ShortIsUnique(EncodeShort(m) + tail, m, short.value);
    ExtIsUnique(EncodeExt(m, x) + tail', m, ext.value);
  }
}
