/** Addresses and prefixes of the FakeIP ranges, their binary forms as net/netip writes and reads
    them, and the length-prefixed allocator checkpoint (core/fakeip_recovery.go). */
module FakeIpCodec {
  import opened Common

  type Byte = b: int | 0 <= b < 256
  type Bytes = seq<Byte>

  // ---------------------------------------------------------------- big-endian numbers

  function Power(base: nat, e: nat): (p: nat)
    requires base > 0
    ensures p > 0
  {
    if e == 0 then 1 else base * Power(base, e - 1)
  }

  function ToBytes(n: nat, len: nat): (b: Bytes)
    ensures |b| == len
  {
    if len == 0 then [] else ToBytes(n / 256, len - 1) + [n % 256]
  }

  function FromBytes(b: Bytes): nat {
    if |b| == 0 then 0 else 256 * FromBytes(b[..|b| - 1]) + b[|b| - 1] as int
  }

  lemma {:induction false} FromToBytes(n: nat, len: nat)
    requires n < Power(256, len)
    ensures FromBytes(ToBytes(n, len)) == n
  {
    if len == 0 {
    } else {
      FromToBytes(n / 256, len - 1);
      assert ToBytes(n, len)[..len - 1] == ToBytes(n / 256, len - 1);
    }
  }

  lemma {:induction false} ToFromBytes(b: Bytes)
    ensures FromBytes(b) < Power(256, |b|) && ToBytes(FromBytes(b), |b|) == b
  {
    if |b| == 0 {
    } else {
      ToFromBytes(b[..|b| - 1]);
      assert b == b[..|b| - 1] + [b[|b| - 1]];
    }
  }

  // ---------------------------------------------------------------- addresses and prefixes

  const MAX_FIELD := 65535
  const V4_COUNT: int := 0x1_0000_0000
  const V6_COUNT: int := V4_COUNT * V4_COUNT * V4_COUNT * V4_COUNT

  datatype Addr = Invalid | V4(n: nat) | V6(n: nat, zone: Bytes) {
    predicate Ok() {
      match this
      case Invalid => true
      case V4(n) => n < V4_COUNT
      case V6(n, zone) => n < V6_COUNT && 16 + |zone| <= MAX_FIELD
    }

    /** The address after this one; none after the last. */
    function Next(): Addr {
      match this
      case Invalid => Invalid
      case V4(n) => if n + 1 == V4_COUNT then Invalid else V4(n + 1)
      case V6(n, zone) => if n + 1 == V6_COUNT then Invalid else V6(n + 1, zone)
    }

    /** The order of addresses, zones apart: none, then IPv4, then IPv6. */
    function Order(): nat {
      match this
      case Invalid => 0
      case V4(n) => 1 + n
      case V6(n, _) => 1 + V4_COUNT + n
    }
  }

  /** A prefix with its length, or without one when it is not valid. */
  datatype Prefix = Prefix(addr: Addr, bits: Option<nat>) {
    predicate Valid() { bits.Some? }

    function Width(): nat { if addr.V4? then 32 else 128 }

    predicate Ok() {
      addr.Ok() && (addr.V6? ==> addr.zone == []) &&
      (bits.Some? ==> !addr.Invalid? && bits.value <= Width())
    }

    /** How many addresses share the prefix. */
    function Size(): (s: nat)
      requires Ok() && Valid()
      ensures s > 0
    {
      Power(2, Width() - bits.value)
    }

    predicate Contains(a: Addr)
      requires Ok()
    {
      Valid() && !a.Invalid? && a.V4? == addr.V4? && (a.V6? ==> a.zone == []) && a.n / Size() == addr.n / Size()
    }
  }

  const NO_PREFIX := Prefix(Invalid, None)

  function MarshalAddr(a: Addr): Bytes {
    match a
    case Invalid => []
    case V4(n) => ToBytes(n, 4)
    case V6(n, zone) => ToBytes(n, 16) + zone
  }

  function UnmarshalAddr(b: Bytes): Option<Addr> {
    if |b| == 0 then Some(Invalid)
    else if |b| == 4 then Some(V4(FromBytes(b)))
    else if |b| >= 16 then Some(V6(FromBytes(b[..16]), b[16..]))
    else None
  }

  function MarshalPrefix(p: Prefix): Bytes
    requires p.Ok()
  {
    MarshalAddr(p.addr) + [if p.bits.Some? then p.bits.value else 255]
  }

  function PrefixFrom(a: Addr, bits: nat): Prefix {
    var plain := if a.V6? then V6(a.n, []) else a;
    Prefix(plain, if !a.Invalid? && bits <= (if a.V4? then 32 else 128) then Some(bits) else None)
  }

  function UnmarshalPrefix(b: Bytes): Option<Prefix> {
    if |b| == 0 then None
    else
      match UnmarshalAddr(b[..|b| - 1])
      case Some(a) => Some(PrefixFrom(a, b[|b| - 1]))
      case None => None
  }

  lemma PowerValues()
    ensures Power(256, 2) == 65536 && Power(256, 4) == V4_COUNT && Power(256, 16) == V6_COUNT
  {
  }

  lemma AddrRoundTrip(a: Addr)
    requires a.Ok()
    ensures UnmarshalAddr(MarshalAddr(a)) == Some(a) && |MarshalAddr(a)| <= MAX_FIELD
  {
    hide FromBytes, ToBytes, Power;
    PowerValues();
    match a
    case Invalid =>
    case V4(n) => FromToBytes(n, 4);
    case V6(n, zone) =>
      FromToBytes(n, 16);
      assert (ToBytes(n, 16) + zone)[..16] == ToBytes(n, 16) && (ToBytes(n, 16) + zone)[16..] == zone;
  }

  /** A decoded address is well formed, and is the only one with that binary form. */
  lemma AddrFromBytes(b: Bytes)
    requires |b| <= MAX_FIELD && UnmarshalAddr(b).Some?
    ensures UnmarshalAddr(b).value.Ok() && MarshalAddr(UnmarshalAddr(b).value) == b
  {
    hide FromBytes, ToBytes, Power;
    PowerValues();
    if |b| == 4 {
      ToFromBytes(b);
    } else if |b| >= 16 {
      ToFromBytes(b[..16]);
      assert b[..16] + b[16..] == b;
    }
  }

  lemma PrefixRoundTrip(p: Prefix)
    requires p.Ok() && (p.Valid() || p == NO_PREFIX)
    ensures UnmarshalPrefix(MarshalPrefix(p)) == Some(p) && |MarshalPrefix(p)| <= 17
  {
    hide MarshalAddr, UnmarshalAddr;
    AddrRoundTrip(p.addr);
    assert MarshalPrefix(p)[..|MarshalPrefix(p)| - 1] == MarshalAddr(p.addr);
    MarshalAddrLength(p.addr);
  }

  /** Every decoded prefix is well formed, so the decoder's own checks are the only ones. */
  lemma UnmarshalPrefixIsOk(b: Bytes)
    requires |b| <= MAX_FIELD
    ensures UnmarshalPrefix(b).Some? ==> UnmarshalPrefix(b).value.Ok()
  {
    hide UnmarshalAddr;
    if |b| > 0 && UnmarshalAddr(b[..|b| - 1]).Some? {
      AddrFromBytes(b[..|b| - 1]);
    }
  }

  lemma MarshalAddrLength(a: Addr)
    ensures |MarshalAddr(a)| == if a.Invalid? then 0 else if a.V4? then 4 else 16 + |a.zone|
  {
  }

  // ---------------------------------------------------------------- the checkpoint

  /** The ranges and the address last handed out of each. */
  datatype Checkpoint = Checkpoint(p4: Prefix, p6: Prefix, a4: Addr, a6: Addr) {
    /** What the encoder is given. */
    predicate Ok() {
      && p4.Ok() && p6.Ok() && a4.Ok() && a6.Ok()
      && (p4.Valid() || p4 == NO_PREFIX) && (p6.Valid() || p6 == NO_PREFIX)
    }

    /** What the decoder insists on: each valid range is of its family and holds its address. */
    predicate Consistent()
      requires p4.Ok() && p6.Ok()
    {
      && (p4.Valid() ==> p4.addr.V4? && p4.Contains(a4))
      && (p6.Valid() ==> !p6.addr.V4? && p6.Contains(a6))
    }
  }

  function Frame(b: Bytes): Bytes { ToBytes(|b|, 2) + b }

  function Encode(c: Checkpoint): Bytes
    requires c.Ok()
  {
    Frame(MarshalPrefix(c.p4)) + Frame(MarshalPrefix(c.p6)) + Frame(MarshalAddr(c.a4)) + Frame(MarshalAddr(c.a6))
  }

  method EncodeFakeIPMetadata(c: Checkpoint) returns (out: Bytes)
    requires c.Ok()
    ensures out == Encode(c)
  {
    hide Frame, MarshalPrefix, MarshalAddr;
    out := [];
    var values := [MarshalPrefix(c.p4), MarshalPrefix(c.p6), MarshalAddr(c.a4), MarshalAddr(c.a6)];
    for i := 0 to 4
      invariant out == Frames(values[..i])
    {
      assert values[..i + 1][..i] == values[..i];
      out := out + Frame(values[i]);
    }
    assert values[..4] == values && values[..4][..3] == values[..3] && values[..3][..2] == values[..2]
        && values[..2][..1] == values[..1];
    assert Frames(values[..1]) == Frame(values[0]);
    assert Frames(values[..2]) == Frame(values[0]) + Frame(values[1]);
    assert Frames(values[..3]) == Frame(values[0]) + Frame(values[1]) + Frame(values[2]);
  }

  function Frames(values: seq<Bytes>): Bytes {
    if |values| == 0 then [] else Frames(values[..|values| - 1]) + Frame(values[|values| - 1])
  }

  /** One field off the front, and what follows it. */
  function ReadFrame(data: Bytes): Option<(Bytes, Bytes)> {
    if |data| < 2 then None
    else
      var n := FromBytes(data[..2]);
      if |data| < 2 + n then None else Some((data[2..2 + n], data[2 + n..]))
  }

  function Decode(data: Bytes): (r: Option<Checkpoint>) {
    match ReadFrame(data)
    case None => None
    case Some(f0) =>
      match (UnmarshalPrefix(f0.0), ReadFrame(f0.1))
      case (Some(p4), Some(f1)) =>
        (match (UnmarshalPrefix(f1.0), ReadFrame(f1.1))
         case (Some(p6), Some(f2)) =>
           (match (UnmarshalAddr(f2.0), ReadFrame(f2.1))
            case (Some(a4), Some(f3)) =>
              (match UnmarshalAddr(f3.0)
               case Some(a6) => Checked(Checkpoint(p4, p6, a4, a6), f3.1)
               case None => None)
            case _ => None)
         case _ => None)
      case _ => None
  }

  function Checked(c: Checkpoint, rest: Bytes): Option<Checkpoint> {
    if rest == [] && c.p4.Ok() && c.p6.Ok() && c.Consistent() then Some(c) else None
  }

  lemma ReadFrameInverts(b: Bytes, rest: Bytes)
    requires |b| <= MAX_FIELD
    ensures ReadFrame(Frame(b) + rest) == Some((b, rest))
  {
    hide FromBytes, ToBytes, Power;
    PowerValues();
    FromToBytes(|b|, 2);
    var data := Frame(b) + rest;
    assert data[..2] == ToBytes(|b|, 2);
    assert data[2..2 + |b|] == b && data[2 + |b|..] == rest;
  }

  /** Decoding an encoded checkpoint gives it back, or rejects it exactly when some valid range does
      not hold its own address. */
  lemma DecodeInvertsEncode(c: Checkpoint)
    requires c.Ok()
    ensures Decode(Encode(c)) == if c.Consistent() then Some(c) else None
  {
    hide Frame, ReadFrame, MarshalPrefix, MarshalAddr, UnmarshalPrefix, UnmarshalAddr;
    PrefixRoundTrip(c.p4);
    PrefixRoundTrip(c.p6);
    AddrRoundTrip(c.a4);
    AddrRoundTrip(c.a6);
    var m0, m1, m2, m3 := MarshalPrefix(c.p4), MarshalPrefix(c.p6), MarshalAddr(c.a4), MarshalAddr(c.a6);
    assert Encode(c) == Frame(m0) + (Frame(m1) + (Frame(m2) + (Frame(m3) + [])));
    ReadFrameInverts(m0, Frame(m1) + (Frame(m2) + (Frame(m3) + [])));
    ReadFrameInverts(m1, Frame(m2) + (Frame(m3) + []));
    ReadFrameInverts(m2, Frame(m3) + []);
    ReadFrameInverts(m3, []);
  }

  lemma NextByte(n: nat, d: Byte, len: nat)
    ensures ToBytes(n * 256 + d, len + 1) == ToBytes(n, len) + [d]
  {
  }

  lemma FourBytes(a: Byte, b: Byte, c: Byte, d: Byte)
    ensures ToBytes(((a * 256 + b) * 256 + c) * 256 + d, 4) == [a, b, c, d]
  {
    NextByte(0, a, 0);
    NextByte(a, b, 1);
    NextByte(a * 256 + b, c, 2);
    NextByte((a * 256 + b) * 256 + c, d, 3);
  }

  lemma ShortFrame(b: Bytes)
    requires |b| < 256
    ensures Frame(b) == [0, |b|] + b
  {
    NextByte(0, 0, 0);
    NextByte(0, |b|, 1);
  }

  lemma MarshalledV4(a: Byte, b: Byte, c: Byte, d: Byte, bits: nat)
    requires bits <= 32
    ensures var n := ((a * 256 + b) * 256 + c) * 256 + d;
            && V4(n).Ok() && MarshalAddr(V4(n)) == [a, b, c, d]
            && MarshalPrefix(Prefix(V4(n), Some(bits))) == [a, b, c, d, bits]
  {
    hide ToBytes;
    FourBytes(a, b, c, d);
  }

  /** The layout, on a checkpoint of 198.18.0.0/15 alone that stands at 198.18.0.1: each field behind its
      length in two bytes, the high one first. */
  lemma EncodedLayout()
    ensures Encode(Checkpoint(Prefix(V4(0xC612_0000), Some(15)), NO_PREFIX, V4(0xC612_0001), Invalid)) ==
            [0, 5, 198, 18, 0, 0, 15] + [0, 1, 255] + [0, 4, 198, 18, 0, 1] + [0, 0]
  {
    MarshalledV4(198, 18, 0, 0, 15);
    MarshalledV4(198, 18, 0, 1, 32);
    assert MarshalPrefix(NO_PREFIX) == [255] && MarshalAddr(Invalid) == [];
    ShortFrame([198, 18, 0, 0, 15]);
    ShortFrame([255]);
    ShortFrame([198, 18, 0, 1]);
    ShortFrame([]);
    hide ToBytes, Frame, MarshalPrefix, MarshalAddr;
  }

  lemma ReadFrameBound(data: Bytes)
    ensures ReadFrame(data).Some? ==> |ReadFrame(data).value.0| <= MAX_FIELD
  {
    if |data| >= 2 {
      ToFromBytes(data[..2]);
      PowerValues();
    }
  }

  /** What the decoder accepts is well formed. */
  lemma DecodedIsOk(data: Bytes)
    requires Decode(data).Some?
    ensures var c := Decode(data).value; c.p4.Ok() && c.p6.Ok() && c.a4.Ok() && c.a6.Ok() && c.Consistent()
  {
    hide ReadFrame, UnmarshalAddr, UnmarshalPrefix;
    var f0 := ReadFrame(data).value;
    var f1 := ReadFrame(f0.1).value;
    var f2 := ReadFrame(f1.1).value;
    var f3 := ReadFrame(f2.1).value;
    ReadFrameBound(f1.1);
    ReadFrameBound(f2.1);
    AddrFromBytes(f2.0);
    AddrFromBytes(f3.0);
  }

  method DecodeFakeIPMetadata(data: Bytes) returns (r: Option<Checkpoint>)
    ensures r == Decode(data)
  {
    hide ReadFrame, UnmarshalAddr, UnmarshalPrefix;
    var f := ReadFrame(data);
    if f.None? {
      return None;
    }
    var p4 := UnmarshalPrefix(f.value.0);
    if p4.None? {
      return None;
    }
    f := ReadFrame(f.value.1);
    if f.None? {
      return None;
    }
    var p6 := UnmarshalPrefix(f.value.0);
    if p6.None? {
      return None;
    }
    f := ReadFrame(f.value.1);
    if f.None? {
      return None;
    }
    var a4 := UnmarshalAddr(f.value.0);
    if a4.None? {
      return None;
    }
    f := ReadFrame(f.value.1);
    if f.None? {
      return None;
    }
    var a6 := UnmarshalAddr(f.value.0);
    if a6.None? {
      return None;
    }
    return Checked(Checkpoint(p4.value, p6.value, a4.value, a6.value), f.value.1);
  }
}
