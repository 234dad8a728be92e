/** icmpChecksum of core/linkprobe.go: the ones-complement sum of section 1 of RFC 1071 computed in
    a 32-bit accumulator with deferred folding. */
module Checksum {

  const UINT32 := 0x1_0000_0000
  const LONGEST := 131072

  type Byte = b: int | 0 <= b < 256

  function Word(high: Byte, low: Byte): nat { 256 * high as int + low as int }

  /** The packet as 16-bit big-endian words, an odd last byte padded with zero, added as integers. */
  function WordSum(b: seq<Byte>): nat {
    if |b| == 0 then 0
    else if |b| == 1 then Word(b[0], 0)
    else Word(b[0], b[1]) + WordSum(b[2..])
  }

  /** The ones-complement sum: the residue modulo 65535, with 65535 in the place of zero unless the
      sum itself is zero. */
  function OnesComplementSum(n: nat): (r: nat)
    ensures r <= 65535 && (r == 0 <==> n == 0)
  {
    if n == 0 then 0 else (n - 1) % 65535 + 1
  }

  function ChecksumOf(b: seq<Byte>): nat { 65535 - OnesComplementSum(WordSum(b)) }

  lemma {:induction false} WordSumBound(b: seq<Byte>)
    ensures WordSum(b) <= (|b| + 1) / 2 * 65535
  {
    if |b| < 2 {
    } else {
      WordSumBound(b[2..]);
    }
  }

  /** Folding the carries back in keeps the ones-complement sum. */
  lemma FoldKeepsSum(n: nat)
    ensures OnesComplementSum(n % 65536 + n / 65536) == OnesComplementSum(n)
  {
  }

  /** Adding the words in 32-bit arithmetic: exact up to 131072 bytes. */
  method Accumulate(b: seq<Byte>) returns (sum: int)
    ensures 0 <= sum < UINT32
    ensures |b| <= LONGEST ==> sum == WordSum(b)
  {
    WordSumBound(b);
    sum := 0;
    var i := 0;
    while i + 1 < |b|
      invariant i <= |b| && i % 2 == 0
      invariant 0 <= sum < UINT32
      invariant |b| <= LONGEST ==> sum + WordSum(b[i..]) == WordSum(b)
    {
      assert b[i..][2..] == b[i + 2..];
      sum := (sum + Word(b[i], b[i + 1])) % UINT32;
      i := i + 2;
    }
    if |b| % 2 == 1 {
      assert b[i..] == [b[|b| - 1]];
      sum := (sum + Word(b[|b| - 1], 0)) % UINT32;
    } else {
      assert b[i..] == [];
    }
  }

  /** The checksum in full: the fold loop ends, and no addition wraps up to 131072 bytes. */
  method IcmpChecksum(b: seq<Byte>) returns (r: nat)
    ensures r <= 65535
    ensures |b| <= LONGEST ==> r == ChecksumOf(b)
  {
    var sum := Accumulate(b);
    ghost var all: nat := sum;
    while sum / 65536 != 0
      invariant 0 <= sum < UINT32 && OnesComplementSum(sum) == OnesComplementSum(all)
      decreases sum
    {
      FoldKeepsSum(sum);
      sum := (sum % 65536 + sum / 65536) % UINT32;
    }
    r := 65535 - sum % 65536;
  }

  // ---------------------------------------------------------------- what the checksum is for

  function Store(b: seq<Byte>, at: nat, word: nat): seq<Byte>
    requires at + 1 < |b| && word <= 65535
  {
    b[at := word / 256][at + 1 := word % 256]
  }

  lemma {:induction false} StoreAddsWord(b: seq<Byte>, at: nat, word: nat)
    requires at % 2 == 0 && at + 1 < |b| && word <= 65535
    requires b[at] == 0 && b[at + 1] == 0
    ensures WordSum(Store(b, at, word)) == WordSum(b) + word
  {
    if at == 0 {
      assert Store(b, at, word)[2..] == b[2..];
    } else {
      assert Store(b, at, word)[2..] == Store(b[2..], at - 2, word);
      StoreAddsWord(b[2..], at - 2, word);
    }
  }

  /** A receiver's check: the checksum of a packet is zero exactly when its words add up to a
      positive multiple of 65535. */
  lemma ChecksumZero(b: seq<Byte>)
    ensures ChecksumOf(b) == 0 <==> WordSum(b) > 0 && WordSum(b) % 65535 == 0
  {
  }

  /** Storing the checksum of a packet into its zeroed, even-aligned checksum word makes the packet
      pass that check. */
  lemma SealedPacketChecksToZero(b: seq<Byte>, at: nat)
    requires at % 2 == 0 && at + 1 < |b| && b[at] == 0 && b[at + 1] == 0
    ensures ChecksumOf(Store(b, at, ChecksumOf(b))) == 0
  {
    var n := WordSum(b);
    StoreAddsWord(b, at, ChecksumOf(b));
    if n > 0 {
      assert n + ChecksumOf(b) == 65535 * ((n - 1) / 65535 + 1);
    }
    ChecksumZero(Store(b, at, ChecksumOf(b)));
  }

  /** The echo request: the checksum goes into bytes 2 and 3. */
  method Seal(pkt: array<Byte>)
    requires 4 <= pkt.Length <= LONGEST && pkt[2] == 0 && pkt[3] == 0
    modifies pkt
    ensures pkt[..] == Store(old(pkt[..]), 2, ChecksumOf(old(pkt[..])))
    ensures ChecksumOf(pkt[..]) == 0
  {
    var r := IcmpChecksum(pkt[..]);
    SealedPacketChecksToZero(pkt[..], 2);
    pkt[2], pkt[3] := r / 256, r % 256;
  }
}
