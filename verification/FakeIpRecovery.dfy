/** recoverFakeIPCache of core/fakeip_recovery.go: moving the allocator checkpoint past every mapping
    that was committed, without touching the mappings. */
module FakeIpRecovery {
  import opened Common
  import opened FakeIpCodec

  /** The key "fakeip_metadata". */
  const METADATA: Bytes := [102, 97, 107, 101, 105, 112, 95, 109, 101, 116, 97, 100, 97, 116, 97]

  type Mapping = map<Bytes, Bytes>

  /** The buckets of the cache; a forward value of None is a nested bucket. */
  datatype Store = Store(forward: Option<map<Bytes, Option<Bytes>>>, domain4: Option<Mapping>, domain6: Option<Mapping>) {

    function Records(): set<Bytes> {
      if forward.Some? then forward.value.Keys - {METADATA} else {}
    }

    /** The checkpoint as stored; absent reads as empty. */
    function Previous(): Bytes {
      if forward.Some? && METADATA in forward.value
          && forward.value[METADATA].Some? then forward.value[METADATA].value else []
    }
  }

  /** What the engine is configured with. */
  datatype Ranges = Ranges(r4: Prefix, r6: Prefix) {
    predicate Ok() {
      && r4.Ok() && (r4 == NO_PREFIX || (r4.Valid() && r4.addr.V4?))
      && r6.Ok() && (r6 == NO_PREFIX || (r6.Valid() && r6.addr.V6?))
    }
  }

  type RangesOk = r: Ranges | r.Ok() witness Ranges(NO_PREFIX, NO_PREFIX)

  // ---------------------------------------------------------------- what a record must look like

  function AddrFromSlice(k: Bytes): Option<Addr> {
    if |k| == 4 || |k| == 16 then UnmarshalAddr(k) else None
  }

  /** A record of an address in the configured range, with a plausible domain that maps back to it. */
  predicate GoodRecord(utf8: Bytes -> bool, s: Store, r: RangesOk, k: Bytes)
    requires s.forward.Some? && k in s.forward.value
  {
    var ip, v := AddrFromSlice(k), s.forward.value[k];
    && ip.Some? && v.Some? && 0 < |v.value| <= 253 && utf8(v.value)
    && (if ip.value.V4? then r.r4.Contains(ip.value) else r.r6.Contains(ip.value))
    && (var reverse := if ip.value.V4? then s.domain4 else s.domain6;
        reverse.Some? && v.value in reverse.value && reverse.value[v.value] == k)
  }

  predicate AllGood(utf8: Bytes -> bool, s: Store, r: RangesOk) {
    forall k :: k in s.Records() ==> GoodRecord(utf8, s, r, k)
  }

  predicate Mapped(s: Store, a: Addr) {
    exists k :: k in s.Records() && AddrFromSlice(k) == Some(a)
  }

  /** Where allocation stands before the records are looked at: the stored position, or just past
      the start of a range that has none. */
  function Initial(stored: Addr, range: Prefix): Addr {
    if range.Valid() && stored.Invalid? then range.addr.Next() else stored
  }

  /** The position after the records: the highest mapped address of the family, or the initial one
      if none is higher. */
  ghost predicate Highest(s: Store, v4: bool, initial: Addr, a: Addr) {
    && (a == initial || (Mapped(s, a) && a.V4? == v4 && a.Order() > initial.Order()))
    && forall m :: Mapped(s, m) && m.V4? == v4 ==> m.Order() <= a.Order()
  }

  // ---------------------------------------------------------------- the decision

  datatype Outcome = Reject | NoChange | Write(checkpoint: Bytes)

  predicate StoredAgrees(previous: Bytes, r: RangesOk) {
    previous == [] || (Decode(previous).Some? && Decode(previous).value.p4 == r.r4 && Decode(previous).value.p6 == r.r6)
  }

  function Stored(previous: Bytes): (Addr, Addr) {
    if previous == [] || Decode(previous).None? then (Invalid, Invalid)
        else (Decode(previous).value.a4, Decode(previous).value.a6)
  }

  /** The new checkpoint of a cache whose records are all good. */
  ghost predicate Repaired(s: Store, r: RangesOk, c: Checkpoint) {
    && c.p4 == r.r4 && c.p6 == r.r6 && c.a4.Ok() && c.a6.Ok()
    && Highest(s, true, Initial(Stored(s.Previous()).0, r.r4), c.a4)
    && Highest(s, false, Initial(Stored(s.Previous()).1, r.r6), c.a6)
  }

  /** The decision, however the records are ordered. */
  ghost predicate Decides(utf8: Bytes -> bool, s: Store, r: RangesOk, o: Outcome) {
    if s.forward.None? then o == NoChange
    else if s.Previous() != [] && Decode(s.Previous()).None? then o == Reject
    else if !StoredAgrees(s.Previous(), r) then o == NoChange
    else if !AllGood(utf8, s, r) then o == Reject
    else if s.Records() == {} then o == NoChange
    else exists c :: Repaired(s, r, c) && o == if Encode(c) == s.Previous() then NoChange else Write(Encode(c))
  }

  lemma StoredIsOk(previous: Bytes)
    ensures Stored(previous).0.Ok() && Stored(previous).1.Ok()
  {
    if Decode(previous).Some? {
      DecodedIsOk(previous);
    }
  }

  /** Each of two highest positions would have to be the other. */
  lemma HighestIsUnique(utf8: Bytes -> bool, s: Store, r: RangesOk, v4: bool, initial: Addr, a: Addr, b: Addr)
    requires AllGood(utf8, s, r) && Highest(s, v4, initial, a) && Highest(s, v4, initial, b)
    ensures a == b
  {
  }

  lemma MappedIsPlain(utf8: Bytes -> bool, s: Store, r: RangesOk, a: Addr)
    requires AllGood(utf8, s, r) && Mapped(s, a)
    ensures a.Ok() && !a.Invalid? && (a.V6? ==> a.zone == [])
    ensures if a.V4? then r.r4.Contains(a) else r.r6.Contains(a)
  {
    var k :| k in s.Records() && AddrFromSlice(k) == Some(a);
    AddrFromBytes(k);
    assert GoodRecord(utf8, s, r, k);
  }

  lemma DecisionIsUnique(utf8: Bytes -> bool, s: Store, r: RangesOk, o: Outcome, o': Outcome)
    requires Decides(utf8, s, r, o) && Decides(utf8, s, r, o')
    ensures o == o'
  {
    hide Decode, Encode, Highest, GoodRecord;
    if s.forward.Some? && !(s.Previous() != [] && Decode(s.Previous()).None?) && StoredAgrees(s.Previous(), r)
       && AllGood(utf8, s, r) && s.Records() != {} {
      var c :| Repaired(s, r, c) && o == if Encode(c) == s.Previous() then NoChange else Write(Encode(c));
      var c' :| Repaired(s, r, c') && o' == if Encode(c') == s.Previous() then NoChange else Write(Encode(c'));
      HighestIsUnique(utf8, s, r, true, Initial(Stored(s.Previous()).0, r.r4), c.a4, c'.a4);
      HighestIsUnique(utf8, s, r, false, Initial(Stored(s.Previous()).1, r.r6), c.a6, c'.a6);
    }
  }

  function WithCheckpoint(s: Store, cp: Bytes): Store {
    if s.forward.None? then s else s.(forward := Some(s.forward.value[METADATA := Some(cp)]))
  }

  lemma GoodRecordHasAddr(utf8: Bytes -> bool, s: Store, r: RangesOk, k: Bytes)
    requires s.forward.Some? && k in s.forward.value && GoodRecord(utf8, s, r, k)
    ensures AddrFromSlice(k).Some? && AddrFromSlice(k).value.Ok() && !AddrFromSlice(k).value.Invalid?
  {
    AddrFromBytes(k);
  }

  /** The highest position among the records already looked at. */
  ghost predicate HighestOf(s: Store, todo: set<Bytes>, v4: bool, initial: Addr, a: Addr) {
    && (a == initial || (Mapped(s, a) && a.V4? == v4 && a.Order() > initial.Order()))
    && initial.Order() <= a.Order()
    && forall k :: k in s.Records() && k !in todo && AddrFromSlice(k).Some? && AddrFromSlice(k).value.V4? == v4 ==>
         AddrFromSlice(k).value.Order() <= a.Order()
  }

  lemma HighestOfNext(s: Store, todo: set<Bytes>, k: Bytes, v4: bool, initial: Addr, a: Addr)
    requires k in s.Records() && AddrFromSlice(k).Some? && HighestOf(s, todo, v4, initial, a)
    ensures var ip := AddrFromSlice(k).value;
            HighestOf(s, todo - {k}, v4, initial, if ip.V4? == v4 && ip.Order() > a.Order() then ip else a)
  {
    hide UnmarshalAddr, Addr.Order;
    assert Mapped(s, AddrFromSlice(k).value);
  }

  lemma HighestOfAll(s: Store, v4: bool, initial: Addr, a: Addr)
    requires HighestOf(s, {}, v4, initial, a)
    ensures Highest(s, v4, initial, a)
  {
  }

  // ---------------------------------------------------------------- as the source does it

  class Cache {
    const utf8: Bytes -> bool
    var store: Store
    ghost var failures: nat  // calls that failed so far

    constructor (utf8: Bytes -> bool, store: Store)
      ensures this.utf8 == utf8 && this.store == store
    {
      this.utf8, this.store := utf8, store;
    }

    method CheckRecord(r: RangesOk, k: Bytes) returns (good: bool)
      requires store.forward.Some? && k in store.forward.value
      ensures good == GoodRecord(utf8, store, r, k)
    {
      hide Prefix.Contains, UnmarshalAddr;
      var ip := AddrFromSlice(k);
      var v := store.forward.value[k];
      if ip.None? || v.None? || |v.value| == 0 || |v.value| > 253 || !utf8(v.value) {
        return false;
      }
      var range, reverse := r.r6, store.domain6;
      if ip.value.V4? {
        range, reverse := r.r4, store.domain4;
      }
      if !range.Contains(ip.value) {
        return false;
      }
      return reverse.Some? && v.value in reverse.value && reverse.value[v.value] == k;
    }

    /** The scan over the records, in any order. */
    method Scan(r: RangesOk, initial4: Addr, initial6: Addr) returns (result: Option<(Addr, Addr)>)
      requires store.forward.Some? && initial4.Ok() && initial6.Ok()
      ensures result.None? ==> !AllGood(utf8, store, r)
      ensures result.Some? ==>
                && AllGood(utf8, store, r) && result.value.0.Ok() && result.value.1.Ok()
                && Highest(store, true, initial4, result.value.0) && Highest(store, false, initial6, result.value.1)
    {
      assert HighestOf(store, store.Records(), true, initial4, initial4);
      assert HighestOf(store, store.Records(), false, initial6, initial6);
      hide GoodRecord, UnmarshalAddr, HighestOf;
      var current4, current6 := initial4, initial6;
      var todo := store.Records();
      while todo != {}
        invariant todo <= store.Records() && current4.Ok() && current6.Ok()
        invariant forall k :: k in store.Records() && k !in todo ==>
            GoodRecord(utf8, store, r, k) && AddrFromSlice(k).Some?
        invariant HighestOf(store, todo, true, initial4, current4) && HighestOf(store, todo, false, initial6, current6)
        decreases todo
      {
        var k :| k in todo;
        var good := CheckRecord(r, k);
        if !good {
          return None;
        }
        GoodRecordHasAddr(utf8, store, r, k);
        var ip := AddrFromSlice(k).value;
        HighestOfNext(store, todo, k, true, initial4, current4);
        HighestOfNext(store, todo, k, false, initial6, current6);
        todo := todo - {k};
        if ip.V4? {
          if ip.Order() > current4.Order() {
            current4 := ip;
          }
        } else {
          if ip.Order() > current6.Order() {
            current6 := ip;
          }
        }
      }
      HighestOfAll(store, true, initial4, current4);
      HighestOfAll(store, false, initial6, current6);
      return Some((current4, current6));
    }

    method Decide(r: RangesOk) returns (o: Outcome)
      ensures Decides(utf8, store, r, o)
    {
      hide Decode, Encode, Highest, GoodRecord;
      if store.forward.None? {
        return NoChange;
      }
      var previous := store.Previous();
      var current4, current6 := Invalid, Invalid;
      if |previous| > 0 {
        var c := DecodeFakeIPMetadata(previous);
        if c.None? {
          return Reject;
        }
        if c.value.p4 != r.r4 || c.value.p6 != r.r6 {
          return NoChange;
        }
        current4, current6 := c.value.a4, c.value.a6;
      }
      StoredIsOk(previous);
      if r.r4.Valid() && current4.Invalid? {
        current4 := r.r4.addr.Next();
      }
      if r.r6.Valid() && current6.Invalid? {
        current6 := r.r6.addr.Next();
      }
      var scanned := Scan(r, current4, current6);
      if scanned.None? {
        return Reject;
      }
      if store.Records() == {} {
        return NoChange;
      }
      var c := Checkpoint(r.r4, r.r6, scanned.value.0, scanned.value.1);
      assert Repaired(store, r, c);
      var checkpoint := EncodeFakeIPMetadata(c);
      return if checkpoint == previous then NoChange else Write(checkpoint);
    }

    /** A snapshot of the file, then one transactional write. A call that reports failure may or may not
        have written the checkpoint. */
    method Commit(checkpoint: Bytes) returns (ok: bool)
      modifies this
      ensures store == WithCheckpoint(old(store), checkpoint) || (!ok && store == old(store))
      ensures failures == old(failures) + (if ok then 0 else 1)
    {
      ok := false;
      if * {
        store := WithCheckpoint(store, checkpoint);
        ok := *;
      }
      if !ok {
        failures := failures + 1;
      }
    }

    /** The repair succeeds exactly when the cache is not rejected and no call fails. Success leaves
        exactly the checkpoint decided on; whatever happens, nothing else is written. */
    method Recover(r: RangesOk) returns (ok: bool)
      modifies this
      ensures exists o :: (
                  && Decides(utf8, old(store), r, o)
                  && (ok <==> o != Reject && failures == old(failures))
                  && (store == old(store) || (o.Write? && store == WithCheckpoint(old(store), o.checkpoint)))
                  && (ok && o.Write? ==> store == WithCheckpoint(old(store), o.checkpoint)))
    {
      hide Decides;
      var o := Decide(r);
      assert Decides(utf8, old(store), r, o);
      if o == Reject {
        return false;
      }
      if o == NoChange {
        return true;
      }
      ok := Commit(o.checkpoint);
    }
  }

  // ---------------------------------------------------------------- conservative

  /** A checkpoint at or past every mapped address and every position stored before. */
  ghost predicate Covers(s: Store, c: Checkpoint) {
    && (forall m :: Mapped(s, m) ==> m.Order() <= (if m.V4? then c.a4 else c.a6).Order())
    && Stored(s.Previous()).0.Order() <= c.a4.Order() && Stored(s.Previous()).1.Order() <= c.a6.Order()
  }

  lemma RepairedCovers(s: Store, r: RangesOk, c: Checkpoint)
    requires Repaired(s, r, c)
    ensures Covers(s, c)
  {
  }

  /** No two addresses of a family carry the same domain. */
  lemma ForwardIsInjective(utf8: Bytes -> bool, s: Store, r: RangesOk, k: Bytes, k': Bytes)
    requires AllGood(utf8, s, r) && k in s.Records() && k' in s.Records()
    requires |k| == |k'| && s.forward.value[k] == s.forward.value[k']
    ensures k == k'
  {
  }

  /** A mapping that can be kept: an address of the configured range, a domain of 1 to 253 bytes of valid
      text, and the way back from that domain to that address. */
  predicate Whole(utf8: Bytes -> bool, s: Store, r: RangesOk, k: Bytes)
    requires s.forward.Some? && k in s.forward.value
  {
    var range, reverse := if |k| == 4 then r.r4 else r.r6, if |k| == 4 then s.domain4 else s.domain6;
    && (|k| == 4 || |k| == 16) && range.Contains(if |k| == 4 then V4(FromBytes(k)) else V6(FromBytes(k), []))
    && s.forward.value[k].Some?
    && var v := s.forward.value[k].value;
       0 < |v| <= 253 && utf8(v) && reverse.Some? && v in reverse.value && reverse.value[v] == k
  }

  lemma GoodIsWhole(utf8: Bytes -> bool, s: Store, r: RangesOk, k: Bytes)
    requires s.forward.Some? && k in s.forward.value
    ensures GoodRecord(utf8, s, r, k) <==> Whole(utf8, s, r, k)
  {
    hide Prefix.Contains, FromBytes;
    if |k| == 16 {
      assert k[..16] == k && k[16..] == [];
    }
  }

  /** A cache of the configured ranges is rejected exactly when some mapping cannot be kept; one of other
      ranges is left alone, and one whose checkpoint cannot be read is rejected. */
  lemma RejectsExactlyWhen(utf8: Bytes -> bool, s: Store, r: RangesOk, o: Outcome)
    requires Decides(utf8, s, r, o) && s.forward.Some?
    ensures StoredAgrees(s.Previous(), r) ==>
              (o == Reject <==> exists k :: k in s.Records() && !Whole(utf8, s, r, k))
    ensures !StoredAgrees(s.Previous(), r) ==> o == if Decode(s.Previous()).Some? then NoChange else Reject
  {
    hide Decode, Encode, Highest, GoodRecord, Whole;
    forall k | k in s.Records() ensures GoodRecord(utf8, s, r, k) <==> Whole(utf8, s, r, k) {
      GoodIsWhole(utf8, s, r, k);
    }
  }

  /** On acceptance, whether a checkpoint is written or the one in place was right, it covers what was
      mapped and what was handed out, and the mappings it covers are one to one in each family. */
  lemma RepairIsConservative(utf8: Bytes -> bool, s: Store, r: RangesOk, o: Outcome)
    requires Decides(utf8, s, r, o) && (o.Write? || (o.NoChange? && StoredAgrees(s.Previous(), r)))
    ensures o.Write? || s.Records() != {} ==>
              exists c :: Repaired(s, r, c) && Covers(s, c)
                  && Encode(c) == if o.Write? then o.checkpoint else s.Previous()
    ensures forall k, k' ::
        k in s.Records() && k' in s.Records() && |k| == |k'| && s.forward.value[k] == s.forward.value[k'] ==> k == k'
  {
    hide Decode, Encode, Highest, GoodRecord;
    if s.Records() != {} {
      var c :| Repaired(s, r, c) && o == if Encode(c) == s.Previous() then NoChange else Write(Encode(c));
      RepairedCovers(s, r, c);
      forall k, k' | k in s.Records() && k' in s.Records() && |k| == |k'| && s.forward.value[k] == s.forward.value[k']
        ensures k == k'
      {
        ForwardIsInjective(utf8, s, r, k, k');
      }
    }
  }

  // ---------------------------------------------------------------- idempotent

  /** The second look sees the same records. */
  lemma SameRecords(utf8: Bytes -> bool, s: Store, r: RangesOk, cp: Bytes)
    requires s.forward.Some?
    ensures var t := WithCheckpoint(s, cp);
            && t.Records() == s.Records() && t.Previous() == cp
            && (AllGood(utf8, t, r) <==> AllGood(utf8, s, r))
            && (forall a :: Mapped(t, a) <==> Mapped(s, a))
  {
  }

  lemma EncodeIsNotEmpty(c: Checkpoint)
    requires c.Ok()
    ensures Encode(c) != []
  {
  }

  lemma HighestStays(s: Store, t: Store, v4: bool, initial: Addr, a: Addr)
    requires Highest(s, v4, initial, a) && forall m :: Mapped(t, m) <==> Mapped(s, m)
    ensures Highest(t, v4, a, a)
  {
  }

  /** A second repair never writes: it finds its own checkpoint in place, or rejects it exactly when
      a valid range does not hold the position it was given. */
  lemma SecondRepairNeverWrites(utf8: Bytes -> bool, s: Store, r: RangesOk, c: Checkpoint, o: Outcome)
    requires Repaired(s, r, c) && Decides(utf8, s, r, Write(Encode(c)))
    requires Decides(utf8, WithCheckpoint(s, Encode(c)), r, o)
    ensures o == if c.Consistent() then NoChange else Reject
  {
    hide Decode, Encode, Highest, GoodRecord;
    var t := WithCheckpoint(s, Encode(c));
    SameRecords(utf8, s, r, Encode(c));
    DecodeInvertsEncode(c);
    EncodeIsNotEmpty(c);
    if c.Consistent() {
      assert Stored(t.Previous()) == (c.a4, c.a6);
      HighestStays(s, t, true, Initial(Stored(s.Previous()).0, r.r4), c.a4);
      HighestStays(s, t, false, Initial(Stored(s.Previous()).1, r.r6), c.a6);
      assert Repaired(t, r, c);
      assert Decides(utf8, t, r, NoChange);
      DecisionIsUnique(utf8, t, r, o, NoChange);
    }
  }

  /** Does a valid range hold the position it is given: was one stored, or is the address after the
      range's own address in the range, or is that the last of its family and something mapped? */
  ghost predicate HoldsPosition(s: Store, v4: bool, stored: Addr, range: Prefix)
    requires range.Ok()
  {
    range.Valid() ==>
      || !stored.Invalid?
      || range.Contains(range.addr.Next())
      || (range.addr.Next().Invalid? && exists m :: Mapped(s, m) && m.V4? == v4)
  }

  lemma BlockOf(q: nat, rest: nat, size: nat)
    requires rest < size
    ensures (q * size + rest) / size == q
  {
    var d := (q * size + rest) / size;
    var e := (q * size + rest) % size;
    assert (d - q) * size == d * size - q * size == rest - e;
    Multiples(d - q, size);
  }

  /** When the next number lies in another block, nothing in this block comes after this one. */
  lemma PastTheEnd(n: nat, m: nat, size: nat)
    requires size > 0 && (n + 1) / size != n / size && m / size == n / size
    ensures m <= n
  {
    var q := n / size;
    assert n == q * size + n % size && m == q * size + m % size;
    if n % size + 1 < size {
      assert n + 1 == q * size + (n % size + 1);
      BlockOf(q, n % size + 1, size);
    }
  }

  lemma Multiples(k: int, size: nat)
    ensures k >= 1 ==> k * size >= size
    ensures k <= -1 ==> k * size + size <= 0
  {
  }

  lemma PositionInRange(utf8: Bytes -> bool, s: Store, r: RangesOk, v4: bool, stored: Addr, range: Prefix, a: Addr)
    requires AllGood(utf8, s, r) && range == (if v4 then r.r4 else r.r6) && range.Valid()
    requires stored.Invalid? || range.Contains(stored)
    requires Highest(s, v4, Initial(stored, range), a)
    ensures range.Contains(a) <==> HoldsPosition(s, v4, stored, range)
  {
    var initial := Initial(stored, range);
    forall m | Mapped(s, m) && m.V4? == v4 ensures range.Contains(m) && !m.Invalid? && m.Order() >= 1 {
      MappedIsPlain(utf8, s, r, m);
    }
    if stored.Invalid? && !initial.Invalid? && !range.Contains(initial) {
      forall m | Mapped(s, m) && m.V4? == v4 ensures m.Order() < initial.Order() {
        PastTheEnd(range.addr.n, m.n, range.Size());
      }
    }
  }

  lemma StoredIsInRange(s: Store, r: RangesOk)
    requires StoredAgrees(s.Previous(), r)
    ensures r.r4.Valid() ==> Stored(s.Previous()).0.Invalid? || r.r4.Contains(Stored(s.Previous()).0)
    ensures r.r6.Valid() ==> Stored(s.Previous()).1.Invalid? || r.r6.Contains(Stored(s.Previous()).1)
  {
  }

  /** A range of one address, and that address mapped. */
  const ONE_ADDRESS := Prefix(V4(10), Some(32))
  const ONE_KEY: Bytes := [0, 0, 0, 10]
  const ONE_MAPPED := Store(Some(map[ONE_KEY := Some([97])]), Some(map[[97] := ONE_KEY]), None)

  lemma OneAddressIsMapped(utf8: Bytes -> bool, r: RangesOk)
    requires utf8([97]) && r == Ranges(ONE_ADDRESS, NO_PREFIX)
    ensures ONE_KEY in ONE_MAPPED.Records() && ONE_MAPPED.Previous() == []
    ensures AllGood(utf8, ONE_MAPPED, r) && forall a :: Mapped(ONE_MAPPED, a) <==> a == V4(10)
  {
    hide FromBytes;
    AddrRoundTrip(V4(10));
    assert MarshalAddr(V4(10)) == ToBytes(10, 4) == ONE_KEY;
    assert AddrFromSlice(ONE_KEY) == Some(V4(10));
    assert ONE_KEY in ONE_MAPPED.Records() && |METADATA| == 15;
  }

  /** The repair of that store writes a checkpoint, past the end of the range, that a second repair
      rejects. */
  lemma OneAddressIsRejected(utf8: Bytes -> bool)
    requires utf8([97])
    ensures var r := Ranges(ONE_ADDRESS, NO_PREFIX);
            exists cp :: Decides(utf8, ONE_MAPPED, r, Write(cp))
                && Decides(utf8, WithCheckpoint(ONE_MAPPED, cp), r, Reject)
  {
    hide Decode, Encode;
    var r: RangesOk := Ranges(ONE_ADDRESS, NO_PREFIX);
    var c := Checkpoint(ONE_ADDRESS, NO_PREFIX, V4(11), Invalid);
    OneAddressIsMapped(utf8, r);
    EncodeIsNotEmpty(c);
    DecodeInvertsEncode(c);
    assert Repaired(ONE_MAPPED, r, c);
    assert Decides(utf8, ONE_MAPPED, r, Write(Encode(c)));
    assert WithCheckpoint(ONE_MAPPED, Encode(c)).Previous() == Encode(c);
  }

  predicate Masked(p: Prefix)
    requires p.Ok()
  {
    p.Valid() ==> p.bits.value < p.Width() && p.addr.n % p.Size() == 0 && !p.addr.Next().Invalid?
  }

  lemma NextInBlock(n: nat, size: nat)
    requires size >= 2 && n % size == 0
    ensures (n + 1) / size == n / size
  {
    var q := n / size;
    assert n == q * size;
    BlockOf(q, 1, size);
  }

  /** A masked range of at least two addresses holds the address after its first. */
  lemma MaskedRangeHoldsItsNext(p: Prefix)
    requires p.Ok() && p.Valid() && Masked(p)
    ensures p.Contains(p.addr.Next())
  {
    assert p.Size() == 2 * Power(2, p.Width() - p.bits.value - 1);
    NextInBlock(p.addr.n, p.Size());
  }

  /** A second run accepts the first one's checkpoint exactly when every range holds its position. */
  lemma SecondRepairAccepts(utf8: Bytes -> bool, s: Store, r: RangesOk, cp: Bytes, o: Outcome)
    requires Decides(utf8, s, r, Write(cp)) && Decides(utf8, WithCheckpoint(s, cp), r, o)
    ensures o == if HoldsPosition(s, true, Stored(s.Previous()).0, r.r4)
        && HoldsPosition(s, false, Stored(s.Previous()).1, r.r6)
                 then NoChange else Reject
  {
    hide Decode, Encode, Highest, GoodRecord, Prefix.Contains;
    var c :| Repaired(s, r, c) && cp == Encode(c);
    SecondRepairNeverWrites(utf8, s, r, c, o);
    StoredIsInRange(s, r);
    if r.r4.Valid() {
      PositionInRange(utf8, s, r, true, Stored(s.Previous()).0, r.r4, c.a4);
    }
    if r.r6.Valid() {
      PositionInRange(utf8, s, r, false, Stored(s.Previous()).1, r.r6, c.a6);
    }
  }

  /** For masked ranges of at least two addresses the repair is idempotent: a second run accepts the
      first one's checkpoint and writes nothing. */
  lemma RepairIsIdempotent(utf8: Bytes -> bool, s: Store, r: RangesOk, cp: Bytes, o: Outcome)
    requires Decides(utf8, s, r, Write(cp)) && Decides(utf8, WithCheckpoint(s, cp), r, o)
    requires Masked(r.r4) && Masked(r.r6)
    ensures o == NoChange
  {
    hide Decides;
    SecondRepairAccepts(utf8, s, r, cp, o);
    if r.r4.Valid() {
      MaskedRangeHoldsItsNext(r.r4);
    }
    if r.r6.Valid() {
      MaskedRangeHoldsItsNext(r.r6);
    }
  }
}
