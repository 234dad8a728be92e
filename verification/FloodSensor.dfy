/** core/flood.go: counting a marker in a byte stream that arrives in arbitrary chunks, and the log
    follower of scripts/measure-dual.py that counts the same marker. Bytes are `char`s. */
module FloodSensor {
  import opened Common

  const FLOOD_MARKER := "write: no buffer space available"
  const UINT64 := 0x1_0000_0000_0000_0000

  // ---------------------------------------------------------------- counting on whole streams

  predicate At(s: string, m: string, i: nat) { i + |m| <= |s| && s[i..i + |m|] == m }

  /** The number of positions from..to at which `m` occurs in `s`. */
  function OccurrencesIn(s: string, m: string, from: nat, to: nat): nat
    requires from <= to
  {
    if from == to then 0 else OccurrencesIn(s, m, from, to - 1) + (if At(s, m, to - 1) then 1 else 0)
  }

  /** The number of positions at which `m` occurs in `s`, overlaps included. */
  function Occurrences(s: string, m: string): nat { OccurrencesIn(s, m, 0, |s|) }

  /** What bytes.Count returns: occurrences taken from the left, none overlapping the one before. */
  function Count(s: string, m: string): nat
    requires |m| > 0
  {
    if |s| < |m| then 0
    else if s[..|m|] == m then 1 + Count(s[|m|..], m)
    else Count(s[1..], m)
  }

  ghost predicate Border(m: string, k: nat)
    requires k <= |m|
  {
    m[k..] == m[..|m| - k]
  }

  /** No proper prefix of the marker is also a suffix, so no two occurrences overlap. */
  ghost predicate BorderFree(m: string) {
    |m| > 0 && forall k :: 0 < k < |m| ==> !Border(m, k)
  }

  function Tail(s: string, keep: nat): string { if |s| > keep then s[|s| - keep..] else s }

  lemma {:induction false} Split(s: string, m: string, from: nat, mid: nat, to: nat)
    requires from <= mid <= to
    ensures OccurrencesIn(s, m, from, to) == OccurrencesIn(s, m, from, mid) + OccurrencesIn(s, m, mid, to)
  {
    if mid == to {
    } else {
      Split(s, m, from, mid, to - 1);
    }
  }

  lemma {:induction false} Shift(s: string, m: string, j: nat, from: nat, to: nat)
    requires j <= |s| && from <= to
    ensures OccurrencesIn(s[j..], m, from, to) == OccurrencesIn(s, m, from + j, to + j)
  {
    if from == to {
    } else {
      Shift(s, m, j, from, to - 1);
      var i := to - 1;
      if i + |m| <= |s[j..]| {
        assert s[j..][i..i + |m|] == s[i + j..i + j + |m|];
      }
    }
  }

  lemma {:induction false} Prefix(s: string, p: string, m: string, from: nat, to: nat)
    requires from <= to && to + |m| <= |s| + 1
    ensures OccurrencesIn(s + p, m, from, to) == OccurrencesIn(s, m, from, to)
  {
    if from == to {
    } else {
      Prefix(s, p, m, from, to - 1);
      var i := to - 1;
      assert (s + p)[i..i + |m|] == s[i..i + |m|];
    }
  }

  lemma {:induction false} NoneIn(s: string, m: string, from: nat, to: nat)
    requires from <= to && forall i :: from <= i < to ==> !At(s, m, i)
    ensures OccurrencesIn(s, m, from, to) == 0
  {
    if from == to {
    } else {
      NoneIn(s, m, from, to - 1);
    }
  }

  /** Occurrences of a border-free marker do not overlap. */
  lemma NoOverlap(s: string, m: string, i: nat)
    requires BorderFree(m) && At(s, m, 0) && 0 < i < |m|
    ensures !At(s, m, i)
  {
    assert !Border(m, i) && m[i..] == s[i..|m|];
    assert i + |m| <= |s| ==> s[i..i + |m|][..|m| - i] == s[i..|m|];
  }

  /** For a border-free marker the non-overlapping count is the number of occurrences. */
  lemma {:induction false} CountIsOccurrences(s: string, m: string)
    requires BorderFree(m)
    ensures Count(s, m) == Occurrences(s, m)
    decreases |s|
  {
    if |s| < |m| {
      NoneIn(s, m, 0, |s|);
    } else {
      var step := if At(s, m, 0) then |m| else 1;
      forall i | 0 < i < step ensures !At(s, m, i) {
        NoOverlap(s, m, i);
      }
      NoneIn(s, m, 1, step);
      Split(s, m, 0, 1, step);
      Split(s, m, 0, step, |s|);
      Shift(s, m, step, 0, |s| - step);
      CountIsOccurrences(s[step..], m);
    }
  }

  /** Counting a chunk behind the last |m| - 1 bytes of what came before it finds exactly the
      occurrences that end in the chunk. */
  lemma OccurrencesAppend(s: string, p: string, m: string)
    requires |m| > 0
    ensures Occurrences(s + p, m) == Occurrences(s, m) + Occurrences(Tail(s, |m| - 1) + p, m)
  {
    var drop := if |s| > |m| - 1 then |s| - (|m| - 1) else 0;
    assert (s + p)[drop..] == Tail(s, |m| - 1) + p;
    Split(s + p, m, 0, drop, |s + p|);
    Shift(s + p, m, drop, 0, |s + p| - drop);
    Split(s, m, 0, drop, |s|);
    NoneIn(s, m, drop, |s|);
    if drop > 0 {
      Prefix(s, p, m, 0, drop);
    }
  }

  lemma TailAppend(s: string, p: string, keep: nat)
    ensures Tail(Tail(s, keep) + p, keep) == Tail(s + p, keep)
  {
  }

  /** What one write does, stated once for both users of the marker. */
  lemma ChunkCount(stream: string, p: string, m: string)
    requires BorderFree(m)
    ensures var buf := Tail(stream, |m| - 1) + p;
            && Occurrences(stream + p, m) == Occurrences(stream, m) + Count(buf, m)
            && Tail(buf, |m| - 1) == Tail(stream + p, |m| - 1)
  {
    hide Occurrences, Count, Tail;
    OccurrencesAppend(stream, p, m);
    TailAppend(stream, p, |m| - 1);
    CountIsOccurrences(Tail(stream, |m| - 1) + p, m);
  }

  lemma NothingYet(m: string)
    requires BorderFree(m)
    ensures Occurrences("", m) == 0 && Tail("", |m| - 1) == "" && |m| > 0
  {
  }

  /** The first byte of the marker occurs in it only once. */
  lemma FloodMarkerBorderFree()
    ensures BorderFree(FLOOD_MARKER)
  {
    forall k | 0 < k < |FLOOD_MARKER|
      ensures !Border(FLOOD_MARKER, k)
    {
      assert FLOOD_MARKER[k] != 'w';
      assert FLOOD_MARKER[k..][0] == FLOOD_MARKER[k];
      assert FLOOD_MARKER[..|FLOOD_MARKER| - k][0] == FLOOD_MARKER[0] == 'w';
    }
  }

  lemma AddModulo(a: int, k: int)
    ensures (a % UINT64 + k) % UINT64 == (a + k) % UINT64
  {
  }

  // ---------------------------------------------------------------- the sensor

  class Sensor {
    const marker: string
    var seen: int
    var last: Option<int>
    var sequence: int          // a uint64
    var tail: string
    ghost var stream: string   // every byte written so far
    ghost var taken: int       // the sum of all Take results so far

    ghost predicate Valid()
      reads this
    {
      && BorderFree(marker)
      && tail == Tail(stream, |marker| - 1)
      && sequence == (taken + seen) % UINT64
      && taken + seen == Occurrences(stream, marker)
    }

    constructor ()
      ensures Valid() && marker == FLOOD_MARKER && stream == "" && taken == 0 && last.None?
    {
      FloodMarkerBorderFree();
      marker := FLOOD_MARKER;
      seen, last, sequence, tail := 0, None, 0, "";
      stream, taken := "", 0;
    }

    method Write(p: string, now: int) returns (n: nat)
      requires Valid()
      modifies this
      ensures Valid() && stream == old(stream) + p && taken == old(taken) && n == |p|
      ensures last == if seen > old(seen) then Some(now) else old(last)
    {
      var buf := if |tail| > 0 then tail + p else p;
      assert buf == tail + p;
      ChunkCount(stream, p, marker);
      var k := Count(buf, marker);
      AddModulo(taken + seen, k);
      stream := stream + p;
      if k > 0 {
        seen := seen + k;
        sequence := (sequence + k) % UINT64;
        last := Some(now);
      }
      tail := Tail(buf, |marker| - 1);
      n := |p|;
    }

    method Snapshot() returns (s: int, l: Option<int>)
      requires Valid()
      ensures s == Occurrences(stream, marker) % UINT64 && l == last
    {
      return sequence, last;
    }

    method Take() returns (n: int, l: Option<int>)
      requires Valid()
      modifies this
      ensures Valid() && stream == old(stream) && last == old(last) == l
      ensures seen == 0 && taken == old(taken) + n
    {
      n, l := seen, last;
      seen := 0;
      taken := taken + n;
    }
  }

  /** However a stream is cut into chunks, the sensor ends with the marker count of the whole. */
  method WriteAll(chunks: seq<string>, now: int) returns (f: Sensor)
    ensures fresh(f) && f.Valid() && f.stream == Concat(chunks)
    ensures f.seen == Occurrences(Concat(chunks), FLOOD_MARKER)
  {
    f := new Sensor();
    for i := 0 to |chunks|
      invariant fresh(f) && f.Valid() && f.marker == FLOOD_MARKER && f.stream == Concat(chunks[..i]) && f.taken == 0
    {
      var n := f.Write(chunks[i], now);
      assert chunks[..i + 1][..i] == chunks[..i];
    }
    assert chunks[..|chunks|] == chunks;
  }

  function Concat(chunks: seq<string>): string {
    if |chunks| == 0 then "" else Concat(chunks[..|chunks| - 1]) + chunks[|chunks| - 1]
  }

  // ---------------------------------------------------------------- the log follower

  /** What a stat of the followed file says. */
  datatype FileInfo = FileInfo(inode: int, size: nat)

  /** What a read from an offset, perhaps past the end, returns. */
  function ReadFrom(content: string, offset: nat): string {
    if offset <= |content| then content[offset..] else ""
  }

  class OverflowWatch {
    const marker: string
    var inode: Option<int>
    var offset: nat
    var tail: string
    var count: nat
    ghost var segment: string  // the bytes read since the start or the last rotation
    ghost var base: nat        // the count at that moment

    ghost predicate Valid()
      reads this
    {
      && BorderFree(marker)
      && tail == Tail(segment, |marker| - 1)
      && count == base + Occurrences(segment, marker)
    }

    constructor (stat: Option<FileInfo>)
      ensures Valid() && marker == FLOOD_MARKER && count == 0 && segment == ""
      ensures inode == (if stat.Some? then Some(stat.value.inode) else None)
      ensures offset == if stat.Some? then stat.value.size else 0
    {
      FloodMarkerBorderFree();
      marker := FLOOD_MARKER;
      inode, offset := None, 0;
      if stat.Some? {
        inode, offset := Some(stat.value.inode), stat.value.size;
      }
      tail, count := "", 0;
      segment, base := "", 0;
    }

    predicate Rotated(stat: FileInfo)
      reads this
    {
      inode != Some(stat.inode) || stat.size < offset
    }

    /** A stat that fails, and a read that fails (`content` is None), change nothing more. A file that
        only grew continues the segment; a rotated or truncated one is read from its start, as a new
        segment, even if this read fails. */
    method Poll(stat: Option<FileInfo>, content: Option<string>) returns (n: nat)
      requires Valid()
      modifies this
      ensures Valid() && n == count
      ensures stat.None? ==> inode == old(inode) && offset == old(offset) && segment == old(segment) && base == old(base)
      ensures stat.Some? ==>
                var start := if old(Rotated(stat.value)) then 0 else old(offset);
                && inode == Some(stat.value.inode)
                && base == (if old(Rotated(stat.value)) then old(count) else old(base))
                && segment == (if old(Rotated(stat.value)) then "" else old(segment))
                    + (if content.Some? then ReadFrom(content.value, start) else "")
                && offset == if content.Some? then Max(start, |content.value|) else start
    {
      hide Occurrences, Count, Tail, BorderFree;
      if stat.None? {
        return count;
      }
      NothingYet(marker);
      if Rotated(stat.value) {
        inode, offset, tail := Some(stat.value.inode), 0, "";
        segment, base := "", count;
      }
      if content.None? {
        return count;
      }
      var data := ReadFrom(content.value, offset);
      offset := Max(offset, |content.value|);
      var combined := tail + data;
      ChunkCount(segment, data, marker);
      segment := segment + data;
      count := count + Count(combined, marker);
      tail := Tail(combined, |marker| - 1);
      return count;
    }
  }
}
