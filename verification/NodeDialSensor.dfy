/** core/node_dial.go: counting the dial errors of one node in log output that arrives in arbitrary
    chunks. Whether a line is such an error (escape codes removed, substrings compared) is left to a
    predicate of the target and the line. */
module NodeDialSensor {
  import opened Common

  const LINE_LIMIT := 4096
  const UINT64 := 0x1_0000_0000_0000_0000

  /** The node whose dials are watched, and what a failed dial of a node looks like. */
  datatype Dials = Dials(target: Option<string>, failed: (string, string) -> bool) {
    predicate Report(line: string) { target.Some? && failed(target.value, line) }
  }

  // ---------------------------------------------------------------- counting on whole streams

  /** The position of the first newline, or the length of the stream. */
  function LineEnd(s: string): (i: nat)
    ensures i <= |s| && '\n' !in s[..i] && (i < |s| ==> s[i] == '\n')
  {
    if |s| == 0 || s[0] == '\n' then 0
    else
      assert s[..1 + LineEnd(s[1..])] == [s[0]] + s[1..][..LineEnd(s[1..])];
      1 + LineEnd(s[1..])
  }

  /** What follows the last newline. */
  function Pending(s: string): string
    decreases |s|
  {
    var i := LineEnd(s);
    if i == |s| then s else Pending(s[i + 1..])
  }

  /** The number of newline-terminated lines of at most 4096 bytes that report a failed dial. */
  function Reports(s: string, d: Dials): nat
    decreases |s|
  {
    var i := LineEnd(s);
    if i == |s| then 0
    else (if i <= LINE_LIMIT && d.Report(s[..i]) then 1 else 0) + Reports(s[i + 1..], d)
  }

  lemma LineEndAppend(s: string, t: string)
    ensures LineEnd(s) < |s| ==> LineEnd(s + t) == LineEnd(s)
    ensures LineEnd(s) == |s| ==> LineEnd(s + t) == |s| + LineEnd(t)
  {
    if |s| == 0 {
      assert s + t == t;
    } else if s[0] != '\n' {
      assert (s + t)[1..] == s[1..] + t;
      LineEndAppend(s[1..], t);
    }
  }

  /** Bytes without a newline extend the pending line and report nothing. */
  lemma {:induction false} AppendPart(s: string, part: string, d: Dials)
    requires '\n' !in part
    ensures Pending(s + part) == Pending(s) + part
    ensures Reports(s + part, d) == Reports(s, d)
    decreases |s|
  {
    LineEndAppend(s, part);
    var i := LineEnd(s);
    if i < |s| {
      assert (s + part)[i + 1..] == s[i + 1..] + part;
      assert (s + part)[..i] == s[..i];
      AppendPart(s[i + 1..], part, d);
    } else {
      assert LineEnd(part) == |part|;
    }
  }

  /** A newline ends the pending line and decides whether it counts. */
  lemma {:induction false} AppendNewline(s: string, d: Dials)
    ensures Pending(s + "\n") == ""
    ensures Reports(s + "\n", d) ==
            Reports(s, d) + (if |Pending(s)| <= LINE_LIMIT && d.Report(Pending(s)) then 1 else 0)
    decreases |s|
  {
    assert LineEnd("\n") == 0 && Pending("") == "" && Reports("", d) == 0;
    hide LineEnd;
    LineEndAppend(s, "\n");
    var i := LineEnd(s);
    if i < |s| {
      assert (s + "\n")[i + 1..] == s[i + 1..] + "\n";
      assert (s + "\n")[..i] == s[..i];
      AppendNewline(s[i + 1..], d);
    } else {
      assert (s + "\n")[..i] == s && (s + "\n")[i + 1..] == "";
    }
  }

  lemma CutLine(s: string, rest: string, i: nat)
    requires i <= |rest| && (i < |rest| ==> rest[i] == '\n')
    ensures i < |rest| ==> s + rest[..i] + "\n" + rest[i + 1..] == s + rest
    ensures i == |rest| ==> s + rest[..i] + "" == s + rest
  {
  }

  lemma NextSequence(counted: nat)
    ensures (counted % UINT64 + 1) % UINT64 == (counted + 1) % UINT64
  {
  }

  // ---------------------------------------------------------------- the sensor

  /** The carried tail is the pending line, unless that line has outgrown the limit. */
  predicate Carries(tail: string, dropped: bool, pending: string) {
    dropped == (|pending| > LINE_LIMIT) && tail == if dropped then "" else pending
  }

  class Sensor {
    const failed: (string, string) -> bool
    var target: Option<string>
    var tail: string
    var dropped: bool
    var sequence: int          // a uint64
    var last: Option<int>
    ghost var stream: string   // every byte since the last Configure
    ghost var counted: nat

    ghost predicate Valid()
      reads this
    {
      && Carries(tail, dropped, Pending(stream))
      && sequence == counted % UINT64
      && counted == Reports(stream, Dials(target, failed))
    }

    constructor (failed: (string, string) -> bool)
      ensures Valid() && stream == "" && target.None? && this.failed == failed
    {
      this.failed := failed;
      target, tail, dropped, sequence, last := None, "", false, 0, None;
      stream, counted := "", 0;
    }

    /** `parsed` is the address in host:port form, when it is a literal IP with a port. */
    method Configure(parsed: Option<string>)
      modifies this
      ensures Valid() && stream == "" && target == parsed && sequence == 0 && last.None?
    {
      target := parsed;
      tail, dropped, sequence, last := "", false, 0, None;
      stream, counted := "", 0;
    }

    /** Append the bytes up to a newline to the pending line, or give the line up. */
    method Extend(part: string)
      requires Valid() && '\n' !in part
      modifies `tail, `dropped, `stream
      ensures Valid() && stream == old(stream) + part
    {
      AppendPart(stream, part, Dials(target, failed));
      if |tail| + |part| > LINE_LIMIT {
        tail := "";
        dropped := true;
      }
      if !dropped {
        tail := tail + part;
      }
      stream := stream + part;
    }

    /** A newline: count the pending line if it was kept and is a report, and start the next. */
    method EndLine(now: int)
      requires Valid()
      modifies `tail, `dropped, `sequence, `last, `stream, `counted
      ensures Valid() && stream == old(stream) + "\n" && counted >= old(counted)
      ensures last == if counted > old(counted) then Some(now) else old(last)
    {
      AppendNewline(stream, Dials(target, failed));
      NextSequence(counted);
      if !dropped && target.Some? {
        if failed(target.value, tail) {
          sequence := (sequence + 1) % UINT64;
          last := Some(now);
          counted := counted + 1;
        }
      }
      tail := "";
      dropped := false;
      stream := stream + "\n";
    }

    /** However a stream is split into writes, the sequence is the report count of the stream. */
    method Write(p: string, now: int) returns (n: nat)
      requires Valid()
      modifies this
      ensures Valid() && n == |p| && target == old(target) && stream == old(stream) + p
      ensures last == if counted > old(counted) then Some(now) else old(last)
    {
      n := |p|;
      var rest := p;
      ghost var whole := stream + p;
      while |rest| > 0
        invariant Valid() && target == old(target) && stream + rest == whole
        invariant counted >= old(counted)
        invariant last == if counted > old(counted) then Some(now) else old(last)
        decreases |rest|
      {
        var i := LineEnd(rest);
        CutLine(stream, rest, i);
        Extend(rest[..i]);
        if i == |rest| {
          rest := "";
          break;
        }
        EndLine(now);
        rest := rest[i + 1..];
      }
      assert stream + "" == stream;
    }

    method Snapshot() returns (s: int, l: Option<int>)
      requires Valid()
      ensures s == Reports(stream, Dials(target, failed)) % UINT64 && l == last
    {
      return sequence, last;
    }
  }

  /** Without a valid target nothing is ever counted. */
  lemma {:induction false} NoTargetNoReports(s: string, d: Dials)
    requires d.target.None?
    ensures Reports(s, d) == 0
    decreases |s|
  {
    if LineEnd(s) == |s| {
    } else {
      NoTargetNoReports(s[LineEnd(s) + 1..], d);
    }
  }
}
