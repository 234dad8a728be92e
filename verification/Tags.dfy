/** Decimal text as strconv renders and reads it, and the outbound tags built from it
    (core/schedule.go, core/balance_policy.go, core/standby.go, core/egress_probe.go). */
module Tags {
  import opened Common

  const PROXY := "proxy"
  const REALITY_LEG := "proxy-reality"
  const HY2_PROBE := "probe-hy2"
  const RUNG_PREFIX := "proxy-bw-"
  const LANE_PREFIX := "flow-"
  const INT64_LIMIT := 0x8000_0000_0000_0000

  function Digits(n: nat): (s: string)
    ensures |s| > 0 && forall i :: 0 <= i < |s| ==> '0' <= s[i] <= '9'
  {
    if n < 10 then ['0' + n as char] else Digits(n / 10) + ['0' + (n % 10) as char]
  }

  function Itoa(n: int): string {
    if n < 0 then ['-'] + Digits(-n) else Digits(n)
  }

  function ReadDigits(s: string): Option<int> {
    if |s| == 0 then Some(0)
    else
      var c := s[|s| - 1];
      match ReadDigits(s[..|s| - 1])
      case Some(n) => if '0' <= c <= '9' then Some(10 * n + (c - '0') as int) else None
      case None => None
  }

  /** An optional sign, at least one digit, and a value that fits a 64-bit int. */
  function Atoi(s: string): Option<int> {
    var negative := |s| > 0 && s[0] == '-';
    var body := if |s| > 0 && (s[0] == '-' || s[0] == '+') then s[1..] else s;
    if |body| == 0 then None
    else
      match ReadDigits(body)
      case None => None
      case Some(n) =>
        var v := if negative then -n else n;
        if -INT64_LIMIT <= v < INT64_LIMIT then Some(v) else None
  }

  lemma {:induction false} ReadDigitsInvertsDigits(n: nat)
    ensures ReadDigits(Digits(n)) == Some(n)
  {
    if n < 10 {
      assert ReadDigits(Digits(n)[..0]) == Some(0);
    } else {
      ReadDigitsInvertsDigits(n / 10);
      assert Digits(n)[..|Digits(n)| - 1] == Digits(n / 10);
    }
  }

  /** The sign and the magnitude of a rendered number can be read off its text. */
  lemma ItoaShape(n: int)
    ensures |Itoa(n)| > 0 && Itoa(n)[0] != '+'
    ensures Itoa(n)[0] == '-' <==> n < 0
    ensures n < 0 ==> ReadDigits(Itoa(n)[1..]) == Some(-n)
    ensures n >= 0 ==> ReadDigits(Itoa(n)) == Some(n)
  {
    if n < 0 {
      ReadDigitsInvertsDigits(-n);
      assert Itoa(n)[1..] == Digits(-n);
    } else {
      ReadDigitsInvertsDigits(n);
    }
  }

  lemma AtoiInvertsItoa(n: int)
    ensures Atoi(Itoa(n)) == if -INT64_LIMIT <= n < INT64_LIMIT then Some(n) else None
  {
    ItoaShape(n);
    if n < 0 {
      assert |Itoa(n)[1..]| == |Digits(-n)|;
    }
  }

  lemma ItoaInjective(m: int, n: int)
    requires Itoa(m) == Itoa(n)
    ensures m == n
  {
    ItoaShape(m);
    ItoaShape(n);
  }

  function LaneTag(lane: int): string { LANE_PREFIX + Itoa(lane) }

  function BandwidthRungTag(down: int): string { RUNG_PREFIX + Itoa(down) }

  function BandwidthRungMbps(tag: string): int {
    if !(RUNG_PREFIX <= tag) then 0
    else
      match Atoi(tag[|RUNG_PREFIX|..])
      case None => 0
      case Some(down) => if down <= 0 then 0 else down
  }

  lemma LaneTagsDistinct(a: int, b: int)
    ensures LaneTag(a) == LaneTag(b) <==> a == b
    ensures LaneTag(a) != PROXY && LaneTag(a) != REALITY_LEG && LaneTag(a) != HY2_PROBE
  {
    assert LaneTag(a)[0] == 'f';
    if LaneTag(a) == LaneTag(b) {
      assert LaneTag(a)[5..] == Itoa(a) && LaneTag(b)[5..] == Itoa(b);
      ItoaInjective(a, b);
    }
  }

  /** No two ceilings share a ladder member, and none is named like a leg or a selector. */
  lemma RungTagsDistinct(a: int, b: int)
    ensures BandwidthRungTag(a) == BandwidthRungTag(b) <==> a == b
    ensures BandwidthRungTag(a) != PROXY && BandwidthRungTag(a) != REALITY_LEG && BandwidthRungTag(a) != HY2_PROBE
  {
    assert BandwidthRungTag(a)[6] == 'b';
    if BandwidthRungTag(a) == BandwidthRungTag(b) {
      assert BandwidthRungTag(a)[9..] == Itoa(a) && BandwidthRungTag(b)[9..] == Itoa(b);
      ItoaInjective(a, b);
    }
  }

  /** Reading a rung back out of its tag; a non-positive or over-wide ceiling is not a rung. */
  lemma RungMbpsInvertsRungTag(down: int)
    ensures BandwidthRungMbps(BandwidthRungTag(down)) == if 0 < down < INT64_LIMIT then down else 0
  {
    AtoiInvertsItoa(down);
    assert BandwidthRungTag(down)[|RUNG_PREFIX|..] == Itoa(down);
  }
}
