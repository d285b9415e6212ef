/**
 The printers every column shares: timecodes, byte sizes, gigabytes to bytes and back, and
 the one-line title. Arithmetic is exact: real numbers, and rounding half to even.
 */
module Format {
  import opened Common
  import opened Digits
  import opened Splitting
  import opened Stripping

  // ----- timecodes

  /** None, a negative value and a non-finite one print as nothing. */
  datatype Duration = Unknown | Seconds(value: real)

  function Pad2(n: nat): string {
    if n < 10 then "0" + NatToString(n) else NatToString(n)
  }

  function Clock(total: nat): string {
    var hours, minutes, secs := total / 3600, total % 3600 / 60, total % 3600 % 60;
    if hours > 0 then NatToString(hours) + ":" + Pad2(minutes) + ":" + Pad2(secs)
    else NatToString(minutes) + ":" + Pad2(secs)
  }

  function FormatTimecode(d: Duration): string {
    if d.Unknown? || d.value < 0.0 then "" else Clock(d.value.Floor)
  }

  function ReadParts(parts: seq<string>): Option<nat> {
    if exists k | 0 <= k < |parts| :: !IsDecimal(parts[k]) then None
    else if |parts| == 2 then Some(60 * ParseNat(parts[0]) + ParseNat(parts[1]))
    else if |parts| == 3 then Some(3600 * ParseNat(parts[0]) + 60 * ParseNat(parts[1]) + ParseNat(parts[2]))
    else None
  }

  /** Reads m:ss and h:mm:ss. */
  function ParseTimecode(s: string): Option<nat> {
    ReadParts(Split(':', s))
  }

  lemma PadParses(n: nat)
    ensures IsDecimal(Pad2(n)) && ParseNat(Pad2(n)) == n
    ensures n < 100 ==> |Pad2(n)| == 2
  {
    ParsePrint(n);
    if n < 10 {
      var s := Pad2(n);
      assert s == ['0', DigitChar(n)];
      assert s[..1] == "0" && "0"[..0] == "";
    } else if n < 100 {
      assert |NatToString(n / 10)| == 1;
    }
  }

  lemma NoColon(s: string)
    requires IsDecimal(s)
    ensures ':' !in s
  {
  }

  lemma JoinTwo(a: string, b: string)
    ensures Join(':', [a, b]) == a + ":" + b
  {
    assert [a, b][1..] == [b];
  }

  lemma JoinThree(a: string, b: string, c: string)
    ensures Join(':', [a, b, c]) == a + ":" + b + ":" + c
  {
    JoinTwo(b, c);
    assert [a, b, c][1..] == [b, c];
    assert a + [':'] + (b + ":" + c) == a + ":" + b + ":" + c;
  }

  lemma ThreeSplit(a: string, b: string, c: string)
    requires IsDecimal(a) && IsDecimal(b) && IsDecimal(c)
    ensures Split(':', a + ":" + b + ":" + c) == [a, b, c]
  {
    NoColon(a);
    NoColon(b);
    NoColon(c);
    JoinThree(a, b, c);
    SplitJoin(':', [a, b, c]);
  }

  lemma ReadThree(a: string, b: string, c: string)
    requires IsDecimal(a) && IsDecimal(b) && IsDecimal(c)
    ensures ReadParts([a, b, c]) == Some(3600 * ParseNat(a) + 60 * ParseNat(b) + ParseNat(c))
  {
    var parts := [a, b, c];
    assert parts[0] == a && parts[1] == b && parts[2] == c;
    forall k | 0 <= k < |parts| ensures IsDecimal(parts[k]) {
      assert parts[k] == if k == 0 then a else if k == 1 then b else c;
    }
  }

  lemma ThreeParse(a: string, b: string, c: string)
    requires IsDecimal(a) && IsDecimal(b) && IsDecimal(c)
    ensures ParseTimecode(a + ":" + b + ":" + c) == Some(3600 * ParseNat(a) + 60 * ParseNat(b) + ParseNat(c))
  {
    ThreeSplit(a, b, c);
    ReadThree(a, b, c);
  }

  lemma TwoSplit(a: string, b: string)
    requires IsDecimal(a) && IsDecimal(b)
    ensures Split(':', a + ":" + b) == [a, b]
  {
    NoColon(a);
    NoColon(b);
    JoinTwo(a, b);
    SplitJoin(':', [a, b]);
  }

  lemma ReadTwo(a: string, b: string)
    requires IsDecimal(a) && IsDecimal(b)
    ensures ReadParts([a, b]) == Some(60 * ParseNat(a) + ParseNat(b))
  {
    var parts := [a, b];
    assert forall k | 0 <= k < |parts| :: IsDecimal(parts[k]);
  }

  lemma TwoParse(a: string, b: string)
    requires IsDecimal(a) && IsDecimal(b)
    ensures ParseTimecode(a + ":" + b) == Some(60 * ParseNat(a) + ParseNat(b))
  {
    TwoSplit(a, b);
    ReadTwo(a, b);
  }

  lemma ClockParts(total: nat)
    ensures total == 3600 * (total / 3600) + 60 * (total % 3600 / 60) + total % 3600 % 60
  {
  }

  lemma ClockParses(total: nat)
    ensures ParseTimecode(Clock(total)) == Some(total)
  {
    var hours, minutes, secs := total / 3600, total % 3600 / 60, total % 3600 % 60;
    ClockParts(total);
    PadParses(minutes);
    PadParses(secs);
    ParsePrint(hours);
    ParsePrint(minutes);
    if hours > 0 {
      ThreeParse(NatToString(hours), Pad2(minutes), Pad2(secs));
      assert Clock(total) == NatToString(hours) + ":" + Pad2(minutes) + ":" + Pad2(secs);
    } else {
      TwoParse(NatToString(minutes), Pad2(secs));
      assert Clock(total) == NatToString(minutes) + ":" + Pad2(secs);
    }
  }

  /** The printed timecode reads back as the whole seconds; a blank one never does. */
  lemma TimecodeParses(d: Duration)
    ensures ParseTimecode(FormatTimecode(d))
         == if d.Seconds? && d.value >= 0.0 then Some(d.value.Floor as nat) else None
    ensures d.Unknown? || d.value < 0.0 ==> FormatTimecode(d) == ""
  {
    if d.Seconds? && d.value >= 0.0 {
      ClockParses(d.value.Floor);
    } else {
      SplitEmpty(':', "");
    }
  }

  /** Minutes and hours as plain numbers in front, two digits after every colon, each below sixty. */
  lemma ClockShape(total: nat)
    ensures var parts := Split(':', Clock(total));
      if total < 3600 then
        && |parts| == 2 && parts[0] == NatToString(total / 60) && TwoDigits(parts[1], total % 60)
      else
        && |parts| == 3 && parts[0] == NatToString(total / 3600)
        && TwoDigits(parts[1], total / 60 % 60) && TwoDigits(parts[2], total % 60)
  {
    var hours, minutes, secs := total / 3600, total % 3600 / 60, total % 3600 % 60;
    ClockUnits(total);
    PadParses(minutes);
    PadParses(secs);
    if hours > 0 {
      ThreeSplit(NatToString(hours), Pad2(minutes), Pad2(secs));
    } else {
      TwoSplit(NatToString(minutes), Pad2(secs));
    }
  }

  predicate TwoDigits(s: string, n: nat) {
    |s| == 2 && IsDecimal(s) && ParseNat(s) == n && n < 60
  }

  lemma ClockUnits(total: nat)
    ensures total % 3600 / 60 == total / 60 % 60 && total % 3600 % 60 == total % 60
    ensures total < 3600 ==> total % 3600 / 60 == total / 60
  {
    ClockParts(total);
    var hours, minutes, secs := total / 3600, total % 3600 / 60, total % 3600 % 60;
    assert total == 60 * (60 * hours + minutes) + secs;
    assert total / 60 == 60 * hours + minutes;
  }

  // ----- gigabytes

  const BYTES_PER_GB := 1073741824

  /** round(): to the nearest integer, a tie to the even one. */
  function Round(x: real): int {
    var f := x.Floor;
    var rest := x - f as real;
    if rest < 0.5 then f else if rest > 0.5 then f + 1 else if f % 2 == 0 then f else f + 1
  }

  lemma RoundIsNearest(x: real)
    ensures -0.5 <= Round(x) as real - x <= 0.5
  {
  }

  /** Half way between two integers it is the even one. */
  lemma TiesGoEven(x: real)
    requires x == x.Floor as real + 0.5
    ensures Round(x) % 2 == 0 && (Round(x) == x.Floor || Round(x) == x.Floor + 1)
  {
  }

  lemma NearestIsRound(x: real, n: int)
    requires -0.5 < n as real - x < 0.5
    ensures n == Round(x)
  {
    RoundIsNearest(x);
    assert -1.0 < (n - Round(x)) as real < 1.0;
  }

  function GbToBytes(gb: real): int {
    Round(gb * BYTES_PER_GB as real)
  }

  function BytesToGb(bytes: int): real {
    bytes as real / BYTES_PER_GB as real
  }

  /** A gigabyte is 1024 megabytes of 1024 kilobytes of 1024 bytes, stored and read back. */
  lemma GigabyteIs(gigabytes: int)
    ensures GbToBytes(gigabytes as real) == gigabytes * (1024 * 1024 * 1024)
    ensures BytesToGb(gigabytes * (1024 * 1024 * 1024)) == gigabytes as real
  {
    var bytes := gigabytes * BYTES_PER_GB;
    assert gigabytes as real * BYTES_PER_GB as real == bytes as real;
    assert bytes as real / BYTES_PER_GB as real == gigabytes as real;
    NearestIsRound(gigabytes as real * BYTES_PER_GB as real, bytes);
  }

  /** The tenths that one decimal place shows. */
  function ShownTenths(x: real): int {
    Round(x * 10.0)
  }

  /** What is stored is at most 2^-31 GB away from what was typed. */
  lemma StoredWithinHalfAByte(gb: real)
    ensures -1.0 <= (BytesToGb(GbToBytes(gb)) - gb) * (2 * BYTES_PER_GB) as real <= 1.0
  {
    RoundIsNearest(gb * BYTES_PER_GB as real);
    var n := GbToBytes(gb);
    assert BytesToGb(n) * BYTES_PER_GB as real == n as real;
    assert (BytesToGb(n) - gb) * (2 * BYTES_PER_GB) as real == 2.0 * (n as real - gb * BYTES_PER_GB as real);
  }

  predicate Tenths(gb: real, tenths: int) {
    gb == tenths as real / 10.0
  }

  /** A value comes back unchanged through storing and showing exactly when it has one decimal. */
  lemma RoundTripIffOneDecimal(gb: real)
    ensures Tenths(gb, ShownTenths(BytesToGb(GbToBytes(gb)))) <==> exists tenths :: Tenths(gb, tenths)
  {
    if tenths :| Tenths(gb, tenths) {
      StoredWithinHalfAByte(gb);
      var stored := BytesToGb(GbToBytes(gb));
      assert -0.5 < tenths as real - stored * 10.0 < 0.5;
      NearestIsRound(stored * 10.0, tenths);
    }
  }

  // ----- byte sizes

  const UNITS := ["B", "KB", "MB", "GB", "TB", "PB"]

  /** Powers of the 1024 base. */
  function Base(unit: nat): (b: nat)
    ensures b > 0
  {
    if unit == 0 then 1 else 1024 * Base(unit - 1)
  }

  function Scaled(bytes: int, unit: nat): real {
    if unit == 0 then bytes as real else Scaled(bytes, unit - 1) / 1024.0
  }

  lemma {:induction false} BaseGrows(u: nat, v: nat)
    requires u <= v
    ensures Base(u) <= Base(v)
  {
    if v > u {
      BaseGrows(u, v - 1);
    }
  }

  lemma {:induction false} ScaledIsExact(bytes: int, unit: nat)
    ensures Scaled(bytes, unit) * Base(unit) as real == bytes as real
  {
    if unit > 0 {
      ScaledIsExact(bytes, unit - 1);
      var x, b := Scaled(bytes, unit - 1), Base(unit - 1) as real;
      assert Base(unit) as real == 1024.0 * b;
      assert (x / 1024.0) * (1024.0 * b) == x * b;
    }
  }

  lemma TimesPositive(x: real, y: real, c: real)
    requires c > 0.0
    ensures x < y <==> x * c < y * c
  {
    assert (y - x) * c == y * c - x * c;
    if x < y {
      assert (y - x) * c > 0.0;
    } else {
      assert (x - y) * c >= 0.0;
    }
  }

  lemma FitsUnder(x: real, base: nat, bytes: int)
    requires base > 0 && x * base as real == bytes as real
    ensures x < 1024.0 <==> bytes < 1024 * base
  {
    TimesPositive(x, 1024.0, base as real);
    assert 1024.0 * base as real == (1024 * base) as real;
  }

  lemma FitsBelow(bytes: int, unit: nat)
    ensures Scaled(bytes, unit) < 1024.0 <==> bytes < Base(unit + 1)
  {
    ScaledIsExact(bytes, unit);
    FitsUnder(Scaled(bytes, unit), Base(unit), bytes);
  }

  function IntToString(n: int): string {
    if n < 0 then "-" + NatToString(-n) else NatToString(n)
  }

  /** A minus sign for what is below zero, and the digits of the distance from it. */
  lemma SignedReads(n: int)
    ensures var s := IntToString(n);
      if n < 0 then s[0] == '-' && IsDecimal(s[1..]) && ParseNat(s[1..]) == -n else IsDecimal(s) && ParseNat(s) == n
  {
    ParsePrint(if n < 0 then -n else n);
    if n < 0 {
      assert IntToString(n)[1..] == NatToString(-n);
    }
  }

  /** A number of tenths with its point. */
  function OneDecimal(tenths: nat): string {
    NatToString(tenths / 10) + "." + NatToString(tenths % 10)
  }

  function ReadOneDecimal(s: string): Option<nat> {
    var parts := Split('.', s);
    if |parts| == 2 && IsDecimal(parts[0]) && IsDecimal(parts[1]) && |parts[1]| == 1
    then Some(10 * ParseNat(parts[0]) + ParseNat(parts[1])) else None
  }

  lemma OneDecimalReads(tenths: nat)
    ensures ReadOneDecimal(OneDecimal(tenths)) == Some(tenths)
  {
    var a, b := NatToString(tenths / 10), NatToString(tenths % 10);
    ParsePrint(tenths / 10);
    ParsePrint(tenths % 10);
    assert '.' !in a && '.' !in b;
    assert [a, b][1..] == [b] && Join('.', [a, b]) == a + "." + b;
    SplitJoin('.', [a, b]);
  }

  /** The unit a byte count prints in: the largest it reaches, PB at most. */
  ghost predicate FitsUnit(bytes: int, unit: nat) {
    && unit < |UNITS|
    && (forall v: nat :: unit < v < |UNITS| ==> bytes < Base(v))
    && (unit > 0 ==> Base(unit) <= bytes)
  }

  /**
   The text is whole bytes, or one decimal in the largest unit the count reaches, and then at
   most a twentieth of that unit away from it.
   */
  ghost predicate Prints(bytes: int, text: string) {
    exists unit, shown: nat :: PrintsIn(bytes, unit, shown, text)
  }

  ghost predicate PrintsIn(bytes: int, unit: nat, shown: nat, text: string) {
    && FitsUnit(bytes, unit)
    && if unit == 0 then text == IntToString(bytes) + " B"
       else && shown == ShownTenths(Scaled(bytes, unit)) && text == OneDecimal(shown) + " " + UNITS[unit]
            && Near(bytes, shown, Base(unit))
  }

  /** That many tenths of the unit are at most a twentieth of it away. */
  predicate Near(bytes: int, shown: int, base: nat) {
    2 * (shown * base) - base <= 20 * bytes <= 2 * (shown * base) + base
  }

  lemma NearWhenRounded(bytes: int, x: real, n: int, base: nat)
    requires base > 0 && x * base as real == bytes as real && -0.5 <= n as real - x * 10.0 <= 0.5
    ensures Near(bytes, n, base)
  {
    var b := base as real;
    ScaleBounds(n as real - x * 10.0, b);
    Distribute(n as real, x, b);
    assert n as real * b == (n * base) as real;
    TwiceBounds(n * base, bytes, base);
  }

  lemma Distribute(n: real, x: real, b: real)
    ensures (n - x * 10.0) * b == n * b - 10.0 * (x * b)
  {
  }

  lemma TwiceBounds(p: int, bytes: int, base: nat)
    requires -0.5 * base as real <= p as real - 10.0 * bytes as real <= 0.5 * base as real
    ensures 2 * p - base <= 20 * bytes <= 2 * p + base
  {
    assert (2 * p - 20 * bytes) as real == 2.0 * (p as real - 10.0 * bytes as real);
  }

  lemma ShownIsNear(bytes: int, unit: nat)
    ensures Near(bytes, ShownTenths(Scaled(bytes, unit)), Base(unit))
  {
    ScaledIsExact(bytes, unit);
    RoundIsNearest(Scaled(bytes, unit) * 10.0);
    NearWhenRounded(bytes, Scaled(bytes, unit), ShownTenths(Scaled(bytes, unit)), Base(unit));
  }

  lemma ScaleBounds(x: real, b: real)
    requires -0.5 <= x <= 0.5 && b > 0.0
    ensures -0.5 * b <= x * b <= 0.5 * b
  {
    assert (0.5 - x) * b >= 0.0 && (x + 0.5) * b >= 0.0;
  }

  lemma ShownNotNegative(bytes: int, unit: nat)
    requires bytes >= 0
    ensures Scaled(bytes, unit) >= 0.0 && ShownTenths(Scaled(bytes, unit)) >= 0
  {
    if unit > 0 {
      ShownNotNegative(bytes, unit - 1);
    }
  }

  /** The unit by the size alone. */
  function UnitOf(bytes: int): string {
    if bytes < 1024 then "B" else if bytes < 1048576 then "KB" else if bytes < 1073741824 then "MB"
    else if bytes < 1099511627776 then "GB" else if bytes < 1125899906842624 then "TB" else "PB"
  }

  lemma UnitFits(bytes: int, unit: nat)
    requires FitsUnit(bytes, unit)
    ensures UNITS[unit] == UnitOf(bytes)
  {
    assert Base(0) == 1 && Base(1) == 1024 && Base(2) == 1048576;
    assert Base(3) == 1073741824;
    assert Base(4) == 1099511627776;
    assert Base(5) == 1125899906842624;
  }

  method HumanBytes(bytes: int) returns (text: string)
    ensures Prints(bytes, text)
    ensures bytes < 1024 ==> text == IntToString(bytes) + " B"
    ensures bytes >= 1024 ==> exists shown: nat :: text == OneDecimal(shown) + " " + UnitOf(bytes)
  {
    var unit, size := ScaleBytes(bytes);
    UnitFits(bytes, unit);
    if unit == 0 {
      text := IntToString(bytes) + " B";
      assert PrintsIn(bytes, 0, 0, text);
    } else {
      BaseGrows(0, unit);
      ShownNotNegative(bytes, unit);
      ShownIsNear(bytes, unit);
      text := OneDecimal(ShownTenths(size)) + " " + UNITS[unit];
      assert PrintsIn(bytes, unit, ShownTenths(size), text);
    }
  }

  /** The dividing loop. */
  method ScaleBytes(bytes: int) returns (unit: nat, size: real)
    ensures FitsUnit(bytes, unit) && size == Scaled(bytes, unit)
  {
    size := bytes as real;
    unit := 0;
    while unit < |UNITS| - 1
      invariant unit < |UNITS| && size == Scaled(bytes, unit)
      invariant unit > 0 ==> Base(unit) <= bytes
    {
      FitsBelow(bytes, unit);
      if size < 1024.0 {
        forall v: nat | unit < v < |UNITS| ensures bytes < Base(v) {
          BaseGrows(unit + 1, v);
        }
        break;
      }
      size := size / 1024.0;
      unit := unit + 1;
    }
  }

  /** Below the next unit the number shown is under 1024.0, except in the last twentieth of the range. */
  lemma ShownBelow1024Iff(size: real)
    requires 0.0 <= size < 1024.0
    ensures ShownTenths(size) <= 10240 && (ShownTenths(size) < 10240 <==> size < 1023.95)
  {
    RoundIsNearest(size * 10.0);
  }

  // ----- one line

  const ELLIPSIS := '\U{2026}'

  predicate Control(c: char) {
    c < ' ' || c == 0x7f as char
  }

  /** Each run of control characters becomes one space. */
  function Collapse(s: string): string {
    if s == "" then ""
    else if !Control(s[|s| - 1]) then Collapse(s[..|s| - 1]) + [s[|s| - 1]]
    else if |s| > 1 && Control(s[|s| - 2]) then Collapse(s[..|s| - 1])
    else Collapse(s[..|s| - 1]) + " "
  }

  /** Python's s[:n], where a negative n counts from the end. */
  function UpTo(s: string, n: int): string {
    if n >= |s| then s else if n >= 0 then s[..n] else if -n <= |s| then s[..|s| + n] else ""
  }

  function SingleLine(isSpace: char -> bool, text: string, maxLen: int): string {
    var line := Strip(isSpace, Collapse(text));
    if |line| > maxLen then StripRight(isSpace, UpTo(line, maxLen - 1)) + [ELLIPSIS] else line
  }

  /** The control characters: below the space, and delete. */
  lemma WhatControls(c: char)
    ensures Control(c) <==> c as int <= 31 || c as int == 127
    ensures Control('\n') && Control('\r') && Control('\t') && !Control(' ') && !Control(ELLIPSIS)
  {
  }

  /** A cut never adds: the front of the text, as long as asked or, from the end, that much shorter. */
  lemma UpToCuts(s: string, n: int)
    ensures UpTo(s, n) <= s
    ensures |UpTo(s, n)| == if n >= |s| then |s| else if n >= 0 then n else if |s| + n >= 0 then |s| + n else 0
  {
  }

  lemma {:induction false} ControlRun(run: string)
    requires run != "" && forall c | c in run :: Control(c)
    ensures Collapse(run) == " "
  {
    if |run| > 1 {
      assert run[|run| - 1] in run && run[|run| - 2] in run;
      ControlRun(run[..|run| - 1]);
    } else {
      assert run[0] in run && run[..0] == "";
    }
  }

  /** Texts collapse apart, wherever no run of control characters is cut in two. */
  lemma {:induction false} CollapseParts(a: string, b: string)
    requires a == "" || b == "" || !Control(a[|a| - 1]) || !Control(b[0])
    ensures Collapse(a + b) == Collapse(a) + Collapse(b)
    decreases |b|
  {
    if b == "" {
      assert a + b == a && Collapse(a) + "" == Collapse(a);
    } else {
      var front := b[..|b| - 1];
      assert (a + b)[..|a + b| - 1] == a + front;
      CollapseParts(a, front);
    }
  }

  /** Each run of control characters between other text is one space, the text around it untouched. */
  lemma RunsBecomeSpaces(a: string, run: string, b: string)
    requires NoControl(a) && run != "" && (forall c | c in run :: Control(c)) && (b == "" || !Control(b[0]))
    ensures Collapse(a + run + b) == a + " " + Collapse(b)
  {
    assert a != "" ==> a[|a| - 1] in a;
    assert (a + run)[|a + run| - 1] == run[|run| - 1];
    CollapseParts(a + run, b);
    CollapseParts(a, run);
    CollapseIdle(a);
    ControlRun(run);
  }

  predicate NoControl(s: string) {
    forall c | c in s :: !Control(c)
  }

  lemma {:induction false} CollapseClears(s: string)
    ensures NoControl(Collapse(s))
  {
    if s != "" {
      CollapseClears(s[..|s| - 1]);
    }
  }

  lemma {:induction false} CollapseIdle(s: string)
    requires NoControl(s)
    ensures Collapse(s) == s
  {
    if s != "" {
      CollapseIdle(s[..|s| - 1]);
      assert s == s[..|s| - 1] + [s[|s| - 1]];
    }
  }

  lemma StrippedLine(isSpace: char -> bool, text: string)
    ensures var line := Strip(isSpace, Collapse(text)); NoControl(line) && Stripped(isSpace, line)
  {
    CollapseClears(text);
    StripPart(isSpace, Collapse(text));
  }

  /** One line, trimmed, and within the limit. */
  lemma SingleLineFits(isSpace: char -> bool, text: string, maxLen: int)
    requires maxLen >= 1 && !isSpace(ELLIPSIS)
    ensures var r := SingleLine(isSpace, text, maxLen); |r| <= maxLen && NoControl(r) && Stripped(isSpace, r)
  {
    StrippedLine(isSpace, text);
    var line := Strip(isSpace, Collapse(text));
    StripRightPart(isSpace, UpTo(line, maxLen - 1));
  }

  /**
   A line that fits is shown whole. A longer one is its own front and an ellipsis, and only
   white space is left out between that front and the limit.
   */
  lemma SingleLineShows(isSpace: char -> bool, text: string, maxLen: int)
    requires maxLen >= 1
    ensures var (r, line) := (SingleLine(isSpace, text, maxLen), Strip(isSpace, Collapse(text)));
      if |line| <= maxLen then r == line
      else
        && 1 <= |r| <= maxLen && r[|r| - 1] == '\U{2026}' && r[..|r| - 1] <= line
        && forall i | |r| - 1 <= i < maxLen - 1 :: isSpace(line[i])
  {
    var line := Strip(isSpace, Collapse(text));
    if |line| > maxLen {
      assert UpTo(line, maxLen - 1) == line[..maxLen - 1];
      CutFront(isSpace, line, maxLen - 1);
      var front := StripRight(isSpace, line[..maxLen - 1]);
      assert (front + [ELLIPSIS])[..|front|] == front;
    }
  }

  /** Cutting and trimming leave a front of the line, and only white space between it and the cut. */
  lemma CutFront(isSpace: char -> bool, line: string, n: nat)
    requires n <= |line|
    ensures var front := StripRight(isSpace, line[..n]);
      |front| <= n && front <= line && forall i | |front| <= i < n :: isSpace(line[i])
  {
    StripRightPart(isSpace, line[..n]);
    StripRightTakes(isSpace, line[..n]);
    var front := StripRight(isSpace, line[..n]);
    assert front == line[..n][..|front|] == line[..|front|];
    forall i | |front| <= i < n ensures isSpace(line[i]) {
      assert line[i] == line[..n][i];
    }
  }

  /** Doing it twice is doing it once. */
  lemma SingleLineTwice(isSpace: char -> bool, text: string, maxLen: int)
    requires maxLen >= 1 && !isSpace(ELLIPSIS)
    ensures var r := SingleLine(isSpace, text, maxLen); SingleLine(isSpace, r, maxLen) == r
  {
    SingleLineFits(isSpace, text, maxLen);
    CollapseIdle(SingleLine(isSpace, text, maxLen));
    StripIdle(isSpace, SingleLine(isSpace, text, maxLen));
  }

  /** The limit holds for every text exactly when it leaves room for the ellipsis. */
  lemma LimitHoldsIffPositive(isSpace: char -> bool, maxLen: int)
    requires !isSpace(ELLIPSIS) && !isSpace('x')
    ensures (forall text :: |SingleLine(isSpace, text, maxLen)| <= maxLen) <==> maxLen >= 1
  {
    if maxLen >= 1 {
      forall text ensures |SingleLine(isSpace, text, maxLen)| <= maxLen {
        SingleLineFits(isSpace, text, maxLen);
      }
    } else {
      var text := "x";
      CollapseIdle(text);
      StripIdle(isSpace, text);
      assert |SingleLine(isSpace, text, maxLen)| >= 1;
    }
  }
}
