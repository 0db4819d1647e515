/** Display formatting: number abbreviations, the two duration formats, the
    rank colour classes, and the clamp / interpolation helpers. */
module Formatters {
  import opened GameTypes
  import opened Decimal

  // ---------------------------------------------------------------- numbers

  /** How `formatNumber()` presents a number: below a thousand as itself,
      otherwise scaled down to a mantissa with a one-letter suffix. */
  datatype NumberForm = Plain(value: real) | Scaled(mantissa: real, suffix: char)

  /** The divisor a suffix stands for. */
  function SuffixScale(c: char): real
  {
    match c
    case 'K' => 1000.0
    case 'M' => 1000000.0
    case 'B' => 1000000000.0
    case _ => 1000000000000.0
  }

  /** The suffixes in increasing order of size. */
  function SuffixOrder(c: char): nat
  {
    match c
    case 'K' => 1
    case 'M' => 2
    case 'B' => 3
    case _ => 4
  }

  /** The order of the thresholds in `formatNumber()`: the first of
      thousand, million, billion, trillion that the number does not reach
      picks the suffix below it, and a trillion and above is 'T'. */
  function FormatNumberForm(num: real): (r: NumberForm)
    ensures num < 1000.0 <==> r.Plain?
    ensures r.Plain? ==> r.value == num
    ensures r.Scaled? ==> r.suffix in "KMBT" && r.mantissa * SuffixScale(r.suffix) == num
    ensures r.Scaled? ==> 1.0 <= r.mantissa && (r.suffix != 'T' ==> r.mantissa < 1000.0)
  {
    if num < 1000.0 then Plain(num)
    else if num < 1000000.0 then Scaled(num / 1000.0, 'K')
    else if num < 1000000000.0 then Scaled(num / 1000000.0, 'M')
    else if num < 1000000000000.0 then Scaled(num / 1000000000.0, 'B')
    else Scaled(num / 1000000000000.0, 'T')
  }

  /** A larger number never gets a smaller suffix. */
  lemma SuffixMonotone(x: real, y: real)
    requires 1000.0 <= x <= y
    ensures FormatNumberForm(x).Scaled? && FormatNumberForm(y).Scaled?
    ensures SuffixOrder(FormatNumberForm(x).suffix) <= SuffixOrder(FormatNumberForm(y).suffix)
  {
  }

  // ---------------------------------------------------------------- durations

  /** Whole seconds in `ms` milliseconds, rounded down (`Math.floor`). */
  function FloorSeconds(ms: int): (s: int)
    ensures s * 1000 <= ms < (s + 1) * 1000
  {
    ms / 1000
  }

  /** Whole seconds in `ms` milliseconds, rounded up (`Math.ceil`). */
  function CeilSeconds(ms: int): (s: int)
    ensures (s - 1) * 1000 < ms <= s * 1000
  {
    -((-ms) / 1000)
  }

  /** `formatTime()`: "<h>h <m>m <s>s" with the hours, minutes and seconds
      of the floor of the duration, leading zero units dropped. */
  function FormatTime(ms: int): (r: string)
    ensures |r| >= 2 && r[|r| - 1] == 's'
    ensures 'h' in r <==> FloorSeconds(ms) >= 3600
    ensures 'm' in r <==> FloorSeconds(ms) >= 60
  {
    var seconds := FloorSeconds(ms);
    var minutes := seconds / 60;
    var hours := minutes / 60;
    if hours > 0 then
      NatToString(hours) + "h " + NatToString(minutes % 60) + "m " + NatToString(seconds % 60) + "s"
    else if minutes > 0 then
      NatToString(minutes) + "m " + NatToString(seconds % 60) + "s"
    else
      IntToString(seconds) + "s"
  }

  /** One "<number><unit>" group of a duration. */
  datatype Group = Group(amount: nat, unit: char)

  /** Reads space-separated "<digits><unit>" groups. */
  function ParseGroups(s: string): Option<seq<Group>>
    decreases |s|
  {
    var k := DigitSpan(s);
    if k == 0 || k >= |s| then None
    else
      var g := Group(ParseNat(s[..k]), s[k]);
      var rest := s[k + 1..];
      if |rest| == 0 then Some([g])
      else if rest[0] != ' ' then None
      else match ParseGroups(rest[1..])
        case None => None
        case Some(gs) => Some([g] + gs)
  }

  function UnitSeconds(c: char): nat
  {
    if c == 'h' then 3600 else if c == 'm' then 60 else 1
  }

  function GroupsSeconds(gs: seq<Group>): nat
  {
    if |gs| == 0 then 0 else gs[0].amount * UnitSeconds(gs[0].unit) + GroupsSeconds(gs[1..])
  }

  /** The number of seconds a duration text denotes. */
  function ParseDuration(s: string): Option<nat>
  {
    match ParseGroups(s)
    case None => None
    case Some(gs) => Some(GroupsSeconds(gs))
  }

  lemma ParseLastGroup(d: string, u: char)
    requires |d| >= 1 && (forall i :: 0 <= i < |d| ==> IsDigit(d[i])) && !IsDigit(u)
    ensures ParseGroups(d + [u]) == Some([Group(ParseNat(d), u)])
  {
    DigitSpanOfNumeral(d, [u]);
    var s := d + [u];
    assert s[..|d|] == d;
    assert s[|d| + 1..] == [];
  }

  lemma ParseGroupThen(d: string, u: char, rest: string)
    requires |d| >= 1 && (forall i :: 0 <= i < |d| ==> IsDigit(d[i])) && !IsDigit(u)
    requires ParseGroups(rest).Some?
    ensures ParseGroups(d + [u] + " " + rest) == Some([Group(ParseNat(d), u)] + ParseGroups(rest).value)
  {
    var tail := " " + rest;
    var t := [u] + tail;
    var s := d + [u] + " " + rest;
    assert s == d + t by {
      Assoc(d, [u], " ");
      Assoc(d, [u] + " ", rest);
      Assoc([u], " ", rest);
    }
    DigitSpanOfNumeral(d, t);
    assert s[..|d|] == d && s[|d|] == u;
    assert s[|d| + 1..] == tail;
    assert tail[0] == ' ' && tail[1..] == rest;
  }

  /** The hours, minutes and seconds `formatTime()` shows for `ms`. */
  function TimeGroups(ms: int): seq<Group>
    requires ms >= 0
  {
    var seconds := FloorSeconds(ms);
    var minutes := seconds / 60;
    var hours := minutes / 60;
    if hours > 0 then [Group(hours, 'h'), Group(minutes % 60, 'm'), Group(seconds % 60, 's')]
    else if minutes > 0 then [Group(minutes, 'm'), Group(seconds % 60, 's')]
    else [Group(seconds, 's')]
  }

  lemma OneGroup(sec: nat)
    ensures ParseGroups(NatToString(sec) + "s") == Some([Group(sec, 's')])
  {
    ParseLastGroup(NatToString(sec), 's');
    ParseNatToString(sec);
  }

  lemma TwoGroups(min: nat, sec: nat)
    ensures ParseGroups(NatToString(min) + "m " + NatToString(sec) + "s") == Some([Group(min, 'm'), Group(sec, 's')])
  {
    var md, tail := NatToString(min), NatToString(sec) + "s";
    var text := md + "m " + NatToString(sec) + "s";
    OneGroup(sec);
    ParseGroupThen(md, 'm', tail);
    ParseNatToString(min);
    assert text == md + ['m'] + " " + tail by {
      var x, c := md + "m ", NatToString(sec);
      Assoc(x, c, "s");
      assert "m " == ['m'] + " ";
      Assoc(md, ['m'], " ");
    }
    assert ParseGroups(text) == Some([Group(min, 'm')] + [Group(sec, 's')]);
    assert [Group(min, 'm')] + [Group(sec, 's')] == [Group(min, 'm'), Group(sec, 's')];
  }

  lemma ThreeGroups(hr: nat, min: nat, sec: nat)
    ensures ParseGroups(NatToString(hr) + "h " + NatToString(min) + "m " + NatToString(sec) + "s")
         == Some([Group(hr, 'h'), Group(min, 'm'), Group(sec, 's')])
  {
    var hd, tail := NatToString(hr), NatToString(min) + "m " + NatToString(sec) + "s";
    var text := hd + "h " + NatToString(min) + "m " + NatToString(sec) + "s";
    TwoGroups(min, sec);
    ParseGroupThen(hd, 'h', tail);
    ParseNatToString(hr);
    assert text == hd + ['h'] + " " + tail by {
      var x, b, c := hd + "h ", NatToString(min), NatToString(sec);
      Assoc(x, b, "m ");
      Assoc(x, b + "m ", c);
      Assoc(x, b + "m " + c, "s");
      assert "h " == ['h'] + " ";
      Assoc(hd, ['h'], " ");
    }
    assert ParseGroups(text) == Some([Group(hr, 'h')] + [Group(min, 'm'), Group(sec, 's')]);
    assert [Group(hr, 'h')] + [Group(min, 'm'), Group(sec, 's')] == [Group(hr, 'h'), Group(min, 'm'), Group(sec, 's')];
  }

  lemma Assoc(x: string, y: string, z: string)
    ensures x + y + z == x + (y + z)
  {
  }

  lemma FormatTimeGroups(ms: int)
    requires ms >= 0
    ensures ParseGroups(FormatTime(ms)) == Some(TimeGroups(ms))
  {
    var seconds := FloorSeconds(ms);
    var minutes := seconds / 60;
    var hours := minutes / 60;
    if hours > 0 {
      ThreeGroups(hours, minutes % 60, seconds % 60);
    } else if minutes > 0 {
      TwoGroups(minutes, seconds % 60);
    } else {
      OneGroup(seconds);
    }
  }

  /** Hours, minutes of the hour and seconds of the minute add back up. */
  lemma ClockFields(seconds: nat)
    ensures seconds == (seconds / 60 / 60) * 3600 + (seconds / 60 % 60) * 60 + seconds % 60
  {
    var minutes, hours := seconds / 60, seconds / 60 / 60;
    assert seconds == minutes * 60 + seconds % 60;
    assert minutes == hours * 60 + minutes % 60;
    assert minutes * 60 == hours * 3600 + (minutes % 60) * 60;
  }

  /** Reading back what `formatTime()` wrote gives the whole seconds of the
      duration: no unit is lost or double counted. */
  lemma FormatTimeRoundTrip(ms: int)
    requires ms >= 0
    ensures ParseDuration(FormatTime(ms)) == Some(FloorSeconds(ms))
  {
    FormatTimeGroups(ms);
    TimeGroupsSeconds(ms);
  }

  /** The shown hours, minutes and seconds add back up to the duration. */
  lemma TimeGroupsSeconds(ms: int)
    requires ms >= 0
    ensures GroupsSeconds(TimeGroups(ms)) == FloorSeconds(ms)
  {
    var seconds := FloorSeconds(ms);
    var minutes := seconds / 60;
    var hours := minutes / 60;
    ClockFields(seconds);
    if hours > 0 {
      ThreeGroupsSeconds(hours, minutes % 60, seconds % 60);
    } else if minutes > 0 {
      assert minutes % 60 == minutes;
      TwoGroupsSeconds(minutes, seconds % 60);
    } else {
      assert seconds % 60 == seconds;
      OneGroupSeconds(seconds);
    }
  }

  lemma OneGroupSeconds(sec: nat)
    ensures GroupsSeconds([Group(sec, 's')]) == sec
  {
    assert [Group(sec, 's')][1..] == [];
  }

  lemma TwoGroupsSeconds(min: nat, sec: nat)
    ensures GroupsSeconds([Group(min, 'm'), Group(sec, 's')]) == min * 60 + sec
  {
    var gs := [Group(min, 'm'), Group(sec, 's')];
    assert gs[1..] == [Group(sec, 's')];
    OneGroupSeconds(sec);
    assert GroupsSeconds(gs) == min * UnitSeconds('m') + GroupsSeconds(gs[1..]);
  }

  lemma ThreeGroupsSeconds(hr: nat, min: nat, sec: nat)
    ensures GroupsSeconds([Group(hr, 'h'), Group(min, 'm'), Group(sec, 's')]) == hr * 3600 + min * 60 + sec
  {
    var gs := [Group(hr, 'h'), Group(min, 'm'), Group(sec, 's')];
    assert gs[1..] == [Group(min, 'm'), Group(sec, 's')];
    TwoGroupsSeconds(min, sec);
    assert GroupsSeconds(gs) == hr * UnitSeconds('h') + GroupsSeconds(gs[1..]);
  }

  /** Two durations read the same exactly when they have the same whole
      seconds. */
  lemma FormatTimeInjective(a: int, b: int)
    requires a >= 0 && b >= 0
    ensures FormatTime(a) == FormatTime(b) <==> FloorSeconds(a) == FloorSeconds(b)
  {
    FormatTimeRoundTrip(a);
    FormatTimeRoundTrip(b);
  }

  /** `padStart(2, '0')`: a one-character text gets a leading zero. */
  function PadStart2(s: string): (r: string)
    ensures |r| == if |s| < 2 then 2 else |s|
    ensures r[|r| - |s|..] == s
  {
    if |s| == 0 then "00" else if |s| == 1 then "0" + s else s
  }

  /** `formatTimeShort()`: "<m>:<ss>" of the duration rounded up to whole
      seconds. For a duration that rounds up to `s >= 0` seconds, both
      branches write the clock face "<s / 60>:<s % 60 in two digits>", so
      seconds always show two digits and minutes never spill into them. */
  function FormatTimeShort(ms: int): (r: string)
    ensures ms > -1000 ==> CeilSeconds(ms) >= 0
    ensures ms > -1000 ==> r == NatToString(CeilSeconds(ms) / 60) + ":" + TwoDigits(CeilSeconds(ms) % 60)
  {
    var seconds := CeilSeconds(ms);
    var minutes := seconds / 60;
    var r := if minutes > 0 then NatToString(minutes) + ":" + PadStart2(NatToString(seconds % 60))
             else "0:" + PadStart2(IntToString(seconds));
    assert ms > -1000 ==> r == NatToString(seconds / 60) + ":" + TwoDigits(seconds % 60) by {
      if ms > -1000 {
        if minutes > 0 {
          PadNumeralIsTwoDigits(seconds % 60);
        } else {
          UnderAMinuteIsClock(seconds);
        }
      }
    }
    r
  }

  /** Two digits, tens first. */
  function TwoDigits(n: nat): (s: string)
    requires n < 100
    ensures |s| == 2 && ParseNat(s) == n
  {
    var s := [DigitChar(n / 10), DigitChar(n % 10)];
    DigitRoundTrip(n / 10);
    DigitRoundTrip(n % 10);
    assert s[..1] == [DigitChar(n / 10)] && s[..1][..0] == [];
    assert ParseNat(s[..1]) == n / 10;
    assert ParseNat(s) == 10 * (n / 10) + n % 10;
    s
  }

  lemma PadNumeralIsTwoDigits(n: nat)
    requires n < 100
    ensures PadStart2(NatToString(n)) == TwoDigits(n)
  {
    if n >= 10 {
      assert NatToString(n / 10) == [DigitChar(n / 10)];
    }
  }

  lemma UnderAMinuteIsClock(seconds: int)
    requires 0 <= seconds < 60
    ensures "0:" + PadStart2(IntToString(seconds)) == NatToString(seconds / 60) + ":" + TwoDigits(seconds % 60)
  {
    PadNumeralIsTwoDigits(seconds);
    assert seconds / 60 == 0 && seconds % 60 == seconds;
    assert NatToString(0) == "0";
    assert "0:" == "0" + ":";
    Assoc("0", ":", TwoDigits(seconds));
  }

  /** Two readings of the clock face, as documentation. */
  lemma FormatTimeShortExamples()
    ensures FormatTimeShort(0) == "0:00"
    ensures FormatTimeShort(3000) == "0:03"
  {
    assert CeilSeconds(0) == 0 && CeilSeconds(3000) == 3;
    assert DigitChar(0) == '0' && DigitChar(3) == '3';
    assert NatToString(0) == "0";
    assert TwoDigits(0) == "00" && TwoDigits(3) == "03";
  }

  // ---------------------------------------------------------------- ranks

  /** The colour family of each hunter rank; unknown ranks look like "E". */
  function RankHue(rank: string): string
  {
    if rank == "D" then "green"
    else if rank == "C" then "blue"
    else if rank == "B" then "purple"
    else if rank == "A" then "orange"
    else if rank == "S" then "red"
    else if rank == "National" then "yellow"
    else "gray"
  }

  /** `getRankColor()`: the rank's text class, a 400 shade of its hue. */
  function GetRankColor(rank: string): (r: string)
    ensures r == "text-" + RankHue(rank) + "-400"
  {
    assert "text-" + "gray" + "-400" == "text-gray-400";
    assert "text-" + "green" + "-400" == "text-green-400";
    assert "text-" + "blue" + "-400" == "text-blue-400";
    assert "text-" + "purple" + "-400" == "text-purple-400";
    assert "text-" + "orange" + "-400" == "text-orange-400";
    assert "text-" + "red" + "-400" == "text-red-400";
    assert "text-" + "yellow" + "-400" == "text-yellow-400";
    match rank
    case "E" => "text-gray-400"
    case "D" => "text-green-400"
    case "C" => "text-blue-400"
    case "B" => "text-purple-400"
    case "A" => "text-orange-400"
    case "S" => "text-red-400"
    case "National" => "text-yellow-400"
    case _ => "text-gray-400"
  }

  /** `getRankGlow()`: the rank's shadow class, a translucent 500 shade of
      the same hue, so the text colour and the glow never disagree. */
  function GetRankGlow(rank: string): (r: string)
    ensures r == "shadow-" + RankHue(rank) + "-500/50"
  {
    assert "shadow-" + "gray" + "-500/50" == "shadow-gray-500/50";
    assert "shadow-" + "green" + "-500/50" == "shadow-green-500/50";
    assert "shadow-" + "blue" + "-500/50" == "shadow-blue-500/50";
    assert "shadow-" + "purple" + "-500/50" == "shadow-purple-500/50";
    assert "shadow-" + "orange" + "-500/50" == "shadow-orange-500/50";
    assert "shadow-" + "red" + "-500/50" == "shadow-red-500/50";
    assert "shadow-" + "yellow" + "-500/50" == "shadow-yellow-500/50";
    match rank
    case "E" => "shadow-gray-500/50"
    case "D" => "shadow-green-500/50"
    case "C" => "shadow-blue-500/50"
    case "B" => "shadow-purple-500/50"
    case "A" => "shadow-orange-500/50"
    case "S" => "shadow-red-500/50"
    case "National" => "shadow-yellow-500/50"
    case _ => "shadow-gray-500/50"
  }

  /** The seven named ranks get seven different colours. */
  lemma NamedRanksHaveDistinctColors(r1: string, r2: string)
    requires r1 in ["E", "D", "C", "B", "A", "S", "National"]
    requires r2 in ["E", "D", "C", "B", "A", "S", "National"]
    requires GetRankColor(r1) == GetRankColor(r2)
    ensures r1 == r2
  {
  }

  // ---------------------------------------------------------------- helpers

  function Max(a: real, b: real): real
  {
    if a >= b then a else b
  }

  function Min(a: real, b: real): real
  {
    if a <= b then a else b
  }

  /** `clamp()`: the value pushed into [lo, hi], with `hi` winning when the
      bounds cross. */
  function Clamp(value: real, lo: real, hi: real): (r: real)
    ensures lo <= hi ==> lo <= r <= hi
    ensures r <= hi
    ensures lo <= value <= hi ==> r == value
    ensures value < lo && lo <= hi ==> r == lo
    ensures hi < value ==> r == hi
    ensures hi < lo ==> r == hi
  {
    Min(Max(value, lo), hi)
  }

  /** Clamping twice is clamping once. */
  lemma ClampIdempotent(value: real, lo: real, hi: real)
    ensures Clamp(Clamp(value, lo, hi), lo, hi) == Clamp(value, lo, hi)
  {
  }

  /** `lerp()`: `a` at `t = 0`, `b` at `t = 1`, and between the two for `t`
      in between. */
  function Lerp(a: real, b: real, t: real): (r: real)
    ensures t == 0.0 ==> r == a
    ensures t == 1.0 ==> r == b
    ensures 0.0 <= t <= 1.0 && a <= b ==> a <= r <= b
    ensures 0.0 <= t <= 1.0 && b <= a ==> b <= r <= a
  {
    if 0.0 <= t <= 1.0 then
      FractionOf(b - a, t);
      a + (b - a) * t
    else a + (b - a) * t
  }

  /** A fraction `t` of `d` lies between 0 and `d`. */
  lemma FractionOf(d: real, t: real)
    requires 0.0 <= t <= 1.0
    ensures d >= 0.0 ==> 0.0 <= d * t <= d
    ensures d <= 0.0 ==> d <= d * t <= 0.0
  {
    var u := 1.0 - t;
    assert d * u == d - d * t;
    assert (-d) * t == -(d * t) && (-d) * u == -(d * u);
    if d >= 0.0 {
      ProductNonNegative(d, t);
      ProductNonNegative(d, u);
    } else {
      ProductNonNegative(-d, t);
      ProductNonNegative(-d, u);
    }
  }

  lemma ProductNonNegative(x: real, y: real)
    requires x >= 0.0 && y >= 0.0
    ensures x * y >= 0.0
  {
  }
}
