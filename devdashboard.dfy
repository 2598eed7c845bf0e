/** The pure helpers of the developer dashboard (frontend/src/pages/DeveloperDashboard.js):
    the uptime text, the severity plotted for a log level and the badge of a query status. */
module DevDashboard {
  import opened Wrappers
  import Text

  const SecondsPerDay: nat := 3600 * 24

  /** The whole days, hours, minutes and seconds of an uptime, as the page computes them. */
  function Days(s: nat): nat { s / SecondsPerDay }
  function Hours(s: nat): nat { s % SecondsPerDay / 3600 }
  function Mins(s: nat): nat { s % 3600 / 60 }
  function Secs(s: nat): nat { s % 60 }

  /** The four numbers are the mixed-radix digits of the uptime. */
  lemma UptimeDecomposition(s: nat)
    ensures Days(s) * SecondsPerDay + Hours(s) * 3600 + Mins(s) * 60 + Secs(s) == s
    ensures Hours(s) < 24 && Mins(s) < 60 && Secs(s) < 60
  {
    var x := s % SecondsPerDay;
    assert s == Days(s) * SecondsPerDay + x;
    var y := x % 3600;
    assert x == Hours(s) * 3600 + y;
    assert s == (Days(s) * 24 + Hours(s)) * 3600 + y;
    ModOf3600(s, Days(s) * 24 + Hours(s), y);
    assert y == Mins(s) * 60 + s % 3600 % 60;
    ModOf60(s, (Days(s) * 24 + Hours(s)) * 60 + Mins(s), s % 3600 % 60);
  }

  lemma ModOf3600(a: nat, q: nat, r: nat)
    requires 0 <= r < 3600 && a == q * 3600 + r
    ensures a % 3600 == r
  {
  }

  lemma ModOf60(a: nat, q: nat, r: nat)
    requires 0 <= r < 60 && a == q * 60 + r
    ensures a % 60 == r
  {
  }

  /** One entry of the list the page filters: `n` with its unit, or the empty string (dropped
      by the filter) when `n` is 0. */
  function Kept(n: nat, unit: char): seq<string>
  {
    if n > 0 then [Text.NatToString(n) + [unit]] else []
  }

  /** The entries that survive the filter, in the order days, hours, minutes, seconds; the
      seconds entry is always present. */
  function UptimeParts(s: nat): seq<string>
  {
    Kept(Days(s), 'd') + Kept(Hours(s), 'h') + Kept(Mins(s), 'm') + [Text.NatToString(Secs(s)) + "s"]
  }

  /** `formatUptime`: "0s" for a missing or zero uptime, else the parts joined by spaces. */
  function FormatUptime(seconds: Option<nat>): string
  {
    if seconds.None? || seconds.value == 0 then "0s"
    else Text.Join(UptimeParts(seconds.value), ' ')
  }

  /** The weight in seconds of a unit letter. */
  function Weight(unit: char): nat
  {
    match unit
    case 'd' => SecondsPerDay
    case 'h' => 3600
    case 'm' => 60
    case _ => 1
  }

  /** Reads one part back: digits followed by one of the unit letters. */
  function ParsePart(p: string): Option<nat>
  {
    if |p| >= 2 && Text.AllDigits(p[..|p| - 1]) && p[|p| - 1] in "dhms" then
      Some(Text.DigitsValue(p[..|p| - 1]) * Weight(p[|p| - 1]))
    else None
  }

  /** The sum of the values `f` reads from the parts, or `None` if one of them is unreadable. */
  function SumParts(f: string -> Option<nat>, parts: seq<string>): Option<nat>
  {
    if parts == [] then Some(0)
    else match (f(parts[0]), SumParts(f, parts[1..]))
      case (Some(a), Some(b)) => Some(a + b)
      case _ => None
  }

  function ParseParts(parts: seq<string>): Option<nat>
  {
    SumParts(ParsePart, parts)
  }

  /** Reads an uptime text back into seconds: the sum of its space-separated parts. */
  function ParseUptime(text: string): Option<nat>
  {
    ParseParts(Text.SplitOn(text, ' '))
  }

  /** The uptime text determines the uptime: reading it back gives the seconds shown. */
  lemma ParseFormatUptime(s: nat)
    ensures ParseUptime(FormatUptime(Some(s))) == Some(s)
  {
    if s == 0 {
      assert Text.SplitOn("0s", ' ') == ["0s"];
      NumberPart(0, 's');
      assert Text.NatToString(0) + ['s'] == "0s";
    } else {
      var parts := UptimeParts(s);
      PartsWithoutSpaces(s);
      Text.SplitJoin(parts, ' ');
      PartsValue(s);
    }
  }

  lemma PartsWithoutSpaces(s: nat)
    ensures |UptimeParts(s)| >= 1
    ensures forall k :: 0 <= k < |UptimeParts(s)| ==> ' ' !in UptimeParts(s)[k]
  {
    forall n: nat, u: char, k | u != ' ' && 0 <= k < |Kept(n, u)|
      ensures ' ' !in Kept(n, u)[k]
    {
      NumberPartNoSpace(n, u);
    }
    NumberPartNoSpace(Secs(s), 's');
  }

  lemma NumberPartNoSpace(n: nat, u: char)
    requires u != ' '
    ensures ' ' !in Text.NatToString(n) + [u]
  {
    var t := Text.NatToString(n) + [u];
    forall k | 0 <= k < |t|
      ensures t[k] != ' '
    {
      if k < |t| - 1 {
        assert Text.IsDigit(Text.NatToString(n)[k]);
      }
    }
  }

  lemma NumberPart(n: nat, u: char)
    requires u in "dhms"
    ensures ParsePart(Text.NatToString(n) + [u]) == Some(n * Weight(u))
  {
    var t := Text.NatToString(n) + [u];
    assert t[..|t| - 1] == Text.NatToString(n);
    Text.DigitsValueOfNatToString(n);
  }

  lemma {:induction false} SumPartsAppend(f: string -> Option<nat>, a: seq<string>, b: seq<string>)
    ensures SumParts(f, a + b) ==
      match (SumParts(f, a), SumParts(f, b))
      case (Some(x), Some(y)) => Some(x + y)
      case _ => None
    decreases |a|
  {
    if a != [] {
      assert (a + b)[1..] == a[1..] + b;
      SumPartsAppend(f, a[1..], b);
    } else {
      assert a + b == b;
    }
  }

  lemma KeptValue(n: nat, u: char)
    requires u in "dhms"
    ensures ParseParts(Kept(n, u)) == Some(n * Weight(u))
  {
    if n > 0 {
      NumberPart(n, u);
      SinglePart(ParsePart, Text.NatToString(n) + [u], n * Weight(u));
    }
  }

  lemma PartsValue(s: nat)
    ensures ParseParts(UptimeParts(s)) == Some(s)
  {
    PartsValueOf(Days(s), Hours(s), Mins(s), Secs(s));
    UptimeDecomposition(s);
  }

  /** The parts of any split into days, hours, minutes and seconds read back as its total. */
  lemma PartsValueOf(dd: nat, hh: nat, mm: nat, ss: nat)
    ensures ParseParts(Kept(dd, 'd') + Kept(hh, 'h') + Kept(mm, 'm') + [Text.NatToString(ss) + "s"]) ==
      Some(dd * SecondsPerDay + hh * 3600 + mm * 60 + ss)
  {
    var a, b, c, e := Kept(dd, 'd'), Kept(hh, 'h'), Kept(mm, 'm'), [Text.NatToString(ss) + "s"];
    KeptValue(dd, 'd');
    KeptValue(hh, 'h');
    KeptValue(mm, 'm');
    SecondsValue(ss);
    assert Weight('d') == SecondsPerDay && Weight('h') == 3600 && Weight('m') == 60;
    FourPartsValue(ParsePart, a, b, c, e, dd * SecondsPerDay, hh * 3600, mm * 60, ss);
  }

  lemma FourPartsValue(f: string -> Option<nat>, a: seq<string>, b: seq<string>, c: seq<string>, e: seq<string>,
    x: nat, y: nat, z: nat, w: nat)
    requires SumParts(f, a) == Some(x) && SumParts(f, b) == Some(y)
    requires SumParts(f, c) == Some(z) && SumParts(f, e) == Some(w)
    ensures SumParts(f, a + b + c + e) == Some(x + y + z + w)
  {
    var ab := a + b;
    AppendValue(f, a, b, x, y);
    var abc := ab + c;
    AppendValue(f, ab, c, x + y, z);
    AppendValue(f, abc, e, x + y + z, w);
  }

  lemma SecondsValue(ss: nat)
    ensures ParseParts([Text.NatToString(ss) + "s"]) == Some(ss)
  {
    var t := Text.NatToString(ss) + ['s'];
    assert t == Text.NatToString(ss) + "s";
    NumberPart(ss, 's');
    assert Weight('s') == 1;
    SinglePart(ParsePart, t, ss);
  }

  lemma SinglePart(f: string -> Option<nat>, p: string, v: nat)
    requires f(p) == Some(v)
    ensures SumParts(f, [p]) == Some(v)
  {
    assert [p][1..] == [];
  }

  lemma AppendValue(f: string -> Option<nat>, a: seq<string>, b: seq<string>, x: nat, y: nat)
    requires SumParts(f, a) == Some(x) && SumParts(f, b) == Some(y)
    ensures SumParts(f, a + b) == Some(x + y)
  {
    SumPartsAppend(f, a, b);
  }

  /** Different uptimes give different texts. */
  lemma FormatUptimeInjective(s: nat, t: nat)
    requires FormatUptime(Some(s)) == FormatUptime(Some(t))
    ensures s == t
  {
    ParseFormatUptime(s);
    ParseFormatUptime(t);
  }

  /** The text ends with the seconds part, and the uptime is missing or zero exactly when
      the text is "0s". */
  lemma FormatUptimeShape(seconds: Option<nat>)
    ensures FormatUptime(seconds) == "0s" <==> seconds.None? || seconds.value == 0
    ensures var r := FormatUptime(seconds); |r| >= 2 && r[|r| - 1] == 's'
  {
    var r := FormatUptime(seconds);
    if seconds.Some? && seconds.value != 0 {
      ParseFormatUptime(seconds.value);
      ParseFormatUptime(0);
      JoinEndsWithLast(UptimeParts(seconds.value));
    }
  }

  lemma {:induction false} JoinEndsWithLast(parts: seq<string>)
    requires |parts| >= 1 && |parts[|parts| - 1]| >= 2 && parts[|parts| - 1][|parts[|parts| - 1]| - 1] == 's'
    ensures var r := Text.Join(parts, ' '); |r| >= 2 && r[|r| - 1] == 's'
    decreases |parts|
  {
    if |parts| > 1 {
      JoinEndsWithLast(parts[1..]);
    }
  }

  /** The severity plotted for a log level. */
  function Severity(level: string): (r: nat)
    ensures 1 <= r <= 3
    ensures r == 3 <==> level == "ERROR"
    ensures r == 2 <==> level == "WARN"
  {
    if level == "ERROR" then 3 else if level == "WARN" then 2 else 1
  }

  /** The chart's data: one severity per log, in log order. */
  function Severities(levels: seq<string>): (r: seq<nat>)
    ensures |r| == |levels|
    ensures forall k :: 0 <= k < |levels| ==> r[k] == Severity(levels[k])
  {
    seq(|levels|, k requires 0 <= k < |levels| => Severity(levels[k]))
  }

  /** A badge: its style class and its label. */
  datatype Badge = Badge(style: string, text: string)

  /** `getStatusBadge`: the two known statuses get their labels; any other status is shown
      as it is, with the `unknown` style. */
  function StatusBadge(status: string): (b: Badge)
    ensures b.style == "unknown" <==> status !in {"pending", "complete"}
    ensures b.style == "unknown" ==> b.text == status
    ensures status == "pending" ==> b == Badge("pending", "Pending")
    ensures status == "complete" ==> b == Badge("completed", "Completed")
  {
    match status
    case "pending" => Badge("pending", "Pending")
    case "complete" => Badge("completed", "Completed")
    case _ => Badge("unknown", status)
  }
}
