/** The fields of a feed: durations, times and parameters, written out as RFC
    5545 has them and read back (icsparse.go). */
module IcsFields {
  import opened Options
  import opened Calendar
  import opened Nanoseconds
  import opened Text
  import opened IcsReader
  import T = IcsRoundTrip
  import W = IcsWriter

  // ---------- durations (section 3.3.6) ----------

  /** A count of weeks, days, hours, minutes or seconds. */
  datatype Part = Part(n: nat, unit: char)

  function UnitSeconds(unit: char): int {
    match unit
    case 'W' => 604800
    case 'D' => 86400
    case 'H' => 3600
    case 'M' => 60
    case _ => 1
  }

  function PartsText(ps: seq<Part>): string {
    if ps == [] then "" else Digits(ps[0].n, 1) + [ps[0].unit] + PartsText(ps[1..])
  }

  function PartsSeconds(ps: seq<Part>): int {
    if ps == [] then 0 else ps[0].n * UnitSeconds(ps[0].unit) + PartsSeconds(ps[1..])
  }

  predicate DayParts(ps: seq<Part>) {
    forall p <- ps :: p.unit == 'W' || p.unit == 'D'
  }

  predicate ClockParts(ps: seq<Part>) {
    forall p <- ps :: p.unit == 'H' || p.unit == 'M' || p.unit == 'S'
  }

  function DurationText(sign: string, days: seq<Part>, clock: seq<Part>): string {
    sign + "P" + PartsText(days) + (if clock == [] then "" else "T" + PartsText(clock))
  }

  lemma {:induction false} DigitsGather(ds: string, rest: string, num: string, inTime: bool, seen: bool, total: int)
    requires forall c <- ds :: '0' <= c <= '9'
    ensures SumUnits(ds + rest, num, inTime, seen, total) == SumUnits(rest, num + ds, inTime, seen, total)
  {
    if ds == "" {
      assert ds + rest == rest && num + ds == num;
    } else {
      assert ds[0] in ds && forall c <- ds[1..] :: c in ds;
      assert (ds + rest)[0] == ds[0] && (ds + rest)[1..] == ds[1..] + rest;
      DigitsGather(ds[1..], rest, num + [ds[0]], inTime, seen, total);
      assert num + [ds[0]] + ds[1..] == num + ds;
    }
  }

  lemma PartAdds(p: Part, rest: string, inTime: bool, seen: bool, total: int)
    requires p.unit == 'W' || p.unit == 'D' || p.unit == 'H' || p.unit == 'S' || (p.unit == 'M' && inTime)
    ensures SumUnits(Digits(p.n, 1) + [p.unit] + rest, "", inTime, seen, total)
            == SumUnits(rest, "", inTime, true, total + p.n * UnitSeconds(p.unit) * NANO_SECOND)
  {
    hide Digits, ParseNat;
    DigitsParse(p.n, 1);
    var ds := Digits(p.n, 1);
    assert ds + [p.unit] + rest == ds + ([p.unit] + rest) && "" + ds == ds;
    DigitsGather(ds, [p.unit] + rest, "", inTime, seen, total);
    assert ([p.unit] + rest)[0] == p.unit && ([p.unit] + rest)[1..] == rest;
    assert DurationUnit(p.unit, inTime) == Some(UnitSeconds(p.unit) * NANO_SECOND);
    assert p.n * (UnitSeconds(p.unit) * NANO_SECOND) == p.n * UnitSeconds(p.unit) * NANO_SECOND;
  }

  lemma {:induction false} PartsAdd(ps: seq<Part>, rest: string, inTime: bool, seen: bool, total: int)
    requires DayParts(ps) || (inTime && ClockParts(ps))
    ensures SumUnits(PartsText(ps) + rest, "", inTime, seen, total)
            == SumUnits(rest, "", inTime, seen || ps != [], total + PartsSeconds(ps) * NANO_SECOND)
  {
    hide SumUnits, Digits, UnitSeconds;
    if ps == [] {
      assert PartsText(ps) + rest == rest;
    } else {
      var p, more := ps[0], PartsText(ps[1..]) + rest;
      assert p in ps && forall q <- ps[1..] :: q in ps;
      assert PartsText(ps) + rest == Digits(p.n, 1) + [p.unit] + more;
      PartAdds(p, more, inTime, seen, total);
      PartsAdd(ps[1..], rest, inTime, true, total + p.n * UnitSeconds(p.unit) * NANO_SECOND);
      assert (p.n * UnitSeconds(p.unit) + PartsSeconds(ps[1..])) * NANO_SECOND
          == p.n * UnitSeconds(p.unit) * NANO_SECOND + PartsSeconds(ps[1..]) * NANO_SECOND;
    }
  }

  lemma {:induction false} NoSmallLetters(s: string)
    requires forall c <- s :: !('a' <= c <= 'z')
    ensures ToUpper(s) == s
  {
    if s != "" {
      assert s[0] in s && forall c <- s[1..] :: c in s;
      NoSmallLetters(s[1..]);
      assert s == [s[0]] + s[1..];
    }
  }

  lemma {:induction false} PartsTextShape(ps: seq<Part>)
    requires DayParts(ps) || ClockParts(ps)
    ensures forall c <- PartsText(ps) :: '0' <= c <= 'Z'
    ensures ps != [] ==> PartsText(ps) != ""
  {
    hide Digits;
    if ps != [] {
      assert ps[0] in ps && forall q <- ps[1..] :: q in ps;
      PartsTextShape(ps[1..]);
      DigitsParse(ps[0].n, 1);
    }
  }

  lemma DurationTextShape(sign: string, days: seq<Part>, clock: seq<Part>)
    requires sign in {"", "+", "-"} && DayParts(days) && ClockParts(clock)
    ensures var text := DurationText(sign, days, clock);
            ToUpper(text) == text && TrimSpace(text) == text && text != ""
  {
    hide ToUpper, TrimSpace, IsSpace, PartsText, DayParts, ClockParts;
    PartsTextShape(days);
    PartsTextShape(clock);
    var text := DurationText(sign, days, clock);
    forall c <- text ensures c == '+' || c == '-' || '0' <= c <= 'Z' {
    }
    NoSmallLetters(text);
    assert text[0] in text && text[|text| - 1] in text;
    SignsAndLettersAreNotSpace(text[0]);
    SignsAndLettersAreNotSpace(text[|text| - 1]);
    T.TrimNothing(text);
  }

  lemma SignsAndLettersAreNotSpace(c: char)
    ensures c == '+' || c == '-' || '0' <= c <= 'Z' ==> !IsSpace(c)
  {
  }

  lemma SignsTrim(sign: string, rest: string)
    requires sign in {"", "+", "-"} && rest != "" && rest[0] == 'P'
    ensures TrimSigns(sign + rest) == rest
    ensures (sign + rest)[0] == '-' <==> sign == "-"
  {
    if sign == "" {
      assert sign + rest == rest;
    } else {
      assert (sign + rest)[1..] == rest;
    }
  }

  /** A duration reads as the sum of its parts, negative after a minus sign; one
      without parts is none. */
  lemma DurationReads(sign: string, days: seq<Part>, clock: seq<Part>)
    requires sign in {"", "+", "-"} && DayParts(days) && ClockParts(clock)
    ensures ParseDuration(DurationText(sign, days, clock)) ==
              if days == [] && clock == [] then None
              else
                var total := (PartsSeconds(days) + PartsSeconds(clock)) * NANO_SECOND;
                Some(if sign == "-" then -total else total)
  {
    hide ToUpper, TrimSpace, PartsText, PartsSeconds, DayParts, ClockParts;
    DurationTextShape(sign, days, clock);
    var tail := PartsText(days) + (if clock == [] then "" else "T" + PartsText(clock));
    assert DurationText(sign, days, clock) == sign + ("P" + tail);
    SignsTrim(sign, "P" + tail);
    assert ("P" + tail)[1..] == tail;
    PartsReads(days, clock);
    hide SumUnits, TrimSigns;
  }

  lemma {:induction false} PartsReads(days: seq<Part>, clock: seq<Part>)
    requires DayParts(days) && ClockParts(clock)
    ensures SumUnits(PartsText(days) + (if clock == [] then "" else "T" + PartsText(clock)), "", false, false, 0) ==
              if days == [] && clock == [] then None
              else Some((PartsSeconds(days) + PartsSeconds(clock)) * NANO_SECOND)
  {
    hide PartsText, PartsSeconds, DayParts, ClockParts;
    var after := if clock == [] then "" else "T" + PartsText(clock);
    PartsAdd(days, after, false, false, 0);
    NoParts();
    if clock != [] {
      assert after[0] == 'T' && after[1..] == PartsText(clock) + "";
      PartsAdd(clock, "", true, days != [], PartsSeconds(days) * NANO_SECOND);
    }
  }

  lemma NoParts()
    ensures PartsSeconds([]) == 0
  {
  }

  // ---------- times (sections 3.3.4, 3.3.5 and 3.2.19) ----------

  ghost predicate Stampable(d: Date, second: int) {
    Valid(d) && 0 <= d.year <= 9999 && 0 <= second < 86400
  }

  /** A date and a clock time, without the zone they are read in. */
  function LocalText(d: Date, second: nat): string
    requires d.month >= 0 && d.day >= 0
  {
    T.DateDigits(d) + "T" + W.ClockDigits(second)
  }

  lemma DateDigitsShape(d: Date)
    requires Stampable(d, 0)
    ensures |T.DateDigits(d)| == 8 && forall c <- T.DateDigits(d) :: '0' <= c <= '9'
  {
    hide Digits, ParseNat;
    T.ValidIsPositive(d);
    T.DateParses(d);
    DigitsParse(d.year, 4);
    DigitsParse(d.month, 2);
    DigitsParse(d.day, 2);
  }

  lemma {:induction false} DigitsAreOctets(s: string)
    requires forall i :: 0 <= i < |s| ==> '0' <= s[i] <= '9'
    ensures OctetLength(s) == |s|
  {
    if s != "" {
      DigitsAreOctets(s[..|s| - 1]);
    }
  }

  lemma LocalTextReads(d: Date, second: nat, offset: int)
    requires Stampable(d, second)
    ensures var text := LocalText(d, second);
            && |text| == 15 && '0' <= text[0] <= '9' && '0' <= text[14] <= '9'
            && ParseLocal(text, offset) == Some(DayNumber(d) * NANO_DAY + second * NANO_SECOND - offset)
  {
    hide Digits, ParseNat, DayNumber, Valid, ParseDate, ParseClock;
    T.ValidIsPositive(d);
    var date, clock := T.DateDigits(d), W.ClockDigits(second);
    T.DateParses(d);
    T.ClockParses(second);
    DateDigitsShape(d);
    DigitsParse(second % 60, 2);
    var text := LocalText(d, second);
    assert text[..8] == date && text[8] == 'T' && text[9..] == clock;
    assert date[0] in date && text[0] == date[0];
    var last := Digits(second % 60, 2);
    assert text[14] == last[|last| - 1] && last[|last| - 1] in last;
  }

  /** A local time is read in the zone its TZID parameter names, and in UTC when
      there is none or the name does not resolve. */
  lemma LocalTimeReads(name: string, params: map<string, string>, d: Date, second: nat, zones: Zones)
    requires Stampable(d, second) && "VALUE" !in params
    ensures var tzid := if "TZID" in params then params["TZID"] else "";
            var offset := if tzid == "" then 0 else zones(tzid).GetOr(0);
            ParseTime(Property(name, params, LocalText(d, second)), zones)
            == Some(Instant(DayNumber(d) * NANO_DAY + second * NANO_SECOND - offset, false))
  {
    hide ParseLocal, ParseDate, TrimSpace, IsSpace, OctetLength, DayNumber, LocalText, ToUpper, Valid;
    T.ValidIsPositive(d);
    var text := LocalText(d, second);
    var tzid := if "TZID" in params then params["TZID"] else "";
    LocalTextReads(d, second, if tzid == "" then 0 else zones(tzid).GetOr(0));
    T.LettersAreNotSpace(text[0]);
    T.LettersAreNotSpace(text[14]);
    T.TrimNothing(text);
    T.OctetsAtLeast(text);
    assert |ToUpper("")| != |ToUpper("DATE")|;
  }

  /** A date, marked as one or not, is midnight in the zone its TZID names. */
  lemma DateReads(name: string, params: map<string, string>, d: Date, zones: Zones)
    requires Stampable(d, 0)
    ensures var tzid := if "TZID" in params then params["TZID"] else "";
            var offset := if tzid == "" then 0 else zones(tzid).GetOr(0);
            ParseTime(Property(name, params, T.DateDigits(d)), zones)
            == Some(Instant(DayNumber(d) * NANO_DAY - offset, true))
  {
    hide ParseLocal, ParseDate, TrimSpace, IsSpace, OctetLength, DayNumber, T.DateDigits, ToUpper, Valid;
    T.ValidIsPositive(d);
    var text := T.DateDigits(d);
    DateDigitsShape(d);
    T.DateParses(d);
    assert forall i :: 0 <= i < |text| ==> text[i] in text;
    DigitsAreOctets(text);
    assert text[0] in text && text[7] in text;
    T.LettersAreNotSpace(text[0]);
    T.LettersAreNotSpace(text[7]);
    T.TrimNothing(text);
  }

  // ---------- parameters (section 3.2) ----------

  /** Text a parameter can hold: nothing that ends it, and no space around it. */
  predicate ParamText(v: string) {
    && Without(v, ':') && Without(v, ';') && Without(v, '"')
    && (v != "" ==> !IsSpace(v[0]) && !IsSpace(v[|v| - 1]))
  }

  lemma QuotesTrim(v: string, quoted: bool)
    requires ParamText(v)
    ensures TrimChar(TrimSpace(if quoted then "\"" + v + "\"" else v), '"') == v
  {
    hide IsSpace;
    if quoted {
      var q := "\"" + v + "\"";
      QuoteIsNoSpace();
      T.TrimNothing(q);
      assert q[1..] == v + "\"";
      NoQuotes(v);
      if v == "" {
        assert q[1..] == "\"" && q[1..][1..] == "";
      } else {
        assert q[1..][0] == v[0] && v[0] in v;
        assert q[1..][..|v|] == v;
      }
    } else {
      NoQuotes(v);
      if v == "" {
      } else {
        T.TrimNothing(v);
      }
    }
  }

  lemma QuoteIsNoSpace()
    ensures !IsSpace('"')
  {
  }

  lemma NoQuotes(v: string)
    requires Without(v, '"')
    ensures TrimChar(v, '"') == v
  {
    if v != "" {
      assert v[0] in v && v[|v| - 1] in v;
    }
  }

  /** A property with one parameter, quoted or not, is read as it is meant. */
  lemma ParameterReads(name: string, key: string, v: string, quoted: bool, value: string)
    requires T.PlainName(name) && T.PlainName(key) && ParamText(v)
    ensures ParseProperty(name + ";" + key + "=" + (if quoted then "\"" + v + "\"" else v) + ":" + value)
            == Some(Property(name, map[key := v], value))
  {
    hide IndexOf, Split, TrimSpace, ToUpper, IsSpace, TrimChar;
    var q := if quoted then "\"" + v + "\"" else v;
    var raw := key + "=" + q;
    var head := name + [';'] + raw;
    assert Without(name, ':') && Without(name, ';') && Without(key, ':') && Without(key, ';') && Without(key, '=');
    assert Without(head, ':') && Without(raw, ';');
    var line := name + ";" + key + "=" + q + ":" + value;
    assert line == head + [':'] + value;
    IndexOfFirst(head, ':', value);
    assert line[..|head|] == head && line[|head| + 1..] == value;
    SplitAtFirst(name, raw, ';');
    SplitNothing(raw, ';');
    NameReads(name);
    NameReads(key);
    assert raw == key + ['='] + q;
    IndexOfFirst(key, '=', q);
    assert raw[..|key|] == key && raw[|key| + 1..] == q;
    QuotesTrim(v, quoted);
    assert [raw][..0] == [] && ([name] + [raw])[1..] == [raw];
    assert WithParam(map[], raw) == map[key := v];
    assert ParamsOf([raw]) == WithParam(ParamsOf([]), raw);
  }

  lemma NameReads(name: string)
    requires T.PlainName(name)
    ensures ToUpper(TrimSpace(name)) == name
  {
    hide IsSpace, TrimSpace, ToUpper;
    assert name[0] in name && name[|name| - 1] in name;
    T.LettersAreNotSpace(name[0]);
    T.LettersAreNotSpace(name[|name| - 1]);
    T.TrimNothing(name);
    T.PlainStaysUpper(name);
  }
}
