/** Reading busy intervals out of an iCalendar feed (icsparse.go; RFC 5545).

    Two things are parameters: `zones` gives the UTC offset, in nanoseconds, of
    a named zone that resolves, and `recur` expands a recurrence rule. */
module IcsReader {
  import opened Options
  import opened Calendar
  import opened Nanoseconds
  import opened Text
  import opened Intervals

  type Zones = string -> Option<int>
  type Recur = (Interval, string, set<int>, int, int) -> seq<Interval>

  // ---------- unfolding ----------

  /** One physical line: empty lines vanish, continuations join the line before. */
  function JoinLine(out: seq<string>, line: string): seq<string> {
    if line == "" then out
    else if (line[0] == ' ' || line[0] == '\t') && out != [] then out[|out| - 1 := out[|out| - 1] + line[1..]]
    else out + [line]
  }

  function JoinFrom(out: seq<string>, lines: seq<string>): seq<string> {
    if lines == [] then out else JoinLine(JoinFrom(out, lines[..|lines| - 1]), lines[|lines| - 1])
  }

  function Unfolded(s: string): seq<string> {
    JoinFrom([], Split(NormalizeEnds(s), '\n'))
  }

  /** unfold. */
  method Unfold(s: string) returns (out: seq<string>)
    ensures out == Unfolded(s)
  {
    hide Split, ReplaceAll;
    var lines := Split(NormalizeEnds(s), '\n');
    out := [];
    for i := 0 to |lines|
      invariant out == JoinFrom([], lines[..i])
    {
      assert lines[..i + 1][..i] == lines[..i];
      var line := lines[i];
      if line == "" {
        continue;
      }
      if (line[0] == ' ' || line[0] == '\t') && |out| > 0 {
        out := out[|out| - 1 := out[|out| - 1] + line[1..]];
        continue;
      }
      out := out + [line];
    }
    assert lines[..|lines|] == lines;
  }

  // ---------- properties ----------

  datatype Property = Property(name: string, params: map<string, string>, value: string)

  function WithParam(params: map<string, string>, raw: string): map<string, string> {
    var eq := IndexOf(raw, '=');
    if eq == |raw| then params
    else params[ToUpper(TrimSpace(raw[..eq])) := TrimChar(TrimSpace(raw[eq + 1..]), '"')]
  }

  function ParamsOf(raws: seq<string>): map<string, string> {
    if raws == [] then map[] else WithParam(ParamsOf(raws[..|raws| - 1]), raws[|raws| - 1])
  }

  /** parseProperty. */
  function ParseProperty(line: string): Option<Property> {
    var colon := IndexOf(line, ':');
    if colon == |line| then None
    else
      var parts := Split(line[..colon], ';');
      var name := ToUpper(TrimSpace(parts[0]));
      if name == "" then None else Some(Property(name, ParamsOf(parts[1..]), line[colon + 1..]))
  }

  // ---------- events ----------

  /** The blocks closed so far, and the one being read, if any. */
  datatype Lexed = Lexed(out: seq<seq<Property>>, cur: Option<seq<Property>>)

  function LexLine(l: Lexed, line: string): Lexed {
    match ParseProperty(line)
    case None => l
    case Some(p) =>
      if p.name == "BEGIN" && EqualFold(p.value, "VEVENT") then l.(cur := Some([]))
      else if p.name == "END" && EqualFold(p.value, "VEVENT") then
        (if l.cur.Some? then Lexed(l.out + [l.cur.value], None) else l)
      else if l.cur.Some? then l.(cur := Some(l.cur.value + [p]))
      else l
  }

  function LexFrom(l: Lexed, lines: seq<string>): Lexed {
    if lines == [] then l else LexLine(LexFrom(l, lines[..|lines| - 1]), lines[|lines| - 1])
  }

  function Events(lines: seq<string>): seq<seq<Property>> {
    LexFrom(Lexed([], None), lines).out
  }

  /** vevents. */
  method VEvents(lines: seq<string>) returns (out: seq<seq<Property>>)
    ensures out == Events(lines)
  {
    hide ParseProperty;
    out := [];
    var cur: Option<seq<Property>> := None;
    for i := 0 to |lines|
      invariant Lexed(out, cur) == LexFrom(Lexed([], None), lines[..i])
    {
      assert lines[..i + 1][..i] == lines[..i];
      var parsed := ParseProperty(lines[i]);
      if parsed.None? {
        continue;
      }
      var p := parsed.value;
      if p.name == "BEGIN" && EqualFold(p.value, "VEVENT") {
        cur := Some([]);
      } else if p.name == "END" && EqualFold(p.value, "VEVENT") {
        if cur.Some? {
          out := out + [cur.value];
          cur := None;
        }
      } else if cur.Some? {
        cur := Some(cur.value + [p]);
      }
    }
    assert lines[..|lines|] == lines;
  }

  function First(props: seq<Property>, name: string): Option<Property> {
    if props == [] then None
    else if props[0].name == name then Some(props[0])
    else First(props[1..], name)
  }

  // ---------- times ----------

  /** Eight digits naming a day that exists. */
  function ParseDate(v: string): Option<Date> {
    if |v| != 8 then None
    else
      var y, m, d := ParseNat(v[..4]), ParseNat(v[4..6]), ParseNat(v[6..]);
      if y.Some? && m.Some? && d.Some? && Valid(Date(y.value, m.value, d.value))
      then Some(Date(y.value, m.value, d.value)) else None
  }

  /** Six digits naming a second of the day. */
  function ParseClock(v: string): Option<nat> {
    if |v| != 6 then None
    else
      var h, m, s := ParseNat(v[..2]), ParseNat(v[2..4]), ParseNat(v[4..]);
      if h.Some? && m.Some? && s.Some? && h.value < 24 && m.value < 60 && s.value < 60
      then Some(h.value * 3600 + m.value * 60 + s.value) else None
  }

  /** A date, a T and a clock, read at the given offset from UTC. */
  function ParseLocal(v: string, offset: int): Option<int> {
    if |v| != 15 || v[8] != 'T' then None
    else
      var d, s := ParseDate(v[..8]), ParseClock(v[9..]);
      if d.Some? && s.Some? then Some(DayNumber(d.value) * NANO_DAY + s.value * NANO_SECOND - offset) else None
  }

  function Param(p: Property, key: string): string {
    if key in p.params then p.params[key] else ""
  }

  datatype Instant = Instant(t: int, allDay: bool)

  /** parseTime.  A zone name that does not resolve is read as UTC. */
  function ParseTime(p: Property, zones: Zones): Option<Instant> {
    var v := TrimSpace(p.value);
    var offset := if Param(p, "TZID") == "" then 0 else zones(Param(p, "TZID")).GetOr(0);
    if v == "" then None
    else if EqualFold(Param(p, "VALUE"), "DATE") || OctetLength(v) == 8 then
      match ParseDate(v)
      case None => None
      case Some(d) => Some(Instant(DayNumber(d) * NANO_DAY - offset, true))
    else if v[|v| - 1] == 'Z' then
      match ParseLocal(v[..|v| - 1], 0)
      case None => None
      case Some(t) => Some(Instant(t, false))
    else
      match ParseLocal(v, offset)
      case None => None
      case Some(t) => Some(Instant(t, false))
  }

  function DurationUnit(c: char, inTime: bool): Option<int> {
    match c
    case 'W' => Some(7 * NANO_DAY)
    case 'D' => Some(NANO_DAY)
    case 'H' => Some(3600 * NANO_SECOND)
    case 'S' => Some(NANO_SECOND)
    case 'M' => if inTime then Some(60 * NANO_SECOND) else None
    case _ => None
  }

  /** The loop of parseDuration: digits gathered, units added up. */
  function SumUnits(v: string, num: string, inTime: bool, seen: bool, total: int): Option<int> {
    if v == "" then (if seen then Some(total) else None)
    else if '0' <= v[0] <= '9' then SumUnits(v[1..], num + [v[0]], inTime, seen, total)
    else if v[0] == 'T' then SumUnits(v[1..], num, true, seen, total)
    else
      var n, unit := ParseNat(num), DurationUnit(v[0], inTime);
      if n.None? || unit.None? then None
      else SumUnits(v[1..], "", inTime, true, total + n.value * unit.value)
  }

  function TrimSigns(v: string): string {
    if v != "" && (v[0] == '+' || v[0] == '-') then TrimSigns(v[1..]) else v
  }

  /** parseDuration. */
  function ParseDuration(raw: string): Option<int> {
    var v := TrimSpace(ToUpper(raw));
    var negative := v != "" && v[0] == '-';
    var u := TrimSigns(v);
    if u == "" || u[0] != 'P' then None
    else
      match SumUnits(u[1..], "", false, false, 0)
      case None => None
      case Some(total) => Some(if negative then -total else total)
  }

  /** duration: DTEND, else DURATION, else a whole day for a date. */
  function DurationOf(props: seq<Property>, start: Instant, zones: Zones): Option<int> {
    var dtend := First(props, "DTEND");
    var end := if dtend.Some? then ParseTime(dtend.value, zones) else None;
    var given := First(props, "DURATION");
    var length := if given.Some? then ParseDuration(given.value.value) else None;
    if end.Some? && end.value.t > start.t then Some(end.value.t - start.t)
    else if length.Some? && length.value > 0 then length
    else if start.allDay then Some(NANO_DAY)
    else None
  }

  function ExdatesIn(p: Property, values: seq<string>, zones: Zones): set<int> {
    if values == [] then {}
    else
      var t := ParseTime(p.(value := values[0]), zones);
      (if t.Some? then {t.value.t} else {}) + ExdatesIn(p, values[1..], zones)
  }

  function Exdates(props: seq<Property>, zones: Zones): set<int> {
    if props == [] then {}
    else
      (if props[0].name == "EXDATE"
       then ExdatesIn(props[0], Split(props[0].value, ','), zones) else {})
      + Exdates(props[1..], zones)
  }

  predicate Says(props: seq<Property>, name: string, value: string) {
    var p := First(props, name);
    p.Some? && EqualFold(TrimSpace(p.value.value), value)
  }

  /** intervals: what one event contributes to the window. */
  function IntervalsOf(props: seq<Property>, from: int, to: int, zones: Zones, recur: Recur): seq<Interval> {
    if Says(props, "STATUS", "CANCELLED") || Says(props, "TRANSP", "TRANSPARENT") then []
    else
      match First(props, "DTSTART")
      case None => []
      case Some(dtstart) =>
        match ParseTime(dtstart, zones)
        case None => []
        case Some(start) =>
          match DurationOf(props, start, zones)
          case None => []
          case Some(length) =>
            var base := Interval(start.t, start.t + length);
            if !base.Valid() then []
            else
              match First(props, "RRULE")
              case Some(rule) => recur(base, rule.value, Exdates(props, zones), from, to)
              case None => if base.Overlaps(Interval(from, to)) then [base] else []
  }

  function Collected(blocks: seq<seq<Property>>, from: int, to: int, zones: Zones, recur: Recur): seq<Interval> {
    if blocks == [] then []
    else Collected(blocks[..|blocks| - 1], from, to, zones, recur)
         + IntervalsOf(blocks[|blocks| - 1], from, to, zones, recur)
  }

  function Parsed(body: string, from: int, to: int, zones: Zones, recur: Recur): seq<Interval> {
    Merged(Collected(Events(Unfolded(body)), from, to, zones, recur))
  }

  // ---------- what makes a person busy ----------

  /** The first property of that name. */
  ghost predicate Leads(props: seq<Property>, name: string, p: Property) {
    exists i :: 0 <= i < |props| && props[i] == p && p.name == name && forall j :: 0 <= j < i ==> props[j].name != name
  }

  /** The event is cancelled, or marked as taking no time. */
  ghost predicate TakesNoTime(props: seq<Property>) {
    || (exists p :: Leads(props, "STATUS", p) && EqualFold(TrimSpace(p.value), "CANCELLED"))
    || (exists p :: Leads(props, "TRANSP", p) && EqualFold(TrimSpace(p.value), "TRANSPARENT"))
  }

  ghost predicate StartsAt(props: seq<Property>, zones: Zones, start: Instant) {
    exists p :: Leads(props, "DTSTART", p) && ParseTime(p, zones) == Some(start)
  }

  ghost predicate EndsAt(props: seq<Property>, zones: Zones, end: Instant) {
    exists p :: Leads(props, "DTEND", p) && ParseTime(p, zones) == Some(end)
  }

  ghost predicate Takes(props: seq<Property>, d: int) {
    exists p :: Leads(props, "DURATION", p) && ParseDuration(p.value) == Some(d)
  }

  /** From its start to its end if that is later, or else for its duration if
      that is positive, or else for a day if the start names a date. */
  ghost predicate Spans(props: seq<Property>, zones: Zones, iv: Interval) {
    exists start ::
      && StartsAt(props, zones, start) && iv.start == start.t
      && if exists end :: EndsAt(props, zones, end) && end.t > start.t
         then exists end :: EndsAt(props, zones, end) && end.t > start.t && iv.end == end.t
         else if exists d :: Takes(props, d) && d > 0 then exists d :: Takes(props, d) && d > 0 && iv.end == start.t + d
         else start.allDay && iv.end == start.t + NANO_DAY
  }

  /** The event makes the person busy for iv: a single event by its span, a
      recurring one by what its rule makes of the span. */
  ghost predicate Occupies(
    props: seq<Property>, iv: Interval, from: int, to: int, zones: Zones, recur: Recur)
  {
    && !TakesNoTime(props)
    && exists base ::
         && Spans(props, zones, base)
         && if exists p :: Leads(props, "RRULE", p)
            then exists p :: Leads(props, "RRULE", p) && iv in recur(base, p.value, Exdates(props, zones), from, to)
            else iv == base && iv.start < to && from < iv.end
  }

  lemma {:induction false} LeadsIsFirst(props: seq<Property>, name: string, p: Property)
    ensures Leads(props, name, p) <==> First(props, name) == Some(p)
  {
    if props != [] {
      LeadsIsFirst(props[1..], name, p);
      if Leads(props, name, p) && props[0].name != name {
        var i :| 0 <= i < |props| && props[i] == p && forall j :: 0 <= j < i ==> props[j].name != name;
        assert props[1..][i - 1] == p && forall j :: 0 <= j < i - 1 ==> props[1..][j] == props[j + 1];
        assert Leads(props[1..], name, p);
      }
      if props[0].name == name {
        assert Leads(props, name, props[0]);
      } else if Leads(props[1..], name, p) {
        var i :| 0 <= i < |props[1..]| && props[1..][i] == p && p.name == name
                 && forall j :: 0 <= j < i ==> props[1..][j].name != name;
        assert props[i + 1] == p;
        forall j | 0 <= j < i + 1 ensures props[j].name != name {
          assert j > 0 ==> props[1..][j - 1] == props[j];
        }
        assert Leads(props, name, p);
      }
    }
  }

  lemma SaysMeaning(props: seq<Property>)
    ensures TakesNoTime(props) <==> Says(props, "STATUS", "CANCELLED") || Says(props, "TRANSP", "TRANSPARENT")
  {
    hide Leads, First, EqualFold, TrimSpace;
    forall name: string, p: Property ensures Leads(props, name, p) <==> First(props, name) == Some(p) {
      LeadsIsFirst(props, name, p);
    }
  }

  lemma SpansMeaning(props: seq<Property>, zones: Zones, iv: Interval)
    ensures Spans(props, zones, iv) <==>
              && First(props, "DTSTART").Some? && ParseTime(First(props, "DTSTART").value, zones).Some?
              && var start := ParseTime(First(props, "DTSTART").value, zones).value;
                 iv.start == start.t && DurationOf(props, start, zones) == Some(iv.end - iv.start)
  {
    hide Leads, First, ParseTime, ParseDuration;
    forall name: string, p: Property ensures Leads(props, name, p) <==> First(props, name) == Some(p) {
      LeadsIsFirst(props, name, p);
    }
    forall t: Instant
      ensures StartsAt(props, zones, t) <==>
                First(props, "DTSTART").Some? && ParseTime(First(props, "DTSTART").value, zones) == Some(t)
      ensures EndsAt(props, zones, t) <==>
                First(props, "DTEND").Some? && ParseTime(First(props, "DTEND").value, zones) == Some(t)
    {
    }
    forall d: int
      ensures Takes(props, d) <==>
                First(props, "DURATION").Some? && ParseDuration(First(props, "DURATION").value.value) == Some(d)
    {
    }
    hide StartsAt, EndsAt, Takes;
  }

  /** Every length an event can be given is positive. */
  lemma LastsSomeTime(props: seq<Property>, start: Instant, zones: Zones)
    ensures DurationOf(props, start, zones).Some? ==> DurationOf(props, start, zones).value > 0
  {
    hide First, ParseTime, ParseDuration;
  }

  lemma IntervalsMeaning(
    props: seq<Property>, iv: Interval, from: int, to: int, zones: Zones, recur: Recur)
    ensures iv in IntervalsOf(props, from, to, zones, recur) <==> Occupies(props, iv, from, to, zones, recur)
  {
    hide Leads, First, ParseTime, DurationOf, Says, TakesNoTime, Spans, Exdates;
    SaysMeaning(props);
    forall p: Property ensures Leads(props, "RRULE", p) <==> First(props, "RRULE") == Some(p) {
      LeadsIsFirst(props, "RRULE", p);
    }
    forall base: Interval
      ensures Spans(props, zones, base) <==>
                && First(props, "DTSTART").Some? && ParseTime(First(props, "DTSTART").value, zones).Some?
                && var start := ParseTime(First(props, "DTSTART").value, zones).value;
                   base.start == start.t && DurationOf(props, start, zones) == Some(base.end - base.start)
    {
      SpansMeaning(props, zones, base);
    }
    if First(props, "DTSTART").Some? && ParseTime(First(props, "DTSTART").value, zones).Some? {
      var start := ParseTime(First(props, "DTSTART").value, zones).value;
      LastsSomeTime(props, start, zones);
      if DurationOf(props, start, zones).Some? {
        assert Spans(props, zones, Interval(start.t, start.t + DurationOf(props, start, zones).value));
      }
    }
  }

  lemma {:induction false} CollectedMeaning(
    blocks: seq<seq<Property>>, iv: Interval, from: int, to: int, zones: Zones, recur: Recur)
    ensures iv in Collected(blocks, from, to, zones, recur) <==>
              exists props <- blocks :: Occupies(props, iv, from, to, zones, recur)
  {
    hide IntervalsOf, Occupies;
    if blocks != [] {
      var init, last := blocks[..|blocks| - 1], blocks[|blocks| - 1];
      CollectedMeaning(init, iv, from, to, zones, recur);
      IntervalsMeaning(last, iv, from, to, zones, recur);
      assert forall b :: b in blocks <==> b in init || b == last;
    }
  }

  /** Every interval a recurring event is expanded to takes time. */
  ghost predicate RulesTakeTime(recur: Recur) {
    forall base: Interval, rule: string, out: set<int>, from: int, to: int ::
      base.Valid() ==> AllValid(recur(base, rule, out, from, to))
  }

  ghost predicate WithoutRules(blocks: seq<seq<Property>>) {
    forall props <- blocks, p <- props :: p.name != "RRULE"
  }

  lemma OccupiesTime(props: seq<Property>, iv: Interval, from: int, to: int, zones: Zones, recur: Recur)
    requires RulesTakeTime(recur) || forall p <- props :: p.name != "RRULE"
    requires Occupies(props, iv, from, to, zones, recur)
    ensures iv.Valid()
  {
    hide ParseTime, ParseDuration, First, Exdates, EqualFold, TakesNoTime, DurationOf;
    forall base: Interval | Spans(props, zones, base) ensures base.Valid() {
      SpansMeaning(props, zones, base);
      LastsSomeTime(props, ParseTime(First(props, "DTSTART").value, zones).value, zones);
    }
    hide Spans;
  }

  /** Some event of the feed keeps the person busy at t. */
  ghost predicate BusyAt(blocks: seq<seq<Property>>, t: int, from: int, to: int, zones: Zones, recur: Recur) {
    exists props: seq<Property>, iv: Interval ::
      props in blocks && Occupies(props, iv, from, to, zones, recur) && iv.start <= t < iv.end
  }

  lemma CollectedBusy(blocks: seq<seq<Property>>, t: int, from: int, to: int, zones: Zones, recur: Recur)
    ensures Covered(Collected(blocks, from, to, zones, recur), t) <==> BusyAt(blocks, t, from, to, zones, recur)
  {
    hide Collected, Occupies;
    var all := Collected(blocks, from, to, zones, recur);
    forall iv: Interval
      ensures iv in all <==> exists props <- blocks :: Occupies(props, iv, from, to, zones, recur)
    {
      CollectedMeaning(blocks, iv, from, to, zones, recur);
    }
  }

  /** The answer covers exactly the instants at which some event keeps the person busy. */
  lemma ParsedMeaning(body: string, from: int, to: int, zones: Zones, recur: Recur)
    requires RulesTakeTime(recur) || WithoutRules(Events(Unfolded(body)))
    ensures var out := Parsed(body, from, to, zones, recur);
            && Canonical(out)
            && forall t :: Covered(out, t) <==> BusyAt(Events(Unfolded(body)), t, from, to, zones, recur)
  {
    hide Merged, Events, Unfolded, Collected, Occupies, BusyAt, RulesTakeTime, Covered;
    var blocks := Events(Unfolded(body));
    var all := Collected(blocks, from, to, zones, recur);
    forall iv <- all ensures iv.Valid() {
      CollectedMeaning(blocks, iv, from, to, zones, recur);
      var props :| props in blocks && Occupies(props, iv, from, to, zones, recur);
      OccupiesTime(props, iv, from, to, zones, recur);
    }
    MergedMeaning(all);
    forall t ensures Covered(all, t) <==> BusyAt(blocks, t, from, to, zones, recur) {
      CollectedBusy(blocks, t, from, to, zones, recur);
    }
  }

  // ---------- blocks that take no time ----------

  lemma {:induction false} CollectedSplits(
    a: seq<seq<Property>>, b: seq<seq<Property>>, from: int, to: int, zones: Zones, recur: Recur)
    ensures Collected(a + b, from, to, zones, recur)
            == Collected(a, from, to, zones, recur) + Collected(b, from, to, zones, recur)
  {
    hide IntervalsOf;
    if b == [] {
      assert a + b == a;
    } else {
      assert (a + b)[..|a + b| - 1] == a + b[..|b| - 1];
      CollectedSplits(a, b[..|b| - 1], from, to, zones, recur);
    }
  }

  lemma {:induction false} LexFromSplits(l: Lexed, a: seq<string>, b: seq<string>)
    ensures LexFrom(l, a + b) == LexFrom(LexFrom(l, a), b)
  {
    hide LexLine;
    if b == [] {
      assert a + b == a;
    } else {
      assert (a + b)[..|a + b| - 1] == a + b[..|b| - 1];
      LexFromSplits(l, a, b[..|b| - 1]);
    }
  }

  /** What was closed before makes no difference to what is read next. */
  lemma {:induction false} LexAfter(closed: seq<seq<Property>>, l: Lexed, lines: seq<string>)
    ensures LexFrom(Lexed(closed + l.out, l.cur), lines) ==
              Lexed(closed + LexFrom(l, lines).out, LexFrom(l, lines).cur)
  {
    hide ParseProperty, EqualFold;
    if lines != [] {
      LexAfter(closed, l, lines[..|lines| - 1]);
      var before := LexFrom(l, lines[..|lines| - 1]);
      if before.cur.Some? {
        assert closed + (before.out + [before.cur.value]) == closed + before.out + [before.cur.value];
      }
    }
  }

  /** Lines that read as one event and leave none open. */
  predicate IsBlock(lines: seq<string>, props: seq<Property>) {
    LexFrom(Lexed([], None), lines) == Lexed([props], None)
  }

  /** A cancelled or transparent event may stand anywhere between the others
      without changing the answer. */
  lemma FreeBlockChangesNothing(
    body: string, body': string, a: seq<string>, block: seq<string>, b: seq<string>, props: seq<Property>,
    from: int, to: int, zones: Zones, recur: Recur)
    requires Unfolded(body) == a + b && Unfolded(body') == a + block + b
    requires LexFrom(Lexed([], None), a).cur.None?
    requires IsBlock(block, props) && TakesNoTime(props)
    ensures Parsed(body', from, to, zones, recur) == Parsed(body, from, to, zones, recur)
  {
    hide LexFrom, Unfolded, Merged, Collected, TakesNoTime;
    var none := Lexed([], None);
    var before, after := LexFrom(none, a).out, LexFrom(none, b).out;
    LexFromSplits(none, a, b);
    LexFromSplits(none, a, block + b);
    assert a + block + b == a + (block + b);
    LexFromSplits(Lexed(before, None), block, b);
    LexAfter(before, none, block);
    LexAfter(before, none, b);
    LexAfter(before + [props], none, b);
    assert before + [] == before && before + [props] + [] == before + [props];
    SaysMeaning(props);
    CollectedSplits(before, after, from, to, zones, recur);
    CollectedSplits(before + [props], after, from, to, zones, recur);
    NothingFrom(before, props, from, to, zones, recur);
  }

  lemma NothingFrom(
    before: seq<seq<Property>>, props: seq<Property>, from: int, to: int, zones: Zones, recur: Recur)
    requires TakesNoTime(props)
    ensures Collected(before + [props], from, to, zones, recur) == Collected(before, from, to, zones, recur)
  {
    hide Says, TakesNoTime;
    SaysMeaning(props);
    assert (before + [props])[..|before|] == before;
  }

  /** The excluded instants are those named in some EXDATE. */
  lemma {:induction false} ExdatesMeaning(props: seq<Property>, zones: Zones, t: int)
    ensures t in Exdates(props, zones) <==>
              exists p <- props :: p.name == "EXDATE" && Names(p, Split(p.value, ','), zones, t)
  {
    hide ParseTime, Split;
    if props != [] {
      ExdatesMeaning(props[1..], zones, t);
      ExdatesInMeaning(props[0], Split(props[0].value, ','), zones, t);
      assert props == [props[0]] + props[1..];
    }
  }

  /** One of the texts, read with the property's own parameters, is the instant. */
  predicate Names(p: Property, values: seq<string>, zones: Zones, t: int) {
    exists v <- values :: ParseTime(p.(value := v), zones).Some? && ParseTime(p.(value := v), zones).value.t == t
  }

  lemma {:induction false} ExdatesInMeaning(p: Property, values: seq<string>, zones: Zones, t: int)
    ensures t in ExdatesIn(p, values, zones) <==> Names(p, values, zones, t)
  {
    hide ParseTime;
    if values != [] {
      ExdatesInMeaning(p, values[1..], zones, t);
      assert values == [values[0]] + values[1..];
    }
  }

  /** Parse. */
  method Parse(body: string, from: int, to: int, zones: Zones, recur: Recur) returns (out: seq<Interval>)
    ensures out == Parsed(body, from, to, zones, recur)
    ensures RulesTakeTime(recur) || WithoutRules(Events(Unfolded(body))) ==>
              && Canonical(out)
              && forall t :: Covered(out, t) <==> BusyAt(Events(Unfolded(body)), t, from, to, zones, recur)
  {
    hide RulesTakeTime, WithoutRules, BusyAt, Covered, Canonical;
    hide Merged, Events, Unfolded, IntervalsOf;
    var lines := Unfold(body);
    var blocks := VEvents(lines);
    var found: seq<Interval> := [];
    for i := 0 to |blocks|
      invariant found == Collected(blocks[..i], from, to, zones, recur)
    {
      assert blocks[..i + 1][..i] == blocks[..i];
      found := found + IntervalsOf(blocks[i], from, to, zones, recur);
    }
    assert blocks[..|blocks|] == blocks;
    var spans := new Interval[|found|](i requires 0 <= i < |found| => found[i]);
    assert spans[..] == found;
    out := Merge(spans);
    if RulesTakeTime(recur) || WithoutRules(Events(Unfolded(body))) {
      ParsedMeaning(body, from, to, zones, recur);
    }
  }
}
