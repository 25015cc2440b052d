/** The writer and the reader undo each other (sections 3.1 and 3.3.5 of RFC 5545). */
module IcsRoundTrip {
  import opened Options
  import opened Calendar
  import opened Nanoseconds
  import opened Text
  import opened Intervals
  import opened Sorting
  import opened IcsWriter
  import R = IcsReader

  // ---------- unfolding what was folded ----------

  ghost predicate OneLine(s: string) {
    Without(s, '\r') && Without(s, '\n')
  }

  /** A line the fold can be undone for: not empty, no line ends, and no leading space or tab. */
  ghost predicate ContentLine(s: string) {
    s != "" && OneLine(s) && s[0] != ' ' && s[0] != '\t'
  }

  function LinesLF(ps: seq<string>): string {
    if ps == [] then "" else ps[0] + "\n" + LinesLF(ps[1..])
  }

  lemma {:induction false} LinesLFHasNoReturn(ps: seq<string>)
    requires forall p <- ps :: OneLine(p)
    ensures Without(LinesLF(ps), '\r')
  {
    if ps != [] {
      assert ps[0] in ps && forall p <- ps[1..] :: p in ps;
      LinesLFHasNoReturn(ps[1..]);
    }
  }

  lemma {:induction false} ReturnsReplaced(ps: seq<string>)
    requires forall p <- ps :: OneLine(p)
    ensures ReplaceAll(Lines(ps), "\r\n", "\n") == LinesLF(ps)
  {
    hide ReplaceAll;
    if ps == [] {
      ReplaceNothing("", "\r\n", "\n");
    } else {
      var rest := Lines(ps[1..]);
      assert ps[0] in ps && forall p <- ps[1..] :: p in ps;
      ReturnsReplaced(ps[1..]);
      assert Lines(ps) == ps[0] + (CRLF + rest);
      hide Lines;
      ReplaceSkips(ps[0], CRLF + rest, "\r\n", "\n");
      ReplaceHead(rest);
      assert ps[0] + ("\n" + LinesLF(ps[1..])) == LinesLF(ps);
    }
  }

  lemma ReplaceHead(rest: string)
    ensures ReplaceAll(CRLF + rest, "\r\n", "\n") == "\n" + ReplaceAll(rest, "\r\n", "\n")
  {
    assert (CRLF + rest)[..2] == CRLF && (CRLF + rest)[2..] == rest;
  }

  lemma {:induction false} SplitLines(ps: seq<string>)
    requires forall p <- ps :: OneLine(p)
    ensures Split(LinesLF(ps), '\n') == ps + [""]
  {
    if ps != [] {
      assert ps[0] in ps && forall p <- ps[1..] :: p in ps;
      SplitLines(ps[1..]);
      assert LinesLF(ps) == ps[0] + ['\n'] + LinesLF(ps[1..]);
      hide Split;
      SplitAtFirst(ps[0], LinesLF(ps[1..]), '\n');
    }
  }

  lemma {:induction false} JoinFromSplits(out: seq<string>, a: seq<string>, b: seq<string>)
    ensures R.JoinFrom(out, a + b) == R.JoinFrom(R.JoinFrom(out, a), b)
  {
    if b == [] {
      assert a + b == a;
    } else {
      assert (a + b)[..|a + b| - 1] == a + b[..|b| - 1];
      JoinFromSplits(out, a, b[..|b| - 1]);
    }
  }

  lemma {:induction false} ConcatLast(ps: seq<string>)
    requires ps != []
    ensures Concat(ps) == Concat(ps[..|ps| - 1]) + ps[|ps| - 1]
  {
    if |ps| == 1 {
      assert ps[1..] == [] && ps[..0] == [];
    } else {
      ConcatLast(ps[1..]);
      assert ps[1..][..|ps| - 2] == ps[..|ps| - 1][1..];
      assert ps[0] + (Concat(ps[1..][..|ps| - 2]) + ps[|ps| - 1]) == ps[0] + Concat(ps[1..][..|ps| - 2]) + ps[|ps| - 1];
    }
  }

  lemma {:induction false} SpacedLast(ps: seq<string>)
    requires ps != []
    ensures Spaced(ps)[..|ps| - 1] == Spaced(ps[..|ps| - 1])
  {
  }

  /** Continuations join the line they follow. */
  lemma {:induction false} JoinContinuations(out: seq<string>, x: string, ps: seq<string>)
    ensures R.JoinFrom(out + [x], Spaced(ps)) == out + [x + Concat(ps)]
  {
    if ps == [] {
      assert x + "" == x;
    } else {
      var init, last := ps[..|ps| - 1], ps[|ps| - 1];
      SpacedLast(ps);
      ConcatLast(ps);
      JoinContinuations(out, x, init);
      assert (" " + last)[1..] == last;
      assert x + Concat(init) + last == x + (Concat(init) + last);
    }
  }

  lemma {:induction false} PiecesAreOneLine(ps: seq<string>, i: nat)
    requires OneLine(Concat(ps)) && i < |ps|
    ensures OneLine(ps[i])
  {
    if i > 0 {
      PiecesAreOneLine(ps[1..], i - 1);
    }
  }

  lemma PhysicalIsOneLine(line: string)
    requires OneLine(line)
    ensures forall p <- Physical(line) :: OneLine(p)
  {
    hide Pieces;
    FoldedMeaning(line);
    var ps := Pieces(line, 0, MAX_OCTETS);
    forall i | 0 <= i < |Physical(line)| ensures OneLine(Physical(line)[i]) {
      PiecesAreOneLine(ps, i);
    }
  }

  /** The physical lines of one content line unfold to it. */
  lemma JoinPhysical(out: seq<string>, line: string)
    requires line != "" && (out == [] || (line[0] != ' ' && line[0] != '\t'))
    ensures R.JoinFrom(out, Physical(line)) == out + [line]
  {
    var ps := Pieces(line, 0, MAX_OCTETS);
    hide Pieces, R.JoinFrom;
    PiecesMeaning(line, 0, MAX_OCTETS);
    assert line == ps[0] + Concat(ps[1..]) && ps[0][0] == line[0];
    JoinFromSplits(out, [ps[0]], Spaced(ps[1..]));
    JoinOne(out, ps[0]);
    JoinContinuations(out, ps[0], ps[1..]);
  }

  lemma JoinOne(out: seq<string>, line: string)
    ensures R.JoinFrom(out, [line]) == R.JoinLine(out, line)
  {
    assert [line][..0] == [];
  }

  function PairLines(ps: seq<Pair>): (r: seq<string>)
    ensures |r| == |ps| && forall i :: 0 <= i < |ps| ==> r[i] == ps[i].Line()
  {
    if ps == [] then [] else PairLines(ps[..|ps| - 1]) + [ps[|ps| - 1].Line()]
  }

  function AllPhysical(ps: seq<Pair>): seq<string> {
    if ps == [] then [] else AllPhysical(ps[..|ps| - 1]) + Physical(ps[|ps| - 1].Line())
  }

  lemma {:induction false} LinesSplit(a: seq<string>, b: seq<string>)
    ensures Lines(a + b) == Lines(a) + Lines(b)
  {
    if a == [] {
      assert a + b == b;
    } else {
      assert (a + b)[1..] == a[1..] + b;
      LinesSplit(a[1..], b);
      assert a[0] + CRLF + (Lines(a[1..]) + Lines(b)) == a[0] + CRLF + Lines(a[1..]) + Lines(b);
    }
  }

  lemma {:induction false} PhysicalOfPairs(ps: seq<Pair>)
    requires forall p <- ps :: ContentLine(p.Line())
    ensures FoldedPairs(ps) == Lines(AllPhysical(ps))
    ensures forall p <- AllPhysical(ps) :: OneLine(p)
    ensures R.JoinFrom([], AllPhysical(ps)) == PairLines(ps)
  {
    hide Folded, Physical, Pair.Line, R.JoinLine;
    if ps != [] {
      var init, last := ps[..|ps| - 1], ps[|ps| - 1].Line();
      assert forall p <- init :: p in ps;
      assert ps[|ps| - 1] in ps;
      PhysicalOfPairs(init);
      FoldedMeaning(last);
      LinesSplit(AllPhysical(init), Physical(last));
      PhysicalIsOneLine(last);
      JoinFromSplits([], AllPhysical(init), Physical(last));
      JoinPhysical(PairLines(init), last);
    }
  }

  /** Folding then unfolding gives the content lines back. */
  lemma UnfoldFolded(ps: seq<Pair>)
    requires forall p <- ps :: ContentLine(p.Line())
    ensures R.Unfolded(FoldedPairs(ps)) == PairLines(ps)
  {
    hide ReplaceAll, Split, ContentLine, OneLine, FoldedPairs, Lines, R.JoinFrom, Pair.Line, Physical;
    PhysicalOfPairs(ps);
    var phys := AllPhysical(ps);
    ReturnsReplaced(phys);
    LinesLFHasNoReturn(phys);
    ReplaceNothing(LinesLF(phys), "\r", "\n");
    SplitLines(phys);
    JoinFromSplits([], phys, [""]);
    JoinOne(PairLines(ps), "");
  }

  lemma UnfoldFold(line: string)
    requires line != "" && OneLine(line)
    ensures R.Unfolded(Folded(line)) == [line]
  {
    hide ReplaceAll, Split, OneLine, Lines, R.JoinFrom, Physical;
    FoldedMeaning(line);
    var phys := Physical(line);
    PhysicalIsOneLine(line);
    ReturnsReplaced(phys);
    LinesLFHasNoReturn(phys);
    ReplaceNothing(LinesLF(phys), "\r", "\n");
    SplitLines(phys);
    JoinFromSplits([], phys, [""]);
    JoinPhysical([], line);
    assert [] + [line] == [line];
    JoinOne([line], "");
  }

  lemma {:induction false} NoReturnsLeft(s: string)
    ensures Without(ReplaceAll(s, "\r", "\n"), '\r')
  {
    if s != "" {
      NoReturnsLeft(s[1..]);
      assert s[..1] == [s[0]];
    }
  }

  lemma {:induction false} SplitIsOneLine(s: string)
    requires Without(s, '\r')
    ensures forall p <- Split(s, '\n') :: OneLine(p)
  {
    if s != "" {
      assert s[0] in s && Without(s[1..], '\r');
      SplitIsOneLine(s[1..]);
      var rest := Split(s[1..], '\n');
      assert rest[0] in rest && forall p <- rest[1..] :: p in rest;
    }
  }

  lemma {:induction false} JoinedIsOneLine(lines: seq<string>)
    requires forall p <- lines :: OneLine(p)
    ensures forall l <- R.JoinFrom([], lines) :: OneLine(l)
  {
    if lines != [] {
      var init, last := lines[..|lines| - 1], lines[|lines| - 1];
      assert last in lines && forall p <- init :: p in lines;
      JoinedIsOneLine(init);
      var out := R.JoinFrom([], init);
      if last != "" && out != [] {
        assert out[|out| - 1] in out;
        assert forall c <- last[1..] :: c in last;
      }
    }
  }

  /** Folding then unfolding is the identity on a single line exactly when it
      is not empty and holds no line end. */
  lemma UnfoldFoldIff(line: string)
    ensures R.Unfolded(Folded(line)) == [line] <==> line != "" && OneLine(line)
  {
    hide ReplaceAll, Split, R.JoinFrom, Folded;
    if line != "" && OneLine(line) {
      UnfoldFold(line);
    } else if line == "" {
      EmptyUnfolds();
    } else {
      var text := NormalizeEnds(Folded(line));
      NoReturnsLeft(ReplaceAll(Folded(line), "\r\n", "\n"));
      SplitIsOneLine(text);
      JoinedIsOneLine(Split(text, '\n'));
      assert line in [line];
    }
  }

  lemma EmptyUnfolds()
    ensures R.Unfolded(Folded("")) == []
  {
    hide R.JoinFrom;
    assert Folded("") == CRLF;
    ReplaceHead("");
    assert CRLF + "" == CRLF;
    assert ReplaceAll(CRLF, "\r\n", "\n") == "\n";
    ReplaceNothing("\n", "\r", "\n");
    SplitAtFirst("", "", '\n');
    assert "" + ['\n'] + "" == "\n";
    assert Split("\n", '\n') == ["", ""];
    JoinFromSplits([], [""], [""]);
    assert [""] + [""] == ["", ""];
    JoinOne([], "");
  }

  // ---------- reading the lines back ----------

  /** A property name as the writer uses them. */
  predicate PlainName(name: string) {
    name != "" && forall c <- name :: 'A' <= c <= 'Z'
  }

  lemma {:induction false} PlainStaysUpper(name: string)
    requires forall c <- name :: 'A' <= c <= 'Z'
    ensures ToUpper(name) == name
  {
    if name != "" {
      assert name == [name[0]] + name[1..];
      assert name[0] in name && forall c <- name[1..] :: c in name;
      PlainStaysUpper(name[1..]);
    }
  }

  lemma TrimNothing(s: string)
    requires s != "" && !IsSpace(s[0]) && !IsSpace(s[|s| - 1])
    ensures TrimSpace(s) == s
  {
  }

  lemma PairParses(p: Pair)
    requires PlainName(p.name)
    ensures R.ParseProperty(p.Line()) == Some(R.Property(p.name, map[], p.value))
  {
    hide IndexOf, Split, TrimSpace, ToUpper, IsSpace;
    assert Without(p.name, ':') && Without(p.name, ';');
    assert p.Line() == p.name + [':'] + p.value;
    IndexOfFirst(p.name, ':', p.value);
    assert p.Line()[..|p.name|] == p.name && p.Line()[|p.name| + 1..] == p.value;
    SplitNothing(p.name, ';');
    assert p.name[0] in p.name && p.name[|p.name| - 1] in p.name;
    LettersAreNotSpace(p.name[0]);
    LettersAreNotSpace(p.name[|p.name| - 1]);
    TrimNothing(p.name);
    PlainStaysUpper(p.name);
    assert [p.name][1..] == [];
  }

  lemma LettersAreNotSpace(c: char)
    ensures '0' <= c <= 'Z' ==> !IsSpace(c)
  {
  }

  function Prop(p: Pair): R.Property {
    R.Property(p.name, map[], p.value)
  }

  function Props(ps: seq<Pair>): (r: seq<R.Property>)
    ensures |r| == |ps| && forall i :: 0 <= i < |ps| ==> r[i] == Prop(ps[i])
  {
    if ps == [] then [] else Props(ps[..|ps| - 1]) + [Prop(ps[|ps| - 1])]
  }

  /** A property that neither opens nor closes a block. */
  predicate Inner(p: Pair) {
    PlainName(p.name) && p.name != "BEGIN" && p.name != "END"
  }

  /** Inside a block, plain properties accumulate. */
  lemma {:induction false} LexInner(out: seq<seq<R.Property>>, cur: seq<R.Property>, ps: seq<Pair>)
    requires forall p <- ps :: Inner(p)
    ensures R.LexFrom(R.Lexed(out, Some(cur)), PairLines(ps)) == R.Lexed(out, Some(cur + Props(ps)))
  {
    hide R.ParseProperty, EqualFold, PlainName, Pair.Line;
    if ps == [] {
      assert cur + [] == cur;
    } else {
      var init, last := ps[..|ps| - 1], ps[|ps| - 1];
      assert last in ps && forall p <- init :: p in ps;
      LexInner(out, cur, init);
      PairParses(last);
      assert PairLines(ps)[..|ps| - 1] == PairLines(init);
      assert cur + Props(init) + [Prop(last)] == cur + Props(ps);
    }
  }

  lemma LexOne(l: R.Lexed, p: Pair)
    ensures R.LexFrom(l, PairLines([p])) == R.LexLine(l, p.Line())
  {
    hide R.LexLine, Pair.Line;
    assert [p][..0] == [];
    assert PairLines([p]) == [p.Line()];
    assert [p.Line()][..0] == [];
  }

  /** Outside a block, nothing but BEGIN:VEVENT matters. */
  lemma LexOutside(out: seq<seq<R.Property>>, p: Pair)
    requires PlainName(p.name)
    requires |p.value| == 6 ==> p.name != "BEGIN" && p.name != "END"
    ensures R.LexFrom(R.Lexed(out, None), PairLines([p])) == R.Lexed(out, None)
  {
    hide R.ParseProperty, ToUpper;
    LexOne(R.Lexed(out, None), p);
    PairParses(p);
    assert |ToUpper(p.value)| == |p.value| && |ToUpper("VEVENT")| == 6;
  }

  lemma PairLinesSplit(a: seq<Pair>, b: seq<Pair>)
    ensures PairLines(a + b) == PairLines(a) + PairLines(b)
  {
  }

  lemma LexHeader()
    ensures R.LexFrom(R.Lexed([], None), PairLines(Header())) == R.Lexed([], None)
  {
    hide R.LexFrom, PairLines;
    var h := Header();
    LexOutside([], h[0]);
    LexOutside([], h[1]);
    LexOutside([], h[2]);
    LexOutside([], h[3]);
    LexOutside([], h[4]);
    var l := R.Lexed([], None);
    assert h == [h[0]] + ([h[1]] + ([h[2]] + ([h[3]] + [h[4]])));
    LexTwo(l, [h[3]], [h[4]]);
    LexTwo(l, [h[2]], [h[3]] + [h[4]]);
    LexTwo(l, [h[1]], [h[2]] + ([h[3]] + [h[4]]));
    LexTwo(l, [h[0]], [h[1]] + ([h[2]] + ([h[3]] + [h[4]])));
  }

  lemma {:induction false} LexTwo(l: R.Lexed, a: seq<Pair>, b: seq<Pair>)
    ensures R.LexFrom(l, PairLines(a + b)) == R.LexFrom(R.LexFrom(l, PairLines(a)), PairLines(b))
  {
    hide R.LexFrom, PairLines;
    PairLinesSplit(a, b);
    R.LexFromSplits(l, PairLines(a), PairLines(b));
  }

  lemma LexBeginEnd(cur: seq<R.Property>)
    ensures R.LexFrom(R.Lexed([], None), PairLines([Pair("BEGIN", "VEVENT")])) == R.Lexed([], Some([]))
    ensures R.LexFrom(R.Lexed([], Some(cur)), PairLines([Pair("END", "VEVENT")])) == R.Lexed([cur], None)
  {
    hide R.ParseProperty, ToUpper, PairLines, R.LexFrom;
    LexOne(R.Lexed([], None), Pair("BEGIN", "VEVENT"));
    LexOne(R.Lexed([], Some(cur)), Pair("END", "VEVENT"));
    PairParses(Pair("BEGIN", "VEVENT"));
    PairParses(Pair("END", "VEVENT"));
    assert "BEGIN"[0] != "END"[0];
    assert [] + [cur] == [cur];
  }

  lemma TimeNamesArePlain()
    ensures PlainName("UID") && PlainName("DTSTAMP") && PlainName("DTSTART") && PlainName("DTEND")
  {
  }

  lemma TextNamesArePlain()
    ensures PlainName("SUMMARY") && PlainName("DESCRIPTION") && PlainName("URL")
  {
  }

  lemma StateNamesArePlain()
    ensures PlainName("STATUS") && PlainName("TRANSP") && PlainName("BEGIN") && PlainName("END")
  {
  }

  lemma BodyIsInner(ev: Event, now: int)
    ensures forall p <- Body(ev, now) :: Inner(p)
  {
    hide Stamp, EscapeText, PlainName;
    TimeNamesArePlain();
    TextNamesArePlain();
    StateNamesArePlain();
    assert "UID"[0] == 'U' && "BEGIN"[0] == 'B' && "END"[0] == 'E';
    assert "DTSTAMP"[0] == "DTSTART"[0] == "DTEND"[0] == "DESCRIPTION"[0] == 'D';
    assert "SUMMARY"[0] == "STATUS"[0] == 'S' && "TRANSP"[0] == 'T' && "URL"[0] == 'U';
  }

  /** The reader finds one event, holding the body's properties. */
  lemma OneEvent(ev: Event, now: int)
    ensures R.Events(PairLines(Pairs(ev, now))) == [Props(Body(ev, now))]
  {
    hide R.LexFrom, PairLines, Props, Body;
    var body := Body(ev, now);
    var begin, end, close := [Pair("BEGIN", "VEVENT")], [Pair("END", "VEVENT")], [Pair("END", "VCALENDAR")];
    var l := R.Lexed([], None);
    assert Pairs(ev, now) == Header() + (begin + (body + (end + close)));
    LexTwo(l, Header(), begin + (body + (end + close)));
    LexHeader();
    LexTwo(l, begin, body + (end + close));
    LexBeginEnd(Props(body));
    BodyIsInner(ev, now);
    LexTwo(R.Lexed([], Some([])), body, end + close);
    LexInner([], [], body);
    assert [] + Props(body) == Props(body);
    LexTwo(R.Lexed([], Some(Props(body))), end, close);
    LexOutside([Props(body)], close[0]);
  }

  // ---------- stamps ----------

  ghost predicate FourDigitYear(t: int) {
    0 <= DateOf(t / NANO_SECOND / 86400).year <= 9999
  }

  /** An instant to the second. */
  function WholeSecond(t: int): int {
    t / NANO_SECOND * NANO_SECOND
  }

  lemma {:induction false} OctetsAtLeast(s: string)
    ensures OctetLength(s) >= |s|
  {
    if s != "" {
      OctetsAtLeast(s[..|s| - 1]);
    }
  }

  /** The clock digits read back as the same second of the day. */
  lemma ClockParses(second: nat)
    requires second < 86400
    ensures |ClockDigits(second)| == 6 && R.ParseClock(ClockDigits(second)) == Some(second)
  {
    hide Digits, ParseNat;
    var h, m, s := second / 3600, second % 3600 / 60, second % 60;
    assert h * 3600 + m * 60 + s == second;
    TwoDigits(h);
    TwoDigits(m);
    TwoDigits(s);
    DigitsParse(h, 2);
    DigitsParse(m, 2);
    DigitsParse(s, 2);
    var v := ClockDigits(second);
    assert v[..2] == Digits(h, 2) && v[2..4] == Digits(m, 2) && v[4..] == Digits(s, 2);
  }

  function DateDigits(d: Date): string
    requires d.month >= 0 && d.day >= 0
  {
    YearDigits(d.year) + Digits(d.month, 2) + Digits(d.day, 2)
  }

  lemma DateParses(d: Date)
    requires Valid(d) && 0 <= d.year <= 9999
    ensures |DateDigits(d)| == 8 && R.ParseDate(DateDigits(d)) == Some(d)
  {
    hide Digits, ParseNat, LeapYear;
    FourDigits(d.year);
    TwoDigits(d.month);
    TwoDigits(d.day);
    DigitsParse(d.year, 4);
    DigitsParse(d.month, 2);
    DigitsParse(d.day, 2);
    var v := DateDigits(d);
    assert v[..4] == Digits(d.year, 4) && v[4..6] == Digits(d.month, 2) && v[6..] == Digits(d.day, 2);
  }

  /** A UTC stamp is sixteen characters and reads back as its instant. */
  lemma StampParses(t: int)
    requires FourDigitYear(t)
    ensures |Stamp(t)| == 16 && Stamp(t)[15] == 'Z' && '0' <= Stamp(t)[0] <= '9'
    ensures R.ParseLocal(Stamp(t)[..15], 0) == Some(WholeSecond(t))
  {
    hide Digits, ParseNat, DateOf, DayNumber, Valid, R.ParseDate, R.ParseClock;
    var seconds := t / NANO_SECOND;
    var d, second := DateOf(seconds / 86400), seconds % 86400;
    DateOfMeaning(seconds / 86400);
    ValidIsPositive(d);
    DateParses(d);
    ClockParses(second);
    DigitsParse(d.year, 4);
    var date, clock := DateDigits(d), ClockDigits(second);
    assert Stamp(t) == date + "T" + clock + "Z";
    assert Stamp(t)[..15] == date + "T" + clock;
    assert Stamp(t)[..15][..8] == date && Stamp(t)[..15][9..] == clock;
    assert Digits(d.year, 4)[0] in Digits(d.year, 4) && Digits(d.year, 4)[0] == date[0] == Stamp(t)[0];
    assert |Stamp(t)[..15]| == 15 && Stamp(t)[..15][8] == 'T';
    SecondsOfDay(seconds);
  }

  lemma ValidIsPositive(d: Date)
    requires Valid(d)
    ensures d.month >= 1 && d.day >= 1
  {
  }

  lemma SecondsOfDay(seconds: int)
    ensures seconds / 86400 * NANO_DAY + seconds % 86400 * NANO_SECOND == seconds * NANO_SECOND
  {
    assert seconds == seconds / 86400 * 86400 + seconds % 86400;
  }

  /** Read as a property value, the stamp is a UTC instant and no all-day date. */
  lemma StampIsRead(name: string, t: int, zones: R.Zones)
    requires FourDigitYear(t)
    ensures R.ParseTime(R.Property(name, map[], Stamp(t)), zones) == Some(R.Instant(WholeSecond(t), false))
  {
    hide Stamp, R.ParseLocal, R.ParseDate, TrimSpace, IsSpace, OctetLength, FourDigitYear;
    StampParses(t);
    LettersAreNotSpace(Stamp(t)[0]);
    LettersAreNotSpace(Stamp(t)[15]);
    TrimNothing(Stamp(t));
    OctetsAtLeast(Stamp(t));
    assert |ToUpper("")| != |ToUpper("DATE")|;
  }

  lemma {:induction false} StampIsOneLine(t: int)
    ensures OneLine(Stamp(t))
  {
    hide Digits, DateOf, DayNumber, LeapYear;
    var seconds := t / NANO_SECOND;
    var d, second := DateOf(seconds / 86400), seconds % 86400;
    DateOfMeaning(seconds / 86400);
    ValidIsPositive(d);
    DigitsParse(if d.year >= 0 then d.year else -d.year, 4);
    DigitsParse(d.month, 2);
    DigitsParse(d.day, 2);
    DigitsParse(second / 3600, 2);
    DigitsParse(second % 3600 / 60, 2);
    DigitsParse(second % 60, 2);
    forall c <- Stamp(t) ensures c != '\r' && c != '\n' {
    }
  }

  // ---------- the event read back ----------

  lemma {:induction false} FirstAppend(a: seq<R.Property>, b: seq<R.Property>, name: string)
    ensures R.First(a + b, name) == if R.First(a, name).Some? then R.First(a, name) else R.First(b, name)
  {
    if a == [] {
      assert a + b == b;
    } else {
      assert (a + b)[1..] == a[1..] + b;
      FirstAppend(a[1..], b, name);
    }
  }

  lemma {:induction false} FirstAmong(ps: seq<Pair>, name: string, k: nat)
    requires k <= |ps| && forall i :: 0 <= i < k ==> ps[i].name != name
    ensures k < |ps| && ps[k].name == name ==> R.First(Props(ps), name) == Some(Prop(ps[k]))
    ensures k == |ps| ==> R.First(Props(ps), name) == None
  {
    if ps != [] {
      PropsFirst(ps);
      if k > 0 {
        FirstAmong(ps[1..], name, k - 1);
      }
    }
  }

  lemma PropsFirst(ps: seq<Pair>)
    requires ps != []
    ensures Props(ps)[0] == Prop(ps[0]) && Props(ps)[1..] == Props(ps[1..])
  {
  }

  lemma BodyNames()
    ensures "UID" != "DTSTART" && "UID" != "DTEND" && "UID" != "STATUS" && "UID" != "TRANSP" && "UID" != "RRULE"
    ensures "DTSTAMP" != "DTSTART" && "DTSTAMP" != "DTEND" && "DTSTAMP" != "STATUS" && "DTSTAMP" != "TRANSP"
              && "DTSTAMP" != "RRULE"
    ensures "DTSTART" != "DTEND" && "DTSTART" != "STATUS" && "DTSTART" != "TRANSP" && "DTSTART" != "RRULE"
    ensures "DTEND" != "STATUS" && "DTEND" != "TRANSP" && "DTEND" != "RRULE"
    ensures "SUMMARY" != "STATUS" && "SUMMARY" != "TRANSP" && "SUMMARY" != "RRULE"
    ensures "DESCRIPTION" != "STATUS" && "DESCRIPTION" != "TRANSP" && "DESCRIPTION" != "RRULE"
    ensures "URL" != "STATUS" && "URL" != "TRANSP" && "URL" != "RRULE"
    ensures "STATUS" != "TRANSP" && "STATUS" != "RRULE" && "TRANSP" != "RRULE"
    ensures forall n <- ["UID", "DTSTAMP", "DTSTART", "DTEND", "SUMMARY", "DESCRIPTION", "URL", "STATUS", "TRANSP"] ::
              n != "DURATION"
  {
    assert "DTSTAMP"[5] == 'M' && "DTSTART"[5] == 'R';
    assert "UID"[0] == 'U' && "URL"[0] == 'U' && "RRULE"[0] == 'R' && "TRANSP"[0] == 'T';
    assert "DTSTART"[0] == 'D' && "SUMMARY"[0] == 'S' && "STATUS"[0] == 'S';
    assert "DTEND"[0] == "DESCRIPTION"[0] == "DTSTAMP"[0] == 'D';
  }

  lemma BodyFirsts(ev: Event, now: int)
    ensures var props := Props(Body(ev, now));
            && R.First(props, "DTSTART") == Some(R.Property("DTSTART", map[], Stamp(ev.start)))
            && R.First(props, "DTEND") == Some(R.Property("DTEND", map[], Stamp(ev.end)))
            && R.First(props, "STATUS") == Some(R.Property("STATUS", map[], "CONFIRMED"))
            && R.First(props, "TRANSP") == Some(R.Property("TRANSP", map[], "OPAQUE"))
            && R.First(props, "RRULE") == None
            && R.First(props, "DURATION") == None
  {
    hide Stamp, EscapeText, R.First, Props;
    BodyNames();
    var body := Body(ev, now);
    var n := |body|;
    assert body[n - 2] == Pair("STATUS", "CONFIRMED") && body[n - 1] == Pair("TRANSP", "OPAQUE");
    FirstAmong(body, "DTSTART", 2);
    FirstAmong(body, "DTEND", 3);
    FirstAmong(body, "STATUS", n - 2);
    FirstAmong(body, "TRANSP", n - 1);
    FirstAmong(body, "RRULE", n);
    FirstAmong(body, "DURATION", n);
  }

  lemma NotSaid(props: seq<R.Property>, name: string, value: string, other: string)
    requires R.First(props, name) == Some(R.Property(name, map[], value)) && PlainName(value)
    requires |value| != |other|
    ensures !R.Says(props, name, other)
  {
    hide IsSpace, TrimSpace, ToUpper;
    assert value[0] in value && value[|value| - 1] in value;
    LettersAreNotSpace(value[0]);
    LettersAreNotSpace(value[|value| - 1]);
    TrimNothing(value);
    assert |ToUpper(value)| != |ToUpper(other)|;
  }

  /** What the reader makes of the event's properties. */
  lemma EventRead(ev: Event, now: int, from: int, to: int, zones: R.Zones, recur: R.Recur)
    requires FourDigitYear(ev.start) && FourDigitYear(ev.end)
    ensures R.IntervalsOf(Props(Body(ev, now)), from, to, zones, recur) ==
              var span := Interval(WholeSecond(ev.start), WholeSecond(ev.end));
              if span.Valid() && span.Overlaps(Interval(from, to)) then [span] else []
  {
    hide Stamp, R.First, Props, Body, R.ParseTime, WholeSecond, FourDigitYear, TrimSpace, EqualFold, R.Says;
    var props := Props(Body(ev, now));
    BodyFirsts(ev, now);
    assert PlainName("CONFIRMED") && PlainName("OPAQUE");
    StatusIsNotCancelled(props);
    NotSaid(props, "TRANSP", "OPAQUE", "TRANSPARENT");
    StampIsRead("DTSTART", ev.start, zones);
    StampIsRead("DTEND", ev.end, zones);
  }

  lemma {:induction false} StatusIsNotCancelled(props: seq<R.Property>)
    requires R.First(props, "STATUS") == Some(R.Property("STATUS", map[], "CONFIRMED"))
    ensures !R.Says(props, "STATUS", "CANCELLED")
  {
    hide IsSpace, TrimSpace;
    LettersAreNotSpace('C');
    LettersAreNotSpace('D');
    TrimNothing("CONFIRMED");
    UpperAt("CONFIRMED", 1);
    UpperAt("CANCELLED", 1);
  }

  lemma {:induction false} UpperAt(s: string, i: nat)
    requires i < |s|
    ensures ToUpper(s)[i] == UpperChar(s[i])
  {
    if i > 0 {
      UpperAt(s[1..], i - 1);
    }
  }

  lemma BodyLines(ev: Event, now: int)
    requires OneLine(ev.uid) && OneLine(ev.url)
    ensures forall p <- Pairs(ev, now) :: ContentLine(p.Line())
  {
    hide Stamp, EscapeText, PlainName, OneLine, ContentLine, Pair.Line;
    TimeNamesArePlain();
    TextNamesArePlain();
    StateNamesArePlain();
    HeaderLines();
    StampIsOneLine(now);
    StampIsOneLine(ev.start);
    StampIsOneLine(ev.end);
    EscapedIsOneLine(ev.summary);
    EscapedIsOneLine(ev.description);
    OneLineLiterals();
    forall p <- Pairs(ev, now) ensures ContentLine(p.Line()) {
      if p !in Header() {
        assert PlainName(p.name) && OneLine(p.value);
        PlainLine(p);
      }
    }
  }

  lemma EscapedIsOneLine(s: string)
    ensures OneLine(EscapeText(s))
  {
    hide EscapeText;
    EscapedHasNoLineEnds(s);
  }

  lemma OneLineLiterals()
    ensures OneLine("VEVENT") && OneLine("VCALENDAR") && OneLine("CONFIRMED") && OneLine("OPAQUE")
  {
  }

  lemma PlainLine(p: Pair)
    requires PlainName(p.name) && OneLine(p.value)
    ensures ContentLine(p.Line())
  {
    assert p.name[0] in p.name && p.Line()[0] == p.name[0];
    assert Without(p.name, '\r') && Without(p.name, '\n');
  }

  lemma HeaderNamesArePlain()
    ensures PlainName("VERSION") && PlainName("PRODID") && PlainName("CALSCALE") && PlainName("METHOD")
  {
  }

  lemma HeaderValuesAreOneLine()
    ensures OneLine("VCALENDAR") && OneLine("2.0") && OneLine("GREGORIAN") && OneLine("PUBLISH")
  {
  }

  lemma OneLineAdds(a: string, b: string)
    requires OneLine(a) && OneLine(b)
    ensures OneLine(a + b)
  {
  }

  lemma ProductParts()
    ensures OneLine("-//Overlap//") && OneLine("Overlap Scheduler") && OneLine("//EN")
  {
  }

  lemma ProductIsOneLine()
    ensures OneLine("-//Overlap//Overlap Scheduler//EN")
  {
    hide OneLine;
    ProductParts();
    OneLineAdds("-//Overlap//", "Overlap Scheduler");
    OneLineAdds("-//Overlap//" + "Overlap Scheduler", "//EN");
    assert "-//Overlap//Overlap Scheduler//EN" == "-//Overlap//" + "Overlap Scheduler" + "//EN";
  }

  lemma HeaderLines()
    ensures forall p <- Header() :: ContentLine(p.Line())
  {
    hide PlainName, OneLine, ContentLine, Pair.Line;
    StateNamesArePlain();
    HeaderNamesArePlain();
    HeaderValuesAreOneLine();
    ProductIsOneLine();
    forall p <- Header() ensures ContentLine(p.Line()) {
      PlainLine(p);
    }
  }

  /** Writing an event and reading the file gives back the event's time to the
      second when it overlaps the window, and nothing otherwise, whatever its
      texts say and however a reader treats zones and recurrence rules. */
  lemma ParseRendered(ev: Event, now: int, from: int, to: int, zones: R.Zones, recur: R.Recur)
    requires FourDigitYear(ev.start) && FourDigitYear(ev.end)
    requires OneLine(ev.uid) && OneLine(ev.url)
    ensures R.Parsed(Rendered(ev, now), from, to, zones, recur) ==
              var span := Interval(WholeSecond(ev.start), WholeSecond(ev.end));
              if span.Valid() && span.Overlaps(Interval(from, to)) then [span] else []
  {
    hide FourDigitYear, OneLine, R.IntervalsOf, Body, Pairs, FoldedPairs, R.Unfolded, R.Events, Props, PairLines,
        WholeSecond, Coalesce;
    BodyLines(ev, now);
    UnfoldFolded(Pairs(ev, now));
    OneEvent(ev, now);
    EventRead(ev, now, from, to, zones, recur);
    var found := R.IntervalsOf(Props(Body(ev, now)), from, to, zones, recur);
    CollectedOne(Props(Body(ev, now)), from, to, zones, recur);
    MergedOne(Interval(WholeSecond(ev.start), WholeSecond(ev.end)));
  }

  lemma CollectedOne(props: seq<R.Property>, from: int, to: int, zones: R.Zones, recur: R.Recur)
    ensures R.Collected([props], from, to, zones, recur) == R.IntervalsOf(props, from, to, zones, recur)
  {
    hide R.IntervalsOf;
    assert [props][..0] == [];
  }

  lemma MergedOne(iv: Interval)
    ensures Merged([iv]) == [iv] && Merged([]) == []
  {
    var none: seq<Interval> := [];
    assert [iv][..0] == none && Sort(ByStart, none) == none && Coalesce(none) == none;
    assert Sort(ByStart, [iv]) == Insert(ByStart, none, iv) == [iv];
    assert Coalesce([iv]) == Absorb(none, iv) == [iv];
  }

  // ---------- the texts read back ----------

  lemma TextNames()
    ensures "UID" != "SUMMARY" && "DTSTAMP" != "SUMMARY" && "DTSTART" != "SUMMARY" && "DTEND" != "SUMMARY"
    ensures "UID" != "DTSTAMP"
    ensures forall n <- ["UID", "DTSTAMP", "DTSTART", "DTEND", "SUMMARY", "URL", "STATUS", "TRANSP"] ::
              n != "DESCRIPTION"
    ensures forall n <- ["UID", "DTSTAMP", "DTSTART", "DTEND", "SUMMARY", "DESCRIPTION", "STATUS", "TRANSP"] ::
              n != "URL"
  {
    assert "DTSTAMP"[0] == "DTSTART"[0] == "DTEND"[0] == "DESCRIPTION"[0] == 'D';
    assert "SUMMARY"[0] == "STATUS"[0] == 'S' && "TRANSP"[0] == 'T' && "UID"[1] == 'I' && "URL"[1] == 'R';
  }

  lemma BodyTexts(ev: Event, now: int)
    ensures var props := Props(Body(ev, now));
            && R.First(props, "UID") == Some(R.Property("UID", map[], ev.uid))
            && R.First(props, "DTSTAMP") == Some(R.Property("DTSTAMP", map[], Stamp(now)))
            && R.First(props, "SUMMARY") == Some(R.Property("SUMMARY", map[], EscapeText(ev.summary)))
  {
    hide Stamp, EscapeText, R.First, Props;
    TextNames();
    var body := Body(ev, now);
    FirstAmong(body, "UID", 0);
    FirstAmong(body, "DTSTAMP", 1);
    FirstAmong(body, "SUMMARY", 4);
  }

  lemma BodyOptionalTexts(ev: Event, now: int)
    ensures var props := Props(Body(ev, now));
            && R.First(props, "DESCRIPTION") ==
                 (if ev.description == "" then None
                  else Some(R.Property("DESCRIPTION", map[], EscapeText(ev.description))))
            && R.First(props, "URL") == (if ev.url == "" then None else Some(R.Property("URL", map[], ev.url)))
  {
    hide Stamp, EscapeText, R.First, Props;
    TextNames();
    var body := Body(ev, now);
    FirstAmong(body, "DESCRIPTION", if ev.description == "" then |body| else 5);
    FirstAmong(body, "URL", if ev.url == "" then |body| else if ev.description == "" then 5 else 6);
  }

  /** The file holds one event whose texts, unescaped, are the event's own with
      line ends normalised, whose identity, address and stamp are as given, and
      which is confirmed and busy. */
  lemma TextsReadBack(ev: Event, now: int, zones: R.Zones)
    requires OneLine(ev.uid) && OneLine(ev.url) && FourDigitYear(now)
    ensures var blocks := R.Events(R.Unfolded(Rendered(ev, now)));
            && |blocks| == 1
            && var props := blocks[0];
               && R.First(props, "SUMMARY").Some?
               && Unescape(R.First(props, "SUMMARY").value.value) == NormalizeEnds(ev.summary)
               && (R.First(props, "DESCRIPTION").Some? <==> ev.description != "")
               && (ev.description != "" ==>
                     Unescape(R.First(props, "DESCRIPTION").value.value) == NormalizeEnds(ev.description))
               && R.First(props, "UID").Some? && R.First(props, "UID").value.value == ev.uid
               && (R.First(props, "URL").Some? <==> ev.url != "")
               && (ev.url != "" ==> R.First(props, "URL").value.value == ev.url)
               && R.First(props, "STATUS").Some? && R.First(props, "STATUS").value.value == "CONFIRMED"
               && R.First(props, "TRANSP").Some? && R.First(props, "TRANSP").value.value == "OPAQUE"
               && R.First(props, "DTSTAMP").Some?
               && R.ParseTime(R.First(props, "DTSTAMP").value, zones) == Some(R.Instant(WholeSecond(now), false))
  {
    hide FourDigitYear, OneLine, Body, Pairs, FoldedPairs, R.Unfolded, R.Events, R.First, R.ParseTime, Props, PairLines,
        WholeSecond, Unescape, NormalizeEnds, EscapeText, Stamp;
    BodyLines(ev, now);
    UnfoldFolded(Pairs(ev, now));
    OneEvent(ev, now);
    BodyFirsts(ev, now);
    BodyTexts(ev, now);
    BodyOptionalTexts(ev, now);
    UnescapeEscape(ev.summary);
    UnescapeEscape(ev.description);
    StampIsRead("DTSTAMP", now, zones);
  }
}
