/** Writing a decided event as an iCalendar object (ics.go; RFC 5545). */
module IcsWriter {
  import opened Calendar
  import opened Nanoseconds
  import opened Text

  const MAX_OCTETS: nat := 75
  const CRLF := "\r\n"

  // ---------- text escaping (RFC 5545, section 3.3.11) ----------

  /** escapeText: six replacement passes, backslash first. */
  function EscapeText(s: string): string {
    var s1 := ReplaceAll(s, "\\", "\\\\");
    var s2 := ReplaceAll(s1, "\r\n", "\\n");
    LaterPasses(s2)
  }

  function LaterPasses(s2: string): string {
    var s3 := ReplaceAll(s2, "\n", "\\n");
    var s4 := ReplaceAll(s3, "\r", "\\n");
    var s5 := ReplaceAll(s4, ";", "\\;");
    ReplaceAll(s5, ",", "\\,")
  }

  /** What a reader of section 3.3.11 undoes. */
  function Unescape(s: string): string {
    if s == "" then ""
    else if s[0] == '\\' && |s| > 1 && s[1] in {'\\', ';', ','} then [s[1]] + Unescape(s[2..])
    else if s[0] == '\\' && |s| > 1 && s[1] in {'n', 'N'} then "\n" + Unescape(s[2..])
    else [s[0]] + Unescape(s[1..])
  }

  /** The escape of one character, a line end included. */
  function EscapeChar(c: char): string {
    if c == '\\' then "\\\\"
    else if c == '\n' || c == '\r' then "\\n"
    else if c == ';' then "\\;"
    else if c == ',' then "\\,"
    else [c]
  }

  /** The six passes as one: each character escaped once, CRLF as one line end. */
  function EscapeOnce(s: string): string {
    if s == "" then ""
    else if s[0] == '\r' && |s| > 1 && s[1] == '\n' then "\\n" + EscapeOnce(s[2..])
    else EscapeChar(s[0]) + EscapeOnce(s[1..])
  }

  lemma LaterPassesSplit(a: string, b: string)
    ensures LaterPasses(a + b) == LaterPasses(a) + LaterPasses(b)
  {
    hide ReplaceAll;
    ReplaceOneSplits(a, b, '\n', "\\n");
    var a3, b3 := ReplaceAll(a, "\n", "\\n"), ReplaceAll(b, "\n", "\\n");
    ReplaceOneSplits(a3, b3, '\r', "\\n");
    var a4, b4 := ReplaceAll(a3, "\r", "\\n"), ReplaceAll(b3, "\r", "\\n");
    ReplaceOneSplits(a4, b4, ';', "\\;");
    ReplaceOneSplits(ReplaceAll(a4, ";", "\\;"), ReplaceAll(b4, ";", "\\;"), ',', "\\,");
  }

  lemma LaterPassesOne(c: char)
    ensures c != '\\' ==> LaterPasses([c]) == EscapeChar(c)
    ensures LaterPasses("\\") == "\\" && LaterPasses("n") == "n"
    ensures LaterPasses("\\n") == "\\n" && LaterPasses("\\\\") == "\\\\"
  {
    hide ReplaceAll;
    LaterPassesPlain(c);
    LaterPassesPlain('\\');
    LaterPassesPlain('n');
    assert "\\" + "n" == "\\n" && "\\" + "\\" == "\\\\";
    LaterPassesSplit("\\", "n");
    LaterPassesSplit("\\", "\\");
    if c == '\n' || c == '\r' {
      ReplaceOne(c, '\n', "\\n");
      ReplaceOne(c, '\r', "\\n");
      ReplaceNothing("\\n", "\r", "\\n");
      ReplaceNothing("\\n", ";", "\\;");
      ReplaceNothing("\\n", ",", "\\,");
    } else if c == ';' {
      ReplaceOne(c, '\n', "\\n");
      ReplaceOne(c, '\r', "\\n");
      ReplaceOne(c, ';', "\\;");
      ReplaceNothing("\\;", ",", "\\,");
    } else if c == ',' {
      ReplaceOne(c, '\n', "\\n");
      ReplaceOne(c, '\r', "\\n");
      ReplaceOne(c, ';', "\\;");
      ReplaceOne(c, ',', "\\,");
    }
  }

  lemma LaterPassesPlain(c: char)
    ensures c !in {'\n', '\r', ';', ','} ==> LaterPasses([c]) == [c]
  {
    hide ReplaceAll;
    ReplaceOne(c, '\n', "\\n");
    ReplaceOne(c, '\r', "\\n");
    ReplaceOne(c, ';', "\\;");
    ReplaceOne(c, ',', "\\,");
  }

  function FirstPass(s: string): string {
    ReplaceAll(s, "\\", "\\\\")
  }

  function SecondPass(s: string): string {
    ReplaceAll(s, "\r\n", "\\n")
  }

  lemma FirstPassStep(c: char, rest: string)
    ensures FirstPass([c] + rest) == (if c == '\\' then "\\\\" else [c]) + FirstPass(rest)
  {
    hide ReplaceAll;
    ReplaceOneSplits([c], rest, '\\', "\\\\");
    ReplaceOne(c, '\\', "\\\\");
  }

  /** A carriage return that no line feed follows passes the second pass. */
  lemma LoneReturn(rest: string)
    requires rest == "" || rest[0] != '\n'
    ensures SecondPass("\r" + rest) == "\r" + SecondPass(rest)
  {
    var s := "\r" + rest;
    assert s[1..] == rest;
    if |s| >= 2 {
      assert s[..2][1] == rest[0];
    } else {
      assert s == "\r" && rest == "";
    }
  }

  lemma ReturnAndFeed(rest: string)
    ensures SecondPass("\r\n" + rest) == "\\n" + SecondPass(rest)
  {
    var s := "\r\n" + rest;
    assert s[..2] == "\r\n" && s[2..] == rest;
  }

  lemma FirstPassHead(s: string)
    ensures s == "" ==> FirstPass(s) == ""
    ensures s != "" ==> FirstPass(s) != "" && FirstPass(s)[0] == s[0]
  {
    if s != "" {
      assert s == [s[0]] + s[1..];
      FirstPassStep(s[0], s[1..]);
    }
  }

  /** The passes do not disturb each other's work. */
  lemma {:induction false} PassesAreOne(s: string)
    ensures EscapeText(s) == EscapeOnce(s)
  {
    hide ReplaceAll, LaterPasses;
    if s == "" {
      EmptyPasses();
    } else if s[0] == '\r' && |s| > 1 && s[1] == '\n' {
      var rest := s[2..];
      PassesAreOne(rest);
      assert s == "\r" + ("\n" + rest);
      FirstPassStep('\r', "\n" + rest);
      FirstPassStep('\n', rest);
      assert FirstPass(s) == "\r\n" + FirstPass(rest);
      ReturnAndFeed(FirstPass(rest));
      LaterPassesSplit("\\n", SecondPass(FirstPass(rest)));
      LaterPassesOne('n');
    } else {
      var c, rest := s[0], s[1..];
      PassesAreOne(rest);
      assert s == [c] + rest;
      FirstPassStep(c, rest);
      LaterPassesOne(c);
      if c == '\r' {
        FirstPassHead(rest);
        LoneReturn(FirstPass(rest));
        LaterPassesSplit("\r", SecondPass(FirstPass(rest)));
      } else {
        var piece := if c == '\\' then "\\\\" else [c];
        ReplaceSkips(piece, FirstPass(rest), "\r\n", "\\n");
        LaterPassesSplit(piece, SecondPass(FirstPass(rest)));
      }
    }
  }

  lemma EmptyPasses()
    ensures EscapeText("") == ""
  {
  }

  /** An escaped character followed by anything is undone first. */
  lemma UnescapeStep(c: char, rest: string)
    ensures Unescape(EscapeChar(c) + rest) == (if c == '\r' then "\n" else [c]) + Unescape(rest)
  {
    var s := EscapeChar(c) + rest;
    if |EscapeChar(c)| == 2 {
      assert s[0] == '\\' && s[1] == EscapeChar(c)[1] && s[2..] == rest;
    } else {
      assert s[0] == c && s[1..] == rest;
    }
  }

  /** Undoing the escapes returns the text with its line ends normalised. */
  lemma {:induction false} UnescapeEscape(s: string)
    ensures Unescape(EscapeText(s)) == NormalizeEnds(s)
  {
    hide EscapeText, NormalizeEnds;
    PassesAreOne(s);
    if s == "" {
      NothingToNormalize();
    } else if s[0] == '\r' && |s| > 1 && s[1] == '\n' {
      UnescapeEscape(s[2..]);
      PassesAreOne(s[2..]);
      UnescapeStep('\n', EscapeOnce(s[2..]));
      assert s == "\r\n" + s[2..];
      NormalizeReturnAndFeed(s[2..]);
    } else {
      UnescapeEscape(s[1..]);
      PassesAreOne(s[1..]);
      UnescapeStep(s[0], EscapeOnce(s[1..]));
      assert s == [s[0]] + s[1..];
      NormalizeOne(s[0], s[1..]);
    }
  }

  lemma NothingToNormalize()
    ensures NormalizeEnds("") == ""
  {
  }

  /** Escaped text has no line ends left. */
  lemma {:induction false} EscapedHasNoLineEnds(s: string)
    ensures Without(EscapeText(s), '\r') && Without(EscapeText(s), '\n')
  {
    hide EscapeText;
    PassesAreOne(s);
    if s == "" {
    } else if s[0] == '\r' && |s| > 1 && s[1] == '\n' {
      EscapedHasNoLineEnds(s[2..]);
      PassesAreOne(s[2..]);
    } else {
      EscapedHasNoLineEnds(s[1..]);
      PassesAreOne(s[1..]);
    }
  }

  // ---------- line folding (RFC 5545, section 3.1) ----------

  function Prepend(c: char, ps: seq<string>): seq<string>
    requires ps != []
  {
    [[c] + ps[0]] + ps[1..]
  }

  /** Where the line breaks, when `used` octets of a line limited to `limit` are taken already. */
  function Pieces(line: string, used: nat, limit: nat): (ps: seq<string>)
    ensures ps != []
  {
    if line == "" then [""]
    else
      var n := Octets(line[0]);
      if used + n > limit then [""] + Prepend(line[0], Pieces(line[1..], n, MAX_OCTETS - 1))
      else Prepend(line[0], Pieces(line[1..], used + n, limit))
  }

  /** The pieces as written: each break is a CRLF and one space. */
  function Broken(ps: seq<string>): string
    requires ps != []
  {
    if |ps| == 1 then ps[0] else ps[0] + CRLF + " " + Broken(ps[1..])
  }

  /** One content line as written. */
  function Folded(line: string): string {
    Broken(Pieces(line, 0, MAX_OCTETS)) + CRLF
  }

  lemma BrokenPrepend(c: char, ps: seq<string>)
    requires ps != []
    ensures Broken(Prepend(c, ps)) == [c] + Broken(ps)
  {
    assert Prepend(c, ps)[1..] == ps[1..];
    if |ps| > 1 {
      assert [c] + ps[0] + CRLF + " " + Broken(ps[1..]) == [c] + (ps[0] + CRLF + " " + Broken(ps[1..]));
    }
  }

  lemma BrokenStep(line: string, used: nat, limit: nat)
    requires line != ""
    ensures var n := Octets(line[0]);
            Broken(Pieces(line, used, limit)) ==
              if used + n > limit then CRLF + " " + [line[0]] + Broken(Pieces(line[1..], n, MAX_OCTETS - 1))
              else [line[0]] + Broken(Pieces(line[1..], used + n, limit))
  {
    hide Octets;
    var n := Octets(line[0]);
    if used + n > limit {
      var rest := Pieces(line[1..], n, MAX_OCTETS - 1);
      BrokenPrepend(line[0], rest);
      assert ([""] + Prepend(line[0], rest))[1..] == Prepend(line[0], rest);
      assert "" + CRLF + " " + ([line[0]] + Broken(rest)) == CRLF + " " + [line[0]] + Broken(rest);
    } else {
      BrokenPrepend(line[0], Pieces(line[1..], used + n, limit));
    }
  }

  lemma OctetLengthFirst(line: string)
    requires line != ""
    ensures OctetLength(line) == Octets(line[0]) + OctetLength(line[1..])
  {
    assert line == [line[0]] + line[1..];
    OctetLengthAdds([line[0]], line[1..]);
    assert OctetLength([line[0]][..0]) == 0;
  }

  lemma {:induction false} FitsUnbroken(line: string, used: nat, limit: nat)
    requires used + OctetLength(line) <= limit
    ensures Pieces(line, used, limit) == [line]
  {
    hide Octets, OctetLength;
    if line != "" {
      OctetLengthFirst(line);
      FitsUnbroken(line[1..], used + Octets(line[0]), limit);
      assert [line[0]] + line[1..] == line;
    }
  }

  /** writeFolded: a short line as it is, a long one broken scalar by scalar. */
  method WriteFolded(b: string, line: string) returns (out: string)
    ensures out == b + Folded(line)
  {
    hide Octets, OctetLength, Pieces, Broken;
    if OctetLength(line) <= MAX_OCTETS {
      FitsUnbroken(line, 0, MAX_OCTETS);
      UnbrokenIsItself(line);
      out := b + line;
      out := out + CRLF;
      return;
    }
    out := b;
    var used: nat, first := 0, true;
    assert line[0..] == line;
    for i := 0 to |line|
      invariant out + Broken(Pieces(line[i..], used, if first then MAX_OCTETS else MAX_OCTETS - 1))
                == b + Broken(Pieces(line, 0, MAX_OCTETS))
    {
      var n := Octets(line[i]);
      var limit := MAX_OCTETS;
      if !first {
        limit := MAX_OCTETS - 1;
      }
      BrokenStep(line[i..], used, limit);
      assert line[i..][0] == line[i] && line[i..][1..] == line[i + 1..];
      if used + n > limit {
        out := out + CRLF;
        out := out + " ";
        used := 0;
        first := false;
      }
      out := out + [line[i]];
      used := used + n;
    }
    assert line[|line|..] == "";
    EmptyUnbroken(used, if first then MAX_OCTETS else MAX_OCTETS - 1);
    assert out + "" == out == b + Broken(Pieces(line, 0, MAX_OCTETS));
    out := out + CRLF;
    assert out == b + (Broken(Pieces(line, 0, MAX_OCTETS)) + CRLF);
  }

  lemma UnbrokenIsItself(line: string)
    ensures Broken([line]) == line
  {
  }

  lemma EmptyUnbroken(used: nat, limit: nat)
    ensures Broken(Pieces("", used, limit)) == ""
  {
  }

  // ---------- physical lines ----------

  function Concat(ps: seq<string>): string {
    if ps == [] then "" else ps[0] + Concat(ps[1..])
  }

  /** Nothing is lost at the breaks, and every break leaves the lines within the limit. */
  lemma {:induction false} PiecesMeaning(line: string, used: nat, limit: nat)
    requires used <= limit <= MAX_OCTETS
    ensures var ps := Pieces(line, used, limit);
            && Concat(ps) == line
            && used + OctetLength(ps[0]) <= limit
            && (line != "" && used + 4 <= limit ==> ps[0] != "")
            && (forall i :: 0 < i < |ps| ==> ps[i] != "" && OctetLength(ps[i]) <= MAX_OCTETS - 1)
  {
    hide Octets, OctetLength;
    EmptyLength();
    if line != "" {
      var c, n := line[0], Octets(line[0]);
      assert line == [c] + line[1..];
      if used + n > limit {
        PiecesMeaning(line[1..], n, MAX_OCTETS - 1);
        PrependMeaning(c, Pieces(line[1..], n, MAX_OCTETS - 1));
        ConcatEmptyFirst(Prepend(c, Pieces(line[1..], n, MAX_OCTETS - 1)));
      } else {
        PiecesMeaning(line[1..], used + n, limit);
        PrependMeaning(c, Pieces(line[1..], used + n, limit));
      }
    }
  }

  lemma EmptyLength()
    ensures OctetLength("") == 0
  {
  }

  lemma PrependMeaning(c: char, ps: seq<string>)
    requires ps != []
    ensures Concat(Prepend(c, ps)) == [c] + Concat(ps)
    ensures OctetLength(Prepend(c, ps)[0]) == Octets(c) + OctetLength(ps[0])
  {
    hide Octets, OctetLength;
    assert Prepend(c, ps)[1..] == ps[1..];
    assert [c] + ps[0] + Concat(ps[1..]) == [c] + (ps[0] + Concat(ps[1..]));
    OctetLengthFirst([c] + ps[0]);
    assert ([c] + ps[0])[1..] == ps[0];
  }

  lemma ConcatEmptyFirst(ps: seq<string>)
    ensures Concat([""] + ps) == Concat(ps)
  {
    assert ([""] + ps)[1..] == ps;
  }

  /** The physical lines of one content line; all but the first begin with the fold's space. */
  function Physical(line: string): (r: seq<string>)
  {
    var ps := Pieces(line, 0, MAX_OCTETS);
    [ps[0]] + Spaced(ps[1..])
  }

  function Spaced(ps: seq<string>): (r: seq<string>)
    ensures |r| == |ps| && forall i :: 0 <= i < |ps| ==> r[i] == " " + ps[i]
  {
    if ps == [] then [] else [" " + ps[0]] + Spaced(ps[1..])
  }

  /** Lines as they stand in a file, each ended by CRLF. */
  function Lines(ps: seq<string>): string {
    if ps == [] then "" else ps[0] + CRLF + Lines(ps[1..])
  }

  lemma {:induction false} BrokenIsLines(ps: seq<string>)
    requires ps != []
    ensures Broken(ps) + CRLF == Lines([ps[0]] + Spaced(ps[1..]))
  {
    if |ps| == 1 {
      assert ([ps[0]] + Spaced(ps[1..]))[1..] == [];
    } else {
      var rest := ps[1..];
      BrokenIsLines(rest);
      assert ([ps[0]] + Spaced(rest))[1..] == Spaced(rest);
      assert Spaced(rest) == [" " + rest[0]] + Spaced(rest[1..]);
      assert Lines(Spaced(rest)) == " " + rest[0] + CRLF + Lines(Spaced(rest[1..])) by {
        assert Spaced(rest)[1..] == Spaced(rest[1..]);
      }
      assert Lines([rest[0]] + Spaced(rest[1..])) == rest[0] + CRLF + Lines(Spaced(rest[1..])) by {
        assert ([rest[0]] + Spaced(rest[1..]))[1..] == Spaced(rest[1..]);
      }
      assert Lines(Spaced(rest)) == " " + (Broken(rest) + CRLF);
      assert Broken(ps) + CRLF == ps[0] + CRLF + (" " + (Broken(rest) + CRLF));
    }
  }

  /** Every physical line is within 75 octets, breaks fall between scalar
      values, and taking the fold's spaces away gives the content line back. */
  lemma FoldedMeaning(line: string)
    ensures Folded(line) == Lines(Physical(line))
    ensures forall p <- Physical(line) :: OctetLength(p) <= MAX_OCTETS
    ensures var ps := Pieces(line, 0, MAX_OCTETS);
            Concat(ps) == line && Physical(line)[0] == ps[0] && forall i :: 0 < i < |ps| ==>
                Physical(line)[i] == " " + ps[i]
  {
    hide Octets, Broken;
    var ps := Pieces(line, 0, MAX_OCTETS);
    BrokenIsLines(ps);
    PiecesMeaning(line, 0, MAX_OCTETS);
    forall p <- Physical(line) ensures OctetLength(p) <= MAX_OCTETS {
      var i :| 0 <= i < |Physical(line)| && Physical(line)[i] == p;
      if i > 0 {
        SpaceIsOneOctet(ps[i]);
      }
    }
  }

  lemma SpaceIsOneOctet(p: string)
    ensures OctetLength(" " + p) == 1 + OctetLength(p)
  {
    OctetLengthFirst(" " + p);
    assert (" " + p)[1..] == p;
  }

  // ---------- the object ----------

  /** Instants are nanoseconds since the Unix epoch. */
  datatype Event = Event(uid: string, summary: string, description: string, start: int, end: int, url: string)

  /** The year as time.Format prints it: at least four digits, a minus sign before year 0. */
  function YearDigits(y: int): string {
    if y >= 0 then Digits(y, 4) else "-" + Digits(-y, 4)
  }

  /** stamp: the UTC form of an instant, its fraction of a second dropped. */
  function Stamp(t: int): string {
    var seconds := t / NANO_SECOND;
    var d := DateOf(seconds / 86400);
    DateOfMeaning(seconds / 86400);
    YearDigits(d.year) + Digits(d.month, 2) + Digits(d.day, 2) + "T" + ClockDigits(seconds % 86400) + "Z"
  }

  function ClockDigits(second: nat): string {
    Digits(second / 3600, 2) + Digits(second % 3600 / 60, 2) + Digits(second % 60, 2)
  }

  /** A content line before folding: a name and what follows its colon. */
  datatype Pair = Pair(name: string, value: string) {
    function Line(): string {
      name + ":" + value
    }
  }

  function Header(): seq<Pair> {
    [Pair("BEGIN", "VCALENDAR"), Pair("VERSION", "2.0"), Pair("PRODID", "-//Overlap//Overlap Scheduler//EN"),
     Pair("CALSCALE", "GREGORIAN"), Pair("METHOD", "PUBLISH")]
  }

  /** The lines between BEGIN:VEVENT and END:VEVENT. */
  function Body(ev: Event, now: int): seq<Pair> {
    [Pair("UID", ev.uid), Pair("DTSTAMP", Stamp(now)), Pair("DTSTART", Stamp(ev.start)), Pair("DTEND", Stamp(ev.end)),
     Pair("SUMMARY", EscapeText(ev.summary))]
    + (if ev.description != "" then [Pair("DESCRIPTION", EscapeText(ev.description))] else [])
    + (if ev.url != "" then [Pair("URL", ev.url)] else [])
    + [Pair("STATUS", "CONFIRMED"), Pair("TRANSP", "OPAQUE")]
  }

  function Pairs(ev: Event, now: int): seq<Pair> {
    Header() + [Pair("BEGIN", "VEVENT")] + Body(ev, now) + [Pair("END", "VEVENT"), Pair("END", "VCALENDAR")]
  }

  function FoldedPairs(ps: seq<Pair>): string {
    if ps == [] then "" else FoldedPairs(ps[..|ps| - 1]) + Folded(ps[|ps| - 1].Line())
  }

  function Rendered(ev: Event, now: int): string {
    FoldedPairs(Pairs(ev, now))
  }

  /** One call of Render's write closures. */
  method WritePair(b: string, ghost written: seq<Pair>, name: string, value: string) returns (out: string)
    requires b == FoldedPairs(written)
    ensures out == FoldedPairs(written + [Pair(name, value)])
  {
    hide Folded;
    out := WriteFolded(b, name + ":" + value);
    assert (written + [Pair(name, value)])[..|written|] == written;
  }

  /** Render. */
  method Render(ev: Event, now: int) returns (b: string)
    ensures b == Rendered(ev, now)
  {
    hide FoldedPairs, Stamp, EscapeText;
    ghost var w: seq<Pair> := [];
    NothingFolded();
    b := WritePair("", w, "BEGIN", "VCALENDAR");
    w := w + [Pair("BEGIN", "VCALENDAR")];
    b := WritePair(b, w, "VERSION", "2.0");
    w := w + [Pair("VERSION", "2.0")];
    b := WritePair(b, w, "PRODID", "-//Overlap//Overlap Scheduler//EN");
    w := w + [Pair("PRODID", "-//Overlap//Overlap Scheduler//EN")];
    b := WritePair(b, w, "CALSCALE", "GREGORIAN");
    w := w + [Pair("CALSCALE", "GREGORIAN")];
    b := WritePair(b, w, "METHOD", "PUBLISH");
    w := w + [Pair("METHOD", "PUBLISH")];
    assert w == Header();
    b := WritePair(b, w, "BEGIN", "VEVENT");
    w := w + [Pair("BEGIN", "VEVENT")];
    b, w := RenderBody(b, w, ev, now);
    b := WritePair(b, w, "END", "VEVENT");
    w := w + [Pair("END", "VEVENT")];
    b := WritePair(b, w, "END", "VCALENDAR");
    w := w + [Pair("END", "VCALENDAR")];
    assert w == Pairs(ev, now);
  }

  lemma NothingFolded()
    ensures FoldedPairs([]) == ""
  {
  }

  method RenderBody(was: string, ghost before: seq<Pair>, ev: Event, now: int) returns (b: string, ghost w: seq<Pair>)
    requires was == FoldedPairs(before)
    ensures b == FoldedPairs(w) && w == before + Body(ev, now)
  {
    hide FoldedPairs, Stamp, EscapeText;
    b, w := was, before;
    b := WritePair(b, w, "UID", ev.uid);
    w := w + [Pair("UID", ev.uid)];
    b := WritePair(b, w, "DTSTAMP", Stamp(now));
    w := w + [Pair("DTSTAMP", Stamp(now))];
    b := WritePair(b, w, "DTSTART", Stamp(ev.start));
    w := w + [Pair("DTSTART", Stamp(ev.start))];
    b := WritePair(b, w, "DTEND", Stamp(ev.end));
    w := w + [Pair("DTEND", Stamp(ev.end))];
    b := WritePair(b, w, "SUMMARY", EscapeText(ev.summary));
    w := w + [Pair("SUMMARY", EscapeText(ev.summary))];
    ghost var front := w;
    if ev.description != "" {
      b := WritePair(b, w, "DESCRIPTION", EscapeText(ev.description));
      w := w + [Pair("DESCRIPTION", EscapeText(ev.description))];
    }
    ghost var middle := w;
    if ev.url != "" {
      b := WritePair(b, w, "URL", ev.url);
      w := w + [Pair("URL", ev.url)];
    }
    ghost var most := w;
    b := WritePair(b, w, "STATUS", "CONFIRMED");
    w := w + [Pair("STATUS", "CONFIRMED")];
    b := WritePair(b, w, "TRANSP", "OPAQUE");
    w := w + [Pair("TRANSP", "OPAQUE")];
    assert w == before + Body(ev, now);
  }
}
