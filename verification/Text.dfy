/** The string operations the calendar code uses.

    Text is a sequence of Unicode scalar values; a Go string holding invalid
    UTF-8 is not modelled. */
module Text {
  import opened Options

  /** The length of a scalar value in UTF-8. */
  function Octets(c: char): (n: nat)
    ensures 1 <= n <= 4
  {
    if c as int < 0x80 then 1 else if c as int < 0x800 then 2 else if c as int < 0x1_0000 then 3 else 4
  }

  function OctetLength(s: string): nat {
    if s == "" then 0 else OctetLength(s[..|s| - 1]) + Octets(s[|s| - 1])
  }

  lemma {:induction false} OctetLengthAdds(a: string, b: string)
    ensures OctetLength(a + b) == OctetLength(a) + OctetLength(b)
  {
    if b == "" {
      assert a + b == a;
    } else {
      assert (a + b)[..|a + b| - 1] == a + b[..|b| - 1];
      OctetLengthAdds(a, b[..|b| - 1]);
    }
  }

  // ---------- replacing ----------

  /** strings.ReplaceAll: leftmost matches, not overlapping. */
  function ReplaceAll(s: string, old_: string, new_: string): string
    requires old_ != ""
  {
    if |s| < |old_| then s
    else if s[..|old_|] == old_ then new_ + ReplaceAll(s[|old_|..], old_, new_)
    else [s[0]] + ReplaceAll(s[1..], old_, new_)
  }

  predicate Without(s: string, c: char) {
    c !in s
  }

  lemma ReplaceSkipsOne(c: char, rest: string, old_: string, new_: string)
    requires old_ != "" && c != old_[0]
    ensures ReplaceAll([c] + rest, old_, new_) == [c] + ReplaceAll(rest, old_, new_)
  {
    var all := [c] + rest;
    assert all[1..] == rest;
    if |all| >= |old_| {
      assert all[..|old_|][0] == c;
    }
  }

  /** Text in which no match can begin passes unchanged. */
  lemma {:induction false} ReplaceSkips(s: string, rest: string, old_: string, new_: string)
    requires old_ != "" && Without(s, old_[0])
    ensures ReplaceAll(s + rest, old_, new_) == s + ReplaceAll(rest, old_, new_)
  {
    hide ReplaceAll;
    if s == "" {
      assert s + rest == rest;
    } else {
      assert s + rest == [s[0]] + (s[1..] + rest) && s == [s[0]] + s[1..];
      assert Without(s[1..], old_[0]);
      ReplaceSkips(s[1..], rest, old_, new_);
      ReplaceSkipsOne(s[0], s[1..] + rest, old_, new_);
    }
  }

  lemma ReplaceNothing(s: string, old_: string, new_: string)
    requires old_ != "" && Without(s, old_[0])
    ensures ReplaceAll(s, old_, new_) == s
  {
    ReplaceSkips(s, "", old_, new_);
    assert s + "" == s;
  }

  /** A single character is replaced piece by piece. */
  lemma {:induction false} ReplaceOneSplits(a: string, b: string, c: char, new_: string)
    ensures ReplaceAll(a + b, [c], new_) == ReplaceAll(a, [c], new_) + ReplaceAll(b, [c], new_)
  {
    if a == "" {
      assert a + b == b;
    } else {
      assert (a + b)[1..] == a[1..] + b && (a + b)[..1] == a[..1] == [a[0]];
      ReplaceOneSplits(a[1..], b, c, new_);
    }
  }

  /** CRLF and CR become LF, in two passes. */
  function NormalizeEnds(s: string): string {
    ReplaceAll(ReplaceAll(s, "\r\n", "\n"), "\r", "\n")
  }

  lemma NormalizeReturnAndFeed(rest: string)
    ensures NormalizeEnds("\r\n" + rest) == "\n" + NormalizeEnds(rest)
  {
    var s := "\r\n" + rest;
    assert s[..2] == "\r\n" && s[2..] == rest;
    assert ReplaceAll(s, "\r\n", "\n") == "\n" + ReplaceAll(rest, "\r\n", "\n");
    ReplaceSkipsOne('\n', ReplaceAll(rest, "\r\n", "\n"), "\r", "\n");
  }

  lemma NormalizeOne(c: char, rest: string)
    requires c != '\r' || rest == "" || rest[0] != '\n'
    ensures NormalizeEnds([c] + rest) == (if c == '\r' then "\n" else [c]) + NormalizeEnds(rest)
  {
    var s, t := [c] + rest, ReplaceAll(rest, "\r\n", "\n");
    assert s[1..] == rest;
    assert |s| >= 2 ==> s[..2] == [c, rest[0]];
    assert ReplaceAll(s, "\r\n", "\n") == [c] + t;
    ReplaceOneSplits([c], t, '\r', "\n");
    hide ReplaceAll;
    ReplaceOne(c, '\r', "\n");
  }

  lemma ReplaceOne(c: char, old_: char, new_: string)
    ensures ReplaceAll([c], [old_], new_) == if c == old_ then new_ else [c]
  {
    assert [c][..1] == [c] && [c][1..] == "";
    assert ReplaceAll("", [old_], new_) == "";
    assert new_ + "" == new_;
  }

  // ---------- splitting ----------

  /** strings.Split on one character. */
  function Split(s: string, sep: char): (r: seq<string>)
    ensures r != []
  {
    if s == "" then [""]
    else
      var rest := Split(s[1..], sep);
      if s[0] == sep then [""] + rest else [[s[0]] + rest[0]] + rest[1..]
  }

  lemma {:induction false} SplitAtFirst(p: string, rest: string, sep: char)
    requires Without(p, sep)
    ensures Split(p + [sep] + rest, sep) == [p] + Split(rest, sep)
  {
    if p == "" {
      assert (p + [sep] + rest)[1..] == rest;
    } else {
      assert (p + [sep] + rest)[1..] == p[1..] + [sep] + rest;
      assert Without(p[1..], sep);
      SplitAtFirst(p[1..], rest, sep);
      assert [p[0]] + p[1..] == p;
    }
  }

  lemma {:induction false} SplitNothing(p: string, sep: char)
    requires Without(p, sep)
    ensures Split(p, sep) == [p]
  {
    if p != "" {
      assert Without(p[1..], sep);
      SplitNothing(p[1..], sep);
      assert [p[0]] + p[1..] == p;
    }
  }

  /** strings.IndexByte: the first position of c, or the length when there is none. */
  function IndexOf(s: string, c: char): (i: nat)
    ensures i <= |s|
    ensures i < |s| ==> s[i] == c
    ensures Without(s[..i], c)
  {
    if s == "" || s[0] == c then 0
    else
      assert s[..1 + IndexOf(s[1..], c)] == [s[0]] + s[1..][..IndexOf(s[1..], c)];
      1 + IndexOf(s[1..], c)
  }

  lemma {:induction false} IndexOfFirst(p: string, c: char, rest: string)
    requires Without(p, c)
    ensures IndexOf(p + [c] + rest, c) == |p|
  {
    if p != "" {
      assert (p + [c] + rest)[1..] == p[1..] + [c] + rest;
      assert Without(p[1..], c);
      IndexOfFirst(p[1..], c, rest);
    }
  }

  // ---------- trimming and case ----------

  /** unicode.IsSpace. */
  predicate IsSpace(c: char) {
    var n := c as int;
    || 9 <= n <= 13 || n == 0x20 || n == 0x85 || n == 0xA0 || n == 0x1680
    || 0x2000 <= n <= 0x200A || n == 0x2028 || n == 0x2029 || n == 0x202F || n == 0x205F || n == 0x3000
  }

  function TrimLeft(s: string): string {
    if s != "" && IsSpace(s[0]) then TrimLeft(s[1..]) else s
  }

  function TrimRight(s: string): string {
    if s != "" && IsSpace(s[|s| - 1]) then TrimRight(s[..|s| - 1]) else s
  }

  function TrimSpace(s: string): string {
    TrimRight(TrimLeft(s))
  }

  /** Strips one character from both ends as often as it occurs. */
  function TrimChar(s: string, c: char): string
    decreases |s|
  {
    if s != "" && s[0] == c then TrimChar(s[1..], c)
    else if s != "" && s[|s| - 1] == c then TrimChar(s[..|s| - 1], c)
    else s
  }

  function UpperChar(c: char): char {
    if 'a' <= c <= 'z' then (c as int - 32) as char else c
  }

  /** Upper case of the ASCII letters; other letters are left as they are. */
  function ToUpper(s: string): (r: string)
    ensures |r| == |s|
  {
    if s == "" then "" else [UpperChar(s[0])] + ToUpper(s[1..])
  }

  predicate EqualFold(a: string, b: string) {
    ToUpper(a) == ToUpper(b)
  }

  // ---------- numbers ----------

  function Digit(n: nat): char
    requires n < 10
  {
    ('0' as int + n) as char
  }

  /** Decimal digits, padded with zeros to the width. */
  function Digits(n: nat, width: nat): string {
    if n < 10 && width <= 1 then [Digit(n)]
    else Digits(n / 10, if width == 0 then 0 else width - 1) + [Digit(n % 10)]
  }

  /** The number a string of digits denotes; None when anything else occurs or it is empty. */
  function ParseNat(s: string): Option<nat> {
    if s == "" || !('0' <= s[|s| - 1] <= '9') then None
    else
      var d := s[|s| - 1] as int - '0' as int;
      if |s| == 1 then Some(d)
      else
        match ParseNat(s[..|s| - 1])
        case None => None
        case Some(n) => Some(10 * n + d)
  }

  lemma {:induction false} DigitsParse(n: nat, width: nat)
    ensures ParseNat(Digits(n, width)) == Some(n)
    ensures Digits(n, width) != "" && forall c <- Digits(n, width) :: '0' <= c <= '9'
  {
    if !(n < 10 && width <= 1) {
      var w := if width == 0 then 0 else width - 1;
      DigitsParse(n / 10, w);
      assert Digits(n, width)[..|Digits(n, width)| - 1] == Digits(n / 10, w);
    }
  }

  /** A number that fits is padded to exactly the width. */
  lemma TwoDigits(n: nat)
    requires n < 100
    ensures |Digits(n, 2)| == 2
  {
    assert |Digits(n / 10, 1)| == 1;
  }

  lemma FourDigits(n: nat)
    requires n < 10000
    ensures |Digits(n, 4)| == 4
  {
    TwoDigits(n / 100);
    assert |Digits(n / 10, 3)| == |Digits(n / 10 / 10, 2)| + 1;
    assert n / 10 / 10 == n / 100;
  }
}
