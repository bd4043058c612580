/**
 The synthetic name `member:<id>`: how it is written, and the two parsers that read it back.
 The parsers use Python's int(), which takes blanks around the number, a sign and single underscores.
 */
module MemberName {
  import opened Prelude

  predicate IsDigit(c: char) {
    '0' <= c <= '9'
  }

  function DigitValue(c: char): nat
    requires IsDigit(c)
  {
    (c - '0') as nat
  }

  function DigitChar(d: nat): (c: char)
    requires d < 10
    ensures IsDigit(c) && DigitValue(c) == d
  {
    '0' + d as char
  }

  predicate IsBlank(c: char) {
    9 as char <= c <= 13 as char || 28 as char <= c <= 32 as char
  }

  predicate AllDigits(s: string) {
    forall i :: 0 <= i < |s| ==> IsDigit(s[i])
  }

  // ----- writing

  function Decimal(n: nat): string {
    if n < 10 then [DigitChar(n)] else Decimal(n / 10) + [DigitChar(n % 10)]
  }

  /** str(n) */
  function Print(n: int): string {
    if n < 0 then "-" + Decimal(-n) else Decimal(n)
  }

  const PREFIX := "member:"

  /** f"member:{n}" */
  function NameOf(n: int): string {
    PREFIX + Print(n)
  }

  // ----- reading

  function StripLeft(s: string): string {
    if s != "" && IsBlank(s[0]) then StripLeft(s[1..]) else s
  }

  function StripRight(s: string): string {
    if s != "" && IsBlank(s[|s| - 1]) then StripRight(s[..|s| - 1]) else s
  }

  /** str.strip() */
  function Strip(s: string): string {
    StripRight(StripLeft(s))
  }

  /** What is before the last digit, and before an underscore in front of it. */
  function BeforeLast(s: string): (r: string)
    requires |s| > 1
    ensures |r| < |s| && r <= s
  {
    if s[|s| - 2] == '_' then s[..|s| - 2] else s[..|s| - 1]
  }

  /** Digits with at most one underscore between two of them; None for anything else. */
  function Digits(s: string): Option<nat>
    decreases |s|
  {
    var n := |s|;
    if n == 0 || !IsDigit(s[n - 1]) then None
    else if n == 1 then Some(DigitValue(s[0]))
    else
      match Digits(BeforeLast(s))
      case None => None
      case Some(v) => Some(10 * v + DigitValue(s[n - 1]))
  }

  /** int(s), with None for the ValueError. */
  function ParseInt(s: string): Option<int> {
    var t := Strip(s);
    if t == "" then None
    else if t[0] == '-' then
      match Digits(t[1..])
      case None => None
      case Some(v) => Some(0 - v)
    else
      match Digits(if t[0] == '+' then t[1..] else t)
      case None => None
      case Some(v) => Some(v)
  }

  /** The audit view's parser. */
  function ExtractContactId(matchedName: Option<string>): Option<int> {
    if matchedName.Some? && PREFIX <= matchedName.value then ParseInt(matchedName.value[|PREFIX|..]) else None
  }

  datatype Contact = Contact(firstName: string, lastName: string)

  function Display(c: Contact): string {
    Strip(c.firstName + " " + c.lastName)
  }

  /** The task view's parser and lookup. */
  function ResolveName(rawName: Option<string>, contacts: map<int, Contact>): Option<string> {
    if rawName.None? || rawName.value == "" || !(PREFIX <= rawName.value) then rawName
    else
      match ParseInt(rawName.value[|PREFIX|..])
      case None => rawName
      case Some(id) => if id in contacts then Some(Display(contacts[id])) else rawName
  }

  // ----- what is written is read back

  lemma {:induction false} DecimalReadsBack(n: nat)
    ensures Decimal(n) != "" && AllDigits(Decimal(n)) && Digits(Decimal(n)) == Some(n)
  {
    if n >= 10 {
      DecimalReadsBack(n / 10);
      var s := Decimal(n);
      assert s[..|s| - 1] == Decimal(n / 10);
      assert IsDigit(s[|s| - 2]);
    }
  }

  lemma PrintReadsBack(n: int)
    ensures ParseInt(Print(n)) == Some(n)
  {
    var s := Print(n);
    DecimalReadsBack(if n < 0 then -n else n);
    assert !IsBlank(s[0]) && IsDigit(s[|s| - 1]);
    assert Strip(s) == s;
    if n < 0 {
      assert s[1..] == Decimal(-n);
    }
  }

  /** Both parsers read the written name as the same contact, for every id. */
  lemma NameReadsBack(n: int, contacts: map<int, Contact>)
    ensures ExtractContactId(Some(NameOf(n))) == Some(n)
    ensures ResolveName(Some(NameOf(n)), contacts) ==
            Some(if n in contacts then Display(contacts[n]) else NameOf(n))
  {
    assert NameOf(n)[|PREFIX|..] == Print(n);
    PrintReadsBack(n);
  }

  /** Distinct ids never print alike. */
  lemma NamesDistinct(a: int, b: int)
    ensures NameOf(a) == NameOf(b) <==> a == b
  {
    NameReadsBack(a, map[]);
    NameReadsBack(b, map[]);
  }

  lemma {:induction false} AllDigitsReads(s: string)
    requires s != "" && AllDigits(s)
    ensures Digits(s).Some?
    decreases |s|
  {
    if |s| > 1 {
      AllDigitsReads(s[..|s| - 1]);
    }
  }

  // ----- what the parsers make of other texts

  predicate Blanks(s: string) {
    forall i :: 0 <= i < |s| ==> IsBlank(s[i])
  }

  /** The blanks of ASCII, as str.strip() and int() take them. */
  lemma BlanksExactly(c: char)
    ensures IsBlank(c) <==> c as int in {9, 10, 11, 12, 13, 28, 29, 30, 31, 32}
  {
  }

  /** A text without blanks around it. */
  predicate Trim(s: string) {
    s != "" && !IsBlank(s[0]) && !IsBlank(s[|s| - 1])
  }

  lemma {:induction false} StripLeftOf(pad: string, s: string)
    requires Blanks(pad) && (s == "" || !IsBlank(s[0]))
    ensures StripLeft(pad + s) == s
  {
    if pad == "" {
      assert pad + s == s;
    } else {
      assert (pad + s)[1..] == pad[1..] + s;
      StripLeftOf(pad[1..], s);
    }
  }

  lemma {:induction false} StripRightOf(s: string, end: string)
    requires Blanks(end) && (s == "" || !IsBlank(s[|s| - 1]))
    ensures StripRight(s + end) == s
  {
    if end == "" {
      assert s + end == s;
    } else {
      assert (s + end)[..|s + end| - 1] == s + end[..|end| - 1];
      StripRightOf(s, end[..|end| - 1]);
    }
  }

  /** Stripping takes the blanks around a text, and no others. */
  lemma StripOf(pad: string, s: string, end: string)
    requires Blanks(pad) && Trim(s) && Blanks(end)
    ensures Strip(pad + (s + end)) == s
  {
    StripLeftOf(pad, s + end);
    StripRightOf(s, end);
  }

  lemma ParseOf(pad: string, s: string, end: string)
    requires Blanks(pad) && Blanks(end) && s != "" && AllDigits(s)
    ensures ParseInt(pad + (s + end)) == Digits(s)
  {
    assert IsDigit(s[0]) && IsDigit(s[|s| - 1]);
    StripOf(pad, s, end);
  }

  lemma ParseStripped(text: string, s: string, minus: bool)
    requires s != "" && Strip(text) == (if minus then ['-'] + s else ['+'] + s)
    ensures Digits(s).Some? ==> ParseInt(text) == Some(if minus then 0 - Digits(s).value else Digits(s).value)
  {
    var t := Strip(text);
    assert t[1..] == s;
  }

  lemma ParseSigned(pad: string, minus: bool, s: string, end: string)
    requires Blanks(pad) && Blanks(end) && s != "" && AllDigits(s) && Digits(s).Some?
    ensures ParseInt(pad + ((if minus then ['-'] + s else ['+'] + s) + end)) ==
            Some(if minus then 0 - Digits(s).value else Digits(s).value)
  {
    var t := if minus then ['-'] + s else ['+'] + s;
    assert IsDigit(t[|t| - 1]);
    StripOf(pad, t, end);
    ParseStripped(pad + (t + end), s, minus);
  }

  /** The number is read behind blanks, before blanks, and with either sign. */
  lemma NumberIsRead(pad: string, n: nat, end: string)
    requires Blanks(pad) && Blanks(end)
    ensures ParseInt(pad + (Decimal(n) + end)) == Some(n)
    ensures ParseInt(pad + ((['+'] + Decimal(n)) + end)) == Some(n)
    ensures ParseInt(pad + ((['-'] + Decimal(n)) + end)) == Some(0 - n)
  {
    DecimalReadsBack(n);
    ParseOf(pad, Decimal(n), end);
    ParseSigned(pad, false, Decimal(n), end);
    ParseSigned(pad, true, Decimal(n), end);
  }

  predicate DigitOrSeparator(s: string, i: nat)
    requires 0 < i < |s|
  {
    IsDigit(s[i]) || (s[i] == '_' && IsDigit(s[i - 1]))
  }

  /** Digits, and single underscores each with a digit on both sides. */
  ghost predicate IsNumeral(s: string) {
    && s != "" && IsDigit(s[0]) && IsDigit(s[|s| - 1])
    && forall i :: 0 < i < |s| ==> DigitOrSeparator(s, i)
  }

  lemma PrefixSeparators(s: string, t: string)
    requires t <= s
    ensures forall i :: 0 < i < |t| ==> (DigitOrSeparator(t, i) <==> DigitOrSeparator(s, i))
  {
  }

  lemma NumeralWithout(s: string, t: string)
    requires |s| > 1 && IsDigit(s[|s| - 1])
    requires t == BeforeLast(s)
    ensures IsNumeral(s) <==> IsNumeral(t)
  {
    var n := |s|;
    PrefixSeparators(s, t);
    assert DigitOrSeparator(s, n - 1);
    if IsNumeral(s) {
      assert n > 2 ==> DigitOrSeparator(s, n - 2);
    }
    if IsNumeral(t) {
      assert t[|t| - 1] == s[|t| - 1];
      forall i | 0 < i < n
        ensures DigitOrSeparator(s, i)
      {
        assert i < |t| ==> DigitOrSeparator(t, i);
      }
    }
  }

  lemma {:induction false} NumeralsExactly(s: string)
    ensures Digits(s).Some? <==> IsNumeral(s)
    decreases |s|
  {
    var n := |s|;
    if n > 1 && IsDigit(s[n - 1]) {
      NumeralsExactly(BeforeLast(s));
      NumeralWithout(s, BeforeLast(s));
    }
  }

  lemma LastDigit(t: string, s: string)
    requires |t| > 1 && IsDigit(t[|t| - 1]) && BeforeLast(t) == s
    ensures Digits(t) == match Digits(s) case None => None case Some(v) => Some(10 * v + DigitValue(t[|t| - 1]))
  {
  }

  lemma BeforeLastOf(s: string, d: char)
    requires s != "" && IsDigit(s[|s| - 1]) && IsDigit(d)
    ensures BeforeLast(s + [d]) == s && BeforeLast(s + ['_'] + [d]) == s
  {
    var t, u := s + [d], s + ['_'] + [d];
    assert t[|t| - 2] == s[|s| - 1] && u[|u| - 2] == '_';
    assert t[..|t| - 1] == s && u[..|u| - 2] == s;
  }

  /** Both texts read as the same number with one more digit. */
  lemma SameDigitAfter(s: string, t: string, u: string, w: string)
    requires |s| > 1 && |t| > 1 && IsDigit(s[|s| - 1]) && t[|t| - 1] == s[|s| - 1]
    requires BeforeLast(s) == u && BeforeLast(t) == w && Digits(u) == Digits(w)
    ensures Digits(s) == Digits(t)
  {
    LastDigit(s, u);
    LastDigit(t, w);
  }

  lemma UnderscoreBase(a: string, d: char)
    requires a != "" && IsDigit(a[|a| - 1]) && IsDigit(d)
    ensures Digits(a + ['_'] + [d]) == Digits(a + [d])
  {
    BeforeLastOf(a, d);
    SameDigitAfter(a + ['_'] + [d], a + [d], a, a);
  }

  lemma UnderscoreStep(s: string, t: string, d: char)
    requires s != "" && t != "" && IsDigit(s[|s| - 1]) && IsDigit(t[|t| - 1]) && IsDigit(d)
    requires Digits(s) == Digits(t)
    ensures Digits(s + [d]) == Digits(t + [d])
  {
    BeforeLastOf(s, d);
    BeforeLastOf(t, d);
    SameDigitAfter(s + [d], t + [d], s, t);
  }

  lemma Split(a: string, c: string, d: char)
    ensures a + ['_'] + (c + [d]) == (a + ['_'] + c) + [d]
    ensures a + (c + [d]) == (a + c) + [d]
  {
  }

  /** An underscore does not change the value. */
  lemma {:induction false} UnderscoreIsIgnored(a: string, b: string)
    requires IsNumeral(a) && b != "" && AllDigits(b)
    ensures Digits(a + ['_'] + b) == Digits(a + b)
    decreases |b|
  {
    var d, c := b[|b| - 1], b[..|b| - 1];
    assert b == c + [d];
    if c == "" {
      assert b == [d];
      UnderscoreBase(a, d);
    } else {
      UnderscoreIsIgnored(a, c);
      assert IsDigit(c[|c| - 1]);
      UnderscoreStep(a + ['_'] + c, a + c, d);
      Split(a, c, d);
    }
  }

  /** The task view shows first and last name with a blank between, or the one that is there. */
  lemma NameIsShown(first: string, last: string)
    requires first == "" || Trim(first)
    requires last == "" || Trim(last)
    ensures first != "" && last != "" ==> Display(Contact(first, last)) == first + " " + last
    ensures first != "" && last == "" ==> Display(Contact(first, last)) == first
    ensures first == "" && last != "" ==> Display(Contact(first, last)) == last
  {
    if first != "" && last != "" {
      StripOf("", first + " " + last, "");
      assert "" + ((first + " " + last) + "") == first + " " + last;
    } else if first != "" {
      StripOf("", first, " ");
      assert "" + (first + " ") == first + " " + last;
    } else if last != "" {
      StripOf(" ", last, "");
      assert " " + (last + "") == first + " " + last;
    }
  }
}
