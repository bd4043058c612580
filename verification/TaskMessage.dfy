/**
 The text published when a task changes: json.dumps of a small object, which never spans two lines and is
 read back by a JSON reader (section 7 of RFC 8259) as the update it was.
 */
module TaskMessage {
  import opened Prelude
  import opened EventStream
  import opened MemberName
  import TaskFeed

  function HexDigit(d: nat): (c: char)
    requires d < 16
    ensures !IsBreak(c)
  {
    if d < 10 then '0' + d as char else 'a' + (d - 10) as char
  }

  /** \uXXXX */
  function UnicodeEscape(n: nat): (s: string)
    requires n < 0x1_0000
    ensures OneLine(s)
  {
    ['\\', 'u', HexDigit(n / 0x1000), HexDigit(n / 0x100 % 16), HexDigit(n / 16 % 16), HexDigit(n % 16)]
  }

  /** A code point beyond the first plane takes two escapes. */
  function SurrogatePair(n: nat): (s: string)
    requires 0x1_0000 <= n < 0x11_0000
    ensures OneLine(s)
  {
    UnicodeEscape(0xD800 + (n - 0x1_0000) / 0x400) + UnicodeEscape(0xDC00 + (n - 0x1_0000) % 0x400)
  }

  /** One character of a JSON string with ensure_ascii: what is not printable ASCII is escaped. */
  function EscapeChar(c: char): (s: string)
    ensures OneLine(s)
  {
    var n := c as int;
    if c == '"' then "\\\""
    else if c == '\\' then "\\\\"
    else if c == '\n' then "\\n"
    else if c == '\r' then "\\r"
    else if c == '\t' then "\\t"
    else if n == 8 then "\\b"
    else if n == 12 then "\\f"
    else if ' ' <= c <= '~' then [c]
    else if n < 0x1_0000 then UnicodeEscape(n)
    else SurrogatePair(n)
  }

  function Escape(s: string): string {
    if s == "" then "" else EscapeChar(s[0]) + Escape(s[1..])
  }

  const HEAD := "{\"type\":\"task_update\",\"task_id\":"
  const MIDDLE := ",\"status\":\""
  const TAIL := "\"}"

  /** {"type":"task_update","task_id":<id>,"status":"<status>"} */
  function TaskUpdate(taskId: nat, status: string): string {
    HEAD + Decimal(taskId) + MIDDLE + Escape(status) + TAIL
  }

  lemma {:induction false} EscapeOneLine(s: string)
    ensures OneLine(Escape(s))
  {
    if s != "" {
      EscapeOneLine(s[1..]);
    }
  }

  lemma FixedPartsOneLine()
    ensures OneLine(HEAD) && OneLine(MIDDLE) && OneLine(TAIL)
  {
  }

  lemma OneLineConcat(a: string, b: string)
    requires OneLine(a) && OneLine(b)
    ensures OneLine(a + b)
  {
  }

  lemma DecimalOneLine(n: nat)
    ensures OneLine(Decimal(n))
  {
    DecimalReadsBack(n);
    forall i | 0 <= i < |Decimal(n)|
      ensures !IsBreak(Decimal(n)[i])
    {
      assert IsDigit(Decimal(n)[i]);
    }
  }

  /** Whatever the status holds, line breaks included, the published text is one line. */
  lemma TaskUpdateOneLine(taskId: nat, status: string)
    ensures OneLine(TaskUpdate(taskId, status))
  {
    FixedPartsOneLine();
    DecimalOneLine(taskId);
    EscapeOneLine(status);
    OneLineConcat(HEAD, Decimal(taskId));
    OneLineConcat(HEAD + Decimal(taskId), MIDDLE);
    OneLineConcat(HEAD + Decimal(taskId) + MIDDLE, Escape(status));
    OneLineConcat(HEAD + Decimal(taskId) + MIDDLE + Escape(status), TAIL);
  }

  // ----- a JSON reader

  function HexValue(c: char): (d: Option<nat>)
    ensures d.Some? ==> d.value < 16
  {
    if '0' <= c <= '9' then Some((c - '0') as nat)
    else if 'a' <= c <= 'f' then Some((c - 'a') as nat + 10)
    else if 'A' <= c <= 'F' then Some((c - 'A') as nat + 10)
    else None
  }

  /** The code unit that four hexadecimal digits stand for. */
  function CodeUnit(s: string): (n: Option<nat>)
    ensures n.Some? ==> n.value < 0x1_0000
  {
    if |s| < 4 then None
    else
      var a, b, c, d := HexValue(s[0]), HexValue(s[1]), HexValue(s[2]), HexValue(s[3]);
      if a.Some? && b.Some? && c.Some? && d.Some?
      then Some(0x1000 * a.value + 0x100 * b.value + 16 * c.value + d.value) else None
  }

  /** A character written with one or, beyond the first plane, two escapes; and what follows it. */
  function ReadUnicode(s: string): (r: Option<(char, string)>)
    requires |s| >= 2
    ensures r.Some? ==> |r.value.1| < |s|
  {
    match CodeUnit(s[2..])
    case None => None
    case Some(unit) =>
      if unit < 0xD800 || 0xE000 <= unit then Some((unit as char, s[6..]))
      else if unit < 0xDC00 && |s| >= 8 && s[6] == '\\' && s[7] == 'u' then
        match CodeUnit(s[8..])
        case None => None
        case Some(low) =>
          if 0xDC00 <= low < 0xE000
          then Some(((0x1_0000 + (unit - 0xD800) * 0x400 + (low - 0xDC00)) as char, s[12..])) else None
      else None
  }

  /** The first character of the inside of a JSON string, and what follows it. */
  function ReadChar(s: string): (r: Option<(char, string)>)
    ensures r.Some? ==> |r.value.1| < |s|
  {
    if s == "" || s[0] < ' ' || s[0] == '"' then None
    else if s[0] != '\\' then Some((s[0], s[1..]))
    else if |s| == 1 then None
    else
      match s[1]
      case '"' => Some(('"', s[2..]))
      case '\\' => Some(('\\', s[2..]))
      case '/' => Some(('/', s[2..]))
      case 'b' => Some((8 as char, s[2..]))
      case 'f' => Some((12 as char, s[2..]))
      case 'n' => Some(('\n', s[2..]))
      case 'r' => Some(('\r', s[2..]))
      case 't' => Some(('\t', s[2..]))
      case 'u' => ReadUnicode(s)
      case _ => None
  }

  /** The inside of a JSON string up to its closing quote, and what follows that. */
  function ReadString(s: string): Option<(string, string)>
    decreases |s|
  {
    if s != "" && s[0] == '"' then Some(("", s[1..]))
    else
      match ReadChar(s)
      case None => None
      case Some((c, rest)) =>
        match ReadString(rest)
        case None => None
        case Some((text, after)) => Some(([c] + text, after))
  }

  /** Leading digits. */
  function DigitsLength(s: string): (n: nat)
    ensures n <= |s|
  {
    if s != "" && IsDigit(s[0]) then 1 + DigitsLength(s[1..]) else 0
  }

  /** The id and the status that a published text carries. */
  function ReadUpdate(text: string): Option<(nat, string)> {
    if !(HEAD <= text) then None
    else
      var rest := text[|HEAD|..];
      var n := DigitsLength(rest);
      var id := Digits(rest[..n]);
      if id.None? || !(MIDDLE <= rest[n..]) then None
      else
        match ReadString(rest[n..][|MIDDLE|..])
        case None => None
        case Some((status, end)) => if end == "}" then Some((id.value, status)) else None
  }

  lemma HexReadsBack(d: nat)
    requires d < 16
    ensures HexValue(HexDigit(d)) == Some(d)
  {
  }

  lemma CodeUnitReadsBack(n: nat, rest: string)
    requires n < 0x1_0000
    ensures CodeUnit((UnicodeEscape(n) + rest)[2..]) == Some(n)
    ensures (UnicodeEscape(n) + rest)[6..] == rest
  {
    HexReadsBack(n / 0x1000);
    HexReadsBack(n / 0x100 % 16);
    HexReadsBack(n / 16 % 16);
    HexReadsBack(n % 16);
    FourDigits(n);
  }

  lemma FourDigits(n: nat)
    requires n < 0x1_0000
    ensures 0x1000 * (n / 0x1000) + 0x100 * (n / 0x100 % 16) + 16 * (n / 16 % 16) + n % 16 == n
  {
    var a, b := n / 16, n / 0x100;
    assert n == 16 * a + n % 16;
    assert b == a / 16 && a == 16 * b + a % 16;
    assert n / 0x1000 == b / 16 && b == 16 * (b / 16) + b % 16;
  }

  lemma OneUnitReadsBack(n: nat, rest: string)
    requires n < 0xD800 || 0xE000 <= n < 0x1_0000
    ensures ReadUnicode(UnicodeEscape(n) + rest) == Some((n as char, rest))
  {
    CodeUnitReadsBack(n, rest);
  }

  lemma TwoUnitsReadBack(high: nat, low: nat, rest: string)
    requires 0xD800 <= high < 0xDC00 <= low < 0xE000
    ensures ReadUnicode(UnicodeEscape(high) + (UnicodeEscape(low) + rest)) ==
            Some(((0x1_0000 + (high - 0xD800) * 0x400 + (low - 0xDC00)) as char, rest))
  {
    var second := UnicodeEscape(low) + rest;
    var s := UnicodeEscape(high) + second;
    CodeUnitReadsBack(high, second);
    CodeUnitReadsBack(low, rest);
    assert s[6] == '\\' && s[7] == 'u';
    assert s[8..] == s[6..][2..] && s[12..] == s[6..][6..];
  }

  lemma ReadsUnicode(s: string)
    requires |s| >= 2 && s[0] == '\\' && s[1] == 'u'
    ensures ReadChar(s) == ReadUnicode(s)
  {
  }

  lemma EscapedBelow(c: char, rest: string)
    requires |EscapeChar(c)| > 2 && c as int < 0x1_0000
    ensures ReadUnicode(EscapeChar(c) + rest) == Some((c, rest))
  {
    BelowIsOneUnit(c);
    OneUnitReadsBack(c as int, rest);
  }

  lemma BelowIsOneUnit(c: char)
    requires |EscapeChar(c)| > 2 && c as int < 0x1_0000
    ensures EscapeChar(c) == UnicodeEscape(c as int)
  {
  }

  /** The two halves of a code point beyond the first plane. */
  lemma Halves(n: nat)
    requires 0x1_0000 <= n < 0x11_0000
    ensures var high, low := 0xD800 + (n - 0x1_0000) / 0x400, 0xDC00 + (n - 0x1_0000) % 0x400;
            && 0xD800 <= high < 0xDC00 <= low < 0xE000
            && 0x1_0000 + (high - 0xD800) * 0x400 + (low - 0xDC00) == n
  {
  }

  lemma PairOfHalves(n: nat, high: nat, low: nat)
    requires 0xD800 <= high < 0xDC00 <= low < 0xE000
    requires n == 0x1_0000 + (high - 0xD800) * 0x400 + (low - 0xDC00)
    ensures SurrogatePair(n) == UnicodeEscape(high) + UnicodeEscape(low)
  {
    assert (n - 0x1_0000) / 0x400 == high - 0xD800 && (n - 0x1_0000) % 0x400 == low - 0xDC00;
  }

  lemma HalvesReadBack(n: nat, high: nat, low: nat, rest: string)
    requires 0xD800 <= high < 0xDC00 <= low < 0xE000
    requires n == 0x1_0000 + (high - 0xD800) * 0x400 + (low - 0xDC00)
    ensures ReadUnicode(SurrogatePair(n) + rest) == Some((n as char, rest))
  {
    PairOfHalves(n, high, low);
    PairThen(UnicodeEscape(high), UnicodeEscape(low), rest);
    TwoUnitsReadBack(high, low, rest);
  }

  lemma PairReadsBack(n: nat, rest: string)
    requires 0x1_0000 <= n < 0x11_0000
    ensures ReadUnicode(SurrogatePair(n) + rest) == Some((n as char, rest))
  {
    Halves(n);
    HalvesReadBack(n, 0xD800 + (n - 0x1_0000) / 0x400, 0xDC00 + (n - 0x1_0000) % 0x400, rest);
  }

  lemma PairThen(a: string, b: string, rest: string)
    ensures a + b + rest == a + (b + rest)
  {
  }

  lemma BeyondIsPair(c: char)
    requires c as int >= 0x1_0000
    ensures EscapeChar(c) == SurrogatePair(c as int)
  {
  }

  lemma UnicodeReadsBack(c: char, rest: string)
    requires |EscapeChar(c)| > 2
    ensures ReadChar(EscapeChar(c) + rest) == Some((c, rest))
  {
    ReadsUnicode(EscapeChar(c) + rest);
    if c as int < 0x1_0000 {
      EscapedBelow(c, rest);
    } else {
      BeyondIsPair(c);
      PairReadsBack(c as int, rest);
    }
  }

  lemma CharReadsBack(c: char, rest: string)
    ensures EscapeChar(c) != "" && EscapeChar(c)[0] != '"'
    ensures ReadChar(EscapeChar(c) + rest) == Some((c, rest))
  {
    var s := EscapeChar(c) + rest;
    if |EscapeChar(c)| == 1 {
      assert s[1..] == rest;
    } else if |EscapeChar(c)| == 2 {
      assert s[2..] == rest;
    } else {
      UnicodeReadsBack(c, rest);
    }
  }

  lemma NextChar(c: char, more: string)
    requires ReadString(more).Some?
    ensures ReadString(EscapeChar(c) + more) == Some(([c] + ReadString(more).value.0, ReadString(more).value.1))
  {
    CharReadsBack(c, more);
    assert (EscapeChar(c) + more)[0] == EscapeChar(c)[0];
  }

  lemma ClosingQuote(rest: string)
    ensures ReadString(['"'] + rest) == Some(("", rest))
  {
    assert (['"'] + rest)[1..] == rest;
  }

  lemma EscapeThen(text: string, tail: string)
    requires text != ""
    ensures Escape(text) + tail == EscapeChar(text[0]) + (Escape(text[1..]) + tail)
  {
    PairThen(EscapeChar(text[0]), Escape(text[1..]), tail);
  }

  lemma {:induction false} StringReadsBack(text: string, rest: string)
    ensures ReadString(Escape(text) + (['"'] + rest)) == Some((text, rest))
  {
    var tail := ['"'] + rest;
    if text == "" {
      assert Escape(text) + tail == tail;
      ClosingQuote(rest);
    } else {
      EscapeThen(text, tail);
      assert [text[0]] + text[1..] == text;
      StringReadsBack(text[1..], rest);
      NextChar(text[0], Escape(text[1..]) + tail);
    }
  }

  lemma {:induction false} DigitsLengthOf(digits: string, rest: string)
    requires AllDigits(digits) && (rest == "" || !IsDigit(rest[0]))
    ensures DigitsLength(digits + rest) == |digits|
  {
    if digits == "" {
      assert digits + rest == rest;
    } else {
      assert (digits + rest)[1..] == digits[1..] + rest;
      DigitsLengthOf(digits[1..], rest);
    }
  }

  /** Every published text is read back as its id and its status, whatever characters the status holds. */
  lemma TaskUpdateReadsBack(taskId: nat, status: string)
    ensures ReadUpdate(TaskUpdate(taskId, status)) == Some((taskId, status))
  {
    var text := TaskUpdate(taskId, status);
    var digits, after := Decimal(taskId), MIDDLE + (Escape(status) + (['"'] + "}"));
    assert TAIL == ['"'] + "}";
    assert text == HEAD + (digits + after);
    DecimalReadsBack(taskId);
    assert text[|HEAD|..] == digits + after;
    assert MIDDLE[0] == ',' && after[0] == ',';
    DigitsLengthOf(digits, after);
    assert (digits + after)[..|digits|] == digits && (digits + after)[|digits|..] == after;
    assert after[|MIDDLE|..] == Escape(status) + (['"'] + "}");
    StringReadsBack(status, "}");
  }

  /** The texts of a sequence of updates. */
  function UpdateTexts(updates: seq<(nat, string)>): seq<string> {
    seq(|updates|, i requires 0 <= i < |updates| => TaskUpdate(updates[i].0, updates[i].1))
  }

  /**
   In every run of a feed on which Redis delivers task updates, the client reads the first of these updates,
   in order and none changed, and all of them at the end of the stream.
   */
  lemma TaskUpdatesArrive(actions: seq<TaskFeed.Action>, updates: seq<(nat, string)>)
    requires TaskFeed.Possible(TaskFeed.OPENED, actions)
    requires TaskFeed.Received(actions) == UpdateTexts(updates)
    ensures var s := TaskFeed.Run(TaskFeed.OPENED, actions);
            var texts := Texts(Decode(RenderAll(s.frames)));
            && |texts| + |TaskFeed.TextsOf(s.queue)| == |updates|
            && (forall i :: 0 <= i < |texts| ==> ReadUpdate(texts[i]) == Some(updates[i]))
            && (s.generator == TaskFeed.Stopped(TaskFeed.EndOfStream) ==> |texts| == |updates|)
  {
    var received := TaskFeed.Received(actions);
    forall m | m in received
      ensures OneLine(m)
    {
      var i :| 0 <= i < |received| && received[i] == m;
      TaskUpdateOneLine(updates[i].0, updates[i].1);
    }
    TaskFeed.ClientSeesPublished(actions);
    var s := TaskFeed.Run(TaskFeed.OPENED, actions);
    var texts := Texts(Decode(RenderAll(s.frames)));
    forall i | 0 <= i < |texts|
      ensures ReadUpdate(texts[i]) == Some(updates[i])
    {
      assert texts[i] == received[i];
      TaskUpdateReadsBack(updates[i].0, updates[i].1);
    }
  }
}
