/**
 The wire format of the task feed, against the decoder of an EventSource client:
 sections 9.2.5 (parsing) and 9.2.6 (interpreting) of the WHATWG HTML Standard.
 */
module EventStream {

  // ----- the server's frames

  datatype Frame = Data(message: string) | Keepalive

  const COMMENT := ": keepalive"

  function Render(f: Frame): string {
    match f
    case Data(m) => "data: " + m + "\n\n"
    case Keepalive => COMMENT + "\n\n"
  }

  function RenderAll(frames: seq<Frame>): string {
    if frames == [] then "" else Render(frames[0]) + RenderAll(frames[1..])
  }

  function Messages(frames: seq<Frame>): seq<string> {
    if frames == [] then []
    else (if frames[0].Data? then [frames[0].message] else []) + Messages(frames[1..])
  }

  predicate IsBreak(c: char) {
    c == '\n' || c == '\r'
  }

  predicate OneLine(s: string) {
    forall i :: 0 <= i < |s| ==> !IsBreak(s[i])
  }

  // ----- the client's decoder

  datatype Event = Event(kind: string, data: string, lastId: string)

  /** `afterCR`: the last character was a CR, so that an LF now belongs to the same line end. */
  datatype Decoder = Decoder(line: string, afterCR: bool, data: string, kind: string, lastId: string,
                             events: seq<Event>)

  const START := Decoder("", false, "", "", "", [])

  function ColonAt(line: string): (i: nat)
    ensures i <= |line|
    ensures i < |line| ==> line[i] == ':'
    ensures forall k :: 0 <= k < i ==> line[k] != ':'
  {
    if line == "" || line[0] == ':' then 0 else 1 + ColonAt(line[1..])
  }

  function WithoutLeadingSpace(s: string): string {
    if s != "" && s[0] == ' ' then s[1..] else s
  }

  function Field(d: Decoder, name: string, value: string): Decoder {
    if name == "event" then d.(kind := value)
    else if name == "data" then d.(data := d.data + value + "\n")
    else if name == "id" && '\0' !in value then d.(lastId := value)
    else d // "retry" sets the reconnection time only; other fields are ignored
  }

  function Dispatch(d: Decoder): Decoder {
    if d.data == "" then d.(kind := "")
    else
      var e := Event(if d.kind == "" then "message" else d.kind, d.data[..|d.data| - 1], d.lastId);
      d.(data := "", kind := "", events := d.events + [e])
  }

  function EndLine(d: Decoder): Decoder {
    var line, rest := d.line, d.(line := "");
    var i := ColonAt(line);
    if line == "" then Dispatch(rest)
    else if i == 0 then rest
    else if i == |line| then Field(rest, line, "")
    else Field(rest, line[..i], WithoutLeadingSpace(line[i + 1..]))
  }

  function Feed(d: Decoder, c: char): Decoder {
    if c == '\n' then (if d.afterCR then d else EndLine(d)).(afterCR := false)
    else if c == '\r' then EndLine(d).(afterCR := true)
    else d.(line := d.line + [c], afterCR := false)
  }

  function FeedAll(d: Decoder, s: string): Decoder
    decreases |s|
  {
    if s == "" then d else FeedAll(Feed(d, s[0]), s[1..])
  }

  /** A leading byte order mark is dropped; an event not closed by a blank line is never dispatched. */
  function Decode(stream: string): seq<Event> {
    FeedAll(START, if stream != "" && stream[0] == '\U{FEFF}' then stream[1..] else stream).events
  }

  function Texts(events: seq<Event>): seq<string> {
    seq(|events|, i requires 0 <= i < |events| => events[i].data)
  }

  // ----- feeding in parts

  lemma {:induction false} FeedConcat(d: Decoder, a: string, b: string)
    ensures FeedAll(d, a + b) == FeedAll(FeedAll(d, a), b)
    decreases |a|
  {
    if a == "" {
      assert a + b == b;
    } else {
      assert (a + b)[1..] == a[1..] + b;
      FeedConcat(Feed(d, a[0]), a[1..], b);
    }
  }

  lemma {:induction false} FeedOneLine(d: Decoder, s: string)
    requires OneLine(s) && !d.afterCR
    ensures FeedAll(d, s) == d.(line := d.line + s)
    decreases |s|
  {
    if s == "" {
      assert d.line + s == d.line;
    } else {
      FeedOneLine(Feed(d, s[0]), s[1..]);
      assert d.line + [s[0]] + s[1..] == d.line + s;
    }
  }

  /** Between frames: nothing pending. */
  predicate Idle(d: Decoder) {
    d.line == "" && !d.afterCR && d.data == "" && d.kind == ""
  }

  lemma ColonOfData(line: string)
    requires |line| >= 6 && line[..6] == "data: "
    ensures ColonAt(line) == 4 && line[..4] == "data" && line[5] == ' '
  {
    assert line[..4] == line[..6][..4];
    forall k | 0 <= k < 6
      ensures line[k] == "data: "[k]
    {
      assert line[..6][k] == line[k];
    }
    assert line[4] == ':' && line[0] != ':' && line[1] != ':' && line[2] != ':' && line[3] != ':';
    var i := ColonAt(line);
    assert i == 4;
  }

  lemma DataLine(d: Decoder, m: string)
    requires d.line == "data: " + m && d.data == ""
    ensures EndLine(d) == d.(line := "", data := m + "\n")
  {
    assert d.line[..6] == "data: ";
    ColonOfData(d.line);
    assert d.line[5..][1..] == m;
    assert "" + m == m;
  }

  lemma FeedTwo(d: Decoder, a: char, b: char)
    ensures FeedAll(d, [a, b]) == Feed(Feed(d, a), b)
  {
    assert [a, b][1..] == [b];
    assert FeedAll(Feed(d, a), [b]) == Feed(Feed(d, a), b);
  }

  lemma FeedBlock(d: Decoder, line: string)
    requires Idle(d) && OneLine(line)
    ensures FeedAll(d, line + "\n\n") == Feed(Feed(d.(line := line), '\n'), '\n')
  {
    FeedConcat(d, line, "\n\n");
    FeedOneLine(d, line);
    assert d.line + line == line;
    FeedTwo(d.(line := line), '\n', '\n');
  }

  /** The blank line after a data line dispatches a plain message event. */
  lemma DispatchData(d: Decoder, m: string)
    requires d.line == "" && d.kind == "" && d.data == m + "\n"
    ensures Dispatch(d) == d.(data := "", events := d.events + [Event("message", m, d.lastId)])
  {
    assert (m + "\n")[..|m|] == m;
  }

  lemma DecodeData(d: Decoder, m: string)
    requires Idle(d) && OneLine(m)
    ensures FeedAll(d, Render(Data(m))) == d.(events := d.events + [Event("message", m, d.lastId)])
  {
    var line := "data: " + m;
    assert Render(Data(m)) == line + "\n\n";
    FeedBlock(d, line);
    DataLine(d.(line := line), m);
    var d2 := d.(data := m + "\n");
    BlankLine(d2);
    DispatchData(d2, m);
  }

  lemma BlankLine(d: Decoder)
    requires d.line == "" && !d.afterCR
    ensures Feed(d, '\n') == Dispatch(d)
  {
  }

  lemma DecodeKeepalive(d: Decoder)
    requires Idle(d)
    ensures FeedAll(d, Render(Keepalive)) == d
  {
    assert COMMENT[0] == ':' && OneLine(COMMENT);
    FeedBlock(d, COMMENT);
    CommentLine(d.(line := COMMENT));
    BlankLine(d);
  }

  lemma CommentLine(d: Decoder)
    requires d.line != "" && d.line[0] == ':'
    ensures EndLine(d) == d.(line := "")
  {
  }

  function AsEvents(messages: seq<string>): seq<Event> {
    seq(|messages|, i requires 0 <= i < |messages| => Event("message", messages[i], ""))
  }

  lemma MessagesCons(frames: seq<Frame>)
    requires frames != []
    ensures Messages(frames) == (if frames[0].Data? then [frames[0].message] else []) + Messages(frames[1..])
    ensures frames[0].Keepalive? ==> Messages(frames) == Messages(frames[1..])
    ensures frames[0].Data? ==>
              Messages(frames)[0] == frames[0].message && Messages(frames)[1..] == Messages(frames[1..])
  {
  }

  lemma EventsCons(events: seq<Event>, messages: seq<string>)
    requires messages != []
    ensures events + AsEvents(messages) == events + [Event("message", messages[0], "")] + AsEvents(messages[1..])
  {
  }

  lemma {:induction false} DecodeFrames(d: Decoder, frames: seq<Frame>)
    requires Idle(d) && d.lastId == ""
    requires forall i :: 0 <= i < |Messages(frames)| ==> OneLine(Messages(frames)[i])
    ensures FeedAll(d, RenderAll(frames)) == d.(events := d.events + AsEvents(Messages(frames)))
    decreases |frames|
  {
    if frames == [] {
      assert d.events + AsEvents([]) == d.events;
    } else {
      var rest := frames[1..];
      FeedConcat(d, Render(frames[0]), RenderAll(rest));
      MessagesCons(frames);
      match frames[0]
      case Keepalive =>
        DecodeKeepalive(d);
        DecodeFrames(d, rest);
      case Data(m) =>
        assert OneLine(Messages(frames)[0]);
        DecodeData(d, m);
        var d1 := d.(events := d.events + [Event("message", m, "")]);
        DecodeFrames(d1, rest);
        EventsCons(d.events, Messages(frames));
    }
  }

  lemma NoByteOrderMark(frames: seq<Frame>)
    ensures var s := RenderAll(frames); s != "" ==> s[0] != '\U{FEFF}'
  {
    if frames != [] {
      assert RenderAll(frames)[0] == Render(frames[0])[0];
    }
  }

  /** Messages without line breaks come back as plain "message" events, in order, wherever keepalives fall. */
  lemma RoundTrip(frames: seq<Frame>)
    requires forall i :: 0 <= i < |Messages(frames)| ==> OneLine(Messages(frames)[i])
    ensures Decode(RenderAll(frames)) == AsEvents(Messages(frames))
  {
    NoByteOrderMark(frames);
    DecodeFrames(START, frames);
  }

  // ----- and no other message comes back: a line break always costs the decoded text a character

  function TotalLength(texts: seq<string>): nat {
    if texts == [] then 0 else TotalLength(texts[..|texts| - 1]) + |texts[|texts| - 1]|
  }

  /** The text decoded so far, counting the pending data as if it were dispatched now. */
  function Weight(d: Decoder): nat {
    TotalLength(Texts(d.events)) + if d.data == "" then 0 else |d.data| - 1
  }

  lemma DispatchWeight(d: Decoder)
    ensures Weight(Dispatch(d)) == Weight(d)
  {
    var d1 := Dispatch(d);
    if d.data != "" {
      assert Texts(d1.events)[..|d.events|] == Texts(d.events);
    }
  }

  lemma FieldWeight(d: Decoder, name: string, value: string)
    ensures Weight(Field(d, name, value)) <= Weight(d) + if name == "data" then |value| + 1 else 0
  {
  }

  lemma EndLineWeight(d: Decoder)
    ensures Weight(EndLine(d)) <= Weight(d) + |d.line| && EndLine(d).line == ""
  {
    var rest := d.(line := "");
    if d.line == "" {
      DispatchWeight(rest);
    } else {
      NamedLineWeight(rest, d.line);
    }
  }

  lemma NamedLineWeight(rest: Decoder, line: string)
    requires line != ""
    ensures var e := EndLine(rest.(line := line)); Weight(e) <= Weight(rest) + |line| && e.line == ""
  {
    var i := ColonAt(line);
    assert rest.(line := line).(line := "") == rest.(line := "");
    assert Weight(rest.(line := "")) == Weight(rest);
    if 0 < i == |line| {
      FieldWeight(rest.(line := ""), line, "");
    } else if 0 < i {
      FieldWeight(rest.(line := ""), line[..i], WithoutLeadingSpace(line[i + 1..]));
    }
  }

  function Breaks(s: string): nat {
    if s == "" then 0 else (if IsBreak(s[0]) then 1 else 0) + Breaks(s[1..])
  }

  lemma FeedCharWeight(d: Decoder, c: char)
    ensures var e := Feed(d, c); Weight(e) + |e.line| <= Weight(d) + |d.line| + if IsBreak(c) then 0 else 1
  {
    EndLineWeight(d);
  }

  lemma {:induction false} FeedWeight(d: Decoder, s: string)
    ensures var e := FeedAll(d, s); Weight(e) + |e.line| + Breaks(s) <= Weight(d) + |d.line| + |s|
    decreases |s|
  {
    if s != "" {
      FeedCharWeight(d, s[0]);
      FeedWeight(Feed(d, s[0]), s[1..]);
    }
  }

  lemma {:induction false} CarriageReturnEndsLine(d: Decoder, s: string)
    requires d.afterCR ==> d.line == ""
    ensures var e := FeedAll(d, s); e.afterCR ==> e.line == ""
    decreases |s|
  {
    if s != "" {
      CarriageReturnEndsLine(Feed(d, s[0]), s[1..]);
    }
  }

  /** The first line break of a text. */
  function FirstBreak(s: string): (i: nat)
    requires !OneLine(s)
    ensures i < |s| && IsBreak(s[i]) && OneLine(s[..i])
  {
    if IsBreak(s[0]) then 0
    else
      assert exists k :: 0 <= k < |s[1..]| && IsBreak(s[1..][k]) by {
        var k :| 0 <= k < |s| && IsBreak(s[k]);
        assert s[1..][k - 1] == s[k];
      }
      1 + FirstBreak(s[1..])
  }

  /** Up to and with the first line break, the decoded text is the message without that break. */
  lemma FeedToFirstBreak(d: Decoder, head: string, c: char)
    requires Idle(d) && OneLine(head) && IsBreak(c)
    ensures var e := FeedAll(d, "data: " + head + [c]);
            e.line == "" && Weight(e) == Weight(d) + |head|
  {
    var s := "data: " + head;
    FeedConcat(d, s, [c]);
    FeedOneLine(d, s);
    assert d.line + s == s;
    var d1 := d.(line := s);
    DataLine(d1, head);
    assert FeedAll(d1, [c]) == Feed(d1, c);
  }

  lemma BlankLineAfter(d: Decoder)
    requires d.afterCR ==> d.line == ""
    ensures var e := FeedAll(d, "\n\n");
            Idle(e) && Weight(e) <= Weight(d) + |d.line|
  {
    EndLineWeight(d);
    FeedTwo(d, '\n', '\n');
    DispatchWeight(Feed(d, '\n'));
  }

  /** After any frame the decoder is idle again, and a message with a line break has lost at least one character. */
  lemma BrokenDataLoses(d: Decoder, m: string)
    requires Idle(d) && !OneLine(m)
    ensures var e := FeedAll(d, Render(Data(m)));
            Idle(e) && TotalLength(Texts(e.events)) < TotalLength(Texts(d.events)) + |m|
  {
    var i := FirstBreak(m);
    var head, rest := "data: " + m[..i] + [m[i]], m[i + 1..];
    assert Render(Data(m)) == head + (rest + "\n\n");
    FeedConcat(d, head, rest + "\n\n");
    FeedToFirstBreak(d, m[..i], m[i]);
    var d2 := FeedAll(d, head);
    CarriageReturnEndsLine(d, head);
    FeedConcat(d2, rest, "\n\n");
    FeedWeight(d2, rest);
    CarriageReturnEndsLine(d2, rest);
    BlankLineAfter(FeedAll(d2, rest));
  }

  /** What one frame adds to the decoded text: its message, or less if the message has a line break. */
  lemma FrameLength(d: Decoder, f: Frame)
    requires Idle(d)
    ensures var e := FeedAll(d, Render(f));
            && Idle(e)
            && TotalLength(Texts(e.events)) <= TotalLength(Texts(d.events)) + (if f.Data? then |f.message| else 0)
            && (f.Data? && !OneLine(f.message) ==>
                  TotalLength(Texts(e.events)) < TotalLength(Texts(d.events)) + |f.message|)
  {
    match f
    case Keepalive => DecodeKeepalive(d);
    case Data(m) =>
      if OneLine(m) {
        DecodeData(d, m);
        assert Texts(FeedAll(d, Render(f)).events)[..|d.events|] == Texts(d.events);
      } else {
        BrokenDataLoses(d, m);
      }
  }

  lemma {:induction false} DecodedLength(d: Decoder, frames: seq<Frame>)
    requires Idle(d)
    ensures var e := FeedAll(d, RenderAll(frames));
            var sent := TotalLength(Messages(frames));
            && TotalLength(Texts(e.events)) <= TotalLength(Texts(d.events)) + sent
            && ((exists i :: 0 <= i < |Messages(frames)| && !OneLine(Messages(frames)[i])) ==>
                  TotalLength(Texts(e.events)) < TotalLength(Texts(d.events)) + sent)
    decreases |frames|
  {
    if frames != [] {
      var rest := frames[1..];
      FeedConcat(d, Render(frames[0]), RenderAll(rest));
      FrameLength(d, frames[0]);
      MessagesCons(frames);
      DecodedLength(FeedAll(d, Render(frames[0])), rest);
      if frames[0].Data? {
        TotalLengthCons(frames[0].message, Messages(rest));
      }
      if i :| 0 <= i < |Messages(frames)| && !OneLine(Messages(frames)[i]) {
        assert frames[0].Data? && i > 0 ==> Messages(rest)[i - 1] == Messages(frames)[i];
      }
    }
  }

  lemma {:induction false} TotalLengthCons(t: string, rest: seq<string>)
    ensures TotalLength([t] + rest) == |t| + TotalLength(rest)
  {
    if rest != [] {
      assert ([t] + rest)[..|rest|] == [t] + rest[..|rest| - 1];
      TotalLengthCons(t, rest[..|rest| - 1]);
    }
  }

  /** The client sees exactly the messages sent if and only if none of them holds a CR or an LF. */
  lemma DecodesExactly(frames: seq<Frame>)
    ensures Texts(Decode(RenderAll(frames))) == Messages(frames) <==>
            forall i :: 0 <= i < |Messages(frames)| ==> OneLine(Messages(frames)[i])
  {
    if forall i :: 0 <= i < |Messages(frames)| ==> OneLine(Messages(frames)[i]) {
      RoundTrip(frames);
    } else {
      NoByteOrderMark(frames);
      DecodedLength(START, frames);
      assert Texts(START.events) == [];
    }
  }
}
