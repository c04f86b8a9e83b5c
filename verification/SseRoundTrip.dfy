/** Payloads printed as event-stream frames come back, whatever the chunks (sections 9.2.5 and
    9.2.6 of the WHATWG HTML Living Standard). */
module SseRoundTrip {
  import opened Wrappers
  import opened Text
  import opened Sequences
  import opened SseFraming
  import opened SseParser

  // ---- Printing ----

  function DataFields(lines: seq<string>): (r: seq<string>)
    ensures |r| == |lines|
    ensures forall i | 0 <= i < |r| :: r[i] == "data: " + lines[i]
  {
    seq(|lines|, i requires 0 <= i < |lines| => "data: " + lines[i])
  }

  /** A frame to print: its event name, if it has one, and its payload. */
  datatype Frame = Frame(name: Option<string>, payload: string)

  function NameFields(name: Option<string>): seq<string> {
    if name.None? then [] else ["event: " + name.value]
  }

  /** The `event:` line, and one `data:` line for each line of the payload. */
  function FrameText(frame: Frame): string {
    Join(NameFields(frame.name) + DataFields(Split(frame.payload, '\n')), "\n")
  }

  function Print(frames: seq<Frame>): Bytes {
    if frames == [] then []
    else Encode(FrameText(frames[0])) + LineFeeds.Bytes() + Print(frames[1..])
  }

  /** An event name takes one line. */
  predicate OneLineName(frame: Frame) {
    frame.name.Some? ==> '\n' !in frame.name.value
  }

  /** The name that is read back: blanks around it do not count. */
  function ReadName(name: Option<string>): Option<string> {
    if name.None? then None else Some(Trim(StripReturn(" " + name.value)))
  }

  predicate IsPing(frame: Frame) {
    ReadName(frame.name) == Some("ping")
  }

  /** A line that is read back as it was printed, not being the last one. */
  predicate InnerLine(line: string) {
    line == "" || (!IsWhitespace(line[0]) && line[|line| - 1] != '\r')
  }

  predicate LastLine(line: string) {
    line == "" || (!IsWhitespace(line[0]) && !IsWhitespace(line[|line| - 1]))
  }

  predicate Printable(payload: string) {
    var lines := Split(payload, '\n');
    && (forall i | 0 <= i < |lines| - 1 :: InnerLine(lines[i]))
    && LastLine(lines[|lines| - 1])
    && payload != "[DONE]"
  }

  // ---- Reading one printed frame ----

  /** What follows `data:` on each line of the trimmed frame: a line that another one follows lost
      a carriage return, the last one its trailing blanks. */
  function FieldValues(lines: seq<string>): (r: seq<string>)
    ensures |r| == |lines|
    ensures forall i | 0 <= i < |r| ::
      r[i] == if i < |lines| - 1 then StripReturn(" " + lines[i]) else TrimEnd(" " + lines[i])
  {
    seq(|lines|, i requires 0 <= i < |lines| =>
      if i < |lines| - 1 then StripReturn(" " + lines[i]) else TrimEnd(" " + lines[i]))
  }

  /** What the parser makes of the lines a payload was printed as. */
  function ReadBack(lines: seq<string>): (r: seq<string>)
    ensures |r| == |lines|
    ensures forall i | 0 <= i < |r| :: r[i] == TrimStart(FieldValues(lines)[i])
  {
    seq(|lines|, i requires 0 <= i < |lines| => TrimStart(FieldValues(lines)[i]))
  }

  lemma {:induction false} TrimStartShortens(s: string)
    ensures |TrimStart(s)| <= |s|
    ensures TrimStart(s) == s <==> s == "" || !IsWhitespace(s[0])
    ensures forall c | c in TrimStart(s) :: c in s
  {
    if s != "" && IsWhitespace(s[0]) {
      TrimStartShortens(s[1..]);
    }
  }

  lemma {:induction false} TrimEndShortens(s: string)
    ensures |TrimEnd(s)| <= |s|
    ensures TrimEnd(s) == s <==> s == "" || !IsWhitespace(s[|s| - 1])
    ensures forall c | c in TrimEnd(s) :: c in s
  {
    if s != "" && IsWhitespace(s[|s| - 1]) {
      TrimEndShortens(s[..|s| - 1]);
    }
  }

  lemma {:induction false} TrimEndKeeps(a: string, b: string)
    requires a != "" && !IsWhitespace(a[|a| - 1])
    ensures TrimEnd(a + b) == a + TrimEnd(b)
  {
    if b == "" {
      assert a + b == a;
    } else if IsWhitespace(b[|b| - 1]) {
      assert (a + b)[..|a + b| - 1] == a + b[..|b| - 1];
      TrimEndKeeps(a, b[..|b| - 1]);
    }
  }

  lemma ReadInnerExact(line: string)
    ensures TrimStart(StripReturn(" " + line)) == line <==> InnerLine(line)
    ensures '\n' !in line ==> '\n' !in TrimStart(StripReturn(" " + line))
  {
    var s := StripReturn(" " + line);
    TrimStartShortens(s);
    TrimStartShortens(s[1..]);
    assert s[0] == ' ';
    if line == "" || line[|line| - 1] != '\r' {
      assert s[1..] == line;
    }
  }

  lemma ReadLastExact(line: string)
    ensures TrimStart(TrimEnd(" " + line)) == line <==> LastLine(line)
    ensures '\n' !in line ==> '\n' !in TrimStart(TrimEnd(" " + line))
  {
    var s := " " + line;
    TrimEndShortens(s);
    TrimStartShortens(TrimEnd(s));
    if line == "" {
      assert s[..0] == "" && IsWhitespace(s[0]);
    } else if IsWhitespace(line[|line| - 1]) {
      BlankEndStays(TrimEnd(s), line);
    } else {
      assert s[1..] == line;
      TrimStartShortens(line);
    }
  }

  /** Trimming both ends of a text one blank longer than `line` cannot yield a `line` that ends in a blank. */
  lemma BlankEndStays(trimmed: string, line: string)
    requires line != "" && IsWhitespace(line[|line| - 1])
    requires trimmed == TrimEnd(" " + line)
    ensures TrimStart(trimmed) != line
  {
    TrimEndLast(" " + line);
    TrimStartLast(trimmed);
  }

  lemma {:induction false} TrimEndLast(s: string)
    ensures TrimEnd(s) == "" || !IsWhitespace(TrimEnd(s)[|TrimEnd(s)| - 1])
  {
    if s != "" && IsWhitespace(s[|s| - 1]) {
      TrimEndLast(s[..|s| - 1]);
    }
  }

  lemma {:induction false} TrimStartLast(s: string)
    ensures TrimStart(s) == "" || TrimStart(s)[|TrimStart(s)| - 1] == s[|s| - 1]
  {
    if s != "" && IsWhitespace(s[0]) {
      TrimStartLast(s[1..]);
    }
  }

  /** The lines of the printed frame once trimmed: the last one lost its trailing blanks. */
  function FrameLines(lines: seq<string>): (r: seq<string>)
    requires lines != []
    ensures |r| == |lines|
  {
    var last := |lines| - 1;
    DataFields(lines)[..last] + ["data:" + TrimEnd(" " + lines[last])]
  }

  lemma {:induction false} JoinHead(parts: seq<string>, separator: string)
    requires parts != []
    ensures parts[0] <= Join(parts, separator)
  {
  }

  lemma TrimAfterColon(before: string, value: string)
    requires before != "" && !IsWhitespace(before[0]) && before[|before| - 1] == ':'
    ensures Trim(before + value) == before + TrimEnd(value)
  {
    TrimStartShortens(before + value);
    TrimEndKeeps(before, value);
  }

  lemma TrimAfterFields(head: string, field: string, value: string)
    requires head != "" && !IsWhitespace(head[0]) && field != "" && field[|field| - 1] == ':'
    ensures Trim(head + (field + value)) == head + (field + TrimEnd(value))
  {
    Regroup(head, field, value);
    Regroup(head, field, TrimEnd(value));
    TrimAfterColon(head + field, value);
  }

  predicate StartsField(line: string) {
    line != "" && !IsWhitespace(line[0])
  }

  lemma FirstOfJoin(inner: seq<string>)
    requires inner != [] && StartsField(inner[0])
    ensures StartsField(Join(inner, "\n") + "\n")
  {
    JoinHead(inner, "\n");
  }

  /** Trimming a frame of several lines trims the last one. */
  lemma TrimLastLine(inner: seq<string>, field: string, value: string)
    requires inner != [] && StartsField(inner[0])
    requires field != "" && field[|field| - 1] == ':'
    ensures Trim(Join(inner + [field + value], "\n")) == Join(inner + [field + TrimEnd(value)], "\n")
  {
    JoinSnoc(inner, field + value, "\n");
    JoinSnoc(inner, field + TrimEnd(value), "\n");
    FirstOfJoin(inner);
    TrimAfterFields(Join(inner, "\n") + "\n", field, value);
  }

  lemma TrimFields(inner: seq<string>, field: string, value: string)
    requires forall i | 0 <= i < |inner| :: StartsField(inner[i])
    requires StartsField(field) && field[|field| - 1] == ':'
    ensures Trim(Join(inner + [field + value], "\n")) == Join(inner + [field + TrimEnd(value)], "\n")
  {
    if inner == [] {
      TrimAfterColon(field, value);
      assert inner + [field + value] == [field + value] && inner + [field + TrimEnd(value)] == [field + TrimEnd(value)];
    } else {
      TrimLastLine(inner, field, value);
    }
  }

  lemma LastField(head: seq<string>, lines: seq<string>)
    requires lines != []
    ensures var last := |lines| - 1;
      var inner, value := head + DataFields(lines)[..last], " " + lines[last];
      && head + DataFields(lines) == inner + ["data:" + value]
      && head + FrameLines(lines) == inner + ["data:" + TrimEnd(value)]
  {
    var last, fields := |lines| - 1, DataFields(lines);
    var value := " " + lines[last];
    assert "data: " + lines[last] == "data:" + value;
    assert fields == fields[..last] + ["data:" + value];
    Regroup(head, fields[..last], ["data:" + value]);
    Regroup(head, fields[..last], ["data:" + TrimEnd(value)]);
  }

  lemma FieldStarts(line: string)
    ensures StartsField("data: " + line)
  {
    assert ("data: " + line)[0] == 'd';
  }

  lemma TrimFrame(head: seq<string>, lines: seq<string>)
    requires lines != [] && forall i | 0 <= i < |head| :: StartsField(head[i])
    ensures Trim(Join(head + DataFields(lines), "\n")) == Join(head + FrameLines(lines), "\n")
  {
    var last := |lines| - 1;
    var inner := head + DataFields(lines)[..last];
    forall i | 0 <= i < |inner|
      ensures StartsField(inner[i])
    {
      if i >= |head| {
        FieldStarts(lines[i - |head|]);
      }
    }
    LastField(head, lines);
    TrimFields(inner, "data:", " " + lines[last]);
  }

  lemma LinesOfPieces(s: string, pieces: seq<string>)
    requires Split(s, '\n') == pieces && pieces != [] && pieces[|pieces| - 1] != ""
    ensures Lines(s) == StripReturns(pieces[..|pieces| - 1]) + [pieces[|pieces| - 1]]
  {}

  /** A carriage return at the end of a field is one at the end of its value. */
  lemma InnerField(field: string, line: string)
    ensures StripReturn(field + (" " + line)) == field + StripReturn(" " + line)
  {
    var value := " " + line;
    assert (field + value)[..|field + value| - 1] == field + value[..|value| - 1];
  }

  lemma FieldHasNoBreak(line: string)
    requires '\n' !in line
    ensures '\n' !in "data: " + line && '\n' !in "data:" + TrimEnd(" " + line)
  {
    TrimEndShortens(" " + line);
  }

  lemma FramePieces(lines: seq<string>, i: nat)
    requires i < |lines| && '\n' !in lines[i]
    ensures var piece := FrameLines(lines)[i];
      && '\n' !in piece && piece != ""
      && (if i < |lines| - 1 then StripReturn(piece) else piece) == ReadFields(lines)[i]
  {
    FieldHasNoBreak(lines[i]);
    InnerField("data:", lines[i]);
    assert "data: " + lines[i] == "data:" + (" " + lines[i]);
  }

  /** The `data:` lines as the parser sees them. */
  function ReadFields(lines: seq<string>): (r: seq<string>)
    ensures |r| == |lines|
    ensures forall i | 0 <= i < |r| :: r[i] == "data:" + FieldValues(lines)[i]
  {
    seq(|lines|, i requires 0 <= i < |lines| => "data:" + FieldValues(lines)[i])
  }

  lemma StripAfterHead(head: seq<string>, fields: seq<string>, read: seq<string>)
    requires fields != [] && |read| == |fields|
    requires forall i | 0 <= i < |fields| ::
      read[i] == if i < |fields| - 1 then StripReturn(fields[i]) else fields[i]
    ensures var pieces := head + fields;
      StripReturns(pieces[..|pieces| - 1]) + [pieces[|pieces| - 1]] == StripReturns(head) + read
  {}

  lemma FrameFieldsRead(head: seq<string>, lines: seq<string>)
    requires lines != [] && forall i | 0 <= i < |lines| :: '\n' !in lines[i]
    ensures var pieces := head + FrameLines(lines);
      && pieces[|pieces| - 1] != ""
      && StripReturns(pieces[..|pieces| - 1]) + [pieces[|pieces| - 1]] == StripReturns(head) + ReadFields(lines)
  {
    var fields := FrameLines(lines);
    forall i | 0 <= i < |lines|
      ensures ReadFields(lines)[i] == (if i < |lines| - 1 then StripReturn(fields[i]) else fields[i]) && fields[i] != ""
    {
      FramePieces(lines, i);
    }
    StripAfterHead(head, fields, ReadFields(lines));
  }

  lemma FrameHasNoBreaks(head: seq<string>, lines: seq<string>)
    requires lines != [] && forall i | 0 <= i < |lines| :: '\n' !in lines[i]
    requires forall i | 0 <= i < |head| :: '\n' !in head[i]
    ensures forall i | 0 <= i < |head + FrameLines(lines)| :: '\n' !in (head + FrameLines(lines))[i]
  {
    forall i | 0 <= i < |lines|
      ensures '\n' !in FrameLines(lines)[i]
    {
      FramePieces(lines, i);
    }
  }

  lemma FrameSplits(head: seq<string>, lines: seq<string>)
    requires lines != [] && forall i | 0 <= i < |lines| :: '\n' !in lines[i]
    requires forall i | 0 <= i < |head| :: '\n' !in head[i]
    ensures Split(Join(head + FrameLines(lines), "\n"), '\n') == head + FrameLines(lines)
  {
    FrameHasNoBreaks(head, lines);
    SplitJoin(head + FrameLines(lines), '\n');
  }

  lemma LinesOfFrame(text: string, head: seq<string>, lines: seq<string>)
    requires lines != [] && forall i | 0 <= i < |lines| :: '\n' !in lines[i]
    requires Split(text, '\n') == head + FrameLines(lines)
    ensures Lines(text) == StripReturns(head) + ReadFields(lines)
  {
    FrameFieldsRead(head, lines);
    LinesOfPieces(text, head + FrameLines(lines));
  }

  lemma {:induction false} AllDataLines(r: seq<string>, values: seq<string>, data: seq<string>)
    requires |r| == |values| == |data|
    requires forall i | 0 <= i < |r| :: r[i] == "data:" + values[i] && data[i] == TrimStart(values[i])
    ensures DataLines(r) == data
  {
    if r != [] {
      AllDataLines(r[1..], values[1..], data[1..]);
      assert r[0][5..] == values[0] && data == [data[0]] + data[1..];
      assert r[0][0] == 'd';
    }
  }

  lemma {:induction false} NoMoreNames(head: seq<string>, r: seq<string>)
    requires forall i | 0 <= i < |r| :: r[i] != "" && r[i][0] == 'd'
    ensures EventName(head + r) == EventName(head)
  {
    if r == [] {
      assert head + r == head;
    } else {
      assert (head + r)[..|head + r| - 1] == head + r[..|r| - 1];
      NoMoreNames(head, r[..|r| - 1]);
    }
  }

  /** The `event:` line as the parser sees it. */
  lemma NameRead(name: Option<string>)
    ensures var head := StripReturns(NameFields(name));
      EventName(head) == ReadName(name) && DataLines(head) == []
  {
    if name.Some? {
      var line := StripReturn("event: " + name.value);
      InnerField("event:", name.value);
      assert "event: " + name.value == "event:" + (" " + name.value);
      assert StripReturns(NameFields(name)) == [line] && line[6..] == StripReturn(" " + name.value);
      OneLine(line);
      assert [line][..0] == [];
    }
  }

  lemma FieldsRead(name: Option<string>, lines: seq<string>)
    ensures var r := StripReturns(NameFields(name)) + ReadFields(lines);
      EventName(r) == ReadName(name) && DataLines(r) == ReadBack(lines)
  {
    var head, r := StripReturns(NameFields(name)), ReadFields(lines);
    forall i | 0 <= i < |r| ensures r[i] != "" && r[i][0] == 'd' {
      assert r[i][0] == ("data:" + FieldValues(lines)[i])[0];
    }
    NameRead(name);
    NoMoreNames(head, r);
    AllDataLines(r, FieldValues(lines), ReadBack(lines));
    DataLinesAppend(head, r);
    assert [] + ReadBack(lines) == ReadBack(lines);
  }

  lemma FrameTextLines(frame: Frame)
    requires OneLineName(frame)
    ensures Lines(Trim(FrameText(frame)))
         == StripReturns(NameFields(frame.name)) + ReadFields(Split(frame.payload, '\n'))
  {
    var head, lines := NameFields(frame.name), Split(frame.payload, '\n');
    TrimFrame(head, lines);
    FrameSplits(head, lines);
    LinesOfFrame(Trim(FrameText(frame)), head, lines);
  }

  lemma PrintedFrameReads(frame: Frame)
    requires OneLineName(frame)
    ensures var text := Join(ReadBack(Split(frame.payload, '\n')), "\n");
      FramePayload(FrameText(frame)) == if IsPing(frame) || text == "[DONE]" then None else Some(text)
  {
    FrameTextLines(frame);
    FieldsRead(frame.name, Split(frame.payload, '\n'));
  }

  lemma ReadBackExact(lines: seq<string>)
    requires lines != [] && forall i | 0 <= i < |lines| :: '\n' !in lines[i]
    ensures forall i | 0 <= i < |lines| :: '\n' !in ReadBack(lines)[i]
    ensures ReadBack(lines) == lines
       <==> (forall i | 0 <= i < |lines| - 1 :: InnerLine(lines[i])) && LastLine(lines[|lines| - 1])
  {
    var last, back := |lines| - 1, ReadBack(lines);
    forall i | 0 <= i < last
      ensures back[i] == lines[i] <==> InnerLine(lines[i])
      ensures '\n' !in back[i]
    {
      ReadInnerExact(lines[i]);
    }
    ReadLastExact(lines[last]);
  }

  lemma JoinInjective(a: seq<string>, b: seq<string>)
    requires a != [] && b != []
    requires forall i | 0 <= i < |a| :: '\n' !in a[i]
    requires forall i | 0 <= i < |b| :: '\n' !in b[i]
    ensures Join(a, "\n") == Join(b, "\n") <==> a == b
  {
    SplitJoin(a, '\n');
    SplitJoin(b, '\n');
  }

  lemma ReadBackPrintable(payload: string)
    ensures var back := Join(ReadBack(Split(payload, '\n')), "\n");
      (back == payload && payload != "[DONE]") <==> Printable(payload)
  {
    var lines := Split(payload, '\n');
    ReadBackExact(lines);
    JoinSplit(payload, '\n');
    JoinInjective(ReadBack(lines), lines);
  }

  /** A payload printed as a frame, with an event name or without, is read back from it exactly when it
      is printable and the name is not `ping`. */
  lemma FrameRoundTrip(frame: Frame)
    requires OneLineName(frame)
    ensures FramePayload(FrameText(frame)) == Some(frame.payload) <==> Printable(frame.payload) && !IsPing(frame)
  {
    ReadBackPrintable(frame.payload);
    PrintedFrameReads(frame);
  }

  /** A frame that says nothing: a ping, or the mark at the end of a stream. */
  predicate Silent(frame: Frame) {
    IsPing(frame) || frame.payload == "[DONE]"
  }

  lemma OneLineReads(line: string)
    requires '\n' !in line && LastLine(line)
    ensures Join(ReadBack(Split(line, '\n')), "\n") == line
  {
    SplitNone(line, '\n');
    ReadBackExact([line]);
  }

  lemma DoneIsLine()
    ensures '\n' !in "[DONE]" && LastLine("[DONE]")
  {}

  lemma SilentFrame(frame: Frame)
    requires OneLineName(frame) && Silent(frame)
    ensures FramePayload(FrameText(frame)) == None
  {
    PrintedFrameReads(frame);
    if frame.payload == "[DONE]" {
      DoneIsLine();
      OneLineReads(frame.payload);
    }
  }

  /** A leading blank is lost. */
  lemma LeadingBlankLost()
    ensures FramePayload(FrameText(Frame(None, " x"))) != Some(" x")
  {
    FrameRoundTrip(Frame(None, " x"));
    SplitNone(" x", '\n');
  }

  // ---- The printed bytes ----

  /** The first byte of `data:` or `event:`. */
  predicate BeginsField(b: byte) {
    b == 100 || b == 101
  }

  /** Starts like a frame, does not end in a line feed, and goes on with a field after each one. */
  ghost predicate FrameShaped(bytes: Bytes) {
    && bytes != [] && BeginsField(bytes[0]) && bytes[|bytes| - 1] != 10
    && forall k | 0 <= k < |bytes| - 1 :: bytes[k] == 10 ==> BeginsField(bytes[k + 1])
  }

  lemma {:induction false} EncodeNoNewline(s: string)
    requires '\n' !in s
    ensures 10 !in Encode(s)
  {
    if s != "" {
      assert s[0] != '\n';
      assert 10 !in EncodeChar(s[0]);
      EncodeNoNewline(s[1..]);
    }
  }

  lemma EncodeField(line: string)
    requires line != "" && (line[0] == 'd' || line[0] == 'e') && '\n' !in line
    ensures FrameShaped(Encode(line))
  {
    EncodeNoNewline(line);
  }

  lemma FrameShapedJoin(a: Bytes, b: Bytes)
    requires FrameShaped(a) && FrameShaped(b)
    ensures FrameShaped(a + [10] + b)
  {
    var all := a + [10] + b;
    forall k | 0 <= k < |all| - 1 && all[k] == 10
      ensures BeginsField(all[k + 1])
    {
      assert if k < |a| then k + 1 < |a| && all[k] == a[k] && all[k + 1] == a[k + 1]
             else all[k + 1] == b[k - |a|] && (k > |a| ==> all[k] == b[k - |a| - 1]);
    }
  }

  lemma {:induction false} EncodeFrame(fields: seq<string>)
    requires fields != [] && forall i | 0 <= i < |fields| :: FrameShaped(Encode(fields[i]))
    ensures FrameShaped(Encode(Join(fields, "\n")))
  {
    if |fields| > 1 {
      EncodeFrame(fields[1..]);
      var a, b := Encode(fields[0]), Encode(Join(fields[1..], "\n"));
      EncodeAppend(fields[0] + "\n", Join(fields[1..], "\n"));
      EncodeAppend(fields[0], "\n");
      assert Encode("\n") == [10];
      FrameShapedJoin(a, b);
    }
  }

  lemma FrameTextShaped(frame: Frame)
    requires OneLineName(frame)
    ensures FrameShaped(Encode(FrameText(frame)))
  {
    var head, fields := NameFields(frame.name), DataFields(Split(frame.payload, '\n'));
    forall i | 0 <= i < |head + fields|
      ensures FrameShaped(Encode((head + fields)[i]))
    {
      EncodeField((head + fields)[i]);
    }
    EncodeFrame(head + fields);
  }

  lemma NoSeparatorInside(frame: Bytes, rest: Bytes, q: nat)
    requires FrameShaped(frame) && q < |frame|
    ensures !Occurs(frame + [10, 10] + rest, LineFeeds, q)
  {
    var all := frame + [10, 10] + rest;
    assert all[q] == frame[q] && (q + 1 < |frame| ==> all[q + 1] == frame[q + 1]);
    if Occurs(all, LineFeeds, q) {
      SeparatorBytes(all, LineFeeds, q);
      assert false;
    }
  }

  lemma FirstPrinted(frame: Bytes, rest: Bytes)
    requires FrameShaped(frame)
    ensures FirstPiece(frame + [10, 10] + rest) == Some(Piece(frame, LineFeeds))
    ensures (frame + [10, 10] + rest)[|frame| + 2..] == rest
  {
    var all := frame + [10, 10] + rest;
    assert all[|frame|..|frame| + 2] == [10, 10];
    forall q: nat | q < |frame|
      ensures !Occurs(all, LineFeeds, q)
    {
      NoSeparatorInside(frame, rest, q);
    }
    PositionIs(all, LineFeeds, |frame|);
    assert all[..|frame|] == frame;
  }

  ghost function PrintedPieces(frames: seq<Frame>): seq<Piece> {
    if frames == [] then []
    else [Piece(Encode(FrameText(frames[0])), LineFeeds)] + PrintedPieces(frames[1..])
  }

  lemma {:induction false} DrainPrinted(frames: seq<Frame>)
    requires forall i | 0 <= i < |frames| :: OneLineName(frames[i])
    ensures Drain(Print(frames)) == Drained(PrintedPieces(frames), [])
  {
    if frames == [] {
      assert forall s, q: nat :: !Occurs([], s, q);
    } else {
      FrameTextShaped(frames[0]);
      FirstPrinted(Encode(FrameText(frames[0])), Print(frames[1..]));
      DrainPrinted(frames[1..]);
    }
  }

  /** No line feed is followed by a carriage return. */
  ghost predicate NoReturnAfterFeed(bytes: Bytes) {
    forall k | 0 <= k < |bytes| - 1 :: bytes[k] == 10 ==> bytes[k + 1] != 13
  }

  lemma {:induction false} PrintedShape(frames: seq<Frame>)
    requires forall i | 0 <= i < |frames| :: OneLineName(frames[i])
    ensures NoReturnAfterFeed(Print(frames))
    ensures Print(frames) == [] || BeginsField(Print(frames)[0])
  {
    if frames != [] {
      FrameTextShaped(frames[0]);
      PrintedShape(frames[1..]);
    }
  }

  lemma PrintedSettled(frames: seq<Frame>)
    requires forall i | 0 <= i < |frames| :: OneLineName(frames[i])
    ensures Settled(Print(frames))
  {
    var stream := Print(frames);
    PrintedShape(frames);
    forall q: nat
      ensures !Occurs(stream, CarriageReturns, q)
    {
      if Occurs(stream, CarriageReturns, q) {
        SeparatorBytes(stream, CarriageReturns, q);
        assert false;
      }
    }
    LineFeedFraming(stream);
  }

  // ---- The round trip ----

  /** The payloads of the frames that say something. */
  function Payloads(frames: seq<Frame>): seq<string> {
    if frames == [] then []
    else (if Silent(frames[0]) then [] else [frames[0].payload]) + Payloads(frames[1..])
  }

  predicate PrintableFrame(frame: Frame) {
    OneLineName(frame) && (Silent(frame) || Printable(frame.payload))
  }

  /** The decoded events, one for each payload. */
  ghost predicate Decodes<E, X>(payloads: seq<string>, events: seq<E>, codec: Codec<E, X>) {
    |events| == |payloads| && forall i | 0 <= i < |payloads| :: codec.json(payloads[i]) == Success(events[i])
  }

  lemma PrintedEvent<E, X>(frame: Frame, codec: Codec<E, X>)
    requires codec.decode(Encode(FrameText(frame))) == FrameText(frame) && PrintableFrame(frame)
    ensures var event := FrameEvent(codec.decode(Encode(FrameText(frame))), codec);
      if Silent(frame) then event == Success(None)
      else codec.json(frame.payload).Success? ==> event == Success(Some(codec.json(frame.payload).value))
  {
    if Silent(frame) {
      SilentFrame(frame);
    } else {
      FrameRoundTrip(frame);
    }
  }

  lemma DecodesTail<E, X>(first: string, payloads: seq<string>, events: seq<E>, codec: Codec<E, X>)
    requires Decodes([first] + payloads, events, codec)
    ensures codec.json(first) == Success(events[0]) && Decodes(payloads, events[1..], codec)
    ensures events == [events[0]] + events[1..]
  {
    assert ([first] + payloads)[0] == first;
    forall i | 0 <= i < |payloads|
      ensures codec.json(payloads[i]) == Success(events[1..][i])
    {
      assert ([first] + payloads)[i + 1] == payloads[i];
    }
  }

  lemma SilentEvents<E, X>(frame: Frame, frames: seq<Frame>, events: seq<E>, codec: Codec<E, X>)
    requires codec.decode(Encode(FrameText(frame))) == FrameText(frame) && PrintableFrame(frame) && Silent(frame)
    requires EventsOf(PrintedPieces(frames), codec) == Success(events)
    ensures EventsOf([Piece(Encode(FrameText(frame)), LineFeeds)] + PrintedPieces(frames), codec) == Success(events)
  {
    PrintedEvent(frame, codec);
    EventsOfCons(Piece(Encode(FrameText(frame)), LineFeeds), PrintedPieces(frames), codec);
  }

  lemma HeardEvents<E, X>(frame: Frame, frames: seq<Frame>, event: E, events: seq<E>, codec: Codec<E, X>)
    requires codec.decode(Encode(FrameText(frame))) == FrameText(frame) && PrintableFrame(frame) && !Silent(frame)
    requires codec.json(frame.payload) == Success(event)
    requires EventsOf(PrintedPieces(frames), codec) == Success(events)
    ensures EventsOf([Piece(Encode(FrameText(frame)), LineFeeds)] + PrintedPieces(frames), codec)
         == Success([event] + events)
  {
    PrintedEvent(frame, codec);
    EventsOfCons(Piece(Encode(FrameText(frame)), LineFeeds), PrintedPieces(frames), codec);
  }

  lemma {:induction false} PrintedEvents<E, X>(frames: seq<Frame>, events: seq<E>, codec: Codec<E, X>)
    requires forall s :: codec.decode(Encode(s)) == s
    requires forall i | 0 <= i < |frames| :: PrintableFrame(frames[i])
    requires Decodes(Payloads(frames), events, codec)
    ensures EventsOf(PrintedPieces(frames), codec) == Success(events)
  {
    if frames != [] {
      if Silent(frames[0]) {
        assert [] + Payloads(frames[1..]) == Payloads(frames[1..]);
        PrintedEvents(frames[1..], events, codec);
        SilentEvents(frames[0], frames[1..], events, codec);
      } else {
        DecodesTail(frames[0].payload, Payloads(frames[1..]), events, codec);
        PrintedEvents(frames[1..], events[1..], codec);
        HeardEvents(frames[0], frames[1..], events[0], events[1..], codec);
      }
    }
  }

  /** Frames with printable payloads, with event names or without, and pings and end marks among them,
      printed one after another and cut into any chunks: the payloads come back as their events, in
      order, with nothing left over. */
  lemma RoundTrip<E, X>(frames: seq<Frame>, events: seq<E>, chunks: seq<Bytes>, codec: Codec<E, X>)
    requires forall s :: codec.decode(Encode(s)) == s
    requires forall i | 0 <= i < |frames| :: PrintableFrame(frames[i])
    requires Decodes(Payloads(frames), events, codec)
    requires Concat(chunks) == Print(frames)
    ensures PushAll([], chunks, codec) == (Success(events), [])
  {
    PrintedSettled(frames);
    DrainPrinted(frames);
    PrintedEvents(frames, events, codec);
    EventsChunkInvariant(chunks, codec);
  }

  // ---- A stream with an error ----

  lemma TwoPieces<E, X>(good: Piece, bad: Piece, codec: Codec<E, X>)
    requires FrameEvent(codec.decode(good.frame), codec).Success?
    requires FrameEvent(codec.decode(good.frame), codec).value.Some?
    requires FrameEvent(codec.decode(bad.frame), codec).Failure?
    ensures EventsOf([good] + [bad], codec).Failure? && EventsBefore([good] + [bad], codec) != []
  {
    assert [bad][1..] == [];
    EventsOfCons(good, [bad], codec);
    EventsBeforeCons(good, [bad], codec);
  }

  /** An event and then a frame that does not parse: how many events are delivered depends on the cut. */
  lemma ErrorAfterEvent<E, X>(good: Frame, bad: Frame, codec: Codec<E, X>)
    requires forall s :: codec.decode(Encode(s)) == s
    requires PrintableFrame(good) && !Silent(good) && codec.json(good.payload).Success?
    requires PrintableFrame(bad) && !Silent(bad) && codec.json(bad.payload).Failure?
    ensures !CutsDeliverTheSame(Print([good, bad]), codec)
  {
    var frames := [good, bad];
    var first, second := Piece(Encode(FrameText(good)), LineFeeds), Piece(Encode(FrameText(bad)), LineFeeds);
    DrainPrinted(frames);
    assert frames[1..] == [bad] && [bad][1..] == [];
    assert PrintedPieces([bad]) == [second] + [] == [second];
    assert PrintedPieces(frames) == [first] + [second];
    FrameRoundTrip(good);
    FrameRoundTrip(bad);
    TwoPieces(first, second, codec);
    OtherDelivery(Print(frames), codec);
  }
}
