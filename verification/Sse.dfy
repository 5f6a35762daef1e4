/** The incremental Server-Sent Events decoder (dontlie/protocols.py). */
module Sse {
  import opened Prelude

  const LF: Byte := 10
  const CR: Byte := 13
  const COLON: char := ':'

  /** UTF-8 decoding of one line with replacement characters. */
  type Utf8 = Bytes -> string

  datatype Event = Event(event: Option<string>, data: string, id: Option<string>)

  // ---- Frame boundaries ----

  const DOUBLE_CRLF: Bytes := [CR, LF, CR, LF]
  const DOUBLE_LF: Bytes := [LF, LF]
  const DOUBLE_CR: Bytes := [CR, CR]

  predicate StartsAt(data: Bytes, i: nat, d: Bytes) {
    i + |d| <= |data| && data[i..i + |d|] == d
  }

  /** bytes.find from position i on. */
  function Find(data: Bytes, d: Bytes, i: nat): (r: Option<nat>)
    ensures r.Some? ==> i <= r.value && StartsAt(data, r.value, d)
    ensures forall j :: i <= j < (if r.Some? then r.value else |data|) && |d| > 0 ==> !StartsAt(data, j, d)
    decreases |data| - i
  {
    if i >= |data| then None else if StartsAt(data, i, d) then Some(i) else Find(data, d, i + 1)
  }

  datatype Boundary = Boundary(index: nat, width: nat)

  function Match(data: Bytes, d: Bytes): Option<Boundary> {
    var i := Find(data, d, 0);
    if i.None? then None else Some(Boundary(i.value, |d|))
  }

  function Earlier(a: Option<Boundary>, b: Option<Boundary>): Option<Boundary> {
    if a.None? then b
    else if b.None? then a
    else if b.value.index < a.value.index || (b.value.index == a.value.index && b.value.width < a.value.width)
    then b else a
  }

  /** _next_sse_boundary: the smallest (index, width) among the three delimiters. */
  function NextBoundary(data: Bytes): Option<Boundary> {
    Earlier(Earlier(Match(data, DOUBLE_CRLF), Match(data, DOUBLE_LF)), Match(data, DOUBLE_CR))
  }

  ghost predicate BoundaryAt(data: Bytes, i: nat, width: nat) {
    || (width == 4 && StartsAt(data, i, DOUBLE_CRLF))
    || (width == 2 && (StartsAt(data, i, DOUBLE_LF) || StartsAt(data, i, DOUBLE_CR)))
  }

  ghost predicate NoBoundaryBefore(data: Bytes, end: nat) {
    forall i, width :: 0 <= i < end ==> !BoundaryAt(data, i, width)
  }

  lemma NextBoundaryIsFirst(data: Bytes)
    ensures NextBoundary(data).None? ==> NoBoundaryBefore(data, |data|)
    ensures NextBoundary(data).Some? ==>
      var b := NextBoundary(data).value;
      BoundaryAt(data, b.index, b.width) && NoBoundaryBefore(data, b.index)
  {
  }

  /** A boundary, byte by byte. */
  lemma BoundaryBytes(data: Bytes, i: nat)
    ensures BoundaryAt(data, i, 4) <==>
      i + 4 <= |data| && data[i] == data[i + 2] == 13 && data[i + 1] == data[i + 3] == 10
    ensures BoundaryAt(data, i, 2) <==>
      i + 2 <= |data| && data[i] == data[i + 1] && (data[i] == 10 || data[i] == 13)
  {
  }

  lemma FirstIsNextBoundary(data: Bytes, i: nat, width: nat)
    requires BoundaryAt(data, i, width) && NoBoundaryBefore(data, i)
    ensures NextBoundary(data) == Some(Boundary(i, width))
  {
    NextBoundaryIsFirst(data);
    hide NextBoundary;
    if NextBoundary(data).Some? {
      var b := NextBoundary(data).value;
      assert !(b.index < i) && !(i < b.index);
      BoundaryBytes(data, i);
    }
  }

  lemma StartsAtPrefix(data: Bytes, more: Bytes, i: nat, d: Bytes)
    requires i + |d| <= |data|
    ensures StartsAt(data + more, i, d) <==> StartsAt(data, i, d)
  {
    assert (data + more)[i..i + |d|] == data[i..i + |d|];
  }

  lemma BoundaryAtPrefix(data: Bytes, more: Bytes, i: nat, width: nat)
    requires i + width <= |data|
    ensures BoundaryAt(data + more, i, width) <==> BoundaryAt(data, i, width)
  {
    if width == 4 {
      StartsAtPrefix(data, more, i, DOUBLE_CRLF);
    } else if width == 2 {
      StartsAtPrefix(data, more, i, DOUBLE_LF);
      StartsAtPrefix(data, more, i, DOUBLE_CR);
    }
  }

  /** A delimiter cut off by the end of the data hides no complete boundary behind its start. */
  lemma StraddlingBoundary(data: Bytes, more: Bytes, i: nat, width: nat, j: nat, width': nat)
    requires i + width > |data| && i < j && BoundaryAt(data, j, width')
    ensures !BoundaryAt(data + more, i, width)
  {
    var whole := data + more;
    BoundaryBytes(whole, i);
    BoundaryBytes(data, j);
    assert forall k :: 0 <= k < |data| ==> whole[k] == data[k];
    hide BoundaryAt;
  }

  /** A boundary found in what has arrived stays the first one whatever arrives later. */
  lemma BoundaryIsStable(data: Bytes, more: Bytes)
    requires NextBoundary(data).Some?
    ensures NextBoundary(data + more) == NextBoundary(data)
  {
    NextBoundaryIsFirst(data);
    hide NextBoundary;
    var b := NextBoundary(data).value;
    BoundaryAtPrefix(data, more, b.index, b.width);
    forall i, width | 0 <= i < b.index ensures !BoundaryAt(data + more, i, width) {
      if i + width <= |data| {
        BoundaryAtPrefix(data, more, i, width);
      } else {
        StraddlingBoundary(data, more, i, width, b.index, b.width);
      }
    }
    FirstIsNextBoundary(data + more, b.index, b.width);
  }

  // ---- Cutting a buffer into frames ----

  datatype Piece = Piece(frame: Bytes, delimiter: Bytes)

  function Cut(buffer: Bytes): (seq<Piece>, Bytes)
    decreases |buffer|
  {
    NextBoundaryIsFirst(buffer);
    var b := NextBoundary(buffer);
    if b.None? then ([], buffer)
    else
      var end := b.value.index + b.value.width;
      var (pieces, rest) := Cut(buffer[end..]);
      ([Piece(buffer[..b.value.index], buffer[b.value.index..end])] + pieces, rest)
  }

  function Joined(pieces: seq<Piece>): Bytes {
    if pieces == [] then [] else pieces[0].frame + pieces[0].delimiter + Joined(pieces[1..])
  }

  ghost predicate IsDelimiter(d: Bytes) {
    d == DOUBLE_CRLF || d == DOUBLE_LF || d == DOUBLE_CR
  }

  lemma FrontIsQuiet(buffer: Bytes, i: nat)
    requires i <= |buffer| && NoBoundaryBefore(buffer, i)
    ensures NoBoundaryBefore(buffer[..i], i)
  {
    assert buffer[..i] + buffer[i..] == buffer;
    forall k, width | 0 <= k < i ensures !BoundaryAt(buffer[..i], k, width) {
      if k + width <= i {
        BoundaryAtPrefix(buffer[..i], buffer[i..], k, width);
      }
    }
  }

  ghost predicate WellCut(pieces: seq<Piece>, rest: Bytes) {
    && NoBoundaryBefore(rest, |rest|)
    && forall p :: p in pieces ==> IsDelimiter(p.delimiter) && NoBoundaryBefore(p.frame, |p.frame|)
  }

  lemma CutStep(buffer: Bytes)
    ensures NextBoundary(buffer).None? ==> Cut(buffer) == ([], buffer)
    ensures NextBoundary(buffer).Some? ==>
      var index := NextBoundary(buffer).value.index;
      var end := index + NextBoundary(buffer).value.width;
      && index < end <= |buffer|
      && Cut(buffer) == ([Piece(buffer[..index], buffer[index..end])] + Cut(buffer[end..]).0, Cut(buffer[end..]).1)
  {
    NextBoundaryIsFirst(buffer);
    hide NextBoundary;
  }

  /** Nothing is lost or invented, and no frame and not the remaining buffer holds a boundary. */
  lemma {:induction false} CutIsExact(buffer: Bytes)
    ensures Joined(Cut(buffer).0) + Cut(buffer).1 == buffer
    ensures WellCut(Cut(buffer).0, Cut(buffer).1)
    decreases |buffer|
  {
    NextBoundaryIsFirst(buffer);
    CutStep(buffer);
    hide NextBoundary, Cut, NoBoundaryBefore;
    var b := NextBoundary(buffer);
    if b.Some? {
      var i, end := b.value.index, b.value.index + b.value.width;
      CutIsExact(buffer[end..]);
      FrontIsQuiet(buffer, i);
      var p, pieces, rest := Piece(buffer[..i], buffer[i..end]), Cut(buffer[end..]).0, Cut(buffer[end..]).1;
      assert Joined([p] + pieces) == p.frame + p.delimiter + Joined(pieces);
      assert buffer == (p.frame + p.delimiter) + (Joined(pieces) + rest);
    }
  }

  /** Feeding in two goes cuts as feeding at once. */
  lemma {:induction false} CutInTwoGoes(a: Bytes, b: Bytes)
    ensures Cut(a + b) == (Cut(a).0 + Cut(Cut(a).1 + b).0, Cut(Cut(a).1 + b).1)
    decreases |a|
  {
    hide *;
    CutStep(a);
    if NextBoundary(a).Some? {
      CutStep(a + b);
      BoundaryIsStable(a, b);
      var index := NextBoundary(a).value.index;
      var end := index + NextBoundary(a).value.width;
      CutInTwoGoes(a[end..], b);
      assert (a + b)[end..] == a[end..] + b;
      assert (a + b)[..index] == a[..index] && (a + b)[index..end] == a[index..end];
      var p, pieces, rest := Piece(a[..index], a[index..end]), Cut(a[end..]).0, Cut(a[end..]).1;
      assert [p] + (pieces + Cut(rest + b).0) == ([p] + pieces) + Cut(rest + b).0;
    } else {
      assert [] + Cut(a + b).0 == Cut(a + b).0;
    }
  }

  // ---- Parsing one frame ----

  function ReplaceCrLf(frame: Bytes): Bytes {
    if frame == [] then []
    else if |frame| >= 2 && frame[0] == CR && frame[1] == LF then [LF] + ReplaceCrLf(frame[2..])
    else [frame[0]] + ReplaceCrLf(frame[1..])
  }

  function ReplaceCr(frame: Bytes): Bytes {
    if frame == [] then [] else [if frame[0] == CR then LF else frame[0]] + ReplaceCr(frame[1..])
  }

  /** bytes.split(LF): always at least one line. */
  function SplitLf(text: Bytes): (lines: seq<Bytes>)
    ensures |lines| > 0
  {
    if text == [] then [[]]
    else
      var rest := SplitLf(text[1..]);
      if text[0] == LF then [[]] + rest else [[text[0]] + rest[0]] + rest[1..]
  }

  /** The lines of a frame as code sees them. */
  function NormalizedLines(frame: Bytes): seq<Bytes> {
    SplitLf(ReplaceCr(ReplaceCrLf(frame)))
  }

  /** The lines of a frame by the standard's rule: CRLF, a lone LF or a lone CR ends a line. */
  function StandardLines(frame: Bytes): (lines: seq<Bytes>)
    ensures |lines| > 0
  {
    if frame == [] then [[]]
    else if |frame| >= 2 && frame[0] == CR && frame[1] == LF then [[]] + StandardLines(frame[2..])
    else
      var rest := StandardLines(frame[1..]);
      if frame[0] == CR || frame[0] == LF then [[]] + rest else [[frame[0]] + rest[0]] + rest[1..]
  }

  /** Main result: replacing and splitting finds the lines the standard defines (section 9.2.5 of the HTML Living Standard). */
  lemma {:induction false} LinesAreStandard(frame: Bytes)
    ensures NormalizedLines(frame) == StandardLines(frame)
  {
    if frame == [] {
    } else {
      var skip := if |frame| >= 2 && frame[0] == CR && frame[1] == LF then 2 else 1;
      LinesAreStandard(frame[skip..]);
      var head := if skip == 2 then LF else frame[0];
      assert ReplaceCrLf(frame) == [head] + ReplaceCrLf(frame[skip..]);
      var text := ReplaceCr(ReplaceCrLf(frame));
      assert text[1..] == ReplaceCr(ReplaceCrLf(frame[skip..]));
    }
  }

  datatype Fields = Fields(event: Option<string>, id: Option<string>, data: seq<string>)

  function ColonAt(line: string): (i: nat)
    ensures i <= |line| && (i < |line| ==> line[i] == COLON)
    ensures forall j :: 0 <= j < i ==> line[j] != COLON
  {
    if line == "" || line[0] == COLON then 0 else 1 + ColonAt(line[1..])
  }

  datatype Field = Field(name: string, value: string)

  /** The field of a decoded line; an empty line and a comment have none. */
  function FieldOf(line: string): Option<Field> {
    if line == "" || line[0] == COLON then None
    else
      var i := ColonAt(line);
      var value := if i < |line| then line[i + 1..] else "";
      Some(Field(line[..i], if value != "" && value[0] == ' ' then value[1..] else value))
  }

  /** What one decoded line does to the fields read so far. */
  function TakeLine(f: Fields, line: string): Fields {
    match FieldOf(line)
    case None => f
    case Some(Field(name, text)) =>
      if name == "event" then f.(event := Some(text))
      else if name == "id" then f.(id := Some(text))
      else if name == "data" then f.(data := f.data + [text])
      else f
  }

  function TakeLines(utf8: Utf8, f: Fields, lines: seq<Bytes>): Fields
    decreases |lines|
  {
    if lines == [] then f else TakeLines(utf8, TakeLine(f, utf8(lines[0])), lines[1..])
  }

  lemma NameEnds(name: string, rest: string)
    requires COLON !in name && (rest == "" || rest[0] == COLON)
    ensures ColonAt(name + rest) == |name|
  {
    var line := name + rest;
    forall j | 0 <= j < |name| ensures line[j] != COLON {
      assert line[j] == name[j] && name[j] in name;
    }
    assert rest != "" ==> line[|name|] == COLON;
  }

  /** A line made of a name, a colon, an optional space and a value reads as that field. */
  lemma FieldReadsBack(name: string, value: string)
    requires name != "" && COLON !in name
    ensures FieldOf(name) == Some(Field(name, ""))
    ensures FieldOf(name + [COLON, ' '] + value) == Some(Field(name, value))
    ensures value == "" || value[0] != ' ' ==> FieldOf(name + [COLON] + value) == Some(Field(name, value))
    ensures FieldOf([COLON] + value) == None
  {
    var spaced, tight := name + [COLON, ' '] + value, name + [COLON] + value;
    NameEnds(name, "");
    NameEnds(name, [COLON, ' '] + value);
    NameEnds(name, [COLON] + value);
    assert name + "" == name && name[..|name|] == name;
    assert spaced == name + ([COLON, ' '] + value) && tight == name + ([COLON] + value);
    assert spaced[..|name|] == name && spaced[|name| + 1..] == [' '] + value;
    assert tight[..|name|] == name && tight[|name| + 1..] == value;
  }

  function ValueIn(name: string, field: Option<Field>): seq<string> {
    if field.Some? && field.value.name == name then [field.value.value] else []
  }

  /** The values given for a field, in the order of the lines. */
  function ValuesOf(utf8: Utf8, name: string, lines: seq<Bytes>): seq<string> {
    if lines == [] then []
    else
      ValueIn(name, FieldOf(utf8(lines[0]))) + ValuesOf(utf8, name, lines[1..])
  }

  function LastOr(earlier: Option<string>, values: seq<string>): Option<string> {
    if values == [] then earlier else Some(values[|values| - 1])
  }

  lemma NoneLater(earlier: Option<string>)
    ensures LastOr(earlier, []) == earlier
  {
  }

  lemma LastOfTwo(earlier: Option<string>, first: seq<string>, second: seq<string>)
    ensures LastOr(LastOr(earlier, first), second) == LastOr(earlier, first + second)
  {
  }

  lemma OneLine(f: Fields, line: string)
    ensures TakeLine(f, line) == Fields(
      LastOr(f.event, ValueIn("event", FieldOf(line))),
      LastOr(f.id, ValueIn("id", FieldOf(line))),
      f.data + ValueIn("data", FieldOf(line)))
  {
    hide FieldOf;
  }

  /** Main result: of the event and id fields the last line counts, of the data fields every line in order. */
  lemma {:induction false} FieldsOfLines(utf8: Utf8, f: Fields, lines: seq<Bytes>)
    ensures TakeLines(utf8, f, lines) == Fields(
      LastOr(f.event, ValuesOf(utf8, "event", lines)),
      LastOr(f.id, ValuesOf(utf8, "id", lines)),
      f.data + ValuesOf(utf8, "data", lines))
    decreases |lines|
  {
    hide FieldOf, TakeLine, ValueIn, LastOr;
    if lines == [] {
      NoneLater(f.event);
      NoneLater(f.id);
    } else {
      var line, rest := utf8(lines[0]), lines[1..];
      FieldsOfLines(utf8, TakeLine(f, line), rest);
      OneLine(f, line);
      LastOfTwo(f.event, ValueIn("event", FieldOf(line)), ValuesOf(utf8, "event", rest));
      LastOfTwo(f.id, ValueIn("id", FieldOf(line)), ValuesOf(utf8, "id", rest));
    }
  }

  function JoinLf(parts: seq<string>): string {
    if parts == [] then "" else if |parts| == 1 then parts[0] else parts[0] + "\n" + JoinLf(parts[1..])
  }

  function EventOf(f: Fields): Option<Event> {
    if f.data == [] && f.event.None? && f.id.None? then None
    else Some(Event(f.event, JoinLf(f.data), f.id))
  }

  function Parse(utf8: Utf8, frame: Bytes): Option<Event> {
    EventOf(TakeLines(utf8, Fields(None, None, []), StandardLines(frame)))
  }

  method ParseFrame(utf8: Utf8, frame: Bytes) returns (event: Option<Event>)
    ensures event == Parse(utf8, frame)
  {
    LinesAreStandard(frame);
    var lines := NormalizedLines(frame);
    hide NormalizedLines, StandardLines, TakeLine;
    var f := Fields(None, None, []);
    var k := 0;
    while k < |lines|
      invariant 0 <= k <= |lines|
      invariant TakeLines(utf8, f, lines[k..]) == TakeLines(utf8, Fields(None, None, []), lines)
    {
      assert lines[k..][1..] == lines[k + 1..];
      f := TakeLine(f, utf8(lines[k]));
      k := k + 1;
    }
    return EventOf(f);
  }

  // ---- The decoder object ----

  function Listed(event: Option<Event>): seq<Event> {
    if event.Some? then [event.value] else []
  }

  function EventsOf(utf8: Utf8, pieces: seq<Piece>): seq<Event> {
    if pieces == [] then []
    else EventsOf(utf8, pieces[..|pieces| - 1]) + Listed(Parse(utf8, pieces[|pieces| - 1].frame))
  }

  lemma NoEvents(utf8: Utf8)
    ensures EventsOf(utf8, []) == []
  {
  }

  lemma OneMorePiece(utf8: Utf8, pieces: seq<Piece>, piece: Piece)
    ensures EventsOf(utf8, pieces + [piece]) == EventsOf(utf8, pieces) + Listed(Parse(utf8, piece.frame))
  {
    assert (pieces + [piece])[..|pieces|] == pieces;
  }

  predicate IsBlank(buffer: Bytes) {
    forall i :: 0 <= i < |buffer| ==> buffer[i] == 32 || 9 <= buffer[i] <= 13
  }

  function FinalEvents(utf8: Utf8, buffer: Bytes): seq<Event> {
    if IsBlank(buffer) then [] else Listed(Parse(utf8, buffer))
  }

  /** What decoding a whole input at once returns. */
  function Decoded(utf8: Utf8, data: Bytes): seq<Event> {
    EventsOf(utf8, Cut(data).0) + FinalEvents(utf8, Cut(data).1)
  }

  class SseDecoder {
    const utf8: Utf8
    var buffer: Bytes

    constructor (utf8: Utf8)
      ensures this.utf8 == utf8 && buffer == []
    {
      this.utf8 := utf8;
      buffer := [];
    }

    method Feed(chunk: Bytes) returns (events: seq<Event>)
      modifies this`buffer
      ensures events == EventsOf(utf8, Cut(old(buffer) + chunk).0)
      ensures buffer == Cut(old(buffer) + chunk).1
    {
      hide Parse, NextBoundary, Cut, EventsOf;
      buffer := buffer + chunk;
      ghost var fed := buffer;
      ghost var pieces: seq<Piece> := [];
      events := [];
      NoEvents(utf8);
      assert [] + Cut(fed).0 == Cut(fed).0;
      while true
        invariant Cut(fed) == (pieces + Cut(buffer).0, Cut(buffer).1)
        invariant events == EventsOf(utf8, pieces)
        decreases |buffer|
      {
        CutStep(buffer);
        var boundary := NextBoundary(buffer);
        if boundary.None? {
          assert pieces + [] == pieces;
          break;
        }
        var index, end := boundary.value.index, boundary.value.index + boundary.value.width;
        var frame := buffer[..index];
        ghost var piece := Piece(frame, buffer[index..end]);
        assert pieces + ([piece] + Cut(buffer[end..]).0) == (pieces + [piece]) + Cut(buffer[end..]).0;
        buffer := buffer[end..];
        var event := ParseFrame(utf8, frame);
        if event.Some? {
          events := events + [event.value];
        }
        OneMorePiece(utf8, pieces, piece);
        pieces := pieces + [piece];
      }
    }

    method Finish() returns (events: seq<Event>)
      modifies this`buffer
      ensures events == FinalEvents(utf8, old(buffer)) && buffer == []
    {
      if IsBlank(buffer) {
        buffer := [];
        return [];
      }
      var frame := buffer;
      buffer := [];
      var event := ParseFrame(utf8, frame);
      return if event.Some? then [event.value] else [];
    }
  }

  method DecodeSse(utf8: Utf8, data: Bytes) returns (events: seq<Event>)
    ensures events == Decoded(utf8, data)
  {
    var decoder := new SseDecoder(utf8);
    assert [] + data == data;
    var fed := decoder.Feed(data);
    var last := decoder.Finish();
    return fed + last;
  }

  // ---- Chunking does not matter ----

  function Concat(chunks: seq<Bytes>): Bytes {
    if chunks == [] then [] else chunks[0] + Concat(chunks[1..])
  }

  /** Feeding the chunks one after the other into a decoder that holds `buffer`. */
  function Streamed(utf8: Utf8, buffer: Bytes, chunks: seq<Bytes>): (seq<Event>, Bytes)
    decreases |chunks|
  {
    if chunks == [] then ([], buffer)
    else
      var (pieces, rest) := Cut(buffer + chunks[0]);
      var (events, end) := Streamed(utf8, rest, chunks[1..]);
      (EventsOf(utf8, pieces) + events, end)
  }

  lemma {:induction false} EventsOfConcat(utf8: Utf8, a: seq<Piece>, b: seq<Piece>)
    ensures EventsOf(utf8, a + b) == EventsOf(utf8, a) + EventsOf(utf8, b)
  {
    hide Parse;
    if b == [] {
      assert a + b == a;
    } else {
      assert (a + b)[..|a + b| - 1] == a + b[..|b| - 1];
      EventsOfConcat(utf8, a, b[..|b| - 1]);
    }
  }

  lemma QuietBuffer(buffer: Bytes)
    requires NoBoundaryBefore(buffer, |buffer|)
    ensures Cut(buffer) == ([], buffer)
  {
    NextBoundaryIsFirst(buffer);
  }

  lemma {:induction false} StreamedIsCut(utf8: Utf8, buffer: Bytes, chunks: seq<Bytes>)
    requires NoBoundaryBefore(buffer, |buffer|)
    ensures Streamed(utf8, buffer, chunks)
      == (EventsOf(utf8, Cut(buffer + Concat(chunks)).0), Cut(buffer + Concat(chunks)).1)
    decreases |chunks|
  {
    hide Parse, NoBoundaryBefore, Cut, EventsOf;
    NoEvents(utf8);
    if chunks == [] {
      assert buffer + [] == buffer;
      QuietBuffer(buffer);
    } else {
      var fed, later := buffer + chunks[0], Concat(chunks[1..]);
      CutIsExact(fed);
      assert WellCut(Cut(fed).0, Cut(fed).1);
      StreamedIsCut(utf8, Cut(fed).1, chunks[1..]);
      CutInTwoGoes(fed, later);
      assert fed + later == buffer + Concat(chunks);
      EventsOfConcat(utf8, Cut(fed).0, Cut(Cut(fed).1 + later).0);
    }
  }

  /** Main result: however the bytes are chunked, feeding and finishing equals decoding at once. */
  lemma ChunkingDoesNotMatter(utf8: Utf8, chunks: seq<Bytes>)
    ensures var (events, rest) := Streamed(utf8, [], chunks);
      events + FinalEvents(utf8, rest) == Decoded(utf8, Concat(chunks))
  {
    hide Parse, Cut, EventsOf, Streamed;
    StreamedIsCut(utf8, [], chunks);
    assert [] + Concat(chunks) == Concat(chunks);
  }

  // ---- What an event is, frame by frame ----

  /** str.split("\n"). */
  function SplitText(text: string): (parts: seq<string>)
    ensures |parts| > 0
  {
    if text == "" then [""]
    else
      var rest := SplitText(text[1..]);
      if text[0] == '\n' then [""] + rest else [[text[0]] + rest[0]] + rest[1..]
  }

  lemma {:induction false} SplitOfOne(part: string)
    requires '\n' !in part
    ensures SplitText(part) == [part]
  {
    if part == "" {
    } else {
      assert part[0] in part && '\n' !in part[1..];
      SplitOfOne(part[1..]);
      assert part == [part[0]] + part[1..];
    }
  }

  lemma {:induction false} SplitOfMore(part: string, rest: string)
    requires '\n' !in part
    ensures SplitText(part + "\n" + rest) == [part] + SplitText(rest)
  {
    if part == "" {
      assert (part + "\n" + rest)[1..] == rest;
    } else {
      assert part[0] in part && '\n' !in part[1..];
      SplitOfMore(part[1..], rest);
      assert (part + "\n" + rest)[1..] == part[1..] + "\n" + rest;
      assert part == [part[0]] + part[1..];
    }
  }

  lemma {:induction false} SplitOfJoined(parts: seq<string>)
    requires parts != [] && forall i :: 0 <= i < |parts| ==> '\n' !in parts[i]
    ensures SplitText(JoinLf(parts)) == parts
  {
    SplitOfOne(parts[0]);
    if |parts| == 1 {
    } else {
      SplitOfJoined(parts[1..]);
      SplitOfMore(parts[0], JoinLf(parts[1..]));
    }
  }

  /** What the lines of a frame say under a field name. */
  function Said(utf8: Utf8, frame: Bytes, name: string): seq<string> {
    ValuesOf(utf8, name, StandardLines(frame))
  }

  /**
   * Main result: a frame gives no event exactly when it says nothing under event, id and data. Otherwise
   * type and id are what was said last, and the data, split at line feeds, is what was said, in order.
   */
  lemma EventIsWhatIsSaid(utf8: Utf8, frame: Bytes)
    ensures Parse(utf8, frame).None? <==>
      Said(utf8, frame, "event") == [] && Said(utf8, frame, "id") == [] && Said(utf8, frame, "data") == []
    ensures Parse(utf8, frame).Some? ==>
      var e := Parse(utf8, frame).value;
      var events, ids, data := Said(utf8, frame, "event"), Said(utf8, frame, "id"), Said(utf8, frame, "data");
      && e.event == (if events == [] then None else Some(events[|events| - 1]))
      && e.id == (if ids == [] then None else Some(ids[|ids| - 1]))
      && (data == [] ==> e.data == "")
      && (data != [] && (forall i :: 0 <= i < |data| ==> '\n' !in data[i]) ==> SplitText(e.data) == data)
  {
    hide TakeLines, ValuesOf, StandardLines;
    FieldsOfLines(utf8, Fields(None, None, []), StandardLines(frame));
    var data := Said(utf8, frame, "data");
    assert [] + data == data;
    if data != [] && forall i :: 0 <= i < |data| ==> '\n' !in data[i] {
      SplitOfJoined(data);
    }
  }

  /** The frames of a whole input: those that were delimited, and the rest unless it is blank. */
  function FramesOf(data: Bytes): seq<Bytes> {
    var (pieces, rest) := Cut(data);
    seq(|pieces|, i requires 0 <= i < |pieces| => pieces[i].frame) + if IsBlank(rest) then [] else [rest]
  }

  /** The events are those of the frames at the given positions, in order, and no other frame has one. */
  ghost predicate EventsAt(utf8: Utf8, frames: seq<Bytes>, at: seq<nat>, events: seq<Event>) {
    && |at| == |events|
    && (forall i, j :: 0 <= i < j < |at| ==> at[i] < at[j])
    && (forall i :: 0 <= i < |at| ==> at[i] < |frames| && Parse(utf8, frames[at[i]]) == Some(events[i]))
    && (forall k :: 0 <= k < |frames| && Parse(utf8, frames[k]).Some? ==> k in at)
  }

  lemma EventsAtGrows(utf8: Utf8, frames: seq<Bytes>, at: seq<nat>, events: seq<Event>, frame: Bytes)
    returns (more: seq<nat>)
    requires EventsAt(utf8, frames, at, events)
    ensures EventsAt(utf8, frames + [frame], more, events + Listed(Parse(utf8, frame)))
  {
    hide Parse;
    var longer := frames + [frame];
    assert forall k :: 0 <= k < |frames| ==> longer[k] == frames[k];
    more := if Parse(utf8, frame).Some? then at + [|frames|] else at;
    forall k | 0 <= k < |longer| && Parse(utf8, longer[k]).Some? ensures k in more {
      if k < |frames| {
        assert k in at;
      } else {
        assert more[|at|] == k;
      }
    }
  }

  lemma NoEventsAt(utf8: Utf8)
    ensures EventsAt(utf8, [], [], []) && EventsOf(utf8, []) == []
  {
  }

  lemma {:induction false} EventsOfPieces(utf8: Utf8, pieces: seq<Piece>) returns (at: seq<nat>)
    ensures EventsAt(utf8, seq(|pieces|, i requires 0 <= i < |pieces| => pieces[i].frame), at, EventsOf(utf8, pieces))
  {
    hide Parse, EventsAt;
    if pieces == [] {
      at := [];
      NoEventsAt(utf8);
    } else {
      var before, last := pieces[..|pieces| - 1], pieces[|pieces| - 1];
      var done := EventsOfPieces(utf8, before);
      var frames := seq(|before|, i requires 0 <= i < |before| => before[i].frame);
      at := EventsAtGrows(utf8, frames, done, EventsOf(utf8, before), last.frame);
      assert seq(|pieces|, i requires 0 <= i < |pieces| => pieces[i].frame) == frames + [last.frame];
    }
  }

  /** Main result: decoding an input gives the events of its frames, in order and without gaps. */
  lemma DecodedAreTheFramesEvents(utf8: Utf8, data: Bytes) returns (at: seq<nat>)
    ensures EventsAt(utf8, FramesOf(data), at, Decoded(utf8, data))
  {
    hide Parse, EventsAt, EventsOf, IsBlank;
    var (pieces, rest) := Cut(data);
    var frames := seq(|pieces|, i requires 0 <= i < |pieces| => pieces[i].frame);
    at := EventsOfPieces(utf8, pieces);
    if IsBlank(rest) {
      assert frames + [] == frames && EventsOf(utf8, pieces) + [] == EventsOf(utf8, pieces);
    } else {
      at := EventsAtGrows(utf8, frames, at, EventsOf(utf8, pieces), rest);
    }
  }

  /** Blank is what bytes.strip removes: space, tab, line feed, vertical tab, form feed, carriage return. */
  lemma BlankBytes(b: Byte)
    ensures IsBlank([b]) <==> b in {0x20, 0x09, 0x0A, 0x0B, 0x0C, 0x0D}
  {
    assert [b][0] == b;
  }

  lemma {:induction false} LineOfOne(line: Bytes)
    requires LF !in line && CR !in line
    ensures StandardLines(line) == [line]
  {
    if line == [] {
    } else {
      assert line[0] in line && LF !in line[1..] && CR !in line[1..];
      LineOfOne(line[1..]);
      assert line == [line[0]] + line[1..];
    }
  }

  lemma {:induction false} LinesOfTwo(first: Bytes, second: Bytes)
    requires LF !in first && CR !in first && LF !in second && CR !in second
    ensures StandardLines(first + [LF] + second) == [first, second]
  {
    var frame := first + [LF] + second;
    if first == [] {
      LineOfOne(second);
      assert frame[1..] == second;
    } else {
      assert first[0] in first && LF !in first[1..] && CR !in first[1..];
      LinesOfTwo(first[1..], second);
      assert frame[1..] == first[1..] + [LF] + second;
      assert first == [first[0]] + first[1..];
    }
  }

  lemma ValuesOfTwo(utf8: Utf8, name: string, first: Bytes, second: Bytes)
    ensures ValuesOf(utf8, name, [first, second])
      == ValueIn(name, FieldOf(utf8(first))) + ValueIn(name, FieldOf(utf8(second)))
  {
    hide FieldOf, ValueIn;
    var lines: seq<Bytes> := [first, second];
    assert lines[1..] == [second] && lines[1..][1..] == [];
    assert ValuesOf(utf8, name, [second]) == ValueIn(name, FieldOf(utf8(second))) + [];
  }

  /** A frame of two lines, a type and a data line. */
  lemma TypeAndData(utf8: Utf8, first: Bytes, second: Bytes, kind: string, text: string)
    requires 10 !in first && 13 !in first && 10 !in second && 13 !in second
    requires utf8(first) == "event" + [':', ' '] + kind && utf8(second) == "data" + [':', ' '] + text
    ensures Parse(utf8, first + [10] + second) == Some(Event(Some(kind), text, None))
  {
    hide StandardLines, FieldOf, TakeLines, ValuesOf;
    LinesOfTwo(first, second);
    FieldReadsBack("event", kind);
    FieldReadsBack("data", text);
    var lines: seq<Bytes> := [first, second];
    FieldsOfLines(utf8, Fields(None, None, []), lines);
    ValuesOfTwo(utf8, "event", first, second);
    ValuesOfTwo(utf8, "id", first, second);
    ValuesOfTwo(utf8, "data", first, second);
    assert [] + [text] == [text] && [kind] + [] == [kind];
  }
}
