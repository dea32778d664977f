/**
  The newline-delimited JSON framing of the sidecar's standard streams.

  JSON text itself is abstract: a Codec maps values to bytes and bytes to values.
  The framing loop, the size bound and the duplicate-member check are modelled in full.
 */
module JsonLineFramer {
  import opened Wrappers
  import opened JsonValues
  import opened Octets
  import Delimited
  import Sequences

  const LF: byte := 10
  const CR: byte := 13
  const READ_BUFFER_SIZE: nat := 16 * 1024
  const MAX_DEPTH: nat := 128

  datatype Codec = Codec(encode: Json -> Bytes, decode: Bytes -> Option<Json>)

  datatype FrameError =
    | FrameTooLong
    | Malformed
    | NotAnObject
    | DuplicateMember(name: string)

  // What the reader's consumer sees: the messages yielded, and the error that ended the stream, if any.
  datatype Transcript = Transcript(messages: seq<Json>, error: Option<FrameError>)

  datatype ReadResult = ReaderDisposed | ReaderAlreadyStarted | Finished(transcript: Transcript)

  datatype WriteResult = WriterDisposed | Refused(error: FrameError) | Written

  // ----- Duplicate members (RFC 8259, section 4) -----

  // The first member name, in document order, that repeats inside its own object.
  function FirstDuplicate(e: Json): Option<string>
    decreases e, 0
  {
    match e
    case JObject(members) => FirstDuplicateMember(members, {})
    case JArray(items) => FirstDuplicateItem(items)
    case _ => None
  }

  function FirstDuplicateMember(members: seq<Member>, seen: set<string>): Option<string>
    decreases members, 1
  {
    if members == [] then None
    else if members[0].name in seen then Some(members[0].name)
    else
      var inner := FirstDuplicate(members[0].value);
      if inner.Some? then inner
      else FirstDuplicateMember(members[1..], seen + {members[0].name})
  }

  function FirstDuplicateItem(items: seq<Json>): Option<string>
    decreases items, 1
  {
    if items == [] then None
    else
      var inner := FirstDuplicate(items[0]);
      if inner.Some? then inner else FirstDuplicateItem(items[1..])
  }

  lemma {:induction false} DuplicateCheckIsExact(e: Json)
    ensures FirstDuplicate(e).None? <==> NamesUnique(e)
    decreases e, 0
  {
    match e
    case JObject(members) => DuplicateMembersExact(members, {});
    case JArray(items) => DuplicateItemsExact(items);
    case _ =>
  }

  lemma {:induction false} DuplicateMembersExact(members: seq<Member>, seen: set<string>)
    ensures FirstDuplicateMember(members, seen).None? <==>
            && (forall i, j :: 0 <= i < j < |members| ==> members[i].name != members[j].name)
            && (forall i :: 0 <= i < |members| ==> members[i].name !in seen)
            && (forall i :: 0 <= i < |members| ==> NamesUnique(members[i].value))
    decreases members, 1
  {
    if members != [] {
      var rest := members[1..];
      DuplicateCheckIsExact(members[0].value);
      DuplicateMembersExact(rest, seen + {members[0].name});
      assert forall i :: 0 <= i < |rest| ==> rest[i] == members[i + 1];
      assert forall i :: 1 <= i < |members| ==> members[i] == rest[i - 1];
    }
  }

  lemma {:induction false} DuplicateItemsExact(items: seq<Json>)
    ensures FirstDuplicateItem(items).None? <==> forall i :: 0 <= i < |items| ==> NamesUnique(items[i])
    decreases items, 1
  {
    if items != [] {
      DuplicateCheckIsExact(items[0]);
      DuplicateItemsExact(items[1..]);
      assert forall i :: 1 <= i < |items| ==> items[i] == items[1..][i - 1];
    }
  }

  method ValidateNoDuplicateMembers(e: Json) returns (duplicate: Option<string>)
    ensures duplicate == FirstDuplicate(e)
    decreases e
  {
    match e
    case JObject(members) =>
      var names: set<string> := {};
      var i := 0;
      while i < |members|
        invariant 0 <= i <= |members|
        invariant FirstDuplicate(e) == FirstDuplicateMember(members[i..], names)
      {
        if members[i].name in names {
          return Some(members[i].name);
        }
        names := names + {members[i].name};
        duplicate := ValidateNoDuplicateMembers(members[i].value);
        if duplicate.Some? {
          return;
        }
        i := i + 1;
      }
      return None;
    case JArray(items) =>
      var i := 0;
      while i < |items|
        invariant 0 <= i <= |items|
        invariant FirstDuplicate(e) == FirstDuplicateItem(items[i..])
      {
        duplicate := ValidateNoDuplicateMembers(items[i]);
        if duplicate.Some? {
          return;
        }
        i := i + 1;
      }
      return None;
    case _ =>
      return None;
  }

  // ----- One frame -----

  function StripCarriageReturn(frame: Bytes): Bytes {
    if frame != [] && frame[|frame| - 1] == CR then frame[..|frame| - 1] else frame
  }

  function DecodeFrame(codec: Codec, max: nat, frame: Bytes): Result<Json, FrameError> {
    DecodeText(codec, max, StripCarriageReturn(frame))
  }

  // The text of a frame, its line ending taken off.
  function DecodeText(codec: Codec, max: nat, payload: Bytes): Result<Json, FrameError> {
    if |payload| > max then Err(FrameTooLong)
    else
      var decoded := codec.decode(payload);
      if decoded.None? then Err(Malformed)
      else if !decoded.value.JObject? then Err(NotAnObject)
      else
        var duplicate := FirstDuplicate(decoded.value);
        if duplicate.Some? then Err(DuplicateMember(duplicate.value)) else Ok(decoded.value)
  }

  // ----- The whole stream at once: the reference the chunked reader is measured against -----

  function Prepend(messages: seq<Json>, t: Transcript): Transcript {
    Transcript(messages + t.messages, t.error)
  }

  // Frames in order up to the first bad one; an empty last segment is no frame.
  function Collect(codec: Codec, max: nat, frames: seq<Bytes>): Transcript {
    if frames == [] || frames == [[]] then Transcript([], None)
    else
      match DecodeFrame(codec, max, frames[0])
      case Ok(message) => Prepend([message], Collect(codec, max, frames[1..]))
      case Err(error) => Transcript([], Some(error))
  }

  function WholeStream(codec: Codec, max: nat, stream: Bytes): Transcript {
    Collect(codec, max, Delimited.Split(stream, LF))
  }

  // The bytes a list of reads delivers: a read of zero bytes is the end of the stream.
  function Delivered(chunks: seq<Bytes>): Bytes {
    if chunks == [] || chunks[0] == [] then [] else chunks[0] + Delivered(chunks[1..])
  }

  lemma FrameEnds(codec: Codec, max: nat, frame: Bytes, rest: Bytes)
    requires LF !in frame
    ensures WholeStream(codec, max, frame + [LF] + rest) ==
            match DecodeFrame(codec, max, frame)
            case Ok(message) => Prepend([message], WholeStream(codec, max, rest))
            case Err(error) => Transcript([], Some(error))
  {
    Delimited.SplitAt(frame, rest, LF);
    assert ([frame] + Delimited.Split(rest, LF))[1..] == Delimited.Split(rest, LF);
  }

  // A frame already too long before its end is known can only fail, whatever follows.
  lemma OverlongFrameFails(codec: Codec, max: nat, frame: Bytes, rest: Bytes)
    requires LF !in frame && |frame| > max + 1
    ensures WholeStream(codec, max, frame + rest) == Transcript([], Some(FrameTooLong))
  {
    Delimited.SplitPrefix(frame, rest, LF);
    var frames := Delimited.Split(frame + rest, LF);
    assert |frames[0]| >= |frame|;
    assert frames != [] && frames != [[]];
    assert DecodeFrame(codec, max, frames[0]) == Err(FrameTooLong);
  }

  lemma StreamEnds(codec: Codec, max: nat, frame: Bytes)
    requires LF !in frame
    ensures WholeStream(codec, max, frame) ==
            if frame == [] then Transcript([], None)
            else match DecodeFrame(codec, max, frame)
              case Ok(message) => Transcript([message], None)
              case Err(error) => Transcript([], Some(error))
  {
    Delimited.SplitWhole(frame, LF);
    if frame == [] {
      assert [frame] == [[]];
    } else {
      var frames := [frame];
      assert frames[0] != [] && frames[1..] == [];
      assert Collect(codec, max, frames[1..]) == Transcript([], None);
    }
  }

  // Cutting the stream after any line feed cuts the transcript: nothing after the cut can change
  // what was yielded before it.
  function Then(codec: Codec, max: nat, first: Transcript, b: Bytes): Transcript {
    if first.error.Some? then first else Prepend(first.messages, WholeStream(codec, max, b))
  }

  lemma {:induction false} CutAtLineFeed(codec: Codec, max: nat, a: Bytes, b: Bytes)
    ensures WholeStream(codec, max, a + [LF] + b) == Then(codec, max, WholeStream(codec, max, a + [LF]), b)
    decreases |a|
  {
    var i := IndexOf(a, LF);
    if i == -1 {
      assert a + [LF] == a + [LF] + [];
      FrameEnds(codec, max, a, []);
      FrameEnds(codec, max, a, b);
      StreamEnds(codec, max, []);
    } else {
      var frame, rest := a[..i], a[i + 1..];
      CutPieces(a, i, b);
      FrameEnds(codec, max, frame, rest + [LF]);
      FrameEnds(codec, max, frame, rest + [LF] + b);
      CutAtLineFeed(codec, max, rest, b);
      PrependTwice(codec, max, DecodeFrame(codec, max, frame), WholeStream(codec, max, rest + [LF]), b);
    }
  }

  lemma CutPieces(a: Bytes, i: nat, b: Bytes)
    requires i < |a| && a[i] == LF
    ensures a + [LF] == a[..i] + [LF] + (a[i + 1..] + [LF])
    ensures a + [LF] + b == a[..i] + [LF] + (a[i + 1..] + [LF] + b)
  {
    assert a == a[..i] + [LF] + a[i + 1..];
  }

  lemma PrependTwice(codec: Codec, max: nat, head: Result<Json, FrameError>, t: Transcript, b: Bytes)
    ensures head.Ok? ==>
              Prepend([head.value], Then(codec, max, t, b)) == Then(codec, max, Prepend([head.value], t), b)
  {
    if head.Ok? {
      assert [head.value] + (t.messages + WholeStream(codec, max, b).messages)
          == [head.value] + t.messages + WholeStream(codec, max, b).messages;
    }
  }

  // ----- The framer -----

  function IndexOf(s: Bytes, b: byte): (i: int)
    ensures -1 <= i < |s|
    ensures i == -1 ==> b !in s
    ensures i >= 0 ==> s[i] == b && b !in s[..i]
  {
    if s == [] then -1
    else if s[0] == b then 0
    else
      var rest := IndexOf(s[1..], b);
      if rest == -1 then -1 else rest + 1
  }

  // What the reader will have told its consumer, having yielded some messages and holding a frame begun.
  function Continuation(codec: Codec, max: nat, yielded: seq<Json>, frame: Bytes, unread: Bytes): Transcript {
    Prepend(yielded, WholeStream(codec, max, frame + unread))
  }

  lemma CutBuffer(readBuffer: Bytes, consumed: nat, length: nat, later: Bytes)
    requires consumed + length <= |readBuffer|
    ensures var next := consumed + length;
            && readBuffer[consumed..] + later == readBuffer[consumed..][..length] + (readBuffer[next..] + later)
            && (next < |readBuffer| && readBuffer[next] == LF ==>
                  readBuffer[next..] + later == [LF] + (readBuffer[next + 1..] + later))
  {
  }

  // Bytes before the next line feed only lengthen the frame, and too long a frame has failed.
  lemma FrameLengthens(codec: Codec, max: nat, yielded: seq<Json>, frame: Bytes, segment: Bytes, unread: Bytes)
    requires LF !in frame && LF !in segment
    ensures var expected := Continuation(codec, max, yielded, frame, segment + unread);
            && expected == Continuation(codec, max, yielded, frame + segment, unread)
            && (|frame + segment| > max + 1 ==> expected == Transcript(yielded, Some(FrameTooLong)))
  {
    Sequences.ConcatAssociates(frame, segment, unread);
    if |frame + segment| > max + 1 {
      OverlongFrameFails(codec, max, frame + segment, unread);
      assert yielded + [] == yielded;
    }
  }

  // A line feed closes the frame: either its message is yielded or the stream fails there.
  lemma FrameCloses(codec: Codec, max: nat, yielded: seq<Json>, frame: Bytes, unread: Bytes)
    requires LF !in frame
    ensures Continuation(codec, max, yielded, frame, [LF] + unread) ==
            match DecodeFrame(codec, max, frame)
            case Ok(message) => Continuation(codec, max, yielded + [message], [], unread)
            case Err(error) => Transcript(yielded, Some(error))
  {
    Sequences.ConcatAssociates(frame, [LF], unread);
    FrameEnds(codec, max, frame, unread);
    match DecodeFrame(codec, max, frame)
    case Ok(message) =>
      Sequences.ConcatAssociates(yielded, [message], WholeStream(codec, max, unread).messages);
      assert [] + unread == unread;
    case Err(error) =>
      assert yielded + [] == yielded;
  }

  // One turn of the inner loop: the segment up to the next line feed or the end of the read buffer.
  method ReadSegment(codec: Codec, max: nat, already: seq<Json>, begun: Bytes, readBuffer: Bytes, from: nat,
                     ghost later: Bytes)
    returns (yielded: seq<Json>, frame: Bytes, consumed: nat, error: Option<FrameError>, ghost reached: nat)
    requires LF !in begun && |begun| <= max + 1 && from < |readBuffer| <= READ_BUFFER_SIZE
    ensures reached <= max + 1 + READ_BUFFER_SIZE
    ensures error.Some? ==>
              Continuation(codec, max, already, begun, readBuffer[from..] + later) == Transcript(yielded, error)
    ensures error.None? ==>
              && LF !in frame && |frame| <= max + 1 && from < consumed <= |readBuffer|
              && Continuation(codec, max, already, begun, readBuffer[from..] + later)
                 == Continuation(codec, max, yielded, frame, readBuffer[consumed..] + later)
  {
    var remaining := readBuffer[from..];
    var newlineOffset := IndexOf(remaining, LF);
    var segmentLength := if newlineOffset >= 0 then newlineOffset else |remaining|;
    CutBuffer(readBuffer, from, segmentLength, later);
    FrameLengthens(codec, max, already, begun, remaining[..segmentLength], readBuffer[from + segmentLength..] + later);
    yielded, frame, consumed := already, begun + remaining[..segmentLength], from + segmentLength;
    reached := |frame|;
    if |frame| > max + 1 {
      return yielded, frame, consumed, Some(FrameTooLong), reached;
    }
    if newlineOffset < 0 {
      return yielded, frame, consumed, None, reached;
    }
    yielded, frame, error := CloseFrame(codec, max, yielded, frame, readBuffer[consumed + 1..] + later);
    return yielded, frame, consumed + 1, error, reached;
  }

  // The frame is complete: its message is yielded, or the stream fails.
  method CloseFrame(codec: Codec, max: nat, already: seq<Json>, complete: Bytes, ghost unread: Bytes)
    returns (yielded: seq<Json>, frame: Bytes, error: Option<FrameError>)
    requires LF !in complete
    ensures error.Some? ==> Continuation(codec, max, already, complete, [LF] + unread) == Transcript(yielded, error)
    ensures error.None? ==>
              && frame == []
              && Continuation(codec, max, already, complete, [LF] + unread)
                 == Continuation(codec, max, yielded, frame, unread)
  {
    FrameCloses(codec, max, already, complete, unread);
    var decoded := Decode(codec, max, complete);
    if decoded.Err? {
      return already, complete, Some(decoded.error);
    }
    return already + [decoded.value], [], None;
  }

  // The inner loop: one filled read buffer, continuing the frame left by the previous one.
  method ConsumeBuffer(codec: Codec, max: nat, already: seq<Json>, begun: Bytes, readBuffer: Bytes, ghost later: Bytes)
    returns (yielded: seq<Json>, frame: Bytes, error: Option<FrameError>, ghost peak: nat)
    requires LF !in begun && |begun| <= max + 1 && |readBuffer| <= READ_BUFFER_SIZE
    ensures error.Some? ==>
              Continuation(codec, max, already, begun, readBuffer + later) == Transcript(yielded, error)
    ensures error.None? ==>
              && LF !in frame && |frame| <= max + 1
              && Continuation(codec, max, already, begun, readBuffer + later)
                 == Continuation(codec, max, yielded, frame, later)
    ensures peak <= max + 1 + READ_BUFFER_SIZE
  {
    yielded, frame, error, peak := already, begun, None, |begun|;
    var consumed := 0;
    assert readBuffer[consumed..] == readBuffer;
    while consumed < |readBuffer|
      invariant 0 <= consumed <= |readBuffer|
      invariant LF !in frame && |frame| <= max + 1
      invariant peak <= max + 1 + READ_BUFFER_SIZE && error.None?
      invariant Continuation(codec, max, already, begun, readBuffer + later) ==
                Continuation(codec, max, yielded, frame, readBuffer[consumed..] + later)
    {
      ghost var reached;
      yielded, frame, consumed, error, reached :=
        ReadSegment(codec, max, yielded, frame, readBuffer, consumed, later);
      peak := if reached > peak then reached else peak;
      if error.Some? {
        return;
      }
    }
    assert readBuffer[consumed..] + later == later;
  }

  method Decode(codec: Codec, max: nat, frame: Bytes) returns (result: Result<Json, FrameError>)
    ensures result == DecodeFrame(codec, max, frame)
  {
    var payload := StripCarriageReturn(frame);
    if |payload| > max {
      return Err(FrameTooLong);
    }
    var decoded := codec.decode(payload);
    if decoded.None? {
      return Err(Malformed);
    }
    if !decoded.value.JObject? {
      return Err(NotAnObject);
    }
    var duplicate := ValidateNoDuplicateMembers(decoded.value);
    if duplicate.Some? {
      return Err(DuplicateMember(duplicate.value));
    }
    return Ok(decoded.value);
  }

  // The outer loop: read after read until the end of the stream or the first bad frame.
  method ReadFrames(codec: Codec, max: nat, chunks: seq<Bytes>) returns (transcript: Transcript, ghost peak: nat)
    requires forall i :: 0 <= i < |chunks| ==> |chunks[i]| <= READ_BUFFER_SIZE
    ensures transcript == WholeStream(codec, max, Delivered(chunks))
    ensures peak <= max + 1 + READ_BUFFER_SIZE
  {
    ghost var reference := WholeStream(codec, max, Delivered(chunks));
    var yielded: seq<Json>, frame: Bytes, next := [], [], 0;
    peak := 0;
    assert chunks[next..] == chunks && frame + Delivered(chunks) == Delivered(chunks);
    while next < |chunks| && chunks[next] != []
      invariant 0 <= next <= |chunks|
      invariant LF !in frame && |frame| <= max + 1
      invariant peak <= max + 1 + READ_BUFFER_SIZE
      invariant reference == Continuation(codec, max, yielded, frame, Delivered(chunks[next..]))
    {
      assert chunks[next..][1..] == chunks[next + 1..];
      var error;
      ghost var high;
      yielded, frame, error, high :=
        ConsumeBuffer(codec, max, yielded, frame, chunks[next], Delivered(chunks[next + 1..]));
      peak := if high > peak then high else peak;
      if error.Some? {
        return Transcript(yielded, error), peak;
      }
      next := next + 1;
    }
    assert Delivered(chunks[next..]) == [];
    transcript := EndStream(codec, max, yielded, frame);
  }

  // After the last read a frame without a line feed is still a frame, unless it is empty.
  method EndStream(codec: Codec, max: nat, yielded: seq<Json>, frame: Bytes) returns (transcript: Transcript)
    requires LF !in frame
    ensures transcript == Continuation(codec, max, yielded, frame, [])
  {
    assert frame + [] == frame && yielded + [] == yielded;
    StreamEnds(codec, max, frame);
    if |frame| > 0 {
      var decoded := Decode(codec, max, frame);
      if decoded.Err? {
        return Transcript(yielded, Some(decoded.error));
      }
      return Transcript(yielded + [decoded.value], None);
    }
    return Transcript(yielded, None);
  }

  function Sendable(codec: Codec, max: nat, message: Json): Result<Bytes, FrameError> {
    if !message.JObject? then Err(NotAnObject)
    else if FirstDuplicate(message).Some? then Err(DuplicateMember(FirstDuplicate(message).value))
    else if |codec.encode(message)| > max then Err(FrameTooLong)
    else Ok(codec.encode(message))
  }

  class Framer {
    const codec: Codec
    const maxMessageBytes: nat
    var readerStarted: bool
    var disposed: bool
    var output: Bytes

    constructor (codec: Codec, maxMessageBytes: nat)
      requires maxMessageBytes > 0
      ensures this.codec == codec && this.maxMessageBytes == maxMessageBytes
      ensures !readerStarted && !disposed && output == []
    {
      this.codec := codec;
      this.maxMessageBytes := maxMessageBytes;
      readerStarted, disposed, output := false, false, [];
    }

    // chunks lists what each ReadAsync returns.  peak is the largest size the frame buffer ever reaches.
    method ReadMessages(chunks: seq<Bytes>) returns (result: ReadResult, ghost peak: nat)
      requires forall i :: 0 <= i < |chunks| ==> |chunks[i]| <= READ_BUFFER_SIZE
      modifies this`readerStarted
      ensures old(disposed) ==> result == ReaderDisposed && readerStarted == old(readerStarted)
      ensures !old(disposed) && old(readerStarted) ==> result == ReaderAlreadyStarted && readerStarted
      ensures !old(disposed) && !old(readerStarted) ==>
                && readerStarted
                && result == Finished(WholeStream(codec, maxMessageBytes, Delivered(chunks)))
      ensures peak <= maxMessageBytes + 1 + READ_BUFFER_SIZE
    {
      peak := 0;
      if disposed {
        return ReaderDisposed, 0;
      }
      if readerStarted {
        return ReaderAlreadyStarted, 0;
      }
      readerStarted := true;
      var transcript;
      transcript, peak := ReadFrames(codec, maxMessageBytes, chunks);
      return Finished(transcript), peak;
    }

    method Write(message: Json) returns (result: WriteResult)
      modifies this`output
      ensures old(disposed) ==> result == WriterDisposed && output == old(output)
      ensures !old(disposed) ==>
                match Sendable(codec, maxMessageBytes, message)
                case Ok(payload) => result == Written && output == old(output) + payload + [LF]
                case Err(error) => result == Refused(error) && output == old(output)
    {
      if disposed {
        return WriterDisposed;
      }
      if !message.JObject? {
        return Refused(NotAnObject);
      }
      var duplicate := ValidateNoDuplicateMembers(message);
      if duplicate.Some? {
        return Refused(DuplicateMember(duplicate.value));
      }
      var payload := codec.encode(message);
      if |payload| > maxMessageBytes {
        return Refused(FrameTooLong);
      }
      output := output + payload;
      output := output + [LF];
      return Written;
    }

    method Dispose()
      modifies this`disposed
      ensures disposed
    {
      disposed := true;
    }
  }

  // ----- Writing and reading back -----

  // What is required of the JSON text layer, of the messages sent: a line has no line feed and no trailing
  // carriage return, and parsing inverts printing for nesting up to 128 and refuses anything deeper.
  ghost predicate Lawful(codec: Codec, messages: seq<Json>) {
    forall m <- messages ::
      var text := codec.encode(m);
      && LF !in text
      && (text == [] || text[|text| - 1] != CR)
      && codec.decode(text) == if Depth(m) <= MAX_DEPTH then Some(m) else None
  }

  // Whatever the messages, some text layer is lawful for them: one that numbers them.
  function Numbering(messages: seq<Json>): Codec {
    Codec(
      (m: Json) => seq(Position(messages, m), k => 65),
      (text: Bytes) =>
        if |text| < |messages| && Depth(messages[|text|]) <= MAX_DEPTH then Some(messages[|text|]) else None)
  }

  function Position(messages: seq<Json>, m: Json): (i: nat)
    ensures i <= |messages|
    ensures m in messages ==> i < |messages| && messages[i] == m
  {
    if messages == [] || messages[0] == m then 0 else 1 + Position(messages[1..], m)
  }

  lemma SomeCodecIsLawful(messages: seq<Json>)
    ensures Lawful(Numbering(messages), messages)
    ensures (forall m <- messages :: m.JObject? && NamesUnique(m)) ==>
              AllSendable(Numbering(messages), |messages|, messages)
  {
    forall m <- messages ensures FirstDuplicate(m).None? <==> NamesUnique(m) {
      DuplicateCheckIsExact(m);
    }
    forall m <- messages
      ensures var text := Numbering(messages).encode(m);
              && LF !in text
              && (text == [] || text[|text| - 1] != CR)
              && Numbering(messages).decode(text) == if Depth(m) <= MAX_DEPTH then Some(m) else None
    {
      assert |Numbering(messages).encode(m)| == Position(messages, m);
    }
  }

  // The bytes on the wire after writing the messages in order.
  function Wire(codec: Codec, messages: seq<Json>): Bytes {
    if messages == [] then [] else codec.encode(messages[0]) + [LF] + Wire(codec, messages[1..])
  }

  ghost predicate AllSendable(codec: Codec, max: nat, messages: seq<Json>) {
    forall i :: 0 <= i < |messages| ==> Sendable(codec, max, messages[i]).Ok?
  }

  // The messages before the first one nested deeper than the reader accepts.
  function ShallowPrefix(messages: seq<Json>): seq<Json> {
    if messages == [] || Depth(messages[0]) > MAX_DEPTH then []
    else [messages[0]] + ShallowPrefix(messages[1..])
  }

  lemma {:induction false} ReadBack(codec: Codec, max: nat, messages: seq<Json>)
    requires Lawful(codec, messages) && AllSendable(codec, max, messages)
    ensures WholeStream(codec, max, Wire(codec, messages)) ==
            Transcript(ShallowPrefix(messages),
                       if ShallowPrefix(messages) == messages then None else Some(Malformed))
  {
    if messages == [] {
      StreamEnds(codec, max, []);
    } else {
      var m, rest := messages[0], messages[1..];
      assert forall i :: 0 <= i < |rest| ==> rest[i] == messages[i + 1];
      ReadBack(codec, max, rest);
      assert Sendable(codec, max, m).Ok?;
      FrameEnds(codec, max, codec.encode(m), Wire(codec, rest));
      assert StripCarriageReturn(codec.encode(m)) == codec.encode(m);
      assert messages == [m] + rest;
      if Depth(m) <= MAX_DEPTH {
        assert (ShallowPrefix(messages) == messages) == (ShallowPrefix(rest) == rest) by {
          assert ShallowPrefix(messages)[1..] == ShallowPrefix(rest);
        }
      }
    }
  }

  lemma {:induction false} ShallowPrefixIsAll(messages: seq<Json>)
    ensures ShallowPrefix(messages) == messages <==>
            forall i :: 0 <= i < |messages| ==> Depth(messages[i]) <= MAX_DEPTH
  {
    if messages != [] {
      var rest := messages[1..];
      ShallowPrefixIsAll(rest);
      assert messages == [messages[0]] + rest;
      assert forall i :: 1 <= i < |messages| ==> messages[i] == rest[i - 1];
      if Depth(messages[0]) <= MAX_DEPTH {
        assert ShallowPrefix(messages)[1..] == ShallowPrefix(rest);
      }
    }
  }

  // Written messages are read back as the same sequence exactly when none is nested deeper than 128.
  lemma RoundTrip(codec: Codec, max: nat, messages: seq<Json>)
    requires Lawful(codec, messages) && AllSendable(codec, max, messages)
    ensures WholeStream(codec, max, Wire(codec, messages)) == Transcript(messages, None) <==>
            forall i :: 0 <= i < |messages| ==> Depth(messages[i]) <= MAX_DEPTH
  {
    ReadBack(codec, max, messages);
    ShallowPrefixIsAll(messages);
  }

  // Objects within one another.
  function Nested(depth: nat): Json {
    if depth == 0 then JNull else JObject([Member("inner", Nested(depth - 1))])
  }

  lemma {:induction false} NestedDepth(depth: nat)
    ensures Depth(Nested(depth)) == depth && NamesUnique(Nested(depth))
  {
    if depth > 0 {
      NestedDepth(depth - 1);
      var members := [Member("inner", Nested(depth - 1))];
      assert members[1..] == [];
      assert MembersDepth(members) == depth - 1;
    }
  }

  // One object too deep for the reader: it is written, whatever the text layer, and comes back as malformed.
  lemma TooDeepIsNotReadBack(codec: Codec, max: nat)
    requires Lawful(codec, [Nested(MAX_DEPTH + 1)]) && |codec.encode(Nested(MAX_DEPTH + 1))| <= max
    ensures AllSendable(codec, max, [Nested(MAX_DEPTH + 1)])
    ensures WholeStream(codec, max, Wire(codec, [Nested(MAX_DEPTH + 1)])) == Transcript([], Some(Malformed))
  {
    NestedDepth(MAX_DEPTH + 1);
    DuplicateCheckIsExact(Nested(MAX_DEPTH + 1));
    ReadBack(codec, max, [Nested(MAX_DEPTH + 1)]);
  }

  // Each side's duplicate check accepts exactly the same objects.
  lemma BothSidesRefuseTheSame(codec: Codec, max: nat, m: Json)
    requires Lawful(codec, [m]) && m.JObject? && |codec.encode(m)| <= max && Depth(m) <= MAX_DEPTH
    ensures Sendable(codec, max, m).Err? <==> DecodeFrame(codec, max, codec.encode(m)).Err?
    ensures Sendable(codec, max, m).Err? <==> !NamesUnique(m)
    ensures Sendable(codec, max, m).Err? ==>
              DecodeFrame(codec, max, codec.encode(m)) == Err(Sendable(codec, max, m).error)
  {
    DuplicateCheckIsExact(m);
    assert m in [m];
    assert StripCarriageReturn(codec.encode(m)) == codec.encode(m);
  }

  // Several writes on one framer put exactly their frames on the wire, in order.
  lemma {:induction false} WireAppends(codec: Codec, messages: seq<Json>, m: Json)
    ensures Wire(codec, messages + [m]) == Wire(codec, messages) + codec.encode(m) + [LF]
  {
    if messages == [] {
      assert messages + [m] == [m];
      assert [m][1..] == [];
      assert codec.encode(m) + [LF] + [] == codec.encode(m) + [LF];
      assert [] + codec.encode(m) == codec.encode(m);
    } else {
      assert (messages + [m])[1..] == messages[1..] + [m];
      WireAppends(codec, messages[1..], m);
    }
  }

  // A batch written on a fresh framer and read back through any chunking whatever.
  method WriteThenRead(codec: Codec, max: nat, messages: seq<Json>, writer: Framer, reader: Framer, chunks: seq<Bytes>)
    returns (result: ReadResult)
    requires Lawful(codec, messages) && AllSendable(codec, max, messages)
    requires forall i :: 0 <= i < |messages| ==> Depth(messages[i]) <= MAX_DEPTH
    requires writer.codec == reader.codec == codec && writer.maxMessageBytes == reader.maxMessageBytes == max
    requires writer != reader && !writer.disposed && writer.output == []
    requires !reader.disposed && !reader.readerStarted
    requires Delivered(chunks) == Wire(codec, messages)
    requires forall i :: 0 <= i < |chunks| ==> |chunks[i]| <= READ_BUFFER_SIZE
    modifies writer`output, reader`readerStarted
    ensures writer.output == Delivered(chunks)
    ensures result == Finished(Transcript(messages, None))
  {
    var i := 0;
    while i < |messages|
      invariant 0 <= i <= |messages|
      invariant writer.output == Wire(codec, messages[..i])
      invariant !reader.readerStarted
    {
      var outcome := writer.Write(messages[i]);
      WireAppends(codec, messages[..i], messages[i]);
      assert messages[..i] + [messages[i]] == messages[..i + 1];
      i := i + 1;
    }
    assert messages[..i] == messages;
    RoundTrip(codec, max, messages);
    assert WholeStream(codec, max, Delivered(chunks)) == Transcript(messages, None);
    ghost var peak;
    result, peak := reader.ReadMessages(chunks);
  }
}
