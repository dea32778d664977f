/** Lines ended by CR LF or by LF alone, in any mixture, and what one line means. */
module JsonLineEndings {
  import opened Wrappers
  import opened JsonValues
  import opened Octets
  import opened JsonLineFramer
  import Sequences

  // ----- One line -----

  // Some object inside e has two members of this name.
  ghost predicate Repeats(e: Json, name: string)
    decreases e
  {
    match e
    case JObject(members) =>
      || (exists i, j :: 0 <= i < j < |members| && members[i].name == members[j].name == name)
      || (exists i :: 0 <= i < |members| && Repeats(members[i].value, name))
    case JArray(items) =>
      exists i :: 0 <= i < |items| && Repeats(items[i], name)
    case _ => false
  }

  lemma {:induction false} ReportedIsRepeated(e: Json)
    requires FirstDuplicate(e).Some?
    ensures Repeats(e, FirstDuplicate(e).value)
    decreases e, 0
  {
    match e
    case JObject(members) => ReportedMemberIsRepeated(members, {});
    case JArray(items) => ReportedItemIsRepeated(items);
    case _ =>
  }

  lemma {:induction false} ReportedMemberIsRepeated(members: seq<Member>, seen: set<string>)
    requires FirstDuplicateMember(members, seen).Some?
    ensures var name := FirstDuplicateMember(members, seen).value;
            || (exists i :: 0 <= i < |members| && members[i].name == name && name in seen)
            || (exists i, j :: 0 <= i < j < |members| && members[i].name == members[j].name == name)
            || (exists i :: 0 <= i < |members| && Repeats(members[i].value, name))
    decreases members, 1
  {
    var name := FirstDuplicateMember(members, seen).value;
    if members[0].name in seen {
    } else if FirstDuplicate(members[0].value).Some? {
      ReportedIsRepeated(members[0].value);
    } else {
      var rest := members[1..];
      ReportedMemberIsRepeated(rest, seen + {members[0].name});
      if i :| 0 <= i < |rest| && rest[i].name == name && name in seen + {members[0].name} {
        assert members[i + 1].name == name;
        assert name in seen || members[0].name == members[i + 1].name == name;
      } else if i, j :| 0 <= i < j < |rest| && rest[i].name == rest[j].name == name {
        assert members[i + 1].name == members[j + 1].name == name;
      } else {
        var i :| 0 <= i < |rest| && Repeats(rest[i].value, name);
        assert Repeats(members[i + 1].value, name);
      }
    }
  }

  lemma {:induction false} ReportedItemIsRepeated(items: seq<Json>)
    requires FirstDuplicateItem(items).Some?
    ensures exists i :: 0 <= i < |items| && Repeats(items[i], FirstDuplicateItem(items).value)
    decreases items, 1
  {
    if FirstDuplicate(items[0]).Some? {
      ReportedIsRepeated(items[0]);
    } else {
      ReportedItemIsRepeated(items[1..]);
      var i :| 0 <= i < |items| - 1 && Repeats(items[1..][i], FirstDuplicateItem(items).value);
      assert Repeats(items[i + 1], FirstDuplicateItem(items).value);
    }
  }

  // What a text of a line means to the reader, or why it is refused.
  ghost predicate Means(codec: Codec, max: nat, text: Bytes, result: Result<Json, FrameError>) {
    var parsed := codec.decode(text);
    match result
    case Ok(m) => |text| <= max && parsed == Some(m) && m.JObject? && NamesUnique(m)
    case Err(FrameTooLong) => |text| > max
    case Err(Malformed) => |text| <= max && parsed.None?
    case Err(NotAnObject) => |text| <= max && parsed.Some? && !parsed.value.JObject?
    case Err(DuplicateMember(name)) =>
      && |text| <= max && parsed.Some? && parsed.value.JObject?
      && !NamesUnique(parsed.value) && Repeats(parsed.value, name)
  }

  predicate EndsInCarriageReturn(text: Bytes) {
    text != [] && text[|text| - 1] == CR
  }

  // A frame is its text, with or without one carriage return behind it: exactly one is taken off.
  lemma FrameMeansItsText(codec: Codec, max: nat, text: Bytes)
    ensures Means(codec, max, text, DecodeFrame(codec, max, text + [CR]))
    ensures !EndsInCarriageReturn(text) ==> Means(codec, max, text, DecodeFrame(codec, max, text))
    ensures !EndsInCarriageReturn(text) ==> DecodeFrame(codec, max, text) == DecodeFrame(codec, max, text + [CR])
  {
    assert (text + [CR])[..|text + [CR]| - 1] == text;
    var parsed := codec.decode(text);
    if parsed.Some? {
      DuplicateCheckIsExact(parsed.value);
      if FirstDuplicate(parsed.value).Some? {
        ReportedIsRepeated(parsed.value);
      }
    }
  }

  // ----- Streams of lines -----

  // A line: its text, and whether it is ended by CR LF or by LF alone.
  datatype Line = Line(text: Bytes, carriageReturn: bool)

  function Sent(lines: seq<Line>): Bytes {
    if lines == [] then []
    else lines[0].text + (if lines[0].carriageReturn then [CR, LF] else [LF]) + Sent(lines[1..])
  }

  // Texts on lines of their own: without a line feed, and without a carriage return that LF alone would expose.
  ghost predicate Lines(lines: seq<Line>) {
    forall i :: 0 <= i < |lines| ==>
      LF !in lines[i].text && (EndsInCarriageReturn(lines[i].text) ==> lines[i].carriageReturn)
  }

  // The messages of the lines up to the first bad one, and then what follows the last line.
  function Followed(codec: Codec, max: nat, lines: seq<Line>, rest: Transcript): Transcript {
    if lines == [] then rest
    else
      match DecodeText(codec, max, lines[0].text)
      case Ok(message) => Prepend([message], Followed(codec, max, lines[1..], rest))
      case Err(error) => Transcript([], Some(error))
  }

  lemma LineEnds(codec: Codec, max: nat, line: Line, rest: Bytes)
    requires Lines([line])
    ensures WholeStream(codec, max, line.text + (if line.carriageReturn then [CR, LF] else [LF]) + rest) ==
            match DecodeText(codec, max, line.text)
            case Ok(message) => Prepend([message], WholeStream(codec, max, rest))
            case Err(error) => Transcript([], Some(error))
  {
    assert LF !in [line][0].text;
    if line.carriageReturn {
      assert (line.text + [CR])[..|line.text + [CR]| - 1] == line.text;
      FrameEnds(codec, max, line.text + [CR], rest);
      assert line.text + [CR] + [LF] == line.text + [CR, LF];
    } else {
      FrameEnds(codec, max, line.text, rest);
    }
  }

  /**
    How lines are ended makes no difference: their texts are read in order up to the first bad one, and what follows
    them is read as if they had not been there.
   */
  lemma {:induction false} LinesAreRead(codec: Codec, max: nat, lines: seq<Line>, rest: Bytes)
    requires Lines(lines)
    ensures WholeStream(codec, max, Sent(lines) + rest) ==
            Followed(codec, max, lines, WholeStream(codec, max, rest))
  {
    if lines == [] {
      assert [] + rest == rest;
    } else {
      var tail := lines[1..];
      assert forall i :: 0 <= i < |tail| ==> tail[i] == lines[i + 1];
      LinesAreRead(codec, max, tail, rest);
      LineEnds(codec, max, lines[0], Sent(tail) + rest);
      Sequences.ConcatAssociates(
        lines[0].text + (if lines[0].carriageReturn then [CR, LF] else [LF]), Sent(tail), rest);
    }
  }

  ghost predicate SameTexts(a: seq<Line>, b: seq<Line>) {
    |a| == |b| && forall i :: 0 <= i < |a| ==> a[i].text == b[i].text
  }

  lemma {:induction false} SameTextsFollow(codec: Codec, max: nat, a: seq<Line>, b: seq<Line>, rest: Transcript)
    requires SameTexts(a, b)
    ensures Followed(codec, max, a, rest) == Followed(codec, max, b, rest)
  {
    if a != [] {
      assert forall i :: 0 <= i < |a| - 1 ==> a[1..][i] == a[i + 1] && b[1..][i] == b[i + 1];
      SameTextsFollow(codec, max, a[1..], b[1..], rest);
    }
  }

  // So a stream is read alike under any two choices of line endings.
  lemma EndingsDoNotMatter(codec: Codec, max: nat, a: seq<Line>, b: seq<Line>, rest: Bytes)
    requires Lines(a) && Lines(b) && SameTexts(a, b)
    ensures WholeStream(codec, max, Sent(a) + rest) == WholeStream(codec, max, Sent(b) + rest)
  {
    LinesAreRead(codec, max, a, rest);
    LinesAreRead(codec, max, b, rest);
    SameTextsFollow(codec, max, a, b, WholeStream(codec, max, rest));
  }

  // ----- Reads -----

  function Concatenated(chunks: seq<Bytes>): Bytes {
    if chunks == [] then [] else Concatenated(chunks[..|chunks| - 1]) + chunks[|chunks| - 1]
  }

  // The reads deliver their bytes in order, and an empty one ends the stream, whatever is said to come behind it.
  lemma {:induction false} ReadsDeliver(chunks: seq<Bytes>, rest: seq<Bytes>)
    requires forall i :: 0 <= i < |chunks| ==> chunks[i] != []
    ensures Delivered(chunks) == Delivered(chunks + [[]] + rest) == Concatenated(chunks)
    decreases |chunks|
  {
    if chunks == [] {
      assert ([] + [[]] + rest)[0] == [];
    } else {
      var all := chunks + [[]] + rest;
      assert all[0] == chunks[0] && all[1..] == chunks[1..] + [[]] + rest;
      ReadsDeliver(chunks[1..], rest);
      FirstChunk(chunks);
    }
  }

  lemma {:induction false} FirstChunk(chunks: seq<Bytes>)
    requires chunks != []
    ensures Concatenated(chunks) == chunks[0] + Concatenated(chunks[1..])
    decreases |chunks|
  {
    var n := |chunks| - 1;
    if n == 0 {
      assert chunks[..0] == [] && chunks[1..] == [];
      assert [] + chunks[0] == chunks[0] == chunks[0] + [];
    } else {
      FirstChunk(chunks[..n]);
      assert chunks[..n][1..] == chunks[1..][..n - 1] && chunks[1..][n - 1] == chunks[n];
      Sequences.ConcatAssociates(chunks[0], Concatenated(chunks[1..][..n - 1]), chunks[n]);
    }
  }

  // ----- Messages under any line endings -----

  // The lines of these messages, ended as chosen.
  function Written(codec: Codec, messages: seq<Json>, endings: seq<bool>): seq<Line>
    requires |endings| == |messages|
  {
    seq(|messages|, i requires 0 <= i < |messages| => Line(codec.encode(messages[i]), endings[i]))
  }

  lemma {:induction false} WireIsSent(codec: Codec, messages: seq<Json>, endings: seq<bool>)
    requires |endings| == |messages| && forall i :: 0 <= i < |endings| ==> !endings[i]
    ensures Sent(Written(codec, messages, endings)) == Wire(codec, messages)
  {
    if messages != [] {
      WireIsSent(codec, messages[1..], endings[1..]);
      assert Written(codec, messages, endings)[1..] == Written(codec, messages[1..], endings[1..]);
    }
  }

  // A batch whose lines another program ends as it likes is read back as the same batch, exactly when no message is
  // nested deeper than 128.
  lemma RoundTripUnderAnyEndings(codec: Codec, max: nat, messages: seq<Json>, endings: seq<bool>)
    requires Lawful(codec, messages) && AllSendable(codec, max, messages) && |endings| == |messages|
    ensures WholeStream(codec, max, Sent(Written(codec, messages, endings))) == Transcript(messages, None) <==>
            forall i :: 0 <= i < |messages| ==> Depth(messages[i]) <= MAX_DEPTH
  {
    var plain := seq(|messages|, _ => false);
    var a, b := Written(codec, messages, endings), Written(codec, messages, plain);
    forall i | 0 <= i < |messages| ensures LF !in a[i].text && !EndsInCarriageReturn(a[i].text) {
      assert messages[i] in messages;
    }
    EndingsDoNotMatter(codec, max, a, b, []);
    assert Sent(a) + [] == Sent(a) && Sent(b) + [] == Sent(b);
    WireIsSent(codec, messages, plain);
    RoundTrip(codec, max, messages);
  }

  // A text of exactly the limit fits on a line ended by CR LF, though its frame is one byte longer; one byte more
  // does not.
  lemma LimitIsOfTheText(codec: Codec, max: nat, text: Bytes, m: Json)
    requires LF !in text && codec.decode(text) == Some(m) && m.JObject? && NamesUnique(m)
    ensures |text| == max ==> WholeStream(codec, max, Sent([Line(text, true)])) == Transcript([m], None)
    ensures |text| == max + 1 ==>
              WholeStream(codec, max, Sent([Line(text, true)])) == Transcript([], Some(FrameTooLong))
  {
    var line := Line(text, true);
    DuplicateCheckIsExact(m);
    assert Sent([line][1..]) == [];
    LineEnds(codec, max, line, []);
    StreamEnds(codec, max, []);
    assert text + [CR, LF] + [] == Sent([line]);
  }
}
