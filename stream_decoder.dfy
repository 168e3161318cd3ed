/**
 * The chat page's reader of the event stream: every read is appended to a carry buffer,
 * the buffer is split on newlines, the unterminated tail is kept for the next read, and
 * every complete non-blank line has its `data:` prefix removed, is parsed as JSON and
 * contributes its `message.content`; lines that fail to parse are skipped.
 */
module StreamDecoder {
  import opened Wrappers
  import opened Js
  import opened JsonString
  import opened EventStream

  const DataField: string := "data:"

  // `line.replace(/^data:\s*/, "")`: a leading "data:" and the whitespace after it are removed.
  function StripData(line: string): (r: string)
    ensures |r| <= |line| && r == line[|line| - |r|..]
    ensures r != line <==> |line| >= 5 && line[..5] == DataField
    ensures r != line ==> |r| <= |line| - 5 && IsBlank(line[5..|line| - |r|]) && (r == [] || !IsSpace(r[0]))
  {
    if |line| >= 5 && line[..5] == DataField then
      var r := DropSpaces(line[5..]);
      assert line[5..][..|line[5..]| - |r|] == line[5..|line| - |r|];
      r
    else line
  }

  /** What one complete line adds to the assistant's text: nothing when blank or unparsable. */
  function LineContent(line: string): Option<string> {
    if IsBlank(line) then None else ParseMessageJson(StripData(line))
  }

  /** The contents of the lines that decoded, concatenated in order; the others add nothing. */
  function Gather(parts: seq<Option<string>>): string {
    if parts == [] then ""
    else Gather(Init(parts)) + (match Last(parts) case Some(t) => t case None => "")
  }

  lemma GatherSnoc(parts: seq<Option<string>>, p: Option<string>)
    ensures Gather(parts + [p]) == Gather(parts) + (match p case Some(t) => t case None => "")
  {
    var s := parts + [p];
    assert Init(s) == parts;
    assert Last(s) == p;
  }

  lemma {:induction false} GatherAppend(a: seq<Option<string>>, b: seq<Option<string>>)
    ensures Gather(a + b) == Gather(a) + Gather(b)
    decreases |b|
  {
    if b == [] {
      assert a + b == a;
    } else {
      var i, l := Init(b), Last(b);
      assert b == i + [l];
      assert a + b == (a + i) + [l];
      GatherSnoc(a + i, l);
      GatherSnoc(i, l);
      GatherAppend(a, i);
    }
  }

  /** Every line parsed on its own. */
  function ParseLines(lines: seq<string>): (r: seq<Option<string>>)
    ensures |r| == |lines| && forall i :: 0 <= i < |lines| ==> r[i] == LineContent(lines[i])
  {
    seq(|lines|, i requires 0 <= i < |lines| => LineContent(lines[i]))
  }

  lemma ParseLinesAppend(a: seq<string>, b: seq<string>)
    ensures ParseLines(a + b) == ParseLines(a) + ParseLines(b)
  {
    assert forall i :: 0 <= i < |a + b| ==> (a + b)[i] == if i < |a| then a[i] else b[i - |a|];
  }

  /** The text the complete lines add, in order. */
  function DecodeLines(lines: seq<string>): string {
    Gather(ParseLines(lines))
  }

  lemma DecodeLinesAppend(a: seq<string>, b: seq<string>)
    ensures DecodeLines(a + b) == DecodeLines(a) + DecodeLines(b)
  {
    ParseLinesAppend(a, b);
    GatherAppend(ParseLines(a), ParseLines(b));
  }

  /** The text a single line adds: its content when it decodes, nothing otherwise. */
  lemma DecodeLine(line: string)
    ensures DecodeLines([line]) == match LineContent(line) case Some(t) => t case None => ""
  {
    var p := ParseLines([line]);
    assert p == [LineContent(line)];
    assert Init(p) == [] && Last(p) == LineContent(line);
    assert Gather(p) == Gather([]) + (match LineContent(line) case Some(t) => t case None => "");
  }

  lemma DecodeLinesStep(lines: seq<string>, j: nat)
    requires j < |lines|
    ensures DecodeLines(lines[..j + 1]) == DecodeLines(lines[..j]) + DecodeLines([lines[j]])
  {
    assert lines[..j + 1] == lines[..j] + [lines[j]];
    DecodeLinesAppend(lines[..j], [lines[j]]);
  }

  /** A line that does not decode changes nothing, and decoding goes on with the next line. */
  lemma LineSkipped(before: seq<string>, line: string, after: seq<string>)
    requires LineContent(line).None?
    ensures DecodeLines(before + [line] + after) == DecodeLines(before) + DecodeLines(after)
  {
    DecodeLinesAppend(before + [line], after);
    DecodeLinesAppend(before, [line]);
    DecodeLine(line);
    assert DecodeLines(before + [line]) == DecodeLines(before);
  }

  /** A line that decodes adds its content after what came before. */
  lemma LineAdded(before: seq<string>, line: string)
    requires LineContent(line).Some?
    ensures DecodeLines(before + [line]) == DecodeLines(before) + LineContent(line).value
  {
    DecodeLinesAppend(before, [line]);
    DecodeLine(line);
  }

  /** The assistant text once `text` has been read: what its complete lines contribute. */
  function Decoded(text: string): string {
    DecodeLines(Init(SplitLines(text)))
  }

  /** The carry buffer once `text` has been read: its unterminated last line. */
  function Pending(text: string): (r: string)
    ensures '\n' !in r
  {
    Last(SplitLines(text))
  }

  /** Reading more text only adds what the old tail and the new text contribute together. */
  lemma DecodedAppend(a: string, b: string)
    ensures Decoded(a + b) == Decoded(a) + Decoded(Pending(a) + b)
    ensures Pending(a + b) == Pending(Pending(a) + b)
  {
    SplitAppend(a, b);
    var i, t := Init(SplitLines(a)), SplitLines(Pending(a) + b);
    assert Init(i + t) == i + Init(t);
    DecodeLinesAppend(i, Init(t));
  }

  /** What one more read does to the decoded text and the buffer. */
  lemma ReadStep(received: seq<string>, i: nat)
    requires i < |received|
    ensures Decoded(Concat(received[..i + 1])) ==
              Decoded(Concat(received[..i])) + DecodeLines(Init(SplitLines(Pending(Concat(received[..i])) + received[i])))
    ensures Pending(Concat(received[..i + 1])) == Last(SplitLines(Pending(Concat(received[..i])) + received[i]))
  {
    ConcatAppend(received[..i], [received[i]]);
    assert received[..i + 1] == received[..i] + [received[i]];
    assert Concat([received[i]]) == received[i] by { assert [received[i]][1..] == []; }
    DecodedAppend(Concat(received[..i]), received[i]);
  }

  /**
   * The inner loop of `sendMessage` over the complete lines of one read: blank lines are
   * passed over, and every line whose payload parses adds its `message.content`.
   */
  method ConsumeLines(content: string, lines: seq<string>) returns (r: string)
    ensures r == content + DecodeLines(lines)
  {
    r := content;
    for j := 0 to |lines|
      invariant r == content + DecodeLines(lines[..j])
    {
      var line := lines[j];
      ghost var done := DecodeLines(lines[..j]);
      DecodeLinesStep(lines, j);
      DecodeLine(line);
      match LineContent(line) {
        case Some(t) =>
          AppendAssoc(content, done, t);
          r := r + t;
        case None =>
          assert done + "" == done;
      }
    }
    assert lines[..|lines|] == lines;
  }

  /**
   * The read loop of `sendMessage`: `received` holds the successive values of `reader.read()`
   * up to `done`. The result is the assistant text and the buffer left when the loop ends.
   */
  method DecodeStream(received: seq<string>) returns (content: string, buffer: string)
    ensures content == Decoded(Concat(received))
    ensures buffer == Pending(Concat(received)) && '\n' !in buffer
  {
    content, buffer := "", "";
    var i := 0;
    while i < |received|
      invariant 0 <= i <= |received|
      invariant content == Decoded(Concat(received[..i]))
      invariant buffer == Pending(Concat(received[..i]))
    {
      ReadStep(received, i);
      buffer := buffer + received[i];
      var lines := SplitLines(buffer);
      var complete := lines[..|lines| - 1];
      buffer := lines[|lines| - 1];
      content := ConsumeLines(content, complete);
      i := i + 1;
    }
    assert received[..i] == received;
  }

  /** Lines each followed by a blank line: `l0\n\nl1\n\n…`. */
  function Terminated(ls: seq<string>): string {
    if ls == [] then "" else ls[0] + "\n\n" + Terminated(ls[1..])
  }

  /** Each line followed by the empty piece the blank line after it splits into. */
  function Paired(ls: seq<string>): seq<string> {
    if ls == [] then [] else [ls[0], ""] + Paired(ls[1..])
  }

  lemma {:induction false} SplitTerminated(ls: seq<string>)
    requires forall i :: 0 <= i < |ls| ==> '\n' !in ls[i]
    ensures SplitLines(Terminated(ls)) == Paired(ls) + [""]
  {
    if ls != [] {
      var rest := Terminated(ls[1..]);
      assert ls[0] + "\n\n" + rest == ls[0] + "\n" + ("" + "\n" + rest);
      SplitAfterLine(ls[0], "" + "\n" + rest);
      SplitAfterLine("", rest);
      SplitTerminated(ls[1..]);
    }
  }

  /** The event line of every chunk, in order. */
  function EventLines(chunks: seq<string>): (ls: seq<string>)
    ensures |ls| == |chunks| && forall i :: 0 <= i < |chunks| ==> ls[i] == EventLine(chunks[i])
  {
    seq(|chunks|, i requires 0 <= i < |chunks| => EventLine(chunks[i]))
  }

  lemma {:induction false} StreamTextTerminated(chunks: seq<string>)
    ensures StreamText(chunks) == Terminated(EventLines(chunks))
  {
    if chunks != [] {
      assert Frames(chunks)[0] == Frame(chunks[0]);
      assert Frames(chunks)[1..] == Frames(chunks[1..]);
      assert EventLines(chunks)[1..] == EventLines(chunks[1..]);
      StreamTextTerminated(chunks[1..]);
    }
  }

  /** A decoded content followed by a skipped blank line, per chunk. */
  function PairedParts(texts: seq<string>): seq<Option<string>> {
    if texts == [] then [] else [Some(texts[0]), None] + PairedParts(texts[1..])
  }

  lemma {:induction false} GatherPaired(texts: seq<string>)
    ensures Gather(PairedParts(texts)) == Concat(texts)
  {
    if texts != [] {
      GatherPaired(texts[1..]);
      GatherAppend([Some(texts[0]), None], PairedParts(texts[1..]));
      GatherSnoc([Some(texts[0])], None);
      GatherSnoc([], Some(texts[0]));
      assert [] + [Some(texts[0])] == [Some(texts[0])];
      assert [Some(texts[0])] + [None] == [Some(texts[0]), None];
    }
  }

  lemma BlankLineContent()
    ensures LineContent("").None?
  {
  }

  /** After "data: " the `\s*` stops at the first non-space character. */
  lemma StripDataField(m: string)
    requires m == [] || !IsSpace(m[0])
    ensures StripData("data: " + m) == m
  {
    var l := "data: " + m;
    assert l[..5] == DataField;
    assert l[5..] == " " + m;
    assert (" " + m)[1..] == m;
  }

  lemma StripEventLine(text: string)
    ensures StripData(EventLine(text)) == MessageJson(text)
  {
    MessageJsonStart(text);
    StripDataField(MessageJson(text));
  }

  lemma EventLineContent(text: string)
    ensures LineContent(EventLine(text)) == Some(text)
  {
    var l := EventLine(text);
    assert !IsSpace(l[0]);
    StripEventLine(text);
    MessageJsonRoundTrip(text);
  }

  lemma ParsePairedCons(l: string, rest: seq<string>)
    ensures ParseLines([l, ""] + rest) == [LineContent(l), None] + ParseLines(rest)
  {
    ParseLinesAppend([l, ""], rest);
    BlankLineContent();
    assert ParseLines([l, ""]) == [LineContent(l), None];
  }

  lemma {:induction false} ParsePaired(ls: seq<string>, texts: seq<string>)
    requires |ls| == |texts|
    requires forall i :: 0 <= i < |ls| ==> LineContent(ls[i]) == Some(texts[i])
    ensures ParseLines(Paired(ls)) == PairedParts(texts)
  {
    if ls != [] {
      var ls', texts' := ls[1..], texts[1..];
      forall i | 0 <= i < |ls'| ensures LineContent(ls'[i]) == Some(texts'[i]) {
        assert ls'[i] == ls[i + 1] && texts'[i] == texts[i + 1];
      }
      ParsePaired(ls', texts');
      assert Paired(ls) == [ls[0], ""] + Paired(ls');
      ParsePairedCons(ls[0], Paired(ls'));
      assert PairedParts(texts) == [Some(texts[0]), None] + PairedParts(texts');
    }
  }

  /**
   * Round trip with the encoder: however the frames of a stream are cut into reads, the
   * decoded text is the chunk texts concatenated in order, and the buffer ends empty.
   */
  lemma RoundTrip(chunks: seq<string>, received: seq<string>)
    requires Concat(received) == StreamText(chunks)
    ensures Decoded(Concat(received)) == Concat(chunks)
    ensures Pending(Concat(received)) == ""
  {
    var ls := EventLines(chunks);
    StreamTextTerminated(chunks);
    forall i | 0 <= i < |ls| ensures '\n' !in ls[i] { FrameShape(chunks[i]); }
    SplitTerminated(ls);
    assert Init(Paired(ls) + [""]) == Paired(ls);
    forall i | 0 <= i < |ls| ensures LineContent(ls[i]) == Some(chunks[i]) { EventLineContent(chunks[i]); }
    ParsePaired(ls, chunks);
    GatherPaired(chunks);
  }
}
