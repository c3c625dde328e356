/** The browser's parser for server-sent events, for chunks cut at arbitrary places. */
module SseParsing {
  import opened Options
  import opened Sequences

  const BLANK_LINE := "\n\n"

  /** White space as trimmed by the language the client is written in. */
  predicate IsSpace(c: char) {
    c in {' ', '\t', '\n', '\r', 11 as char, 12 as char, 160 as char, 5760 as char, 8232 as char, 8233 as char,
          8239 as char, 8287 as char, 12288 as char, 65279 as char}
    || 8192 as char <= c <= 8202 as char
  }

  function TrimStart(s: string): string {
    if s != [] && IsSpace(s[0]) then TrimStart(s[1..]) else s
  }

  function TrimEnd(s: string): string {
    if s != [] && IsSpace(s[|s| - 1]) then TrimEnd(s[..|s| - 1]) else s
  }

  function Trim(s: string): string {
    TrimEnd(TrimStart(s))
  }

  /** Carriage returns before a line feed are dropped, within one chunk. */
  function Normalize(chunk: string): string {
    if chunk == [] then []
    else if |chunk| >= 2 && chunk[0] == '\r' && chunk[1] == '\n' then ['\n'] + Normalize(chunk[2..])
    else [chunk[0]] + Normalize(chunk[1..])
  }

  predicate BlankAt(s: string, i: nat) {
    i + 2 <= |s| && s[i] == '\n' && s[i + 1] == '\n'
  }

  /** The first blank line, if there is one. */
  function IndexOfBlank(s: string): (r: Option<nat>)
    ensures r.Some? ==> BlankAt(s, r.value) && forall i :: 0 <= i < r.value ==> !BlankAt(s, i)
    ensures r.None? ==> forall i :: 0 <= i < |s| ==> !BlankAt(s, i)
  {
    IndexOfBlankFrom(s, 0)
  }

  function IndexOfBlankFrom(s: string, from: nat): (r: Option<nat>)
    requires from <= |s|
    ensures r.Some? ==> from <= r.value && BlankAt(s, r.value) && forall i :: from <= i < r.value ==> !BlankAt(s, i)
    ensures r.None? ==> forall i :: from <= i < |s| ==> !BlankAt(s, i)
    decreases |s| - from
  {
    if from == |s| then None
    else if BlankAt(s, from) then Some(from)
    else IndexOfBlankFrom(s, from + 1)
  }

  /** The part of s before its first line feed, and what follows it. */
  function Lines(s: string): seq<string> {
    LinesFrom([], s)
  }

  function LinesFrom(line: string, s: string): seq<string>
    decreases |s|
  {
    if s == [] then [line]
    else if s[0] == '\n' then [line] + LinesFrom([], s[1..])
    else LinesFrom(line + [s[0]], s[1..])
  }

  predicate IsData(line: string) {
    "data:" <= line
  }

  /** The data of a frame: the trimmed values of its data lines, joined without separator. */
  function FrameData(lines: seq<string>): string {
    if lines == [] then []
    else FrameData(lines[..|lines| - 1]) + (if IsData(lines[|lines| - 1]) then Trim(lines[|lines| - 1][5..]) else [])
  }

  /** One frame gives one event, unless it has no data or its data does not parse. */
  function DataEvents<E>(parse: string -> Option<E>, data: string): seq<E> {
    if data == [] then []
    else match parse(data)
      case None => []
      case Some(e) => [e]
  }

  function FrameEvents<E>(parse: string -> Option<E>, frame: string): seq<E> {
    DataEvents(parse, FrameData(Lines(frame)))
  }

  datatype Parsed<E> = Parsed(events: seq<E>, rest: string)

  function Parse<E>(parse: string -> Option<E>, text: string): Parsed<E>
    decreases |text|
  {
    match IndexOfBlank(text)
    case None => Parsed([], text)
    case Some(i) =>
      var p := Parse(parse, text[i + 2..]);
      Parsed(FrameEvents(parse, text[..i]) + p.events, p.rest)
  }

  lemma ParseStep<E>(parse: string -> Option<E>, text: string)
    requires IndexOfBlank(text).Some?
    ensures var i := IndexOfBlank(text).value;
      var p := Parse(parse, text[i + 2..]);
      Parse(parse, text) == Parsed(FrameEvents(parse, text[..i]) + p.events, p.rest)
  {
  }

  lemma ParseEnds<E>(parse: string -> Option<E>, text: string)
    requires IndexOfBlank(text).None?
    ensures Parse(parse, text) == Parsed([], text)
  {
  }

  class SseParser<E> {
    const parse: string -> Option<E>
    var buffer: string

    constructor (parse: string -> Option<E>)
      ensures this.parse == parse && buffer == []
    {
      this.parse := parse;
      buffer := [];
    }

    /** Appends a chunk and returns the event of every frame that is complete by now. */
    method Feed(chunk: string) returns (out: seq<E>)
      modifies this
      ensures Parsed(out, buffer) == Parse(parse, old(buffer) + Normalize(chunk))
    {
      hide IndexOfBlank, Parse, FrameEvents, Normalize;
      buffer := buffer + Normalize(chunk);
      ghost var text := buffer;
      out := [];
      var idx := IndexOfBlank(buffer);
      while idx.Some?
        invariant idx == IndexOfBlank(buffer)
        invariant Parse(parse, text) == Parsed(out + Parse(parse, buffer).events, Parse(parse, buffer).rest)
        decreases |buffer|
      {
        ParseStep(parse, buffer);
        var frame := buffer[..idx.value];
        buffer := buffer[idx.value + 2..];
        var events := ReadFrame(frame);
        assert out + (events + Parse(parse, buffer).events) == (out + events) + Parse(parse, buffer).events;
        out := out + events;
        idx := IndexOfBlank(buffer);
      }
      ParseEnds(parse, buffer);
      assert out + [] == out;
    }

    method ReadFrame(frame: string) returns (events: seq<E>)
      ensures events == FrameEvents(parse, frame)
    {
      events := [];
      var data := ReadData(frame);
      if data != [] {
        var e := parse(data);
        if e.Some? {
          events := [e.value];
        }
      }
    }

    method ReadData(frame: string) returns (data: string)
      ensures data == FrameData(Lines(frame))
    {
      data := [];
      var lines := Lines(frame);
      for i := 0 to |lines|
        invariant data == FrameData(lines[..i])
      {
        assert lines[..i + 1][..i] == lines[..i];
        if IsData(lines[i]) {
          data := data + Trim(lines[i][5..]);
        }
      }
      assert lines[..|lines|] == lines;
    }
  }

  // ----- where the chunks are cut does not matter -----

  /** The buffer left over never holds a complete frame. */
  lemma {:induction false} RestIsIncomplete<E>(parse: string -> Option<E>, text: string)
    ensures IndexOfBlank(Parse(parse, text).rest) == None
    decreases |text|
  {
    var i := IndexOfBlank(text);
    if i.Some? {
      RestIsIncomplete(parse, text[i.value + 2..]);
    }
  }

  /** Parsing b after what is left of an earlier parse, with the earlier events in front. */
  function Continue<E>(parse: string -> Option<E>, first: Parsed<E>, b: string): Parsed<E> {
    var second := Parse(parse, first.rest + b);
    Parsed(first.events + second.events, second.rest)
  }

  lemma ContinueAfter<E>(parse: string -> Option<E>, es: seq<E>, p: Parsed<E>, b: string)
    ensures Continue(parse, Parsed(es + p.events, p.rest), b)
         == Parsed(es + Continue(parse, p, b).events, Continue(parse, p, b).rest)
  {
    Regroup(es, p.events, Parse(parse, p.rest + b).events);
  }

  /** Parsing a text in two parts, the rest of the first put before the second, is parsing it whole. */
  lemma {:induction false} ParseInParts<E>(parse: string -> Option<E>, a: string, b: string)
    ensures Parse(parse, a + b) == Continue(parse, Parse(parse, a), b)
    decreases |a|
  {
    var i := IndexOfBlank(a);
    if i.Some? {
      FirstBlankStays(a, b);
      var tail := a[i.value + 2..];
      assert (a + b)[i.value + 2..] == tail + b && (a + b)[..i.value] == a[..i.value];
      ParseInParts(parse, tail, b);
      ParseStep(parse, a + b);
      ParseStep(parse, a);
      ContinueAfter(parse, FrameEvents(parse, a[..i.value]), Parse(parse, tail), b);
    } else {
      assert Parse(parse, a) == Parsed([], a);
      assert [] + Parse(parse, a + b).events == Parse(parse, a + b).events;
    }
  }

  lemma FirstBlankStays(a: string, b: string)
    requires IndexOfBlank(a).Some?
    ensures IndexOfBlank(a + b) == IndexOfBlank(a)
  {
    var i := IndexOfBlank(a).value;
    assert forall k :: 0 <= k <= i ==> (BlankAt(a + b, k) <==> BlankAt(a, k));
  }

  function Joined(chunks: seq<string>): string {
    if chunks == [] then [] else Joined(chunks[..|chunks| - 1]) + chunks[|chunks| - 1]
  }

  function JoinedNormal(chunks: seq<string>): string {
    if chunks == [] then [] else JoinedNormal(chunks[..|chunks| - 1]) + Normalize(chunks[|chunks| - 1])
  }

  /** Feeding a list of chunks one after the other, from an empty buffer. */
  function FeedAll<E>(parse: string -> Option<E>, chunks: seq<string>): Parsed<E> {
    if chunks == [] then Parsed([], [])
    else
      var before := FeedAll(parse, chunks[..|chunks| - 1]);
      var p := Parse(parse, before.rest + Normalize(chunks[|chunks| - 1]));
      Parsed(before.events + p.events, p.rest)
  }

  lemma {:induction false} FeedingIsParsing<E>(parse: string -> Option<E>, chunks: seq<string>)
    ensures FeedAll(parse, chunks) == Parse(parse, JoinedNormal(chunks))
  {
    if chunks != [] {
      var front, last := chunks[..|chunks| - 1], chunks[|chunks| - 1];
      FeedingIsParsing(parse, front);
      ParseInParts(parse, JoinedNormal(front), Normalize(last));
      assert FeedAll(parse, chunks) == Continue(parse, FeedAll(parse, front), Normalize(last));
    }
  }

  predicate EndsWithCr(s: string) {
    s != [] && s[|s| - 1] == '\r'
  }

  predicate StartsWithLf(s: string) {
    s != [] && s[0] == '\n'
  }

  /** Normalising in parts loses nothing exactly when no CRLF pair is cut; a cut pair keeps its
      carriage return. */
  lemma {:induction false} NormalizeInParts(a: string, b: string)
    ensures !(EndsWithCr(a) && StartsWithLf(b)) ==> Normalize(a + b) == Normalize(a) + Normalize(b)
    ensures EndsWithCr(a) && StartsWithLf(b) ==> |Normalize(a + b)| == |Normalize(a) + Normalize(b)| - 1
    decreases |a|
  {
    if a == [] {
      assert a + b == b;
    } else if |a| == 1 {
      assert a == [a[0]];
      hide Normalize;
      NormalizeOne(a[0], b);
    } else {
      hide Normalize, EndsWithCr, StartsWithLf;
      NormalizeStep(a);
      NormalizeStep(a + b);
      var taken := if a[0] == '\r' && a[1] == '\n' then 2 else 1;
      TakenOff(a, b, taken);
      NormalizeInParts(a[taken..], b);
      Regroup(if taken == 2 then ['\n'] else [a[0]], Normalize(a[taken..]), Normalize(b));
    }
  }

  lemma TakenOff(a: string, b: string, n: nat)
    requires n <= |a|
    ensures (a + b)[n..] == a[n..] + b
    ensures n < |a| || (n > 0 && a[n - 1] != '\r') ==> EndsWithCr(a[n..]) == EndsWithCr(a)
  {
  }

  lemma NormalizeStep(s: string)
    requires |s| >= 2
    ensures Normalize(s) ==
      if s[0] == '\r' && s[1] == '\n' then ['\n'] + Normalize(s[2..]) else [s[0]] + Normalize(s[1..])
  {
  }

  lemma NormalizeOne(c: char, b: string)
    ensures Normalize([c]) == [c]
    ensures !(c == '\r' && StartsWithLf(b)) ==> Normalize([c] + b) == [c] + Normalize(b)
    ensures c == '\r' && StartsWithLf(b) ==> Normalize([c] + b) == Normalize(b)
  {
    assert ([c] + b)[1..] == b;
    if StartsWithLf(b) {
      assert ([c] + b)[2..] == b[1..];
    }
  }

  /** No chunk boundary falls inside a CRLF pair. */
  predicate NoCutCrlf(chunks: seq<string>) {
    chunks == [] ||
    (NoCutCrlf(chunks[..|chunks| - 1])
     && !(EndsWithCr(Joined(chunks[..|chunks| - 1])) && StartsWithLf(chunks[|chunks| - 1])))
  }

  /** The normalised stream is independent of the chunking if and only if no CRLF pair is cut. */
  lemma {:induction false} NormalizationExact(chunks: seq<string>)
    ensures NoCutCrlf(chunks) <==> JoinedNormal(chunks) == Normalize(Joined(chunks))
    ensures |Normalize(Joined(chunks))| <= |JoinedNormal(chunks)|
  {
    if chunks != [] {
      var front, last := chunks[..|chunks| - 1], chunks[|chunks| - 1];
      NormalizationExact(front);
      NormalizeInParts(Joined(front), last);
      if NoCutCrlf(front) && !NoCutCrlf(chunks) {
        assert |JoinedNormal(chunks)| > |Normalize(Joined(chunks))|;
      }
      if !NoCutCrlf(front) {
        ShorterWhenCut(front);
      }
    }
  }

  lemma {:induction false} ShorterWhenCut(chunks: seq<string>)
    requires !NoCutCrlf(chunks)
    ensures |Normalize(Joined(chunks))| < |JoinedNormal(chunks)|
  {
    var front, last := chunks[..|chunks| - 1], chunks[|chunks| - 1];
    NormalizeInParts(Joined(front), last);
    if !NoCutCrlf(front) {
      ShorterWhenCut(front);
    } else {
      NormalizationExact(front);
    }
  }

  /** The same stream, cut in two ways that leave CRLF pairs whole, gives the same events and the
      same buffer. */
  lemma ChunkingIrrelevant<E>(parse: string -> Option<E>, chunks: seq<string>, others: seq<string>)
    requires Joined(chunks) == Joined(others) && NoCutCrlf(chunks) && NoCutCrlf(others)
    ensures FeedAll(parse, chunks) == FeedAll(parse, others)
    ensures IndexOfBlank(FeedAll(parse, chunks).rest) == None
  {
    FeedingIsParsing(parse, chunks);
    FeedingIsParsing(parse, others);
    NormalizationExact(chunks);
    NormalizationExact(others);
    RestIsIncomplete(parse, JoinedNormal(chunks));
  }

  // ----- whole frames -----

  function JoinLines(lines: seq<string>): string
    requires lines != []
  {
    if |lines| == 1 then lines[0] else lines[0] + (['\n'] + JoinLines(lines[1..]))
  }

  predicate PlainLine(line: string) {
    line != [] && '\n' !in line && '\r' !in line
  }

  /** The lines of a frame; carriage returns may be left over in them. */
  predicate FrameLines(lines: seq<string>) {
    lines != [] && forall i :: 0 <= i < |lines| ==> lines[i] != [] && '\n' !in lines[i]
  }

  lemma {:induction false} LinesOfLine(line: string, a: string, rest: string)
    requires '\n' !in a
    ensures LinesFrom(line, a + (['\n'] + rest)) == [line + a] + LinesFrom([], rest)
    ensures LinesFrom(line, a) == [line + a]
    decreases |a|
  {
    if a == [] {
      assert a + (['\n'] + rest) == ['\n'] + rest && line + a == line;
    } else {
      assert (a + (['\n'] + rest))[1..] == a[1..] + (['\n'] + rest);
      LinesOfLine(line + [a[0]], a[1..], rest);
      assert (line + [a[0]]) + a[1..] == line + a;
    }
  }

  lemma {:induction false} LinesOfJoin(lines: seq<string>)
    requires FrameLines(lines)
    ensures Lines(JoinLines(lines)) == lines
  {
    if |lines| == 1 {
      LinesOfLine([], lines[0], []);
      assert [] + lines[0] == lines[0];
    } else {
      LinesOfJoin(lines[1..]);
      LinesOfLine([], lines[0], JoinLines(lines[1..]));
      assert [] + lines[0] == lines[0] && [lines[0]] + lines[1..] == lines;
    }
  }

  lemma {:induction false} JoinHasNoBlank(lines: seq<string>)
    requires FrameLines(lines)
    ensures var text := JoinLines(lines);
      text != [] && text[0] != '\n' && text[|text| - 1] != '\n' && forall i :: 0 <= i < |text| ==> !BlankAt(text, i)
  {
    if |lines| == 1 {
    } else {
      JoinHasNoBlank(lines[1..]);
      var a, rest := lines[0], JoinLines(lines[1..]);
      var text := JoinLines(lines);
      forall i | 0 <= i < |text| ensures !BlankAt(text, i) {
        if i > |a| {
          assert !BlankAt(rest, i - |a| - 1);
        }
      }
    }
  }

  /** A frame in front of more text is parsed first and completely. */
  lemma FrameComesFirst<E>(parse: string -> Option<E>, lines: seq<string>, rest: string)
    requires FrameLines(lines)
    ensures var p := Parse(parse, rest);
      Parse(parse, JoinLines(lines) + BLANK_LINE + rest) == Parsed(DataEvents(parse, FrameData(lines)) + p.events, p.rest)
  {
    JoinHasNoBlank(lines);
    LinesOfJoin(lines);
    var text := JoinLines(lines);
    var all := text + BLANK_LINE + rest;
    forall i | 0 <= i < |text| ensures !BlankAt(all, i) {
      assert !BlankAt(text, i);
    }
    assert BlankAt(all, |text|);
    assert IndexOfBlank(all) == Some(|text|);
    assert all[..|text|] == text && all[|text| + 2..] == rest;
    ParseStep(parse, all);
  }

  const CRLF2 := "\r\n\r\n"
  const CRLF_CR := "\r\n\r"

  lemma NormalizeTails()
    ensures Normalize(CRLF2) == "\n\n" && Normalize(CRLF_CR) == "\n\r" && Normalize("\n") == "\n"
  {
    assert CRLF2[2..] == "\r\n" && "\r\n"[2..] == "";
    assert CRLF_CR[2..] == "\r" && "\r"[1..] == "" && "\n"[1..] == "";
    assert Normalize("\r") == "\r";
    assert Normalize("\r\n") == ['\n'] + Normalize("");
  }

  lemma FeedOne<E>(parse: string -> Option<E>, s: string)
    ensures FeedAll(parse, [s]) == Parse(parse, Normalize(s)) && Joined([s]) == s
  {
    assert [s][..0] == [] && "" + s == s;
    var p := Parse(parse, Normalize(s));
    assert "" + Normalize(s) == Normalize(s) && [] + p.events == p.events;
  }

  /** Any frame of one line: sent whole, its event is delivered. */
  lemma WholeFrame<E>(parse: string -> Option<E>, line: string)
    requires PlainLine(line)
    ensures FeedAll(parse, [line + CRLF2]) == Parsed(DataEvents(parse, FrameData([line])), "")
  {
    FeedOne(parse, line + CRLF2);
    NormalizePrefix(line, CRLF2);
    NormalizeTails();
    FrameComesFirst(parse, [line], "");
    assert line + "\n\n" == JoinLines([line]) + BLANK_LINE + "";
    assert Parse(parse, "") == Parsed([], "");
    assert DataEvents(parse, FrameData([line])) + [] == DataEvents(parse, FrameData([line]));
  }

  lemma NoBlankAfterCut(line: string)
    requires PlainLine(line)
    ensures IndexOfBlank(line + "\n\r") == None && IndexOfBlank(line + "\n\r" + "\n") == None
  {
    var s, t := line + "\n\r", line + "\n\r" + "\n";
    assert forall i :: 0 <= i < |s| ==> !BlankAt(s, i);
    assert forall i :: 0 <= i < |t| ==> !BlankAt(t, i);
  }

  /** The same frame, its last line feed cut from its carriage return: the frame never ends and its
      event is not delivered, although the joined text is the same. */
  lemma CutFrame<E>(parse: string -> Option<E>, line: string)
    requires PlainLine(line)
    ensures Joined([line + CRLF_CR, "\n"]) == Joined([line + CRLF2])
    ensures FeedAll(parse, [line + CRLF_CR, "\n"]) == Parsed([], line + "\n\r" + "\n")
  {
    var first := line + CRLF_CR;
    FeedOne(parse, first);
    FeedOne(parse, line + CRLF2);
    NormalizePrefix(line, CRLF_CR);
    NormalizeTails();
    NoBlankAfterCut(line);
    assert [first, "\n"][..1] == [first];
    assert first + "\n" == line + CRLF2;
  }

  lemma {:induction false} NormalizePrefix(a: string, b: string)
    requires '\r' !in a
    ensures Normalize(a + b) == a + Normalize(b)
  {
    if a == [] {
      assert a + b == b;
    } else {
      assert (a + b)[1..] == a[1..] + b;
      NormalizePrefix(a[1..], b);
    }
  }
}
