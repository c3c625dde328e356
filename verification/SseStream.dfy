/** What arrives of an event stream whose lines end in CRLF, wherever it is cut into chunks. */
module SseStreams {
  import opened Options
  import opened Sequences
  import opened SseParsing

  // ----- where a stream is cut -----

  /** The offsets at which chunks end. */
  function Cuts(chunks: seq<string>): set<nat> {
    if chunks == [] then {} else Cuts(chunks[..|chunks| - 1]) + {|Joined(chunks)|}
  }

  /** Normalisation of a text that starts at offset `at` of the stream: a carriage return stays when the
      stream is cut behind it. */
  function NormalFrom(text: string, cuts: set<nat>, at: nat): string {
    if text == [] then []
    else if PairAt(text, cuts, at) then ['\n'] + NormalFrom(text[2..], cuts, at + 2)
    else [text[0]] + NormalFrom(text[1..], cuts, at + 1)
  }

  /** A whole CRLF pair starts the text. */
  predicate PairAt(text: string, cuts: set<nat>, at: nat) {
    |text| >= 2 && text[0] == '\r' && text[1] == '\n' && at + 1 !in cuts
  }

  lemma NormalStep(text: string, cuts: set<nat>, at: nat)
    requires text != []
    ensures NormalFrom(text, cuts, at) ==
      if PairAt(text, cuts, at) then ['\n'] + NormalFrom(text[2..], cuts, at + 2)
      else [text[0]] + NormalFrom(text[1..], cuts, at + 1)
  {
  }

  /** Only cuts strictly inside the text matter. */
  lemma {:induction false} CutsInside(text: string, cuts: set<nat>, others: set<nat>, at: nat)
    requires forall p :: at < p < at + |text| ==> (p in cuts <==> p in others)
    ensures NormalFrom(text, cuts, at) == NormalFrom(text, others, at)
    decreases |text|
  {
    if text != [] {
      CutsInside(text[1..], cuts, others, at + 1);
      if |text| >= 2 {
        CutsInside(text[2..], cuts, others, at + 2);
      }
    }
  }

  lemma {:induction false} NoCutsInside(text: string, cuts: set<nat>, at: nat)
    requires forall p :: at < p < at + |text| ==> p !in cuts
    ensures NormalFrom(text, cuts, at) == Normalize(text)
    decreases |text|
  {
    if text != [] {
      NoCutsInside(text[1..], cuts, at + 1);
      if |text| >= 2 {
        NoCutsInside(text[2..], cuts, at + 2);
      }
    }
  }

  /** At a cut the two parts are normalised on their own. */
  lemma {:induction false} NormalAcross(a: string, b: string, cuts: set<nat>, at: nat)
    requires a != [] ==> at + |a| in cuts
    ensures NormalFrom(a + b, cuts, at) == NormalFrom(a, cuts, at) + NormalFrom(b, cuts, at + |a|)
    decreases |a|
  {
    if a == [] {
      assert a + b == b;
    } else {
      hide NormalFrom;
      NormalStep(a, cuts, at);
      NormalStep(a + b, cuts, at);
      var taken := if PairAt(a, cuts, at) then 2 else 1;
      assert PairAt(a + b, cuts, at) == PairAt(a, cuts, at);
      TakenOff(a, b, taken);
      NormalAcross(a[taken..], b, cuts, at + taken);
    }
  }

  lemma {:induction false} CutsWithin(chunks: seq<string>)
    ensures forall p :: p in Cuts(chunks) ==> p <= |Joined(chunks)|
  {
    if chunks != [] {
      CutsWithin(chunks[..|chunks| - 1]);
    }
  }

  /** Feeding chunks one by one normalises the stream, apart from the pairs that are cut. */
  lemma {:induction false} NormalizedWithCuts(chunks: seq<string>)
    ensures JoinedNormal(chunks) == NormalFrom(Joined(chunks), Cuts(chunks), 0)
  {
    if chunks != [] {
      var front, last := chunks[..|chunks| - 1], chunks[|chunks| - 1];
      var all := Joined(front);
      NormalizedWithCuts(front);
      CutsWithin(front);
      CutsInside(all, Cuts(front), Cuts(chunks), 0);
      FrontIsCut(front, last);
      NormalAcross(all, last, Cuts(chunks), 0);
      NoCutsInside(last, Cuts(chunks), |all|);
    }
  }

  lemma FrontIsCut(front: seq<string>, last: string)
    ensures Joined(front) != [] ==> |Joined(front)| in Cuts(front)
  {
  }

  // ----- frames on the wire -----

  predicate PlainFrame(lines: seq<string>) {
    lines != [] && forall i :: 0 <= i < |lines| ==> PlainLine(lines[i])
  }

  /** A frame as it is sent: every line ends in CRLF, and so does the empty line behind them. */
  function FrameWire(lines: seq<string>): string {
    if lines == [] then "\r\n" else lines[0] + "\r\n" + FrameWire(lines[1..])
  }

  function Wire(frames: seq<seq<string>>): string {
    if frames == [] then [] else FrameWire(frames[0]) + Wire(frames[1..])
  }

  /** What is left of the lines of a frame sent from offset `at` on. */
  function LinesLeft(lines: seq<string>, cuts: set<nat>, at: nat): seq<string> {
    if lines == [] then []
    else
      var cr := if at + |lines[0]| + 1 in cuts then "\r" else "";
      [lines[0] + cr] + LinesLeft(lines[1..], cuts, at + |lines[0]| + 2)
  }

  /** The stream is cut inside the last CRLF of the frame, the one that ends it. */
  predicate EndIsCut(lines: seq<string>, cuts: set<nat>, at: nat) {
    at + |FrameWire(lines)| - 1 in cuts
  }

  function Ended(lines: seq<string>): string {
    if lines == [] then [] else lines[0] + "\n" + Ended(lines[1..])
  }

  /** A text without carriage returns passes unchanged. */
  lemma {:induction false} TextPasses(a: string, b: string, cuts: set<nat>, at: nat)
    requires '\r' !in a
    ensures NormalFrom(a + b, cuts, at) == a + NormalFrom(b, cuts, at + |a|)
  {
    if a == [] {
      assert a + b == b;
    } else {
      hide NormalFrom;
      NormalStep(a + b, cuts, at);
      assert !PairAt(a + b, cuts, at);
      hide PairAt;
      assert (a + b)[1..] == a[1..] + b;
      TextPasses(a[1..], b, cuts, at + 1);
      HeadAndTail(a, NormalFrom(b, cuts, at + |a|));
    }
  }

  lemma HeadAndTail(a: string, b: string)
    requires a != []
    ensures [a[0]] + (a[1..] + b) == a + b
  {
  }

  lemma EndPasses(b: string, cuts: set<nat>, at: nat)
    ensures NormalFrom("\r\n" + b, cuts, at) == (if at + 1 in cuts then "\r\n" else "\n") + NormalFrom(b, cuts, at + 2)
  {
    var text, feed := "\r\n" + b, "\n" + b;
    NormalStep(text, cuts, at);
    NormalStep(feed, cuts, at + 1);
    hide NormalFrom;
    assert text[2..] == b && text[1..] == feed && feed[1..] == b;
    assert !PairAt(feed, cuts, at + 1);
    if at + 1 in cuts {
      assert ['\r'] + (['\n'] + NormalFrom(b, cuts, at + 2)) == "\r\n" + NormalFrom(b, cuts, at + 2);
    }
  }

  lemma {:induction false} FramePasses(lines: seq<string>, b: string, cuts: set<nat>, at: nat)
    requires forall i :: 0 <= i < |lines| ==> PlainLine(lines[i])
    ensures NormalFrom(FrameWire(lines) + b, cuts, at)
         == Ended(LinesLeft(lines, cuts, at)) + (if EndIsCut(lines, cuts, at) then "\r\n" else "\n")
            + NormalFrom(b, cuts, at + |FrameWire(lines)|)
  {
    hide NormalFrom;
    if lines == [] {
      EndPasses(b, cuts, at);
    } else {
      var rest, after := FrameWire(lines[1..]) + b, at + |lines[0]| + 2;
      var cr := if at + |lines[0]| + 1 in cuts then "\r" else "";
      var end := if EndIsCut(lines, cuts, at) then "\r\n" else "\n";
      FrameWireStep(lines, b, cuts, at);
      hide FrameWire, LinesLeft, Ended;
      TextPasses(lines[0], "\r\n" + rest, cuts, at);
      EndPasses(rest, cuts, at + |lines[0]|);
      FramePasses(lines[1..], b, cuts, after);
      assert (if at + |lines[0]| + 1 in cuts then "\r\n" else "\n") == cr + "\n";
      FirstLineLeft(lines[0], cr, Ended(LinesLeft(lines[1..], cuts, after)), end, NormalFrom(b, cuts, at + |FrameWire(lines)|));
    }
  }

  lemma FrameWireStep(lines: seq<string>, b: string, cuts: set<nat>, at: nat)
    requires lines != []
    ensures FrameWire(lines) + b == lines[0] + ("\r\n" + (FrameWire(lines[1..]) + b))
    ensures |FrameWire(lines)| == |lines[0]| + 2 + |FrameWire(lines[1..])|
    ensures EndIsCut(lines, cuts, at) == EndIsCut(lines[1..], cuts, at + |lines[0]| + 2)
    ensures Ended(LinesLeft(lines, cuts, at)) == lines[0] + (if at + |lines[0]| + 1 in cuts then "\r" else "")
              + "\n" + Ended(LinesLeft(lines[1..], cuts, at + |lines[0]| + 2))
  {
  }

  lemma FirstLineLeft(line: string, cr: string, more: string, end: string, behind: string)
    ensures line + ((cr + "\n") + (more + end + behind)) == (line + cr + "\n" + more) + end + behind
  {
  }

  /** What is left of a frame, and whether its end was cut. */
  datatype Left = Left(lines: seq<string>, cut: bool)

  function LeftOf(frames: seq<seq<string>>, cuts: set<nat>, at: nat): seq<Left> {
    if frames == [] then []
    else [Left(LinesLeft(frames[0], cuts, at), EndIsCut(frames[0], cuts, at))] + LeftOf(frames[1..], cuts, at + |FrameWire(frames[0])|)
  }

  function LeftText(fs: seq<Left>): string {
    if fs == [] then [] else Ended(fs[0].lines) + (if fs[0].cut then "\r\n" else "\n") + LeftText(fs[1..])
  }

  lemma {:induction false} WirePasses(frames: seq<seq<string>>, cuts: set<nat>, at: nat)
    requires forall i :: 0 <= i < |frames| ==> PlainFrame(frames[i])
    ensures NormalFrom(Wire(frames), cuts, at) == LeftText(LeftOf(frames, cuts, at))
  {
    if frames != [] {
      FramePasses(frames[0], Wire(frames[1..]), cuts, at);
      WirePasses(frames[1..], cuts, at + |FrameWire(frames[0])|);
    }
  }

  // ----- what is read -----

  /** The events read when `open` is the data of the lines read so far: a frame whose end was cut is
      read together with the next one. */
  function Arrived<E>(parse: string -> Option<E>, open: string, fs: seq<Left>): seq<E>
    decreases |fs|
  {
    if fs == [] then []
    else
      var data := open + FrameData(fs[0].lines);
      if fs[0].cut then Arrived(parse, data, fs[1..]) else DataEvents(parse, data) + Arrived(parse, "", fs[1..])
  }

  /** The lines that are still waiting for an end. */
  function Waiting(open: seq<string>, fs: seq<Left>): seq<string>
    decreases |fs|
  {
    if fs == [] then open
    else if fs[0].cut then Waiting(open + fs[0].lines + ["\r"], fs[1..])
    else Waiting([], fs[1..])
  }

  predicate LeftFrames(fs: seq<Left>) {
    forall i :: 0 <= i < |fs| ==> FrameLines(fs[i].lines)
  }

  lemma {:induction false} EndedParts(a: seq<string>, b: seq<string>)
    ensures Ended(a + b) == Ended(a) + Ended(b)
  {
    if a == [] {
      assert a + b == b;
    } else {
      assert (a + b)[1..] == a[1..] + b;
      EndedParts(a[1..], b);
    }
  }

  lemma {:induction false} DataParts(a: seq<string>, b: seq<string>)
    ensures FrameData(a + b) == FrameData(a) + FrameData(b)
  {
    if b == [] {
      assert a + b == a;
    } else {
      assert (a + b)[..|a + b| - 1] == a + b[..|b| - 1];
      DataParts(a, b[..|b| - 1]);
    }
  }

  lemma {:induction false} EndedIsJoined(lines: seq<string>)
    requires lines != []
    ensures Ended(lines) == JoinLines(lines) + "\n"
  {
    if |lines| > 1 {
      EndedIsJoined(lines[1..]);
    } else {
      assert Ended(lines[1..]) == [];
    }
  }

  lemma NothingEnded<E>(parse: string -> Option<E>, open: seq<string>)
    requires open == [] || FrameLines(open)
    ensures Parse(parse, Ended(open)) == Parsed([], Ended(open))
  {
    if open != [] {
      JoinHasNoBlank(open);
      EndedIsJoined(open);
      var text := JoinLines(open);
      forall i | 0 <= i < |Ended(open)| ensures !BlankAt(Ended(open), i) {
        assert i < |text| ==> !BlankAt(text, i);
      }
    }
    ParseEnds(parse, Ended(open));
  }

  lemma {:induction false} ParseLeft<E>(parse: string -> Option<E>, open: seq<string>, fs: seq<Left>)
    requires (open == [] || FrameLines(open)) && LeftFrames(fs)
    ensures Parse(parse, Ended(open) + LeftText(fs)) == Parsed(Arrived(parse, FrameData(open), fs), Ended(Waiting(open, fs)))
    decreases |fs|
  {
    if fs == [] {
      assert Ended(open) + [] == Ended(open);
      NothingEnded(parse, open);
    } else {
      hide Ended, FrameData, Parse, LeftText;
      if fs[0].cut {
        CutText(open, fs);
        ParseLeft(parse, open + fs[0].lines + ["\r"], fs[1..]);
      } else {
        WholeText(parse, open, fs);
        ParseLeft(parse, [], fs[1..]);
      }
    }
  }

  lemma CutText(open: seq<string>, fs: seq<Left>)
    requires fs != [] && fs[0].cut && LeftFrames(fs) && (open == [] || FrameLines(open))
    ensures var more := open + fs[0].lines + ["\r"];
      && FrameLines(more) && FrameData(more) == FrameData(open) + FrameData(fs[0].lines)
      && Ended(open) + LeftText(fs) == Ended(more) + LeftText(fs[1..])
  {
    var all := open + fs[0].lines;
    hide Ended, FrameData;
    EndedParts(open, fs[0].lines);
    DataParts(open, fs[0].lines);
    EndedParts(all, ["\r"]);
    DataParts(all, ["\r"]);
    LoneCr();
    Regroup4(Ended(open), Ended(fs[0].lines), "\r\n", LeftText(fs[1..]));
  }

  lemma FrameLinesParts(a: seq<string>, b: seq<string>)
    requires (a == [] || FrameLines(a)) && FrameLines(b)
    ensures FrameLines(a + b)
  {
  }

  lemma TwoFeeds(a: string, b: string)
    ensures (a + "\n") + "\n" + b == a + BLANK_LINE + b
  {
  }

  lemma LoneCr()
    ensures Ended(["\r"]) == "\r\n" && FrameData(["\r"]) == []
  {
    assert ["\r"][..0] == [] && ["\r"][1..] == [];
    assert !IsData("\r");
  }

  lemma Regroup4(a: string, b: string, c: string, d: string)
    ensures a + (b + c + d) == ((a + b) + c) + d
  {
  }

  lemma WholeText<E>(parse: string -> Option<E>, open: seq<string>, fs: seq<Left>)
    requires fs != [] && !fs[0].cut && LeftFrames(fs) && (open == [] || FrameLines(open))
    ensures var p := Parse(parse, Ended([]) + LeftText(fs[1..]));
      Parse(parse, Ended(open) + LeftText(fs))
        == Parsed(DataEvents(parse, FrameData(open) + FrameData(fs[0].lines)) + p.events, p.rest)
    ensures FrameData([]) == []
  {
    var all, rest := open + fs[0].lines, LeftText(fs[1..]);
    EndedParts(open, fs[0].lines);
    DataParts(open, fs[0].lines);
    EndedIsJoined(all);
    assert Ended([]) + rest == rest && FrameData([]) == [];
    FrameLinesParts(open, fs[0].lines);
    hide Parse, JoinLines, Ended, FrameData, FrameLines, DataEvents;
    FrameComesFirst(parse, all, rest);
    Regroup4(Ended(open), Ended(fs[0].lines), "\n", rest);
    TwoFeeds(JoinLines(all), rest);
  }

  lemma {:induction false} LinesLeftFit(lines: seq<string>, cuts: set<nat>, at: nat)
    requires forall i :: 0 <= i < |lines| ==> PlainLine(lines[i])
    ensures |LinesLeft(lines, cuts, at)| == |lines| && (lines != [] ==> FrameLines(LinesLeft(lines, cuts, at)))
    ensures FrameData(LinesLeft(lines, cuts, at)) == FrameData(lines)
  {
    if lines != [] {
      hide FrameData, LinesLeft;
      LinesLeftStep(lines, cuts, at);
      var left, more := LinesLeft(lines, cuts, at), LinesLeft(lines[1..], cuts, at + |lines[0]| + 2);
      LinesLeftFit(lines[1..], cuts, at + |lines[0]| + 2);
      assert lines == [lines[0]] + lines[1..];
      DataParts([left[0]], more);
      DataParts([lines[0]], lines[1..]);
      OneLineLeft(lines[0], left[0]);
    }
  }

  lemma LinesLeftStep(lines: seq<string>, cuts: set<nat>, at: nat)
    requires lines != [] && PlainLine(lines[0])
    ensures var left := LinesLeft(lines, cuts, at);
      && left != [] && left == [left[0]] + LinesLeft(lines[1..], cuts, at + |lines[0]| + 2)
      && (left[0] == lines[0] + "\r" || left[0] == lines[0] + "") && left[0] != [] && '\n' !in left[0]
  {
  }

  /** A carriage return behind a line does not change its data. */
  lemma OneLineLeft(line: string, left: string)
    requires PlainLine(line) && (left == line + "\r" || left == line + "")
    ensures FrameData([left]) == FrameData([line])
  {
    assert [left][..0] == [] && [line][..0] == [];
    if left == line + "\r" {
      if |line| >= 5 {
        assert left[..5] == line[..5];
      } else {
        assert left[|line|] == '\r' != "data:"[|line|];
      }
      if IsData(line) {
        assert left[5..] == line[5..] + "\r";
        TrimDropsCr(line[5..]);
      }
    } else {
      assert left == line;
    }
  }

  lemma {:induction false} TrimDropsCr(s: string)
    ensures Trim(s + "\r") == Trim(s)
  {
    if s != [] && IsSpace(s[0]) {
      assert (s + "\r")[1..] == s[1..] + "\r";
      TrimDropsCr(s[1..]);
    } else if s == [] {
      assert s + "\r" == "\r" && "\r"[1..] == "";
    } else {
      assert (s + "\r")[..|s|] == s;
      assert TrimStart(s + "\r") == s + "\r";
    }
  }

  /** Whatever the chunks, the browser reads the frames that were sent, those whose end was cut joined to
      the next one. */
  lemma WhatArrives<E>(parse: string -> Option<E>, frames: seq<seq<string>>, chunks: seq<string>)
    requires forall i :: 0 <= i < |frames| ==> PlainFrame(frames[i])
    requires Joined(chunks) == Wire(frames)
    ensures var fs := LeftOf(frames, Cuts(chunks), 0);
      FeedAll(parse, chunks) == Parsed(Arrived(parse, "", fs), Ended(Waiting([], fs)))
  {
    var fs := LeftOf(frames, Cuts(chunks), 0);
    FeedingIsParsing(parse, chunks);
    NormalizedWithCuts(chunks);
    WirePasses(frames, Cuts(chunks), 0);
    LeftOfFits(frames, Cuts(chunks), 0);
    ParseLeft(parse, [], fs);
    assert Ended([]) + LeftText(fs) == LeftText(fs) && FrameData([]) == [];
  }

  lemma {:induction false} LeftOfFits(frames: seq<seq<string>>, cuts: set<nat>, at: nat)
    requires forall i :: 0 <= i < |frames| ==> PlainFrame(frames[i])
    ensures |LeftOf(frames, cuts, at)| == |frames| && LeftFrames(LeftOf(frames, cuts, at))
    ensures forall i :: 0 <= i < |frames| ==> FrameData(LeftOf(frames, cuts, at)[i].lines) == FrameData(frames[i])
  {
    hide FrameData, LinesLeft, FrameWire, EndIsCut, FrameLines, PlainLine;
    if frames != [] {
      LinesLeftFit(frames[0], cuts, at);
      LeftOfFits(frames[1..], cuts, at + |FrameWire(frames[0])|);
    }
  }

  // ----- when nothing is lost -----

  /** The last frame's end is whole. */
  predicate LastEnds(fs: seq<Left>) {
    fs == [] || !fs[|fs| - 1].cut
  }

  /** Between two frames with data some end is whole; `open` says that one with data came before. */
  predicate Apart(open: bool, fs: seq<Left>)
    decreases |fs|
  {
    fs == [] ||
    var data := FrameData(fs[0].lines) != [];
    !(open && data) && Apart(fs[0].cut && (open || data), fs[1..])
  }

  /** The events of the frames, each on its own. */
  function AllEvents<E>(parse: string -> Option<E>, fs: seq<Left>): seq<E> {
    if fs == [] then [] else DataEvents(parse, FrameData(fs[0].lines)) + AllEvents(parse, fs[1..])
  }

  function DataFrames(fs: seq<Left>): nat {
    if fs == [] then 0 else (if FrameData(fs[0].lines) != [] then 1 else 0) + DataFrames(fs[1..])
  }

  lemma {:induction false} ApartArrives<E>(parse: string -> Option<E>, open: string, fs: seq<Left>)
    requires Apart(open != [], fs) && LastEnds(fs) && fs != []
    ensures Arrived(parse, open, fs) == DataEvents(parse, open) + AllEvents(parse, fs)
    decreases |fs|
  {
    hide FrameData, DataEvents;
    var data := FrameData(fs[0].lines);
    BothEvents(parse, open, data);
    Regroup(DataEvents(parse, open), DataEvents(parse, data), AllEvents(parse, fs[1..]));
    ArrivedStep(parse, open, fs);
    hide Arrived, AllEvents;
    if fs[0].cut {
      ApartArrives(parse, open + data, fs[1..]);
    } else if |fs| > 1 {
      ApartArrives(parse, "", fs[1..]);
    }
  }

  lemma ArrivedStep<E>(parse: string -> Option<E>, open: string, fs: seq<Left>)
    requires fs != []
    ensures var data := open + FrameData(fs[0].lines);
      Arrived(parse, open, fs)
        == if fs[0].cut then Arrived(parse, data, fs[1..]) else DataEvents(parse, data) + Arrived(parse, "", fs[1..])
    ensures AllEvents(parse, fs) == DataEvents(parse, FrameData(fs[0].lines)) + AllEvents(parse, fs[1..])
    ensures |fs| == 1 ==> Arrived(parse, "", fs[1..]) == [] == AllEvents(parse, fs[1..])
  {
  }

  lemma BothEvents<E>(parse: string -> Option<E>, open: string, data: string)
    requires open == [] || data == []
    ensures DataEvents(parse, open + data) == DataEvents(parse, open) + DataEvents(parse, data)
    ensures DataEvents(parse, "") == []
  {
    assert open == [] ==> open + data == data;
    assert data == [] ==> open + data == open;
  }

  lemma {:induction false} FewerArrive<E>(parse: string -> Option<E>, open: string, fs: seq<Left>)
    ensures |Arrived(parse, open, fs)| <= (if open != [] then 1 else 0) + DataFrames(fs)
    ensures !Apart(open != [], fs) ==> |Arrived(parse, open, fs)| < (if open != [] then 1 else 0) + DataFrames(fs)
    decreases |fs|
  {
    if fs != [] {
      FewerArrive(parse, if fs[0].cut then open + FrameData(fs[0].lines) else "", fs[1..]);
    }
  }

  lemma {:induction false} WaitingEnds(open: seq<string>, fs: seq<Left>)
    requires LeftFrames(fs)
    ensures fs != [] ==> (Waiting(open, fs) == [] <==> LastEnds(fs))
    decreases |fs|
  {
    if fs != [] {
      WaitingEnds(if fs[0].cut then open + fs[0].lines + ["\r"] else [], fs[1..]);
    }
  }

  /** Where this stream is cut, no two frames with data are read as one, and the last frame is read. */
  predicate KeptApart(frames: seq<seq<string>>, chunks: seq<string>) {
    var fs := LeftOf(frames, Cuts(chunks), 0);
    LastEnds(fs) && Apart(false, fs)
  }

  /** The events of the frames as they were sent. */
  function SentEvents<E>(parse: string -> Option<E>, frames: seq<seq<string>>): seq<E> {
    if frames == [] then [] else DataEvents(parse, FrameData(frames[0])) + SentEvents(parse, frames[1..])
  }

  function SentData(frames: seq<seq<string>>): nat {
    if frames == [] then 0 else (if FrameData(frames[0]) != [] then 1 else 0) + SentData(frames[1..])
  }

  lemma {:induction false} LeftIsSent<E>(parse: string -> Option<E>, frames: seq<seq<string>>, fs: seq<Left>)
    requires |fs| == |frames| && forall i :: 0 <= i < |frames| ==> FrameData(fs[i].lines) == FrameData(frames[i])
    ensures AllEvents(parse, fs) == SentEvents(parse, frames) && DataFrames(fs) == SentData(frames)
  {
    hide FrameData, DataEvents;
    if frames != [] {
      LeftIsSent(parse, frames[1..], fs[1..]);
    }
  }

  lemma {:induction false} EndedNothing(lines: seq<string>)
    ensures Ended(lines) == [] <==> lines == []
  {
  }

  /** Frames that are kept apart give each its event, and nothing is left over; otherwise something is
      left over, or fewer events arrive than frames with data were sent. */
  lemma FramesArrive<E>(parse: string -> Option<E>, frames: seq<seq<string>>, chunks: seq<string>)
    requires forall i :: 0 <= i < |frames| ==> PlainFrame(frames[i])
    requires Joined(chunks) == Wire(frames)
    ensures var p := FeedAll(parse, chunks);
      if KeptApart(frames, chunks) then p == Parsed(SentEvents(parse, frames), "")
      else p.rest != "" || |p.events| < SentData(frames)
  {
    var fs := LeftOf(frames, Cuts(chunks), 0);
    WhatArrives(parse, frames, chunks);
    LeftOfFits(frames, Cuts(chunks), 0);
    LeftIsSent(parse, frames, fs);
    WaitingEnds([], fs);
    EndedNothing(Waiting([], fs));
    BothEvents(parse, "", "");
    hide FeedAll, Cuts, LeftOf, Ended, FrameData, Apart, AllEvents, SentEvents, DataFrames, Waiting;
    FewerArrive(parse, "", fs);
    if fs != [] && KeptApart(frames, chunks) {
      ApartArrives(parse, "", fs);
    }
  }

  /** Sent in one piece, a stream is kept apart. */
  lemma WholeIsApart(frames: seq<seq<string>>)
    ensures Joined([Wire(frames)]) == Wire(frames) && KeptApart(frames, [Wire(frames)])
  {
    var text := Wire(frames);
    assert [text][..0] == [] && [] + text == text;
    assert Cuts([]) == {} && {} + {|text|} == {|text|};
    NoEndCut(frames, Cuts([text]), 0);
    UncutIsApart(LeftOf(frames, Cuts([text]), 0));
  }

  lemma {:induction false} NoEndCut(frames: seq<seq<string>>, cuts: set<nat>, at: nat)
    requires forall p :: p in cuts ==> p >= at + |Wire(frames)|
    ensures forall i :: 0 <= i < |LeftOf(frames, cuts, at)| ==> !LeftOf(frames, cuts, at)[i].cut
  {
    if frames != [] {
      NoEndCut(frames[1..], cuts, at + |FrameWire(frames[0])|);
    }
  }

  lemma {:induction false} UncutIsApart(fs: seq<Left>)
    requires forall i :: 0 <= i < |fs| ==> !fs[i].cut
    ensures LastEnds(fs) && Apart(false, fs)
  {
    if fs != [] {
      UncutIsApart(fs[1..]);
    }
  }

  function Verbatim(data: string): Option<string> {
    Some(data)
  }

  lemma {:induction false} AllDataArrives(frames: seq<seq<string>>)
    ensures |SentEvents(Verbatim, frames)| == SentData(frames)
  {
    if frames != [] {
      AllDataArrives(frames[1..]);
    }
  }

  /** What the browser reads of a stream depends on where it is cut exactly when frames are not kept
      apart: if they are, events and rest are those of the whole stream, for every way to parse the data;
      if not, they differ at least for the data itself. */
  lemma ChunkingIsExact<E>(parse: string -> Option<E>, frames: seq<seq<string>>, chunks: seq<string>)
    requires forall i :: 0 <= i < |frames| ==> PlainFrame(frames[i])
    requires Joined(chunks) == Wire(frames)
    ensures KeptApart(frames, chunks) ==> FeedAll(parse, chunks) == FeedAll(parse, [Wire(frames)])
    ensures KeptApart(frames, chunks) <==> FeedAll(Verbatim, chunks) == FeedAll(Verbatim, [Wire(frames)])
  {
    WholeIsApart(frames);
    AllDataArrives(frames);
    FramesArrive(parse, frames, chunks);
    FramesArrive(parse, frames, [Wire(frames)]);
    FramesArrive(Verbatim, frames, chunks);
    FramesArrive(Verbatim, frames, [Wire(frames)]);
  }

  /** When every frame has data, frames are kept apart exactly if no chunk boundary falls inside the CRLF
      that ends a frame; boundaries inside all other CRLF pairs are harmless. */
  lemma {:induction false} DataKeptApart(fs: seq<Left>)
    requires forall i :: 0 <= i < |fs| ==> FrameData(fs[i].lines) != []
    ensures LastEnds(fs) && Apart(false, fs) <==> forall i :: 0 <= i < |fs| ==> !fs[i].cut
  {
    if fs != [] {
      DataKeptApart(fs[1..]);
      if fs[0].cut && |fs| > 1 {
        assert !Apart(true, fs[1..]);
      }
    }
  }

  // ----- what the server sends -----

  /** An event, or a comment that keeps the connection open. */
  datatype Sent = Message(number: string, kind: string, json: string) | Comment(text: string)

  function SentLines(m: Sent): seq<string> {
    match m
    case Message(number, kind, json) => ["id: " + number, "event: " + kind, "data: " + json]
    case Comment(text) => [": " + text]
  }

  predicate OneLine(s: string) {
    '\n' !in s && '\r' !in s
  }

  /** Serialised events hold no line breaks and neither start nor end with white space. */
  predicate Sendable(m: Sent) {
    match m
    case Message(number, kind, json) =>
      OneLine(number) && OneLine(kind) && PlainLine(json) && !IsSpace(json[0]) && !IsSpace(json[|json| - 1])
    case Comment(text) => OneLine(text)
  }

  lemma SentFrame(m: Sent)
    requires Sendable(m)
    ensures PlainFrame(SentLines(m)) && FrameData(SentLines(m)) == if m.Message? then m.json else []
  {
    hide FrameData;
    match m
    case Comment(text) =>
      PlainPrefix(": ", text);
      NotData(": " + text);
    case Message(number, kind, json) =>
      PlainPrefix("id: ", number);
      PlainPrefix("event: ", kind);
      PlainPrefix("data: ", json);
      EventLines("id: " + number, "event: " + kind, "data: " + json);
      JsonData(json);
  }

  lemma PlainPrefix(a: string, b: string)
    requires PlainLine(a) && OneLine(b)
    ensures PlainLine(a + b) && (a + b)[0] == a[0]
  {
  }

  lemma EventLines(a: string, b: string, c: string)
    requires a != [] && b != [] && a[0] != 'd' && b[0] != 'd'
    ensures FrameData([a, b, c]) == FrameData([c])
  {
    NotData(a);
    NotData(b);
    hide FrameData;
    assert [a, b, c] == [a] + ([b] + [c]);
    DataParts([b], [c]);
    DataParts([a], [b] + [c]);
  }

  lemma NotData(line: string)
    requires line != [] && line[0] != 'd'
    ensures FrameData([line]) == []
  {
    assert |[line]| == 1 && [line][..0] == [] && !IsData(line);
  }

  lemma JsonData(json: string)
    requires PlainLine(json) && !IsSpace(json[0]) && !IsSpace(json[|json| - 1])
    ensures FrameData(["data: " + json]) == json
  {
    var line: string := "data: " + json;
    assert [line][..0] == [] && IsData(line);
    assert line[5..] == " " + json && (" " + json)[1..] == json;
    assert TrimStart(json) == json && TrimEnd(json) == json;
  }

  function SentFrames(ms: seq<Sent>): seq<seq<string>> {
    seq(|ms|, i requires 0 <= i < |ms| => SentLines(ms[i]))
  }

  /** The events of the messages that were sent, in order. */
  function EventsSent<E>(parse: string -> Option<E>, ms: seq<Sent>): seq<E>
    requires forall i :: 0 <= i < |ms| && ms[i].Message? ==> parse(ms[i].json).Some?
  {
    if ms == [] then []
    else (if ms[0].Message? then [parse(ms[0].json).value] else []) + EventsSent(parse, ms[1..])
  }

  lemma {:induction false} SentFramesGive<E>(parse: string -> Option<E>, ms: seq<Sent>)
    requires forall i :: 0 <= i < |ms| ==> Sendable(ms[i]) && (ms[i].Message? ==> parse(ms[i].json).Some?)
    ensures SentEvents(parse, SentFrames(ms)) == EventsSent(parse, ms) && SentData(SentFrames(ms)) == |EventsSent(parse, ms)|
  {
    if ms != [] {
      SentFrame(ms[0]);
      SentFramesGive(parse, ms[1..]);
      assert SentFrames(ms)[1..] == SentFrames(ms[1..]);
    }
  }

  /** Every event the server sends is read, once and in order and with nothing left over, if and only if
      the chunks keep its frames apart. */
  lemma EncodedEventsArrive<E>(parse: string -> Option<E>, ms: seq<Sent>, chunks: seq<string>)
    requires forall i :: 0 <= i < |ms| ==> Sendable(ms[i]) && (ms[i].Message? ==> parse(ms[i].json).Some?)
    requires Joined(chunks) == Wire(SentFrames(ms))
    ensures FeedAll(parse, chunks) == Parsed(EventsSent(parse, ms), "") <==> KeptApart(SentFrames(ms), chunks)
  {
    forall i | 0 <= i < |ms| ensures PlainFrame(SentFrames(ms)[i]) {
      SentFrame(ms[i]);
    }
    SentFramesGive(parse, ms);
    FramesArrive(parse, SentFrames(ms), chunks);
  }

  /** The offset between the two characters that end frame i. */
  function EndOffset(frames: seq<seq<string>>, i: nat): int
    requires i < |frames|
  {
    |Wire(frames[..i + 1])| - 1
  }

  lemma {:induction false} CutAtEnd(frames: seq<seq<string>>, cuts: set<nat>, at: nat, i: nat)
    requires i < |frames|
    ensures |LeftOf(frames, cuts, at)| == |frames| && EndOffset(frames, i) >= 0
    ensures LeftOf(frames, cuts, at)[i].cut <==> at + EndOffset(frames, i) in cuts
  {
    LeftOfLength(frames, cuts, at);
    FrameWireEnds(frames[0]);
    if i == 0 {
      assert frames[..1] == [frames[0]] && [frames[0]][1..] == [];
      assert Wire([frames[0]]) == FrameWire(frames[0]) + Wire([]) && Wire([]) == [];
    } else {
      CutAtEnd(frames[1..], cuts, at + |FrameWire(frames[0])|, i - 1);
      assert frames[..i + 1][1..] == frames[1..][..i];
    }
  }

  lemma {:induction false} LeftOfLength(frames: seq<seq<string>>, cuts: set<nat>, at: nat)
    ensures |LeftOf(frames, cuts, at)| == |frames|
  {
    if frames != [] {
      LeftOfLength(frames[1..], cuts, at + |FrameWire(frames[0])|);
    }
  }

  lemma {:induction false} FrameWireEnds(lines: seq<string>)
    ensures |FrameWire(lines)| >= 2
  {
    if lines != [] {
      FrameWireEnds(lines[1..]);
    }
  }

  /** Without comments in between: if and only if no chunk boundary falls inside the CRLF that ends a
      frame; boundaries inside all other pairs are harmless. */
  lemma MessagesArrive<E>(parse: string -> Option<E>, ms: seq<Sent>, chunks: seq<string>)
    requires forall i :: 0 <= i < |ms| ==> ms[i].Message? && Sendable(ms[i]) && parse(ms[i].json).Some?
    requires Joined(chunks) == Wire(SentFrames(ms))
    ensures FeedAll(parse, chunks) == Parsed(EventsSent(parse, ms), "") <==>
      forall i :: 0 <= i < |ms| ==> EndOffset(SentFrames(ms), i) !in Cuts(chunks)
  {
    EncodedEventsArrive(parse, ms, chunks);
    var frames := SentFrames(ms);
    hide SentFrames, FeedAll, Cuts, Wire, SentLines, LeftOf, FrameData, EndOffset;
    MessagesHaveData(ms);
    EndsAreCut(frames, chunks);
  }

  lemma MessagesHaveData(ms: seq<Sent>)
    requires forall i :: 0 <= i < |ms| ==> ms[i].Message? && Sendable(ms[i])
    ensures forall i :: 0 <= i < |ms| ==> PlainFrame(SentFrames(ms)[i]) && FrameData(SentFrames(ms)[i]) != []
  {
    forall i | 0 <= i < |ms| ensures PlainFrame(SentFrames(ms)[i]) && FrameData(SentFrames(ms)[i]) != [] {
      SentFrame(ms[i]);
    }
  }

  lemma EndsAreCut(frames: seq<seq<string>>, chunks: seq<string>)
    requires forall i :: 0 <= i < |frames| ==> PlainFrame(frames[i]) && FrameData(frames[i]) != []
    ensures KeptApart(frames, chunks) <==> forall i :: 0 <= i < |frames| ==> EndOffset(frames, i) !in Cuts(chunks)
  {
    hide FrameData, Cuts, LeftOf, EndOffset, Apart, FrameLines, PlainFrame;
    var fs := LeftOf(frames, Cuts(chunks), 0);
    LeftOfFits(frames, Cuts(chunks), 0);
    DataKeptApart(fs);
    forall i | 0 <= i < |frames| ensures fs[i].cut <==> EndOffset(frames, i) in Cuts(chunks) {
      CutAtEnd(frames, Cuts(chunks), 0, i);
    }
  }

  // ----- against the standard -----

  /** A data field, by section 9.2.6 of the WHATWG HTML Living Standard: the name before the first
      colon, or the whole line, is "data". */
  predicate IsDataField(line: string) {
    IsData(line) || line == "data"
  }

  /** Its value: what follows the colon, without one leading space. */
  function FieldValue(line: string): string {
    if |line| <= 5 then [] else if line[5] == ' ' then line[6..] else line[5..]
  }

  /** The standard's data buffer: each value followed by a line feed. */
  function DataBuffer(lines: seq<string>): string {
    if lines == [] then []
    else (if IsDataField(lines[0]) then FieldValue(lines[0]) + "\n" else []) + DataBuffer(lines[1..])
  }

  /** The data dispatched: the buffer without its last line feed. */
  function Dispatched(lines: seq<string>): string {
    var buffer := DataBuffer(lines);
    if buffer == [] then [] else buffer[..|buffer| - 1]
  }

  lemma {:induction false} NoFieldNoData(lines: seq<string>)
    requires forall i :: 0 <= i < |lines| ==> !IsDataField(lines[i])
    ensures DataBuffer(lines) == [] && FrameData(lines) == []
  {
    if lines != [] {
      NoFieldNoData(lines[1..]);
      assert lines == [lines[0]] + lines[1..] && [lines[0]][..0] == [];
      DataParts([lines[0]], lines[1..]);
    }
  }

  lemma {:induction false} BufferParts(a: seq<string>, b: seq<string>)
    ensures DataBuffer(a + b) == DataBuffer(a) + DataBuffer(b)
  {
    hide IsDataField, FieldValue;
    if a == [] {
      assert a + b == b;
    } else {
      assert (a + b)[1..] == a[1..] + b;
      BufferParts(a[1..], b);
    }
  }

  /** On a frame with one data line the parser gives the data of the standard if and only if the value
      neither starts nor ends with white space, as no serialised event does. */
  lemma SingleDataLine(before: seq<string>, line: string, behind: seq<string>)
    requires IsData(line) && forall l :: l in before + behind ==> !IsDataField(l)
    ensures FrameData(before + [line] + behind) == Trim(line[5..])
    ensures Dispatched(before + [line] + behind) == FieldValue(line)
    ensures FrameData(before + [line] + behind) == Dispatched(before + [line] + behind) <==> Trim(FieldValue(line)) == FieldValue(line)
  {
    forall i | 0 <= i < |before| ensures !IsDataField(before[i]) {
      assert before[i] in before + behind;
    }
    forall i | 0 <= i < |behind| ensures !IsDataField(behind[i]) {
      assert behind[i] in before + behind;
    }
    NoFieldNoData(before);
    NoFieldNoData(behind);
    OneField(line);
    TrimLeadingSpace(line[5..]);
    hide FrameData, DataBuffer, FieldValue, Trim, IsData, IsDataField;
    DataParts(before, [line]);
    DataParts(before + [line], behind);
    BufferParts(before, [line]);
    BufferParts(before + [line], behind);
    Nothing(Trim(line[5..]));
    Nothing(FieldValue(line) + "\n");
  }

  lemma Nothing(s: string)
    ensures [] + s + [] == s
  {
  }

  lemma OneField(line: string)
    requires IsData(line)
    ensures FrameData([line]) == Trim(line[5..]) && DataBuffer([line]) == FieldValue(line) + "\n"
    ensures FieldValue(line) == if line[5..] != [] && line[5..][0] == ' ' then line[5..][1..] else line[5..]
  {
    assert |[line]| == 1 && [line][..0] == [] && [line][1..] == [];
  }

  lemma TrimLeadingSpace(s: string)
    ensures Trim(s) == Trim(if s != [] && s[0] == ' ' then s[1..] else s)
  {
  }
}
