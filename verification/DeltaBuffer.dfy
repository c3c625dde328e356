/** The streamed reply: provider deltas are collected and re-sent in small durable chunks. */
module DeltaBuffers {
  const FLUSH_AT := 48
  const LAST_DELTAS := 64
  const MAX_CHUNK := 2000
  const STATUS_LINE := "Generating image"

  function Join(parts: seq<string>): string {
    if parts == [] then [] else Join(parts[..|parts| - 1]) + parts[|parts| - 1]
  }

  /** Python's s[-n:]. */
  function Last<T>(s: seq<T>, n: nat): (r: seq<T>)
    ensures |r| <= n && (|s| <= n ==> r == s)
  {
    if |s| <= n then s else s[|s| - n..]
  }

  predicate IsStatus(delta: string) {
    STATUS_LINE <= delta
  }

  /** The variables of the callback and the text it has sent so far. */
  datatype Stream = Stream(buffer: seq<string>, pending: nat, imageToolStarted: bool, sent: seq<string>, toolEvents: nat)

  const START := Stream([], 0, false, [], 0)

  function OnDelta(s: Stream, delta: string): Stream {
    if IsStatus(delta) && !s.imageToolStarted then s.(imageToolStarted := true, toolEvents := s.toolEvents + 1)
    else
      var buffer := s.buffer + [delta];
      var pending := s.pending + |delta|;
      if pending >= FLUSH_AT
      then s.(buffer := [], pending := 0, sent := s.sent + [Last(Join(Last(buffer, LAST_DELTAS)), MAX_CHUNK)])
      else s.(buffer := buffer, pending := pending)
  }

  /** After the reply is complete, whatever is left is sent. */
  function Finish(s: Stream): Stream {
    if s.buffer != [] then s.(sent := s.sent + [Last(Join(s.buffer), MAX_CHUNK)]) else s
  }

  function Run(deltas: seq<string>): Stream {
    if deltas == [] then START else OnDelta(Run(deltas[..|deltas| - 1]), deltas[|deltas| - 1])
  }

  /** All the text that reached the reader. */
  function Delivered(deltas: seq<string>): string {
    Join(Finish(Run(deltas)).sent)
  }

  class DeltaBuffer {
    var buffer: seq<string>
    var pending: nat
    var imageToolStarted: bool
    var sent: seq<string>
    var toolEvents: nat

    ghost function State(): Stream
      reads this
    {
      Stream(buffer, pending, imageToolStarted, sent, toolEvents)
    }

    constructor ()
      ensures State() == START
    {
      buffer, pending, imageToolStarted, sent, toolEvents := [], 0, false, [], 0;
    }

    method Receive(delta: string)
      modifies this
      ensures State() == OnDelta(old(State()), delta)
    {
      if IsStatus(delta) && !imageToolStarted {
        imageToolStarted := true;
        toolEvents := toolEvents + 1;
        return;
      }
      buffer := buffer + [delta];
      pending := pending + |delta|;
      if pending >= FLUSH_AT {
        var chunk := Last(Join(Last(buffer, LAST_DELTAS)), MAX_CHUNK);
        sent := sent + [chunk];
        buffer := [];
        pending := 0;
      }
    }

    method Complete()
      modifies this
      ensures State() == Finish(old(State()))
    {
      if buffer != [] {
        sent := sent + [Last(Join(buffer), MAX_CHUNK)];
      }
    }
  }

  // ----- what arrives -----

  /** The deltas that are text: all but the first status line. */
  function TextDeltas(deltas: seq<string>): seq<string> {
    if deltas == [] then []
    else
      var before := TextDeltas(deltas[..|deltas| - 1]);
      if IsStatus(deltas[|deltas| - 1]) && !Run(deltas[..|deltas| - 1]).imageToolStarted then before
      else before + [deltas[|deltas| - 1]]
  }

  /** Nothing of these deltas is cut when they are sent as one chunk: they have at most 2000 characters
      together, and what stands in front of the last 64 of them is empty. */
  predicate Whole(buffer: seq<string>) {
    |Join(buffer)| <= 2000 && (|buffer| > 64 ==> Join(buffer[..|buffer| - 64]) == [])
  }

  /** The deltas that go out together when this one arrives, if it makes the buffer go out. */
  predicate SendsWhole(s: Stream, delta: string) {
    (IsStatus(delta) && !s.imageToolStarted) || s.pending + |delta| < 48 || Whole(s.buffer + [delta])
  }

  predicate EverySendWhole(deltas: seq<string>) {
    deltas == [] || (EverySendWhole(deltas[..|deltas| - 1]) && SendsWhole(Run(deltas[..|deltas| - 1]), deltas[|deltas| - 1]))
  }

  lemma JoinAppend(parts: seq<string>, s: string)
    ensures Join(parts + [s]) == Join(parts) + s
  {
    assert (parts + [s])[..|parts|] == parts;
  }

  lemma {:induction false} JoinParts(a: seq<string>, b: seq<string>)
    ensures Join(a + b) == Join(a) + Join(b)
  {
    if b == [] {
      assert a + b == a;
    } else {
      assert (a + b)[..|a + b| - 1] == a + b[..|b| - 1];
      JoinParts(a, b[..|b| - 1]);
    }
  }

  function Chunk(buffer: seq<string>): string {
    Last(Join(Last(buffer, LAST_DELTAS)), MAX_CHUNK)
  }

  lemma ChunkIsWhole(buffer: seq<string>)
    ensures Whole(buffer) ==> Chunk(buffer) == Join(buffer)
    ensures !Whole(buffer) ==> |Chunk(buffer)| < |Join(buffer)|
  {
    if |buffer| > LAST_DELTAS {
      var front, last := buffer[..|buffer| - LAST_DELTAS], buffer[|buffer| - LAST_DELTAS..];
      assert buffer == front + last;
      JoinParts(front, last);
      hide Join;
      assert Join(front) == [] ==> Join(buffer) == Join(last);
    }
  }

  /** The account of a stream: what was sent and what waits make up the text, as long as every chunk was
      sent whole; afterwards some of it is missing. */
  predicate Accounted(s: Stream, text: seq<string>, whole: bool) {
    && s.pending == |Join(s.buffer)| < FLUSH_AT
    && (if whole then Join(s.sent) + Join(s.buffer) == Join(text) else |Join(s.sent)| + |Join(s.buffer)| < |Join(text)|)
  }

  lemma DeltaAccounted(s: Stream, text: seq<string>, whole: bool, delta: string)
    requires Accounted(s, text, whole)
    ensures var swallowed := IsStatus(delta) && !s.imageToolStarted;
      Accounted(OnDelta(s, delta), if swallowed then text else text + [delta], whole && SendsWhole(s, delta))
  {
    if !(IsStatus(delta) && !s.imageToolStarted) {
      var buffer := s.buffer + [delta];
      JoinAppend(s.buffer, delta);
      JoinAppend(text, delta);
      ChunkIsWhole(buffer);
      JoinAppend(s.sent, Chunk(buffer));
      assert Join([]) == [];
      hide Join, IsStatus, Last, Whole;
      if s.pending + |delta| >= FLUSH_AT {
        SentAccounted(Join(s.sent), Join(s.buffer), delta, Join(text), Chunk(buffer));
      } else {
        SentAccounted(Join(s.sent), Join(s.buffer), delta, Join(text), "");
      }
    }
  }

  lemma SentAccounted(sent: string, waiting: string, delta: string, text: string, chunk: string)
    ensures sent + waiting == text ==> sent + (waiting + delta) == text + delta
    ensures sent + waiting == text && chunk == waiting + delta ==> (sent + chunk) + [] == text + delta
    ensures sent + waiting == text ==> |sent| + |waiting| == |text|
  {
    assert sent + (waiting + delta) == (sent + waiting) + delta;
  }

  lemma {:induction false} AccountedAlong(deltas: seq<string>)
    ensures Accounted(Run(deltas), TextDeltas(deltas), EverySendWhole(deltas))
  {
    if deltas == [] {
      assert Join([]) == [];
    } else {
      hide Accounted, OnDelta, SendsWhole;
      var front := deltas[..|deltas| - 1];
      AccountedAlong(front);
      DeltaAccounted(Run(front), TextDeltas(front), EverySendWhole(front), deltas[|deltas| - 1]);
    }
  }

  /** For any deltas, empty ones included: all text arrives, in order, if and only if every chunk is sent
      whole. Only the first status line is turned into a tool event instead. */
  lemma ConservedExactly(deltas: seq<string>)
    ensures Delivered(deltas) == Join(TextDeltas(deltas)) <==> EverySendWhole(deltas)
  {
    AccountedAlong(deltas);
    var s := Run(deltas);
    JoinAppend(s.sent, Join(s.buffer));
    hide Run, TextDeltas, EverySendWhole;
    if s.buffer == [] {
      assert Join(s.sent) + [] == Join(s.sent);
    }
  }

  /** No event carries more than 2000 characters, whatever the provider sends. */
  lemma {:induction false} ChunksAreSmall(deltas: seq<string>, i: nat)
    requires i < |Run(deltas).sent|
    ensures |Run(deltas).sent[i]| <= 2000
  {
    if deltas != [] {
      hide Join, IsStatus, Last;
      var before := Run(deltas[..|deltas| - 1]);
      if i < |before.sent| {
        ChunksAreSmall(deltas[..|deltas| - 1], i);
      }
    }
  }

  predicate StatusLine(delta: string) {
    |delta| >= 16 && delta[..16] == "Generating image"
  }

  lemma StatusIs(deltas: seq<string>)
    ensures forall i :: 0 <= i < |deltas| ==> (IsStatus(deltas[i]) <==> StatusLine(deltas[i]))
  {
  }

  /** Without a status line everything is text. */
  lemma {:induction false} AllIsText(deltas: seq<string>)
    requires !SomeStatus(deltas)
    ensures TextDeltas(deltas) == deltas
  {
    hide Run, IsStatus;
    if deltas != [] {
      var front, last := deltas[..|deltas| - 1], deltas[|deltas| - 1];
      assert deltas == front + [last];
      assert forall i :: 0 <= i < |front| ==> front[i] == deltas[i];
      AllIsText(front);
    }
  }

  /** The first status line is not text; everything else is. */
  lemma {:induction false} TextIs(deltas: seq<string>, k: nat)
    requires k < |deltas| && IsStatus(deltas[k]) && !SomeStatus(deltas[..k])
    ensures TextDeltas(deltas) == deltas[..k] + deltas[k + 1..]
  {
    hide Run, IsStatus;
    var front, last := deltas[..|deltas| - 1], deltas[|deltas| - 1];
    OneToolEvent(front);
    if k == |front| {
      AllIsText(front);
      assert deltas[..k] + deltas[k + 1..] == front;
    } else {
      assert front[..k] == deltas[..k] && front[k] == deltas[k];
      TextIs(front, k);
      assert front[k + 1..] + [last] == deltas[k + 1..];
      assert deltas[..k] + (front[k + 1..] + [last]) == (front[..k] + front[k + 1..]) + [last];
    }
  }

  predicate SomeStatus(deltas: seq<string>) {
    exists i :: 0 <= i < |deltas| && IsStatus(deltas[i])
  }

  lemma {:induction false} OneToolEvent(deltas: seq<string>)
    ensures Run(deltas).imageToolStarted <==> SomeStatus(deltas)
    ensures Run(deltas).toolEvents == if SomeStatus(deltas) then 1 else 0
  {
    if deltas != [] {
      var front, last := deltas[..|deltas| - 1], deltas[|deltas| - 1];
      OneToolEvent(front);
      hide IsStatus, Join, Last;
      assert SomeStatus(deltas) <==> SomeStatus(front) || IsStatus(last) by {
        if i :| 0 <= i < |front| && IsStatus(front[i]) {
          assert IsStatus(deltas[i]);
        }
      }
    }
  }

  /** A whole reply: every delta is received, then what is left is sent. The reader gets chunks of at most
      2000 characters, all the text exactly if every chunk was whole, and one tool event if there was a
      status line. */
  method StreamReply(deltas: seq<string>) returns (sent: seq<string>, toolEvents: nat)
    ensures sent == Finish(Run(deltas)).sent
    ensures Join(sent) == Join(TextDeltas(deltas)) <==> EverySendWhole(deltas)
    ensures forall i :: 0 <= i < |sent| ==> |sent[i]| <= 2000
    ensures toolEvents == if exists i :: 0 <= i < |deltas| && StatusLine(deltas[i]) then 1 else 0
  {
    hide Run, OnDelta, Finish, Join, TextDeltas, EverySendWhole, StatusLine, IsStatus;
    var stream := new DeltaBuffer();
    RunNone(deltas);
    for k := 0 to |deltas|
      invariant stream.State() == Run(deltas[..k])
    {
      RunNext(deltas, k);
      stream.Receive(deltas[k]);
    }
    stream.Complete();
    sent, toolEvents := stream.sent, stream.toolEvents;
    ConservedExactly(deltas);
    ReplySent(deltas);
  }

  lemma RunNone(deltas: seq<string>)
    ensures Run(deltas[..0]) == START && deltas[..|deltas|] == deltas
  {
  }

  lemma RunNext(deltas: seq<string>, k: nat)
    requires k < |deltas|
    ensures Run(deltas[..k + 1]) == OnDelta(Run(deltas[..k]), deltas[k])
  {
    assert deltas[..k + 1][..k] == deltas[..k];
  }

  lemma ReplySent(deltas: seq<string>)
    ensures Join(Finish(Run(deltas)).sent) == Delivered(deltas)
    ensures forall i :: 0 <= i < |Finish(Run(deltas)).sent| ==> |Finish(Run(deltas)).sent[i]| <= 2000
    ensures Finish(Run(deltas)).toolEvents == if exists i :: 0 <= i < |deltas| && StatusLine(deltas[i]) then 1 else 0
  {
    hide Run, Join, IsStatus, StatusLine;
    StatusIs(deltas);
    OneToolEvent(deltas);
    var sent := Finish(Run(deltas)).sent;
    forall i | 0 <= i < |sent| ensures |sent[i]| <= 2000 {
      if i < |Run(deltas).sent| {
        ChunksAreSmall(deltas, i);
      }
    }
  }

  // ----- bounds a provider can keep -----

  /** How many of these deltas are empty. */
  function Blanks(parts: seq<string>): nat {
    if parts == [] then 0 else Blanks(parts[..|parts| - 1]) + (if parts[|parts| - 1] == [] then 1 else 0)
  }

  /** No delta has more than `most` characters, and never do more than `blanks` empty ones wait between two
      chunks. */
  predicate Paced(deltas: seq<string>, most: nat, blanks: nat) {
    deltas == [] ||
    (Paced(deltas[..|deltas| - 1], most, blanks) && |deltas[|deltas| - 1]| <= most && Blanks(Run(deltas).buffer) <= blanks)
  }

  ghost predicate AlwaysConserved(most: nat, blanks: nat) {
    forall deltas: seq<string> :: Paced(deltas, most, blanks) ==> Delivered(deltas) == Join(TextDeltas(deltas))
  }

  lemma {:induction false} FewDeltas(parts: seq<string>)
    ensures |parts| <= Blanks(parts) + |Join(parts)|
  {
    if parts != [] {
      FewDeltas(parts[..|parts| - 1]);
    }
  }

  lemma {:induction false} PacedIsWhole(deltas: seq<string>, most: nat, blanks: nat)
    requires Paced(deltas, most, blanks) && (most == 0 || (most <= 1953 && blanks <= 16))
    ensures EverySendWhole(deltas)
  {
    if deltas != [] {
      var front, last := deltas[..|deltas| - 1], deltas[|deltas| - 1];
      PacedIsWhole(front, most, blanks);
      AccountedAlong(front);
      NothingWaitsFirst(front, most, blanks);
      var s := Run(front);
      FewDeltas(s.buffer);
      JoinAppend(s.buffer, last);
    }
  }

  lemma NothingWaitsFirst(deltas: seq<string>, most: nat, blanks: nat)
    requires Paced(deltas, most, blanks)
    ensures Blanks(Run(deltas).buffer) <= blanks
  {
  }

  // ----- beyond these bounds text is lost -----

  function Copies(part: string, n: nat): (parts: seq<string>)
    ensures |parts| == n && forall i :: 0 <= i < n ==> parts[i] == part
  {
    seq(n, _ => part)
  }

  lemma {:induction false} CopiesJoin(part: string, n: nat)
    requires |part| <= 1
    ensures |Join(Copies(part, n))| == n * |part| && Blanks(Copies(part, n)) == n - n * |part|
  {
    if n > 0 {
      assert Copies(part, n)[..n - 1] == Copies(part, n - 1);
      CopiesJoin(part, n - 1);
    }
  }

  lemma {:induction false} BlanksParts(a: seq<string>, b: seq<string>)
    ensures Blanks(a + b) == Blanks(a) + Blanks(b)
  {
    if b == [] {
      assert a + b == a;
    } else {
      assert (a + b)[..|a + b| - 1] == a + b[..|b| - 1];
      BlanksParts(a, b[..|b| - 1]);
    }
  }

  /** Deltas with fewer than 48 characters together, none a status line, all wait. */
  lemma {:induction false} QuietRun(deltas: seq<string>, most: nat, blanks: nat)
    requires |Join(deltas)| < FLUSH_AT && forall i :: 0 <= i < |deltas| ==> !IsStatus(deltas[i]) && |deltas[i]| <= most
    requires Blanks(deltas) <= blanks
    ensures Run(deltas) == Stream(deltas, |Join(deltas)|, false, [], 0) && Paced(deltas, most, blanks)
  {
    if deltas != [] {
      QuietRun(deltas[..|deltas| - 1], most, blanks);
      assert deltas == deltas[..|deltas| - 1] + [deltas[|deltas| - 1]];
    }
  }

  /** A delta that makes a part of the waiting ones be cut. */
  lemma CutAfterQuiet(front: seq<string>, delta: string, most: nat, blanks: nat)
    requires |Join(front)| < FLUSH_AT && forall i :: 0 <= i < |front| ==> !IsStatus(front[i]) && |front[i]| <= most
    requires Blanks(front) <= blanks && |delta| <= most && !IsStatus(delta)
    requires |Join(front)| + |delta| >= FLUSH_AT && !Whole(front + [delta])
    ensures Paced(front + [delta], most, blanks) && Delivered(front + [delta]) != Join(TextDeltas(front + [delta]))
  {
    var deltas := front + [delta];
    assert deltas[..|front|] == front;
    QuietRun(front, most, blanks);
    assert Run(deltas) == OnDelta(Run(front), delta) && Run(deltas).buffer == [];
    assert !SendsWhole(Run(front), delta);
    ConservedExactly(deltas);
  }

  function Letters(n: nat): (s: string)
    ensures |s| == n && forall i :: 0 <= i < n ==> s[i] == 'x'
  {
    seq(n, _ => 'x')
  }

  lemma LettersAreText(n: nat)
    ensures !IsStatus(Letters(n))
  {
    assert n > 0 ==> Letters(n)[0] != STATUS_LINE[0];
  }

  /** 47 characters wait when a delta of 1954 arrives: the chunk is one too long. */
  lemma OneTooMany(most: nat, blanks: nat)
    requires most > 1953
    ensures !AlwaysConserved(most, blanks)
  {
    var front, delta := [Letters(47)], Letters(1954);
    LettersAreText(47);
    LettersAreText(1954);
    assert front[..0] == [] && Join(front) == Join([]) + Letters(47) && Blanks(front) == Blanks([]) + 0;
    JoinAppend(front, delta);
    CutAfterQuiet(front, delta, most, blanks);
  }

  /** Seventeen empty deltas behind 47 letters: the first letter is pushed out of the last 64. */
  lemma SeventeenBlanks(most: nat, blanks: nat)
    requires most > 0 && blanks > 16
    ensures !AlwaysConserved(most, blanks)
  {
    var letters, empties := Copies("x", 47), Copies("", 17);
    var front := letters + empties;
    CopiesJoin("x", 47);
    CopiesJoin("", 17);
    JoinParts(letters, empties);
    BlanksParts(letters, empties);
    JoinAppend(front, "x");
    assert STATUS_LINE[0] != "x"[0];
    var buffer := front + ["x"];
    assert buffer[..1] == ["x"] && ["x"][..0] == [] && Join(["x"]) == Join([]) + "x";
    CutAfterQuiet(front, "x", most, blanks);
  }

  /** Text is conserved for all replies within these bounds if and only if no delta has more than 1953
      characters and never do more than 16 empty ones wait. */
  lemma BoundIsExact(most: nat, blanks: nat)
    ensures AlwaysConserved(most, blanks) <==> most == 0 || (most <= 1953 && blanks <= 16)
  {
    if most == 0 || (most <= 1953 && blanks <= 16) {
      forall deltas: seq<string> | Paced(deltas, most, blanks) ensures Delivered(deltas) == Join(TextDeltas(deltas)) {
        PacedIsWhole(deltas, most, blanks);
        ConservedExactly(deltas);
      }
    } else if most > 1953 {
      OneTooMany(most, blanks);
    } else {
      SeventeenBlanks(most, blanks);
    }
  }
}
