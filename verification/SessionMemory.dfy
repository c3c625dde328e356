/** Bounded agent memory: trimming a transcript, and the window of recent messages. */
module SessionMemory {
  import opened WhiteSpace

  const MAX_TURNS := 40
  const HISTORY_LIMIT := 12
  const HISTORY_CHARS := 12000

  /** An item written as JSON has at least its two braces. */
  type Chars = n: nat | n >= 2 witness 2

  datatype Kind = UserMessage | FunctionCall(callId: nat) | CallOutput(callId: nat) | OtherItem

  datatype Item = Item(kind: Kind, chars: Chars)

  predicate IsUser(item: Item) {
    item.kind == UserMessage
  }

  function Size(items: seq<Item>): nat {
    if items == [] then 0 else items[0].chars + Size(items[1..])
  }

  function Turns(items: seq<Item>): nat {
    if items == [] then 0 else (if IsUser(items[0]) then 1 else 0) + Turns(items[1..])
  }

  lemma {:induction false} SizeConcat(a: seq<Item>, b: seq<Item>)
    ensures Size(a + b) == Size(a) + Size(b) && Turns(a + b) == Turns(a) + Turns(b)
  {
    if a == [] {
      assert a + b == b;
    } else {
      assert (a + b)[1..] == a[1..] + b;
      SizeConcat(a[1..], b);
    }
  }

  lemma SizeSplit(items: seq<Item>, k: nat)
    requires k <= |items|
    ensures Size(items) == Size(items[..k]) + Size(items[k..]) && Turns(items) == Turns(items[..k]) + Turns(items[k..])
  {
    assert items == items[..k] + items[k..];
    SizeConcat(items[..k], items[k..]);
  }

  lemma {:induction false} NoUsersNoTurns(items: seq<Item>)
    ensures Turns(items) == 0 <==> forall i :: 0 <= i < |items| ==> !IsUser(items[i])
  {
    if items != [] {
      NoUsersNoTurns(items[1..]);
      assert forall i :: 0 < i < |items| ==> items[i] == items[1..][i - 1];
    }
  }

  // ----- where a transcript may be cut -----

  /** The first user message, or the start when there is none. */
  function First(items: seq<Item>): (f: nat)
    ensures f <= |items|
  {
    if Turns(items) == 0 then 0 else FirstUser(items)
  }

  function FirstUser(items: seq<Item>): (f: nat)
    requires Turns(items) > 0
    ensures f < |items| && IsUser(items[f]) && forall i :: 0 <= i < f ==> !IsUser(items[i])
  {
    if IsUser(items[0]) then 0 else 1 + FirstUser(items[1..])
  }

  /** A place to cut: a user message, or the start of a transcript without any. */
  predicate Boundary(items: seq<Item>, b: nat) {
    b < |items| && (IsUser(items[b]) || (b == 0 && Turns(items) == 0))
  }

  /** The next place to cut behind b, or the end. */
  function Next(items: seq<Item>, b: nat): (n: nat)
    requires b < |items|
    ensures b < n <= |items| && (n < |items| ==> IsUser(items[n]))
    ensures forall i :: b < i < n ==> !IsUser(items[i])
    decreases |items| - b
  {
    if b + 1 == |items| || IsUser(items[b + 1]) then b + 1 else Next(items, b + 1)
  }

  /** Turns counted as the loop counts them: a transcript without users is one turn. */
  function TurnsFrom(items: seq<Item>, b: nat): nat
    requires b < |items|
  {
    if Turns(items) == 0 then 1 else Turns(items[b..])
  }

  /** What the loop accepts. The items in front of the first user message stay on the bill. */
  predicate Accepts(items: seq<Item>, b: nat, maxChars: int, maxTurns: int)
    requires b < |items|
  {
    Size(items[..First(items)]) + Size(items[b..]) <= maxChars && TurnsFrom(items, b) <= maxTurns
  }

  /** The first acceptable place to cut from b on, or the end. */
  function Start(items: seq<Item>, b: nat, maxChars: int, maxTurns: int): (s: nat)
    requires b <= |items|
    ensures b <= s <= |items|
    decreases |items| - b
  {
    if b == |items| || Accepts(items, b, maxChars, maxTurns) then b
    else Start(items, Next(items, b), maxChars, maxTurns)
  }

  lemma StartStep(items: seq<Item>, b: nat, maxChars: int, maxTurns: int)
    requires b < |items| && !Accepts(items, b, maxChars, maxTurns)
    ensures Start(items, b, maxChars, maxTurns) == Start(items, Next(items, b), maxChars, maxTurns)
  {
  }

  function Trimmed(items: seq<Item>, maxChars: int, maxTurns: int): seq<Item> {
    items[Start(items, First(items), maxChars, maxTurns)..]
  }

  // ----- the loop -----

  method TrimInputList(items: seq<Item>, maxChars: int, maxTurns: int) returns (kept: seq<Item>)
    ensures kept == Trimmed(items, maxChars, maxTurns)
  {
    if items == [] {
      return [];
    }
    var boundaries := BoundariesOf(items);
    var total: int := Size(items);
    var start := boundaries[0];
    var turns := |boundaries|;
    var idx := 0;
    SizeSplit(items, boundaries[0]);
    while idx < turns
      invariant idx <= turns && start == (if idx < turns then boundaries[idx] else |items|)
      invariant total == Size(items[..First(items)]) + Size(items[start..])
      invariant Start(items, start, maxChars, maxTurns) == Start(items, First(items), maxChars, maxTurns)
    {
      var b := boundaries[idx];
      BoundaryTurns(items, boundaries, idx);
      assert LinkAt(items, boundaries, idx);
      if total <= maxChars && turns - idx <= maxTurns {
        break;
      }
      var next := if idx + 1 < turns then boundaries[idx + 1] else |items|;
      total := total - Size(items[b..next]);
      TakeTurn(items, b, next);
      StartStep(items, b, maxChars, maxTurns);
      start := next;
      idx := idx + 1;
    }
    return items[start..];
  }

  lemma TakeTurn(items: seq<Item>, b: nat, next: nat)
    requires b <= next <= |items|
    ensures Size(items[b..]) == Size(items[b..next]) + Size(items[next..])
    ensures Turns(items[b..]) == Turns(items[b..next]) + Turns(items[next..])
  {
    assert items[b..] == items[b..next] + items[next..];
    SizeConcat(items[b..next], items[next..]);
  }

  /** Boundaries in order, each the next place to cut behind the one before it. */
  predicate Chain(items: seq<Item>, boundaries: seq<nat>) {
    && |boundaries| > 0
    && (forall i :: 0 <= i < |boundaries| ==> Boundary(items, boundaries[i]))
    && boundaries[0] == First(items)
    && (forall i :: 0 <= i < |boundaries| ==> LinkAt(items, boundaries, i))
  }

  predicate LinkAt(items: seq<Item>, boundaries: seq<nat>, i: nat)
    requires i < |boundaries|
  {
    boundaries[i] < |items|
    && Next(items, boundaries[i]) == if i + 1 < |boundaries| then boundaries[i + 1] else |items|
  }

  predicate NoUserWithin(items: seq<Item>, lo: nat, hi: nat)
    requires hi <= |items|
  {
    forall u :: lo <= u < hi ==> !IsUser(items[u])
  }

  /** Between boundary k and the next one, or `end`, there is no user message. */
  predicate GapAfter(items: seq<Item>, boundaries: seq<nat>, k: nat, end: nat)
    requires k < |boundaries|
  {
    var next := if k + 1 < |boundaries| then boundaries[k + 1] else end;
    boundaries[k] < next <= |items| && NoUserWithin(items, boundaries[k] + 1, next)
  }

  predicate Gaps(items: seq<Item>, boundaries: seq<nat>, end: nat) {
    forall k :: 0 <= k < |boundaries| ==> GapAfter(items, boundaries, k, end)
  }

  lemma GapsNext(items: seq<Item>, boundaries: seq<nat>, i: nat)
    requires i < |items| && Gaps(items, boundaries, i)
    ensures if IsUser(items[i]) then Gaps(items, boundaries + [i], i + 1) else Gaps(items, boundaries, i + 1)
  {
    var more, end := if IsUser(items[i]) then boundaries + [i] else boundaries, i + 1;
    forall k | 0 <= k < |more| ensures GapAfter(items, more, k, end) {
      if k < |boundaries| {
        assert GapAfter(items, boundaries, k, i);
        assert k + 1 < |boundaries| ==> more[k + 1] == boundaries[k + 1];
      }
    }
  }

  method BoundariesOf(items: seq<Item>) returns (boundaries: seq<nat>)
    requires items != []
    ensures Chain(items, boundaries)
  {
    boundaries := [];
    for i := 0 to |items|
      invariant forall k :: 0 <= k < |boundaries| ==> boundaries[k] < i && IsUser(items[boundaries[k]])
      invariant NoUserWithin(items, 0, if boundaries == [] then i else boundaries[0])
      invariant Gaps(items, boundaries, i)
    {
      GapsNext(items, boundaries, i);
      if IsUser(items[i]) {
        boundaries := boundaries + [i];
      }
    }
    NoUsersNoTurns(items);
    if boundaries == [] {
      boundaries := [0];
      NextIs(items, 0, |items|);
    } else {
      UsersChain(items, boundaries);
    }
  }

  lemma {:induction false} NextIs(items: seq<Item>, b: nat, n: nat)
    requires b < n <= |items| && NoUserWithin(items, b + 1, n) && (n < |items| ==> IsUser(items[n]))
    ensures Next(items, b) == n
    decreases n - b
  {
    if b + 1 < n {
      NextIs(items, b + 1, n);
    }
  }

  lemma UsersChain(items: seq<Item>, boundaries: seq<nat>)
    requires boundaries != [] && Turns(items) > 0
    requires forall k :: 0 <= k < |boundaries| ==> boundaries[k] < |items| && IsUser(items[boundaries[k]])
    requires NoUserWithin(items, 0, boundaries[0])
    requires Gaps(items, boundaries, |items|)
    ensures Chain(items, boundaries)
  {
    forall k | 0 <= k < |boundaries| ensures LinkAt(items, boundaries, k) {
      assert GapAfter(items, boundaries, k, |items|);
      if k + 1 < |boundaries| {
        assert IsUser(items[boundaries[k + 1]]);
      }
      NextIs(items, boundaries[k], if k + 1 < |boundaries| then boundaries[k + 1] else |items|);
    }
  }

  lemma NoTurnsWithin(items: seq<Item>, lo: nat, hi: nat)
    requires lo <= hi <= |items| && NoUserWithin(items, lo, hi)
    ensures Turns(items[lo..hi]) == 0
  {
    NoUsersNoTurns(items[lo..hi]);
    assert forall i :: 0 <= i < hi - lo ==> items[lo..hi][i] == items[lo + i];
  }

  /** From one user message to the next there is one turn. */
  lemma OneTurn(items: seq<Item>, b: nat)
    requires b < |items| && IsUser(items[b])
    ensures Turns(items[b..]) == 1 + Turns(items[Next(items, b)..])
  {
    var n := Next(items, b);
    NoTurnsWithin(items, b + 1, n);
    TurnsOfTail(items, b);
    hide Turns, Next;
    TakeTurn(items, b + 1, n);
  }

  lemma TurnsOfTail(items: seq<Item>, b: nat)
    requires b < |items|
    ensures Turns(items[b..]) == (if IsUser(items[b]) then 1 else 0) + Turns(items[b + 1..])
  {
    assert items[b..][1..] == items[b + 1..];
  }

  /** The loop's count of remaining boundaries is the number of remaining turns. */
  lemma {:induction false} BoundaryTurns(items: seq<Item>, boundaries: seq<nat>, idx: nat)
    requires Chain(items, boundaries) && idx < |boundaries|
    ensures TurnsFrom(items, boundaries[idx]) == |boundaries| - idx
    decreases |boundaries| - idx
  {
    NoUsersNoTurns(items);
    if Turns(items) == 0 {
      NextIs(items, 0, |items|);
      assert LinkAt(items, boundaries, 0);
    } else {
      assert Boundary(items, boundaries[idx]) && LinkAt(items, boundaries, idx);
      OneTurn(items, boundaries[idx]);
      if idx + 1 < |boundaries| {
        BoundaryTurns(items, boundaries, idx + 1);
      } else {
        assert items[|items|..] == [] && Turns([]) == 0;
      }
    }
  }

  // ----- what is kept -----

  /** What may be left of a transcript: everything from a place to cut on, or nothing. */
  predicate IsCut(items: seq<Item>, s: nat) {
    s == |items| || Boundary(items, s)
  }

  predicate Fits(items: seq<Item>, maxChars: int, maxTurns: int) {
    items == [] || (Size(items) <= maxChars && Turns(items) <= maxTurns && maxTurns >= 1)
  }

  lemma FirstIsCut(items: seq<Item>)
    ensures IsCut(items, First(items))
  {
  }

  lemma {:induction false} StartIsCut(items: seq<Item>, b: nat, maxChars: int, maxTurns: int)
    requires b <= |items| && IsCut(items, b)
    ensures IsCut(items, Start(items, b, maxChars, maxTurns))
    ensures Start(items, b, maxChars, maxTurns) < |items| ==> Accepts(items, Start(items, b, maxChars, maxTurns), maxChars, maxTurns)
    decreases |items| - b
  {
    if b < |items| && !Accepts(items, b, maxChars, maxTurns) {
      StartIsCut(items, Next(items, b), maxChars, maxTurns);
    }
  }

  lemma TurnsAtBoundary(items: seq<Item>, b: nat)
    requires Boundary(items, b)
    ensures TurnsFrom(items, b) >= 1 && Turns(items[b..]) <= TurnsFrom(items, b)
  {
    SizeSplit(items, b);
  }

  /** The result is the transcript from a place to cut on, or nothing, and stays within both bounds. */
  lemma TrimmedFits(items: seq<Item>, maxChars: int, maxTurns: int)
    ensures Fits(Trimmed(items, maxChars, maxTurns), maxChars, maxTurns)
    ensures IsCut(items, Start(items, First(items), maxChars, maxTurns))
  {
    FirstIsCut(items);
    StartIsCut(items, First(items), maxChars, maxTurns);
    var s := Start(items, First(items), maxChars, maxTurns);
    if s < |items| {
      TurnsAtBoundary(items, s);
    }
  }

  /** A call and its output in the same turn are kept together or dropped together. */
  lemma CallsKeepTheirOutputs(items: seq<Item>, maxChars: int, maxTurns: int, i: nat, j: nat, id: nat)
    requires i < j < |items| && items[i].kind == FunctionCall(id) && items[j].kind == CallOutput(id)
    requires NoUserWithin(items, i, j)
    ensures var s := Start(items, First(items), maxChars, maxTurns); s <= i <==> s <= j
  {
    TrimmedFits(items, maxChars, maxTurns);
  }

  /** Trimming what was trimmed changes nothing. */
  lemma TrimIsIdempotent(items: seq<Item>, maxChars: int, maxTurns: int)
    ensures Trimmed(Trimmed(items, maxChars, maxTurns), maxChars, maxTurns) == Trimmed(items, maxChars, maxTurns)
  {
    TrimmedFits(items, maxChars, maxTurns);
    var s := Start(items, First(items), maxChars, maxTurns);
    var kept := items[s..];
    if s < |items| {
      SizeSplit(items, s);
      NoUsersNoTurns(kept);
      if Turns(items) > 0 {
        assert IsUser(kept[0]);
      }
      assert First(kept) == 0 && kept[..0] == [] && kept[0..] == kept;
      TurnsAtBoundary(kept, 0);
      assert Accepts(kept, 0, maxChars, maxTurns);
    }
  }

  // ----- how much is kept -----

  predicate FitsFrom(items: seq<Item>, b: nat, maxChars: int, maxTurns: int) {
    b < |items| && Size(items[b..]) <= maxChars && TurnsFrom(items, b) <= maxTurns
  }

  /** No place to cut in front of s leaves something that fits. */
  predicate LongestFrom(items: seq<Item>, s: nat, maxChars: int, maxTurns: int) {
    forall b :: 0 <= b < s && Boundary(items, b) ==> !FitsFrom(items, b, maxChars, maxTurns)
  }

  lemma NothingBetween(items: seq<Item>, b: nat)
    requires b < |items|
    ensures forall c :: b < c < Next(items, b) ==> !Boundary(items, c)
  {
  }

  lemma {:induction false} StartIsLongest(items: seq<Item>, b: nat, maxChars: int, maxTurns: int)
    requires b <= |items| && IsCut(items, b) && Size(items[..First(items)]) == 0
    requires LongestFrom(items, b, maxChars, maxTurns)
    ensures LongestFrom(items, Start(items, b, maxChars, maxTurns), maxChars, maxTurns)
    decreases |items| - b
  {
    if b < |items| && !Accepts(items, b, maxChars, maxTurns) {
      var n := Next(items, b);
      NothingBetween(items, b);
      assert LongestFrom(items, n, maxChars, maxTurns);
      StartIsLongest(items, n, maxChars, maxTurns);
    }
  }

  ghost predicate AlwaysLongest(items: seq<Item>) {
    forall maxChars: int, maxTurns: int ::
      LongestFrom(items, Start(items, First(items), maxChars, maxTurns), maxChars, maxTurns)
  }

  lemma {:induction false} PositiveSize(items: seq<Item>)
    ensures Size(items) == 0 <==> items == []
  {
  }

  /** What is kept is the longest that fits, for all bounds, if and only if no item stands in front of
      the first user message: those items are dropped, but their size keeps counting. */
  lemma LongestExactly(items: seq<Item>)
    ensures AlwaysLongest(items) <==> First(items) == 0
  {
    var f := First(items);
    PositiveSize(items[..f]);
    FirstIsCut(items);
    if f == 0 {
      forall maxChars: int, maxTurns: int
        ensures LongestFrom(items, Start(items, First(items), maxChars, maxTurns), maxChars, maxTurns)
      {
        StartIsLongest(items, 0, maxChars, maxTurns);
      }
    } else {
      var maxChars, maxTurns := Size(items[f..]), TurnsFrom(items, f);
      assert FitsFrom(items, f, maxChars, maxTurns) && !Accepts(items, f, maxChars, maxTurns);
      StartStep(items, f, maxChars, maxTurns);
      assert !LongestFrom(items, Start(items, f, maxChars, maxTurns), maxChars, maxTurns);
    }
  }

  // ----- over many turns -----

  /** One run of an agent: the stored transcript is trimmed, or started afresh after a change of
      provider, and comes back with one user message and whatever the agent did. */
  datatype AgentTurn = AgentTurn(sameProvider: bool, maxChars: int, asked: Chars, reply: seq<Item>)

  predicate NoUsers(items: seq<Item>) {
    forall i :: 0 <= i < |items| ==> !IsUser(items[i])
  }

  function AfterTurn(before: seq<Item>, t: AgentTurn): seq<Item> {
    (if t.sameProvider && before != [] then Trimmed(before, t.maxChars, MAX_TURNS) else [])
    + [Item(UserMessage, t.asked)] + t.reply
  }

  function Stored(turns: seq<AgentTurn>): seq<Item> {
    if turns == [] then [] else AfterTurn(Stored(turns[..|turns| - 1]), turns[|turns| - 1])
  }

  predicate StartsWithUser(items: seq<Item>) {
    items != [] && IsUser(items[0])
  }

  lemma TurnAdded(before: seq<Item>, t: AgentTurn)
    requires (before == [] || StartsWithUser(before)) && NoUsers(t.reply)
    ensures Turns(AfterTurn(before, t)) <= MAX_TURNS + 1 && StartsWithUser(AfterTurn(before, t))
  {
    var kept := if t.sameProvider && before != [] then Trimmed(before, t.maxChars, MAX_TURNS) else [];
    var asked := [Item(UserMessage, t.asked)];
    TrimmedFits(before, t.maxChars, MAX_TURNS);
    NoUsersNoTurns(t.reply);
    OneUserIsOneTurn(asked[0]);
    NoUsersNoTurns(before);
    hide Trimmed, Turns;
    SizeConcat(kept + asked, t.reply);
    SizeConcat(kept, asked);
    if kept != [] {
      KeptStartsWithUser(before, t.maxChars);
    }
  }

  lemma OneUserIsOneTurn(item: Item)
    requires IsUser(item)
    ensures Turns([item]) == 1
  {
  }

  lemma KeptStartsWithUser(before: seq<Item>, maxChars: int)
    requires StartsWithUser(before)
    ensures Trimmed(before, maxChars, MAX_TURNS) == [] || StartsWithUser(Trimmed(before, maxChars, MAX_TURNS))
  {
    TrimmedFits(before, maxChars, MAX_TURNS);
  }

  /** However long the conversation, the stored transcript never holds more than 41 turns, and it
      starts with a user message, so that trimming it always keeps as much as fits. */
  lemma {:induction false} MemoryIsBounded(turns: seq<AgentTurn>)
    requires forall i :: 0 <= i < |turns| ==> NoUsers(turns[i].reply)
    ensures Turns(Stored(turns)) <= 41
    ensures turns != [] ==> StartsWithUser(Stored(turns))
    ensures AlwaysLongest(Stored(turns))
  {
    if turns != [] {
      var front, t := turns[..|turns| - 1], turns[|turns| - 1];
      MemoryIsBounded(front);
      hide AfterTurn, AlwaysLongest, NoUsers;
      TurnAdded(Stored(front), t);
    }
    LongestExactly(Stored(turns));
    StartsAtFirst(Stored(turns));
  }

  lemma StartsAtFirst(items: seq<Item>)
    requires items == [] || StartsWithUser(items)
    ensures First(items) == 0
  {
  }

  predicate FitsWhole(items: seq<Item>, maxChars: int) {
    Size(items) <= maxChars && Turns(items) <= 40 && (items == [] || StartsWithUser(items))
  }

  /** What one more turn stores: the user's message and the reply, behind what was kept; nothing of
      another provider's transcript is kept, and all of it if it fits. */
  lemma TurnStores(turns: seq<AgentTurn>, t: AgentTurn) returns (kept: seq<Item>, k: nat)
    ensures Stored(turns + [t]) == kept + [Item(UserMessage, t.asked)] + t.reply
    ensures k <= |Stored(turns)| && kept == Stored(turns)[k..]
    ensures !t.sameProvider ==> kept == []
    ensures t.sameProvider && FitsWhole(Stored(turns), t.maxChars) ==> kept == Stored(turns)
  {
    assert (turns + [t])[..|turns|] == turns;
    var before := Stored(turns);
    if t.sameProvider && before != [] {
      k := Start(before, First(before), t.maxChars, MAX_TURNS);
      kept := Trimmed(before, t.maxChars, MAX_TURNS);
      if StartsWithUser(before) {
        StartsAtFirst(before);
        assert before[..0] == [] && before[0..] == before;
      }
    } else {
      k := |before|;
      kept := [];
    }
  }

  // ----- recent messages for agents without a session -----

  datatype ChatMessage = ChatMessage(fromUser: bool, byOther: bool, author: string, content: string)

  function LeftStripped(s: string): string {
    if s != [] && IsSpace(s[0]) then LeftStripped(s[1..]) else s
  }

  function RightStripped(s: string): string {
    if s != [] && IsSpace(s[|s| - 1]) then RightStripped(s[..|s| - 1]) else s
  }

  function Cut(s: string, n: nat): (r: string)
    ensures |r| <= n
  {
    if |s| <= n then s else s[..n]
  }

  /** What the agent gets to read of a message; of another agent's answer only a short reference. */
  function TextOf(m: ChatMessage): string {
    var stripped := RightStripped(LeftStripped(m.content));
    if !m.fromUser && m.byOther then "[" + m.author + "] " + Cut(stripped, 400) else Cut(stripped, 2000)
  }

  predicate AllSpace(s: string) {
    forall i :: 0 <= i < |s| ==> IsSpace(s[i])
  }

  predicate NoSpaceAtEdges(s: string) {
    s != [] ==> !IsSpace(s[0]) && !IsSpace(s[|s| - 1])
  }

  lemma {:induction false} LeftIs(s: string) returns (front: string)
    ensures s == front + LeftStripped(s) && AllSpace(front) && (LeftStripped(s) != [] ==> !IsSpace(LeftStripped(s)[0]))
  {
    if s != [] && IsSpace(s[0]) {
      front := LeftIs(s[1..]);
      front := [s[0]] + front;
    } else {
      front := [];
    }
  }

  lemma {:induction false} RightIs(s: string) returns (back: string)
    ensures s == RightStripped(s) + back && AllSpace(back)
    ensures RightStripped(s) != [] ==> !IsSpace(RightStripped(s)[|RightStripped(s)| - 1])
  {
    if s != [] && IsSpace(s[|s| - 1]) {
      back := RightIs(s[..|s| - 1]);
      assert s == s[..|s| - 1] + [s[|s| - 1]];
      back := back + [s[|s| - 1]];
    } else {
      back := [];
      assert s + [] == s;
    }
  }

  /** What an agent reads of a message is its text without the white space around it: at most 2000
      characters of the user's and its own, at most 400 of another agent's, behind that agent's name. */
  lemma TextMeans(m: ChatMessage) returns (front: string, body: string, back: string)
    ensures m.content == front + body + back && AllSpace(front) && AllSpace(back) && NoSpaceAtEdges(body)
    ensures m.fromUser || !m.byOther ==> TextOf(m) == if |body| <= 2000 then body else body[..2000]
    ensures !m.fromUser && m.byOther ==> TextOf(m) == "[" + m.author + "] " + (if |body| <= 400 then body else body[..400])
  {
    front := LeftIs(m.content);
    back := RightIs(LeftStripped(m.content));
    body := RightStripped(LeftStripped(m.content));
    assert front + (body + back) == front + body + back;
  }

  function Texts(messages: seq<ChatMessage>): seq<string> {
    seq(|messages|, i requires 0 <= i < |messages| => TextOf(messages[i]))
  }

  function TotalChars(messages: seq<ChatMessage>): nat {
    if messages == [] then 0 else |TextOf(messages[0])| + TotalChars(messages[1..])
  }

  predicate WindowFits(messages: seq<ChatMessage>) {
    |messages| <= 12 && TotalChars(messages) <= 12000
  }

  lemma TotalOfTail(messages: seq<ChatMessage>, k: nat)
    requires k < |messages|
    ensures TotalChars(messages[k..]) == |TextOf(messages[k])| + TotalChars(messages[k + 1..])
  {
    assert messages[k..][1..] == messages[k + 1..];
  }

  lemma NothingYet(messages: seq<ChatMessage>)
    ensures TotalChars(messages[|messages|..]) == 0 && Texts(messages[|messages|..]) == []
  {
  }

  lemma TextsOfTail(messages: seq<ChatMessage>, k: nat)
    requires k < |messages|
    ensures Texts(messages[k..]) == [TextOf(messages[k])] + Texts(messages[k + 1..])
  {
  }

  lemma {:induction false} LongerTailsAreBigger(messages: seq<ChatMessage>, j: nat, k: nat)
    requires j <= k <= |messages|
    ensures TotalChars(messages[j..]) >= TotalChars(messages[k..])
    decreases k - j
  {
    if j < k {
      TotalOfTail(messages, j);
      LongerTailsAreBigger(messages, j + 1, k);
    }
  }

  /** The history, oldest first: the longest window of the newest messages within both limits. The
      query's own limit of 24 rows never shows. */
  method LoadHistory(messages: seq<ChatMessage>) returns (history: seq<string>)
    ensures |history| <= |messages|
    ensures var window := messages[|messages| - |history|..]; history == Texts(window) && WindowFits(window)
    ensures forall longer :: 0 <= longer < |messages| - |history| ==> !WindowFits(messages[longer..])
  {
    hide TextOf, TotalChars;
    NothingYet(messages);
    var base := if |messages| <= 2 * HISTORY_LIMIT then 0 else |messages| - 2 * HISTORY_LIMIT;
    var k, total := |messages|, 0;
    history := [];
    while k > base
      invariant base <= k <= |messages| && |messages| - k <= HISTORY_LIMIT
      invariant total == TotalChars(messages[k..]) && total <= HISTORY_CHARS
      invariant history == Texts(messages[k..])
    {
      var text := TextOf(messages[k - 1]);
      TotalOfTail(messages, k - 1);
      TextsOfTail(messages, k - 1);
      if total + |text| > HISTORY_CHARS || |history| >= HISTORY_LIMIT {
        assert !WindowFits(messages[k - 1..]);
        break;
      }
      history := [text] + history;
      total := total + |text|;
      k := k - 1;
    }
    forall longer | 0 <= longer < k ensures !WindowFits(messages[longer..]) {
      LongerTailsAreBigger(messages, longer, k - 1);
    }
  }
}
