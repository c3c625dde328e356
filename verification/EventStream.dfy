/** Replay and live events of a run, and the client that reconnects. */
module EventStream {
  import opened RunStates
  import opened RunModel
  import opened Timelines
  import opened TimelineAgreement

  const REPLAY_LIMIT := 5000

  /** The numbers one replay query returns: the first 5000 after `after`, of `stored` in all. */
  function ReplayRows(after: nat, stored: nat): (rows: seq<nat>)
    ensures forall i :: 0 <= i < |rows| ==> rows[i] == after + 1 + i
    ensures |rows| <= 5000 && after + |rows| <= (if stored > after then stored else after)
    ensures |rows| < 5000 && stored >= after ==> after + |rows| == stored
  {
    if stored <= after then []
    else seq(if stored - after <= REPLAY_LIMIT then stored - after else REPLAY_LIMIT, i => after + 1 + i)
  }

  /** Each event once, in order, none left out. */
  predicate Consecutive(after: nat, sent: seq<nat>) {
    forall i :: 0 <= i < |sent| ==> sent[i] == after + 1 + i
  }

  /** No live event is further ahead of the last one sent than one replay query can fill. Once a
      terminal event is sent the rest does not matter. */
  predicate GapsFit(last: nat, wires: seq<nat>, terminal: nat -> bool)
    decreases |wires|
  {
    if wires == [] then true
    else if wires[0] <= last then GapsFit(last, wires[1..], terminal)
    else wires[0] - last - 1 <= 5000 && (terminal(wires[0]) || GapsFit(wires[0], wires[1..], terminal))
  }

  predicate HoldsTerminal(rows: seq<nat>, terminal: nat -> bool) {
    exists i :: 0 <= i < |rows| && terminal(rows[i])
  }

  /** The generator behind the event stream. `stored` events exist when the replay runs and
      `storedAt[i]` when live event i arrives; an event is published only after it is stored.
      What is sent is gap-free exactly when every gap fits one replay query. If the replayed part
      holds a terminal event the stream ends with it, even when the run has been retried since. */
  method Stream(after: nat, stored: nat, runEnded: bool, wires: seq<nat>, storedAt: seq<nat>, terminal: nat -> bool)
    returns (sent: seq<nat>, ended: bool)
    requires |storedAt| == |wires| && forall i :: 0 <= i < |wires| ==> storedAt[i] >= wires[i]
    ensures ReplayRows(after, stored) <= sent
    ensures runEnded || HoldsTerminal(ReplayRows(after, stored), terminal) ==> sent == ReplayRows(after, stored) && ended
    ensures Consecutive(after, sent) <==>
      runEnded || HoldsTerminal(ReplayRows(after, stored), terminal)
      || GapsFit(after + |ReplayRows(after, stored)|, wires, terminal)
    ensures Consecutive(after, sent) && !ended ==>
      |sent| >= |ReplayRows(after, stored)| && forall i :: 0 <= i < |wires| ==> wires[i] <= after + |sent|
    ensures ended ==> runEnded || HoldsTerminal(sent, terminal)
  {
    var last, isTerminal := after, runEnded;
    sent := [];
    var rows := ReplayRows(after, stored);
    for i := 0 to |rows|
      invariant sent == rows[..i] && last == after + i
      invariant isTerminal <==> runEnded || HoldsTerminal(rows[..i], terminal)
    {
      TerminalNext(rows, i, terminal);
      last := rows[i];
      sent := sent + [rows[i]];
      if terminal(rows[i]) {
        isTerminal := true;
      }
    }
    assert rows[..|rows|] == rows;
    if isTerminal {
      return sent, true;
    }
    var tail;
    tail, ended := Follow(last, wires, storedAt, terminal);
    ConsecutiveParts(after, sent, tail);
    sent := sent + tail;
    assert ended ==> terminal(sent[|sent| - 1]);
  }

  lemma TerminalNext(rows: seq<nat>, i: nat, terminal: nat -> bool)
    requires i < |rows|
    ensures HoldsTerminal(rows[..i + 1], terminal) <==> HoldsTerminal(rows[..i], terminal) || terminal(rows[i])
  {
    if HoldsTerminal(rows[..i], terminal) {
      var k :| 0 <= k < i && terminal(rows[..i][k]);
      assert rows[..i + 1][k] == rows[..i][k];
    }
    if terminal(rows[i]) {
      assert rows[..i + 1][i] == rows[i];
    }
  }

  lemma ConsecutiveParts(after: nat, a: seq<nat>, b: seq<nat>)
    requires Consecutive(after, a)
    ensures Consecutive(after, a + b) <==> Consecutive(after + |a|, b)
  {
    if Consecutive(after, a + b) {
      forall i | 0 <= i < |b| ensures b[i] == after + |a| + 1 + i {
        assert (a + b)[|a| + i] == b[i];
      }
    }
  }

  /** The live part: repeats are skipped, gaps are filled as far as one query reaches. */
  method Follow(start: nat, wires: seq<nat>, storedAt: seq<nat>, terminal: nat -> bool)
    returns (sent: seq<nat>, ended: bool)
    requires |storedAt| == |wires| && forall i :: 0 <= i < |wires| ==> storedAt[i] >= wires[i]
    ensures Consecutive(start, sent) <==> GapsFit(start, wires, terminal)
    ensures Consecutive(start, sent) && !ended ==> forall i :: 0 <= i < |wires| ==> wires[i] <= start + |sent|
    ensures ended ==> sent != [] && terminal(sent[|sent| - 1])
  {
    var last := start;
    sent := [];
    for k := 0 to |wires|
      invariant last >= start
      invariant Consecutive(start, sent) ==> last == start + |sent|
      invariant forall i :: 0 <= i < k ==> wires[i] <= last
      invariant GapsFit(start, wires, terminal) <==> Consecutive(start, sent) && GapsFit(last, wires[k..], terminal)
    {
      assert wires[k..][1..] == wires[k + 1..];
      var wire := wires[k];
      if wire <= last {
        continue;
      }
      ghost var sentBefore, lastBefore := sent, last;
      var filled := ReplayRows(last, storedAt[k]);
      var upTo := if |filled| < wire - last - 1 then |filled| else wire - last - 1;
      sent := sent + filled[..upTo] + [wire];
      SentOneMore(start, sentBefore, lastBefore, filled, upTo, wire, storedAt[k]);
      last := wire;
      if terminal(wire) {
        return sent, true;
      }
    }
    ended := false;
  }

  lemma SentOneMore(start: nat, sent: seq<nat>, last: nat, filled: seq<nat>, upTo: nat, wire: nat, stored: nat)
    requires start <= last < wire <= stored && filled == ReplayRows(last, stored)
    requires upTo == if |filled| < wire - last - 1 then |filled| else wire - last - 1
    requires Consecutive(start, sent) ==> last == start + |sent|
    ensures Consecutive(start, sent + filled[..upTo] + [wire]) <==> Consecutive(start, sent) && wire - last - 1 <= 5000
    ensures Consecutive(start, sent + filled[..upTo] + [wire]) ==> wire == start + |sent + filled[..upTo] + [wire]|
  {
    var all := sent + filled[..upTo] + [wire];
    if Consecutive(start, all) {
      forall i | 0 <= i < |sent| ensures sent[i] == start + 1 + i {
        assert all[i] == sent[i];
      }
      assert all[|all| - 1] == wire;
    }
  }

  // ----- the client -----

  /** Relative to what the client has, the feed never jumps ahead; it may repeat. */
  predicate GapFree(last: nat, feed: seq<nat>)
    decreases |feed|
  {
    feed == [] || (feed[0] <= last + 1 && GapFree(if feed[0] > last then feed[0] else last, feed[1..]))
  }

  /** Whatever prefix of a gap-free stream arrives before the connection drops is gap-free. */
  lemma {:induction false} PrefixGapFree(last: nat, sent: seq<nat>, n: nat)
    requires Consecutive(last, sent) && n <= |sent|
    ensures GapFree(last, sent[..n])
    decreases n
  {
    if n > 0 {
      assert sent[..n][1..] == sent[1..][..n - 1];
      forall i | 0 <= i < |sent[1..]| ensures sent[1..][i] == (last + 1) + 1 + i {
        assert sent[1..][i] == sent[i + 1];
      }
      PrefixGapFree(last + 1, sent[1..], n - 1);
    }
  }

  /** The highest number a client holds after a feed, if it held `last` before. */
  function Furthest(last: nat, feed: seq<nat>): (n: nat)
    ensures n >= last && forall i :: 0 <= i < |feed| ==> feed[i] <= n
    ensures n == last || n in feed
  {
    if feed == [] then last
    else
      var before := Furthest(last, feed[..|feed| - 1]);
      assert feed == feed[..|feed| - 1] + [feed[|feed| - 1]];
      if feed[|feed| - 1] > before then feed[|feed| - 1] else before
  }

  /** The highest number that c connections bring, each opened after the highest number so far. */
  function Reached(after: nat, feed: (nat, nat) -> seq<nat>, c: nat): (n: nat)
    ensures n >= after
  {
    if c == 0 then after else Furthest(Reached(after, feed, c - 1), feed(c - 1, Reached(after, feed, c - 1)))
  }

  lemma {:induction false} ReachedGrows(after: nat, feed: (nat, nat) -> seq<nat>, b: nat, c: nat)
    requires b <= c
    ensures Reached(after, feed, b) <= Reached(after, feed, c)
    decreases c
  {
    if b < c {
      ReachedGrows(after, feed, b, c - 1);
    }
  }

  /** Some event in this range ends the run. */
  predicate EndsWithin(low: nat, high: nat, terminal: nat -> bool) {
    exists n :: low < n <= high && terminal(n)
  }

  /** Connection number c brings a terminal event, and ends without an error, so that the client looks. */
  predicate EndsAt(after: nat, feed: (nat, nat) -> seq<nat>, broken: nat -> bool, c: nat, terminal: nat -> bool) {
    c > 0 && !broken(c - 1) && EndsWithin(Reached(after, feed, c - 1), Reached(after, feed, c), terminal)
  }

  predicate EndsBy(after: nat, feed: (nat, nat) -> seq<nat>, broken: nat -> bool, c: nat, terminal: nat -> bool) {
    exists b :: 0 < b <= c && EndsAt(after, feed, broken, b, terminal)
  }

  /** The reconnect loop. Connection c, opened after event number a, brings feed(c, a), cut wherever it
      stopped; `broken` says that it stopped with an error. As long as no feed jumps ahead, every event is
      delivered once and in order, and nothing that any connection brings is missing: the client goes on
      to the last connection, or to the first one that brings a terminal event and is not broken. */
  method Subscribe(after: nat, connections: nat, feed: (nat, nat) -> seq<nat>, broken: nat -> bool, terminal: nat -> bool)
    returns (delivered: seq<nat>, ended: bool)
    requires forall c, a :: GapFree(a, feed(c, a))
    ensures Consecutive(after, delivered)
    ensures ended <==> EndsBy(after, feed, broken, connections, terminal)
    ensures !ended ==> |delivered| == Reached(after, feed, connections) - after
    ensures ended ==> exists c :: 0 < c <= connections && EndsAt(after, feed, broken, c, terminal)
                               && !EndsBy(after, feed, broken, c - 1, terminal) && |delivered| == Reached(after, feed, c) - after
  {
    var last, attempt := after, 0;
    delivered, ended := [], false;
    hide Furthest, GapFree, EndsWithin;
    while !ended && attempt < connections
      invariant attempt <= connections
      invariant Consecutive(after, delivered) && last == after + |delivered| == Reached(after, feed, attempt)
      invariant !ended ==> !EndsBy(after, feed, broken, attempt, terminal)
      invariant ended ==> EndsAt(after, feed, broken, attempt, terminal) && !EndsBy(after, feed, broken, attempt - 1, terminal)
    {
      assert GapFree(last, feed(attempt, last));
      var brought, sawEnd := ReadConnection(last, feed(attempt, last), terminal);
      delivered := delivered + brought;
      last := last + |brought|;
      ended := sawEnd && !broken(attempt);
      attempt := attempt + 1;
    }
  }

  /** What one connection brings: numbers up to the last one are skipped, and a terminal event is noted
      while the rest is still read. */
  method ReadConnection(start: nat, events: seq<nat>, terminal: nat -> bool) returns (brought: seq<nat>, ended: bool)
    requires GapFree(start, events)
    ensures Consecutive(start, brought) && start + |brought| == Furthest(start, events)
    ensures ended <==> EndsWithin(start, start + |brought|, terminal)
  {
    hide Furthest, GapFree, EndsWithin;
    var last := start;
    brought, ended := [], false;
    NothingRead(start, events, terminal);
    for k := 0 to |events|
      invariant Consecutive(start, brought) && last == start + |brought| == Furthest(start, events[..k])
      invariant GapFree(last, events[k..])
      invariant ended <==> EndsWithin(start, last, terminal)
    {
      ReadNext(start, last, events, k, terminal);
      if events[k] > last {
        last := events[k];
        brought := brought + [events[k]];
        if terminal(events[k]) {
          ended := true;
        }
      }
    }
    assert events[..|events|] == events;
  }

  lemma NothingRead(start: nat, events: seq<nat>, terminal: nat -> bool)
    ensures events[..0] == [] && events[0..] == events && Furthest(start, []) == start && !EndsWithin(start, start, terminal)
  {
  }

  lemma ReadNext(start: nat, last: nat, events: seq<nat>, k: nat, terminal: nat -> bool)
    requires k < |events| && start <= last == Furthest(start, events[..k]) && GapFree(last, events[k..])
    ensures events[k] <= last + 1
    ensures var now := if events[k] > last then events[k] else last;
      && now == Furthest(start, events[..k + 1]) && GapFree(now, events[k + 1..])
      && (EndsWithin(start, now, terminal) <==> EndsWithin(start, last, terminal) || (events[k] > last && terminal(events[k])))
  {
    assert events[k..][0] == events[k] && events[k..][1..] == events[k + 1..];
    assert events[..k + 1][..k] == events[..k];
  }

  /** One connection that is neither cut before its replay is over nor broken is enough: if a terminal
      event the client does not have is stored within the next 5000, the client ends, and has it. */
  lemma ReplayEndsClient(after: nat, feed: (nat, nat) -> seq<nat>, broken: nat -> bool, terminal: nat -> bool, c: nat, stored: nat, n: nat)
    requires ReplayRows(Reached(after, feed, c), stored) <= feed(c, Reached(after, feed, c)) && !broken(c)
    requires Reached(after, feed, c) < n <= stored && n <= Reached(after, feed, c) + 5000 && terminal(n)
    ensures n <= Reached(after, feed, c + 1)
    ensures forall connections :: connections > c ==> EndsBy(after, feed, broken, connections, terminal)
  {
    var last := Reached(after, feed, c);
    var rows := ReplayRows(last, stored);
    assert rows[n - last - 1] == n;
    assert n == feed(c, last)[n - last - 1];
    assert EndsAt(after, feed, broken, c + 1, terminal);
  }

  /** The last event of a run is its only terminal one, and connection c is the first to bring it. The
      client ends if and only if that connection is not broken afterwards: if it is, the client has every
      event and keeps connecting for one more that never comes. */
  lemma LastEventEndsExactly(after: nat, connections: nat, feed: (nat, nat) -> seq<nat>, broken: nat -> bool,
                             terminal: nat -> bool, c: nat, n: nat)
    requires 0 < c <= connections && Reached(after, feed, c - 1) < n <= Reached(after, feed, c)
    requires (forall b, a :: forall m <- feed(b, a) :: m <= n) && forall m :: after < m <= n ==> (terminal(m) <==> m == n)
    ensures EndsBy(after, feed, broken, connections, terminal) <==> !broken(c - 1)
  {
    hide Furthest;
    if !broken(c - 1) {
      assert after < n && terminal(n);
      assert EndsAt(after, feed, broken, c, terminal);
    }
    if b :| 0 < b <= connections && EndsAt(after, feed, broken, b, terminal) {
      NeverBeyond(after, feed, b, n);
      OnlyThere(after, feed, b, c, n);
    }
  }

  lemma OnlyThere(after: nat, feed: (nat, nat) -> seq<nat>, b: nat, c: nat, n: nat)
    requires 0 < c && 0 < b && Reached(after, feed, c - 1) < n <= Reached(after, feed, c)
    ensures b != c ==> n <= Reached(after, feed, b - 1) || Reached(after, feed, b) < n
  {
    hide Reached;
    if b < c {
      ReachedGrows(after, feed, b, c - 1);
    } else if c < b {
      ReachedGrows(after, feed, c, b - 1);
    }
  }

  lemma {:induction false} NeverBeyond(after: nat, feed: (nat, nat) -> seq<nat>, c: nat, n: nat)
    requires after <= n && forall d, a :: forall m <- feed(d, a) :: m <= n
    ensures Reached(after, feed, c) <= n
  {
    if c > 0 {
      NeverBeyond(after, feed, c - 1, n);
    }
  }

  // ----- a retried run replays as ended -----

  predicate IsTerminalKind(kind: EventType) {
    kind in {RunCompleted, RunFailedEvent, RunCancelledEvent}
  }

  lemma {:induction false} TerminalFlagHasEvent(log: seq<Event>)
    ensures FoldLog(log).terminal <==> exists i :: 0 <= i < |log| && IsTerminalKind(log[i].kind)
  {
    if log != [] {
      var front, last := log[..|log| - 1], log[|log| - 1];
      TerminalFlagHasEvent(front);
      AbsorbTerminal(FoldLog(front), last);
      if FoldLog(front).terminal {
        var i :| 0 <= i < |front| && IsTerminalKind(front[i].kind);
        assert IsTerminalKind(log[i].kind);
      }
    }
  }

  lemma AbsorbTerminal(f: Fold, e: Event)
    ensures Absorb(f, e).terminal <==> f.terminal || IsTerminalKind(e.kind)
  {
  }

  /** Whether event n of a log ends its run. */
  predicate EndsRun(log: seq<Event>, n: int) {
    1 <= n <= |log| && IsTerminalKind(log[n - 1].kind)
  }

  /** A replay after any event number ends the stream exactly when one of the next 5000 events is a
      terminal one. */
  lemma ReplayEndsExactly(log: seq<Event>, after: nat)
    ensures HoldsTerminal(ReplayRows(after, |log|), n => EndsRun(log, n))
       <==> exists n :: after < n <= after + 5000 && EndsRun(log, n)
  {
    var rows, terminal := ReplayRows(after, |log|), n => EndsRun(log, n);
    if n :| after < n <= after + 5000 && EndsRun(log, n) {
      assert rows[n - after - 1] == n && terminal(rows[n - after - 1]);
    }
    if i :| 0 <= i < |rows| && terminal(rows[i]) {
      assert EndsRun(log, rows[i]);
    }
  }

  /** In every reachable run there is a terminal event exactly when the run has ended or was ever
      retried, so a page that follows a retried run from its first event on is cut off after the
      replay, as soon as the replay reaches the failure. */
  lemma RetriedRunReplaysAsEnded(agent: AgentRef, isManager: bool, isOrigin: bool, maxRevisions: int, s: Run)
    requires Reaches(Create(agent, isManager, isOrigin, maxRevisions), s)
    ensures (exists n :: EndsRun(s.log, n)) <==> s.attempt > 1 || IsTerminal(s.status)
    ensures HoldsTerminal(ReplayRows(0, |s.log|), n => EndsRun(s.log, n)) ==> s.attempt > 1 || IsTerminal(s.status)
    ensures |s.log| <= 5000 && (s.attempt > 1 || IsTerminal(s.status))
        ==> HoldsTerminal(ReplayRows(0, |s.log|), n => EndsRun(s.log, n))
  {
    ShownFlags(agent, isManager, isOrigin, maxRevisions, s);
    TerminalFlagHasEvent(s.log);
    ReplayEndsExactly(s.log, 0);
    if i :| 0 <= i < |s.log| && IsTerminalKind(s.log[i].kind) {
      assert EndsRun(s.log, i + 1);
    }
    if n :| EndsRun(s.log, n) {
      assert IsTerminalKind(s.log[n - 1].kind);
    }
  }
}
