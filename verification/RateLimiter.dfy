/** The in-memory sliding-window limiter, and why forgetting old times is harmless. */
module RateLimits {
  const WINDOW := 60.0
  const MAX_KEYS := 10000

  /** How many accepted times are younger than one window at time t. */
  function Recent(history: seq<real>, t: real): nat {
    if history == [] then 0
    else Recent(history[..|history| - 1], t) + (if history[|history| - 1] > t - 60.0 then 1 else 0)
  }

  /** How many accepted times lie in the window (t - 60, t]. */
  function InWindow(history: seq<real>, t: real): nat {
    if history == [] then 0
    else
      var last := history[|history| - 1];
      InWindow(history[..|history| - 1], t) + (if t - 60.0 < last <= t then 1 else 0)
  }

  predicate Ascending(history: seq<real>) {
    forall i, j :: 0 <= i < j < |history| ==> history[i] <= history[j]
  }

  /** Every accepted request found fewer than `limit` accepted ones in the window before it. */
  predicate Governed(history: seq<real>, limit: int) {
    forall i :: 0 <= i < |history| ==> Recent(history[..i], history[i]) < limit
  }

  lemma {:induction false} WindowAtMostRecent(history: seq<real>, t: real)
    ensures InWindow(history, t) <= Recent(history, t)
  {
    if history != [] {
      WindowAtMostRecent(history[..|history| - 1], t);
    }
  }

  lemma {:induction false} RecentShrinks(history: seq<real>, s: real, t: real)
    requires s <= t
    ensures Recent(history, t) <= Recent(history, s)
  {
    if history != [] {
      RecentShrinks(history[..|history| - 1], s, t);
    }
  }

  /** No window of sixty seconds, wherever it ends, holds more than `limit` accepted requests. */
  lemma {:induction false} NoWindowExceeds(history: seq<real>, limit: int, t: real)
    requires Ascending(history) && Governed(history, limit) && limit > 0
    ensures InWindow(history, t) <= limit
  {
    if history != [] {
      var front, last := history[..|history| - 1], history[|history| - 1];
      forall i | 0 <= i < |front| ensures Recent(front[..i], front[i]) < limit {
        assert front[..i] == history[..i];
      }
      if t - WINDOW < last <= t {
        WindowAtMostRecent(front, t);
        RecentShrinks(front, last, t);
        assert Recent(history[..|history| - 1], history[|history| - 1]) < limit;
      } else {
        NoWindowExceeds(front, limit, t);
      }
    }
  }

  lemma {:induction false} PastIsInWindow(history: seq<real>, t: real)
    requires forall i :: 0 <= i < |history| ==> history[i] <= t
    ensures InWindow(history, t) == Recent(history, t)
  {
    if history != [] {
      PastIsInWindow(history[..|history| - 1], t);
    }
  }

  /** The queue is what is left of the history after dropping times at least one window old. */
  predicate QueueFits(history: seq<real>, queue: seq<real>, now: real) {
    && |queue| <= |history| && queue == history[|history| - |queue|..]
    && forall i :: 0 <= i < |history| - |queue| ==> history[i] <= now - WINDOW
  }

  /** Dropping the newest accepted time drops it from the queue as well. */
  lemma FrontFits(history: seq<real>, queue: seq<real>, now: real)
    requires history != [] && QueueFits(history, queue, now)
    ensures QueueFits(history[..|history| - 1], if queue == [] then [] else queue[..|queue| - 1], now)
  {
    var front, rest := history[..|history| - 1], if queue == [] then [] else queue[..|queue| - 1];
    assert rest == front[|front| - |rest|..];
    forall i | 0 <= i < |front| - |rest| ensures front[i] <= now - WINDOW {
      assert front[i] == history[i];
    }
  }

  /** A pruned queue whose first time is young has exactly the recent times. */
  lemma {:induction false} QueueCounts(history: seq<real>, queue: seq<real>, now: real)
    requires Ascending(history) && QueueFits(history, queue, now)
    requires queue == [] || queue[0] > now - WINDOW
    ensures Recent(history, now) == |queue|
  {
    if history != [] {
      var front := history[..|history| - 1];
      FrontFits(history, queue, now);
      if queue == [] {
        QueueCounts(front, [], now);
      } else {
        assert queue[0] == history[|history| - |queue|];
        QueueCounts(front, queue[..|queue| - 1], now);
      }
    }
  }

  /** With the oldest queued time x, the queue is full until x leaves the window and then is not. */
  lemma {:induction false} RoomWhenOldestLeaves(history: seq<real>, queue: seq<real>, now: real, t: real)
    requires Ascending(history) && QueueFits(history, queue, now) && queue != [] && t >= now
    ensures t < queue[0] + WINDOW ==> Recent(history, t) == |queue|
    ensures t >= queue[0] + WINDOW ==> Recent(history, t) < |queue|
  {
    if t < queue[0] + WINDOW {
      QueueCounts(history, queue, t);
    } else {
      var rest := queue[1..];
      assert rest == history[|history| - |rest|..];
      RecentAtMost(history, rest, t);
    }
  }

  lemma {:induction false} RecentAtMost(history: seq<real>, queue: seq<real>, now: real)
    requires QueueFits(history, queue, now)
    ensures Recent(history, now) <= |queue|
  {
    if history != [] {
      FrontFits(history, queue, now);
      RecentAtMost(history[..|history| - 1], if queue == [] then [] else queue[..|queue| - 1], now);
    }
  }

  function Lookup(m: map<string, seq<real>>, key: string): seq<real> {
    if key in m then m[key] else []
  }

  class RateLimiter {
    const limit: int
    var local: map<string, seq<real>>
    ghost var accepted: map<string, seq<real>>
    ghost var clock: real

    constructor (limit: int)
      ensures this.limit == limit && accepted == map[] && Valid()
    {
      this.limit := limit;
      local := map[];
      accepted := map[];
      clock := 0.0;
    }

    ghost function History(key: string): seq<real>
      reads this
    {
      Lookup(accepted, key)
    }

    ghost predicate Valid()
      reads this
    {
      AllValid(limit, clock, accepted, local)
    }

    /** One request. Its decision is that of a limiter which never forgets an accepted time; after a
        refusal the promised delay is long enough, and at most one second longer than needed. */
    method Check(key: string, now: real) returns (allowed: bool, retryAfter: int)
      requires Valid() && now >= clock
      modifies this
      ensures Valid() && (limit > 0 ==> clock == now)
      ensures limit <= 0 ==> allowed && accepted == old(accepted)
      ensures limit > 0 ==> (allowed <==> Recent(old(History(key)), now) < limit)
      ensures limit > 0 ==> accepted == if allowed then old(accepted)[key := old(History(key)) + [now]] else old(accepted)
      ensures allowed ==> retryAfter == 0
      ensures allowed && limit > 0 ==> |local| <= 10000 || forall k :: k in local ==> IsYoung(local[k], now)
      ensures !allowed ==> retryAfter >= 1 && DelayFits(History(key), limit, now, retryAfter)
    {
      if limit <= 0 {
        return true, 0;
      }
      ghost var history := History(key);
      assert KeyValid(limit, clock, history, Lookup(local, key));
      var q := DropOld(Lookup(local, key), now, history);
      local := local[key := q];
      OthersAge(limit, old(clock), now, accepted, old(local), key, q);
      clock := now;
      QueueCounts(history, q, now);
      if |q| >= limit {
        FullQueue(history, limit, now, q);
        DelayIsRight(history, limit, now, q);
        retryAfter := (q[0] + WINDOW - now).Floor + 1;
        return false, retryAfter;
      }
      Admit(key, now, q);
      if |local| > MAX_KEYS {
        Prune(now);
      }
      return true, 0;
    }

    method Admit(key: string, now: real, q: seq<real>)
      requires Valid() && clock == now && Lookup(local, key) == q && Recent(History(key), now) < limit
      modifies this`local, this`accepted
      ensures Valid() && accepted == old(accepted)[key := old(History(key)) + [now]]
    {
      hide KeyValid;
      assert KeyValid(limit, clock, History(key), Lookup(local, key));
      Append(History(key), limit, now, q);
      OneKeyReplaced(limit, now, accepted, local, key, History(key) + [now], q + [now]);
      local := local[key := q + [now]];
      accepted := accepted[key := History(key) + [now]];
    }

    /** At any point of any run, no key has more than `limit` accepted requests in any window. */
    lemma NoKeyExceeds(key: string, t: real)
      requires Valid() && limit > 0
      ensures InWindow(History(key), t) <= limit
    {
      assert KeyValid(limit, clock, History(key), Lookup(local, key));
      NoWindowExceeds(History(key), limit, t);
    }

    static method DropOld(queue: seq<real>, now: real, ghost history: seq<real>) returns (q: seq<real>)
      requires QueueFits(history, queue, now)
      ensures QueueFits(history, q, now) && (q == [] || q[0] > now - WINDOW)
    {
      q := queue;
      while q != [] && q[0] <= now - WINDOW
        invariant QueueFits(history, q, now)
        decreases |q|
      {
        assert q[1..] == history[|history| - |q[1..]|..];
        q := q[1..];
      }
    }

    /** The last request of a key lies in the last sixty seconds. */
    static predicate IsYoung(queue: seq<real>, now: real) {
      queue != [] && queue[|queue| - 1] >= now - 60.0
    }

    /** Keys without a young time are forgotten to bound memory. */
    method Prune(now: real)
      requires Valid() && clock == now
      modifies this`local
      ensures Valid()
      ensures forall k :: k in local <==> k in old(local) && IsYoung(old(local)[k], now)
      ensures forall k :: k in local ==> local[k] == old(local)[k]
    {
      var stale := set k | k in local && (local[k] == [] || local[k][|local[k]| - 1] < now - WINDOW);
      while stale != {}
        invariant Valid()
        invariant forall k :: k in stale ==> k in local && !IsYoung(local[k], now)
        invariant forall k :: k in local <==> k in old(local) && (IsYoung(old(local)[k], now) || k in stale)
        invariant forall k :: k in local ==> local[k] == old(local)[k]
        decreases stale
      {
        var k :| k in stale;
        ghost var before := local;
        local := local - {k};
        Forgotten(limit, now, accepted, before, k);
        stale := stale - {k};
      }
    }

  }

  ghost predicate KeyValid(limit: int, clock: real, history: seq<real>, queue: seq<real>) {
    && Ascending(history) && Governed(history, limit)
    && (forall i :: 0 <= i < |history| ==> history[i] <= clock)
    && QueueFits(history, queue, clock)
  }

  /** The state of every key is sound. */
  ghost predicate AllValid(limit: int, clock: real, accepted: map<string, seq<real>>, local: map<string, seq<real>>) {
    forall key :: KeyValid(limit, clock, Lookup(accepted, key), Lookup(local, key))
  }

  lemma OneKeyReplaced(limit: int, now: real, accepted: map<string, seq<real>>, local: map<string, seq<real>>,
                       key: string, history: seq<real>, queue: seq<real>)
    requires AllValid(limit, now, accepted, local) && KeyValid(limit, now, history, queue)
    ensures AllValid(limit, now, accepted[key := history], local[key := queue])
  {
    hide KeyValid;
    var newAccepted, newLocal := accepted[key := history], local[key := queue];
    forall k ensures KeyValid(limit, now, Lookup(newAccepted, k), Lookup(newLocal, k)) {
      assert KeyValid(limit, now, Lookup(accepted, k), Lookup(local, k));
    }
  }

  /** Time passing and one queue being pruned leave every key's state sound. */
  lemma OthersAge(limit: int, was: real, now: real, accepted: map<string, seq<real>>, local: map<string, seq<real>>,
                  key: string, q: seq<real>)
    requires AllValid(limit, was, accepted, local) && was <= now && QueueFits(Lookup(accepted, key), q, now)
    ensures AllValid(limit, now, accepted, local[key := q])
  {
    hide KeyValid, QueueFits;
    forall k ensures KeyValid(limit, now, Lookup(accepted, k), Lookup(local[key := q], k)) {
      assert KeyValid(limit, was, Lookup(accepted, k), Lookup(local, k));
      KeyAges(limit, was, now, Lookup(accepted, k), Lookup(local, k), Lookup(local[key := q], k));
    }
  }

  lemma Forgotten(limit: int, now: real, accepted: map<string, seq<real>>, local: map<string, seq<real>>, key: string)
    requires AllValid(limit, now, accepted, local)
    requires key in local && (local[key] == [] || local[key][|local[key]| - 1] < now - WINDOW)
    ensures AllValid(limit, now, accepted, local - {key})
  {
    hide KeyValid, QueueFits;
    forall k ensures KeyValid(limit, now, Lookup(accepted, k), Lookup(local - {key}, k)) {
      assert KeyValid(limit, now, Lookup(accepted, k), Lookup(local, k));
      if k == key {
        Forgettable(limit, now, Lookup(accepted, k), local[k]);
      }
    }
  }

  lemma KeyAges(limit: int, was: real, now: real, history: seq<real>, queue: seq<real>, q: seq<real>)
    requires KeyValid(limit, was, history, queue) && was <= now
    requires q == queue || QueueFits(history, q, now)
    ensures KeyValid(limit, now, history, q)
  {
  }

  /** From the promised time on there is room, and until one second before it there is none. */
  ghost predicate DelayFits(history: seq<real>, limit: int, now: real, retryAfter: int) {
    && (forall t :: t >= now + retryAfter as real ==> Recent(history, t) < limit)
    && (forall t :: now <= t < now + retryAfter as real - 1.0 ==> Recent(history, t) >= limit)
  }

  /** A queue never holds more than the limit, so a full one holds exactly that many. */
  lemma FullQueue(history: seq<real>, limit: int, now: real, q: seq<real>)
    requires limit > 0 && KeyValid(limit, now, history, q) && |q| >= limit && q[0] > now - WINDOW
    ensures |q| == limit
  {
    QueueCounts(history, q, now);
    PastIsInWindow(history, now);
    NoWindowExceeds(history, limit, now);
  }

  lemma DelayIsRight(history: seq<real>, limit: int, now: real, q: seq<real>)
    requires KeyValid(limit, now, history, q) && |q| == limit > 0 && q[0] > now - WINDOW
    ensures var retryAfter := (q[0] + WINDOW - now).Floor + 1;
      retryAfter >= 1 && DelayFits(history, limit, now, retryAfter)
  {
    var retryAfter := (q[0] + WINDOW - now).Floor + 1;
    forall t | t >= now + retryAfter as real ensures Recent(history, t) < limit {
      RoomWhenOldestLeaves(history, q, now, t);
    }
    forall t | now <= t < now + retryAfter as real - 1.0 ensures Recent(history, t) >= limit {
      RoomWhenOldestLeaves(history, q, now, t);
    }
  }

  lemma Append(history: seq<real>, limit: int, now: real, q: seq<real>)
    requires KeyValid(limit, now, history, q) && Recent(history, now) < limit
    ensures KeyValid(limit, now, history + [now], q + [now])
  {
    var more := history + [now];
    forall i | 0 <= i < |more| ensures Recent(more[..i], more[i]) < limit {
      if i < |history| {
        assert more[..i] == history[..i];
      } else {
        assert more[..i] == history;
      }
    }
    assert q + [now] == more[|more| - |q + [now]|..];
  }

  lemma Forgettable(limit: int, now: real, history: seq<real>, queue: seq<real>)
    requires KeyValid(limit, now, history, queue)
    requires queue == [] || queue[|queue| - 1] < now - WINDOW
    ensures KeyValid(limit, now, history, [])
  {
    if queue != [] {
      assert queue[|queue| - 1] == history[|history| - 1];
    }
  }
}
