/** The HTTP guard's fixed-window rate limiter. */
module RateLimiter {
  import opened Basics

  datatype Window = Window(start: real, count: nat)

  /** Seconds per window. */
  const WINDOW := 60.0

  /** The window a client's request falls in, and whether the request is accepted. */
  function Rule(w: Option<Window>, limit: nat, now: real): (Window, bool) {
    var current := if w.Some? then w.value else Window(now, 0);
    if now - current.start >= WINDOW then (Window(now, 1), true)
    else if current.count >= limit then (current, false)
    else (Window(current.start, current.count + 1), true)
  }

  function Entry(hits: map<string, Window>, client: string): Option<Window> {
    if client in hits then Some(hits[client]) else None
  }

  /** `_prune_rate_hits` */
  function Pruned(hits: map<string, Window>, now: real): map<string, Window> {
    map k | k in hits && now - hits[k].start < WINDOW :: hits[k]
  }

  /** The table after a request, and the answer; a refusal leaves the pruned table as it is. */
  function Served(hits: map<string, Window>, limit: nat, client: string, now: real): (map<string, Window>, bool) {
    var pruned := Pruned(hits, now);
    var (w, ok) := Rule(Entry(pruned, client), limit, now);
    (if ok then pruned[client := w] else pruned, ok)
  }

  /** Whatever the pruned table holds is still open, so the expired branch of the decision is never taken. */
  lemma PrunedEntriesAreOpen(hits: map<string, Window>, client: string, now: real)
    ensures var entry := Entry(Pruned(hits, now), client); entry.Some? ==> now - entry.value.start < WINDOW
  {
  }

  class Limiter {
    const limit: nat
    var hits: map<string, Window>

    constructor (limit: nat)
      ensures this.limit == limit && hits == map[]
    {
      this.limit := limit;
      hits := map[];
    }

    /** `_rate_allowed` */
    method RateAllowed(client: string, now: real) returns (ok: bool)
      modifies this`hits
      ensures (hits, ok) == Served(old(hits), limit, client, now)
    {
      PruneHits(now);
      var w;
      w, ok := Decide(Entry(hits, client), now);
      if ok {
        hits := hits[client := w];
      }
    }

    /** The branches of the decision; once the table is pruned the first is never taken. */
    method Decide(entry: Option<Window>, now: real) returns (w: Window, ok: bool)
      ensures (w, ok) == Rule(entry, limit, now)
    {
      w := if entry.Some? then entry.value else Window(now, 0);
      if now - w.start >= WINDOW {
        return Window(now, 1), true;
      }
      if w.count >= limit {
        return w, false;
      }
      return Window(w.start, w.count + 1), true;
    }

    method PruneHits(now: real)
      modifies this`hits
      ensures hits == Pruned(old(hits), now)
    {
      var expired := set k | k in hits && now - hits[k].start >= WINDOW;
      hits := hits - expired;
    }
  }

  // --- runs ---

  datatype Call = Call(client: string, at: real)

  /** The clock never goes back. */
  ghost predicate Monotonic(calls: seq<Call>) {
    forall i, j :: 0 <= i < j < |calls| ==> calls[i].at <= calls[j].at
  }

  function TableAfter(calls: seq<Call>, limit: nat): map<string, Window> {
    if calls == [] then map[]
    else
      var n := |calls| - 1;
      Served(TableAfter(calls[..n], limit), limit, calls[n].client, calls[n].at).0
  }

  /** The limiter's answer to the last call. */
  predicate LastAccepted(calls: seq<Call>, limit: nat)
    requires calls != []
  {
    var n := |calls| - 1;
    Served(TableAfter(calls[..n], limit), limit, calls[n].client, calls[n].at).1
  }

  /** The window a client would be in if nothing were ever pruned. */
  function WindowAfter(calls: seq<Call>, limit: nat, client: string): Option<Window> {
    if calls == [] then None
    else
      var n := |calls| - 1;
      var before := WindowAfter(calls[..n], limit, client);
      if calls[n].client != client then before else Some(Rule(before, limit, calls[n].at).0)
  }

  lemma MonotonicFront(calls: seq<Call>)
    requires Monotonic(calls) && calls != []
    ensures Monotonic(calls[..|calls| - 1])
    ensures forall c :: c in calls[..|calls| - 1] ==> c.at <= calls[|calls| - 1].at
  {
  }

  /** A missing table entry means no window, or one that has run out. */
  ghost predicate Simulates(hits: map<string, Window>, calls: seq<Call>, limit: nat, client: string, now: real) {
    var w := WindowAfter(calls, limit, client);
    if client in hits then w == Some(hits[client]) else w.None? || now - w.value.start >= WINDOW
  }

  /** Pruning never changes an answer: the table stands for the unpruned windows. */
  lemma {:induction false} PruningIsInvisible(calls: seq<Call>, limit: nat, client: string, now: real)
    requires Monotonic(calls) && 1 <= limit && forall c :: c in calls ==> c.at <= now
    ensures Simulates(TableAfter(calls, limit), calls, limit, client, now)
  {
    if calls != [] {
      var n := |calls| - 1;
      MonotonicFront(calls);
      PruningIsInvisible(calls[..n], limit, client, calls[n].at);
    }
  }

  lemma AnswersFollowWindows(calls: seq<Call>, limit: nat)
    requires Monotonic(calls) && 1 <= limit && calls != []
    ensures var n := |calls| - 1;
      LastAccepted(calls, limit) == Rule(WindowAfter(calls[..n], limit, calls[n].client), limit, calls[n].at).1
  {
    var n := |calls| - 1;
    MonotonicFront(calls);
    PruningIsInvisible(calls[..n], limit, calls[n].client, calls[n].at);
  }

  /** The client's accepted calls at times from `from` up to, not including, `to`. */
  function Accepted(calls: seq<Call>, limit: nat, client: string, from: real, to: real): nat {
    if calls == [] then 0
    else
      var n := |calls| - 1;
      Accepted(calls[..n], limit, client, from, to)
      + if calls[n].client == client && LastAccepted(calls, limit) && from <= calls[n].at < to then 1 else 0
  }

  lemma {:induction false} AcceptedSplits(calls: seq<Call>, limit: nat, client: string, a: real, b: real, c: real)
    requires a <= b <= c
    ensures Accepted(calls, limit, client, a, c)
         == Accepted(calls, limit, client, a, b) + Accepted(calls, limit, client, b, c)
  {
    if calls != [] {
      AcceptedSplits(calls[..|calls| - 1], limit, client, a, b, c);
    }
  }

  // --- the bounds ---

  /** What the client's current window says about its accepted calls so far. */
  ghost predicate Accounts(calls: seq<Call>, limit: nat, client: string) {
    var w := WindowAfter(calls, limit, client);
    && (w.None? ==> forall from: real, to: real :: Accepted(calls, limit, client, from, to) == 0)
    && (w.Some? ==>
          && w.value.count <= limit
          && (forall to: real :: w.value.start + WINDOW <= to ==>
                Accepted(calls, limit, client, w.value.start, to) == w.value.count)
          && Accepted(calls, limit, client, w.value.start - WINDOW, w.value.start) <= limit)
  }

  lemma CountOne(calls: seq<Call>, limit: nat, client: string, from: real, to: real)
    requires calls != []
    ensures var n := |calls| - 1;
      Accepted(calls, limit, client, from, to)
      == Accepted(calls[..n], limit, client, from, to)
         + if calls[n].client == client && LastAccepted(calls, limit) && from <= calls[n].at < to then 1 else 0
  {
  }

  /** Opening a window: everything accepted before lies in earlier windows. */
  lemma OpeningAccounts(calls: seq<Call>, limit: nat, client: string)
    requires Monotonic(calls) && 1 <= limit && calls != [] && calls[|calls| - 1].client == client
    requires Accounts(calls[..|calls| - 1], limit, client)
    requires var before := WindowAfter(calls[..|calls| - 1], limit, client);
      before.None? || calls[|calls| - 1].at - before.value.start >= WINDOW
    ensures Accounts(calls, limit, client)
  {
    var n := |calls| - 1;
    var now, before := calls[n].at, WindowAfter(calls[..n], limit, client);
    AnswersFollowWindows(calls, limit);
    forall to: real | now + WINDOW <= to ensures Accepted(calls, limit, client, now, to) == 1 {
      CountOne(calls, limit, client, now, to);
      if before.Some? {
        AcceptedSplits(calls[..n], limit, client, before.value.start, now, to);
        assert Accepted(calls[..n], limit, client, before.value.start, now) == before.value.count;
      }
    }
    CountOne(calls, limit, client, now - WINDOW, now);
    if before.Some? {
      AcceptedSplits(calls[..n], limit, client, before.value.start, now - WINDOW, now);
      assert Accepted(calls[..n], limit, client, before.value.start, now) == before.value.count;
    }
  }

  /** Counting on within the window. */
  lemma StayingAccounts(calls: seq<Call>, limit: nat, client: string)
    requires Monotonic(calls) && 1 <= limit && calls != [] && calls[|calls| - 1].client == client
    requires Accounts(calls[..|calls| - 1], limit, client)
    requires var before := WindowAfter(calls[..|calls| - 1], limit, client);
      before.Some? && calls[|calls| - 1].at - before.value.start < WINDOW && before.value.start <= calls[|calls| - 1].at
    ensures Accounts(calls, limit, client)
  {
    var n := |calls| - 1;
    var w := WindowAfter(calls[..n], limit, client).value;
    AnswersFollowWindows(calls, limit);
    forall to: real | w.start + WINDOW <= to
      ensures Accepted(calls, limit, client, w.start, to) == WindowAfter(calls, limit, client).value.count
    {
      CountOne(calls, limit, client, w.start, to);
    }
    CountOne(calls, limit, client, w.start - WINDOW, w.start);
  }

  /** A window opens at the time of a call. */
  lemma {:induction false} WindowIsPast(calls: seq<Call>, limit: nat, client: string, now: real)
    requires forall c :: c in calls ==> c.at <= now
    ensures WindowAfter(calls, limit, client).Some? ==> WindowAfter(calls, limit, client).value.start <= now
  {
    if calls != [] {
      WindowIsPast(calls[..|calls| - 1], limit, client, now);
    }
  }

  lemma {:induction false} WindowsAccount(calls: seq<Call>, limit: nat, client: string)
    requires Monotonic(calls) && 1 <= limit
    ensures Accounts(calls, limit, client)
  {
    if calls != [] {
      var n := |calls| - 1;
      MonotonicFront(calls);
      WindowsAccount(calls[..n], limit, client);
      var before := WindowAfter(calls[..n], limit, client);
      if calls[n].client != client {
        assert forall from: real, to: real ::
          Accepted(calls, limit, client, from, to) == Accepted(calls[..n], limit, client, from, to);
      } else if before.None? || calls[n].at - before.value.start >= WINDOW {
        OpeningAccounts(calls, limit, client);
      } else {
        WindowIsPast(calls[..n], limit, client, calls[n].at);
        StayingAccounts(calls, limit, client);
      }
    }
  }

  /** At most `limit` calls are accepted from the start of the current window on. */
  lemma LimitPerWindow(calls: seq<Call>, limit: nat, client: string, to: real)
    requires Monotonic(calls) && 1 <= limit && WindowAfter(calls, limit, client).Some?
    ensures var w := WindowAfter(calls, limit, client).value;
      Accepted(calls, limit, client, w.start, to) <= w.count <= limit
  {
    var w := WindowAfter(calls, limit, client).value;
    WindowsAccount(calls, limit, client);
    if to < w.start + WINDOW {
      AcceptedMonotone(calls, limit, client, w.start, to, w.start + WINDOW);
    }
  }

  lemma {:induction false} AcceptedMonotone(
    calls: seq<Call>, limit: nat, client: string, from: real, to: real, later: real)
    requires to <= later
    ensures Accepted(calls, limit, client, from, to) <= Accepted(calls, limit, client, from, later)
  {
    if calls != [] {
      AcceptedMonotone(calls[..|calls| - 1], limit, client, from, to, later);
    }
  }

  /** With fewer than `limit` of a client's calls accepted within the last window's length, the next one is accepted. */
  lemma ServedUnderLimit(calls: seq<Call>, limit: nat)
    requires Monotonic(calls) && 1 <= limit && calls != []
    requires var n := |calls| - 1;
      Accepted(calls[..n], limit, calls[n].client, calls[n].at - 60.0, calls[n].at + 60.0) < limit
    ensures LastAccepted(calls, limit)
  {
    var n := |calls| - 1;
    var front, client, now := calls[..n], calls[n].client, calls[n].at;
    var w := WindowAfter(front, limit, client);
    MonotonicFront(calls);
    AnswersFollowWindows(calls, limit);
    WindowsAccount(front, limit, client);
    WindowIsPast(front, limit, client, now);
    if w.Some? && now - w.value.start < WINDOW {
      AcceptedSplits(front, limit, client, now - WINDOW, w.value.start, now + WINDOW);
      AcceptedSplits(front, limit, client, w.value.start, w.value.start + WINDOW, now + WINDOW);
    }
  }

  /** A call is refused exactly when its window is still open and already holds `limit` accepted calls. */
  lemma RefusedExactly(calls: seq<Call>, limit: nat)
    requires Monotonic(calls) && 1 <= limit && calls != []
    ensures var n := |calls| - 1;
            var front, client, now := calls[..n], calls[n].client, calls[n].at;
            var w := WindowAfter(front, limit, client);
      !LastAccepted(calls, limit) <==>
        w.Some? && now < w.value.start + 60.0
        && Accepted(front, limit, client, w.value.start, w.value.start + 60.0) == limit
  {
    var n := |calls| - 1;
    MonotonicFront(calls);
    AnswersFollowWindows(calls, limit);
    WindowsAccount(calls[..n], limit, calls[n].client);
  }

  /** Successive windows of a client start at least a window apart. */
  lemma WindowsAreApart(calls: seq<Call>, limit: nat, client: string)
    requires calls != []
    ensures var before, later := WindowAfter(calls[..|calls| - 1], limit, client), WindowAfter(calls, limit, client);
      before.Some? ==> && later.Some?
                       && (later.value.start == before.value.start || before.value.start + 60.0 <= later.value.start)
  {
  }

  /** No half-open minute, aligned or not, sees more than twice the limit. */
  lemma {:induction false} AnyMinute(calls: seq<Call>, limit: nat, client: string, from: real)
    requires Monotonic(calls) && 1 <= limit
    ensures Accepted(calls, limit, client, from, from + 60.0) <= 2 * limit
  {
    if calls != [] {
      var n := |calls| - 1;
      MonotonicFront(calls);
      AnyMinute(calls[..n], limit, client, from);
      CountOne(calls, limit, client, from, from + WINDOW);
      if calls[n].client == client && from <= calls[n].at < from + WINDOW {
        MinuteOfLastCall(calls, limit, client, from);
      }
    }
  }

  lemma MinuteOfLastCall(calls: seq<Call>, limit: nat, client: string, from: real)
    requires Monotonic(calls) && 1 <= limit && calls != [] && calls[|calls| - 1].client == client
    requires from <= calls[|calls| - 1].at < from + WINDOW
    ensures Accepted(calls, limit, client, from, from + WINDOW) <= 2 * limit
  {
    var now := calls[|calls| - 1].at;
    WindowsAccount(calls, limit, client);
    WindowIsPast(calls, limit, client, now);
    var start := WindowAfter(calls, limit, client).value.start;
    if from < start {
      AcceptedSplits(calls, limit, client, start - WINDOW, from, start);
      AcceptedSplits(calls, limit, client, from, start, from + WINDOW);
      LimitPerWindow(calls, limit, client, from + WINDOW);
    } else {
      AcceptedSplits(calls, limit, client, start, from, from + WINDOW);
      LimitPerWindow(calls, limit, client, from + WINDOW);
    }
  }
}
