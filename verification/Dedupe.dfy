/**
 * The dedupe cache: a deque of the captures accepted in the last sixty
 * seconds, bounded by a capacity, against the full history of acceptances.
 */
module Dedupe {
  import opened Wrappers

  /** Nanoseconds. */
  const WINDOW: nat := 60_000_000_000

  datatype Key = Key(session: string, hash: string)

  datatype Stamp = Stamp(key: Key, at: nat)

  function Since(now: nat, at: nat): nat {
    if now >= at then now - at else 0
  }

  predicate Live(e: Stamp, now: nat) {
    Since(now, e.at) <= WINDOW
  }

  // ----- one check ----------------------------------------------------------

  function DropExpired(entries: seq<Stamp>, now: nat): seq<Stamp> {
    if entries == [] || Live(entries[0], now) then entries else DropExpired(entries[1..], now)
  }

  predicate Has(entries: seq<Stamp>, key: Key) {
    exists i :: 0 <= i < |entries| && entries[i].key == key
  }

  function MakeRoom(entries: seq<Stamp>, capacity: nat): seq<Stamp> {
    if |entries| >= capacity && entries != [] then entries[1..] else entries
  }

  function Checked(entries: seq<Stamp>, capacity: nat, call: Stamp): seq<Stamp> {
    var live := DropExpired(entries, call.at);
    if Has(live, call.key) then live else MakeRoom(live, capacity) + [call]
  }

  predicate IsDuplicate(entries: seq<Stamp>, call: Stamp) {
    Has(DropExpired(entries, call.at), call.key)
  }

  class DedupeCache {
    var entries: seq<Stamp>
    const capacity: nat

    constructor (capacity: nat)
      ensures entries == [] && this.capacity == capacity
    {
      entries := [];
      this.capacity := capacity;
    }

    method CheckAndRecord(key: Key, now: nat) returns (duplicate: bool)
      modifies this
      ensures duplicate == IsDuplicate(old(entries), Stamp(key, now))
      ensures entries == Checked(old(entries), capacity, Stamp(key, now))
    {
      while entries != [] && Since(now, entries[0].at) > WINDOW
        invariant DropExpired(entries, now) == DropExpired(old(entries), now)
        decreases |entries|
      {
        entries := entries[1..];
      }
      var i := 0;
      while i < |entries|
        invariant 0 <= i <= |entries|
        invariant forall j :: 0 <= j < i ==> entries[j].key != key
      {
        if entries[i].key == key {
          return true;
        }
        i := i + 1;
      }
      if |entries| >= capacity && entries != [] {
        entries := entries[1..];
      }
      entries := entries + [Stamp(key, now)];
      return false;
    }
  }

  // ----- a run of checks ----------------------------------------------------

  /** The deque, and every call that was not a duplicate since the cache was made. */
  datatype Past = Past(entries: seq<Stamp>, accepted: seq<Stamp>)

  function Advance(p: Past, capacity: nat, call: Stamp): Past {
    Past(Checked(p.entries, capacity, call),
         if IsDuplicate(p.entries, call) then p.accepted else p.accepted + [call])
  }

  function After(capacity: nat, calls: seq<Stamp>, n: nat): Past
    requires n <= |calls|
  {
    if n == 0 then Past([], []) else Advance(After(capacity, calls, n - 1), capacity, calls[n - 1])
  }

  predicate Monotone(calls: seq<Stamp>) {
    forall i, j :: 0 <= i <= j < |calls| ==> calls[i].at <= calls[j].at
  }

  /** A capacity of zero still keeps the last acceptance. */
  function Room(capacity: nat): (r: nat)
    ensures r >= 1
  {
    Max(capacity, 1)
  }

  /** The key was accepted within the window, and fewer than the capacity were accepted since. */
  predicate SeenRecently(accepted: seq<Stamp>, capacity: nat, call: Stamp) {
    exists i :: 0 <= i < |accepted| && |accepted| - Room(capacity) <= i
      && accepted[i].key == call.key && Live(accepted[i], call.at)
  }

  predicate IsSuffix(a: seq<Stamp>, b: seq<Stamp>) {
    |a| <= |b| && forall i :: 0 <= i < |a| ==> a[i] == b[|b| - |a| + i]
  }

  /** The deque is a suffix of the acceptances; what precedes it has expired or was crowded out. */
  predicate IsWindow(p: Past, capacity: nat, now: nat) {
    var k := |p.accepted| - |p.entries|;
    && IsSuffix(p.entries, p.accepted)
    && |p.entries| <= Room(capacity)
    && (k == 0 || |p.entries| == Room(capacity) || !Live(p.accepted[k - 1], now))
  }

  /** Sorted by time, up to `now`. */
  predicate SortedUpTo(accepted: seq<Stamp>, now: nat) {
    && (forall i, j :: 0 <= i <= j < |accepted| ==> accepted[i].at <= accepted[j].at)
    && (accepted != [] ==> accepted[|accepted| - 1].at <= now)
  }

  predicate AllLive(entries: seq<Stamp>, now: nat) {
    forall i :: 0 <= i < |entries| ==> Live(entries[i], now)
  }

  /** One key is accepted again only after the window, or after `Room` others. */
  predicate Apart(accepted: seq<Stamp>, capacity: nat) {
    forall i, j :: 0 <= i < j < |accepted| && accepted[i].key == accepted[j].key
      ==> accepted[j].at - accepted[i].at > WINDOW || j - i > Room(capacity)
  }

  lemma {:induction false} DroppedAreExpired(entries: seq<Stamp>, now: nat)
    ensures var live := DropExpired(entries, now);
      && IsSuffix(live, entries)
      && (live != [] ==> Live(live[0], now))
      && (|live| < |entries| ==> !Live(entries[|entries| - |live| - 1], now))
  {
    if entries != [] && !Live(entries[0], now) {
      DroppedAreExpired(entries[1..], now);
    }
  }

  lemma SuffixOfSuffix(a: seq<Stamp>, b: seq<Stamp>, c: seq<Stamp>)
    requires IsSuffix(a, b) && IsSuffix(b, c)
    ensures IsSuffix(a, c)
  {
    forall i | 0 <= i < |a| ensures a[i] == c[|c| - |a| + i] {
      assert a[i] == b[|b| - |a| + i];
    }
  }

  lemma SuffixIsSorted(a: seq<Stamp>, b: seq<Stamp>, now: nat)
    requires IsSuffix(a, b) && SortedUpTo(b, now)
    ensures SortedUpTo(a, now)
  {
    var k := |b| - |a|;
    forall i, j | 0 <= i <= j < |a| ensures a[i].at <= a[j].at {
      assert a[i] == b[k + i] && a[j] == b[k + j];
    }
  }

  /** Dropping the expired keeps the window. */
  lemma WindowAfterDrop(p: Past, capacity: nat, before: nat, now: nat)
    requires IsWindow(p, capacity, before) && before <= now
    ensures IsWindow(Past(DropExpired(p.entries, now), p.accepted), capacity, now)
  {
    DroppedAreExpired(p.entries, now);
    SuffixOfSuffix(DropExpired(p.entries, now), p.entries, p.accepted);
  }

  /** Then everything in it is live. */
  lemma LiveAfterDrop(entries: seq<Stamp>, now: nat)
    requires SortedUpTo(entries, now)
    ensures AllLive(DropExpired(entries, now), now) && SortedUpTo(DropExpired(entries, now), now)
  {
    DroppedAreExpired(entries, now);
    SuffixIsSorted(DropExpired(entries, now), entries, now);
    LiveFront(DropExpired(entries, now), now);
  }

  lemma LiveFront(live: seq<Stamp>, now: nat)
    requires SortedUpTo(live, now) && (live != [] ==> Live(live[0], now))
    ensures AllLive(live, now)
  {
    forall i | 0 <= i < |live| ensures Live(live[i], now) {
      assert live[0].at <= live[i].at;
    }
  }

  /** A live window answers as the full history would. */
  lemma LiveWindowAnswers(live: seq<Stamp>, accepted: seq<Stamp>, capacity: nat, call: Stamp)
    requires IsWindow(Past(live, accepted), capacity, call.at) && AllLive(live, call.at)
      && SortedUpTo(accepted, call.at)
    ensures Has(live, call.key) <==> SeenRecently(accepted, capacity, call)
  {
    var k := |accepted| - |live|;
    if Has(live, call.key) {
      var i :| 0 <= i < |live| && live[i].key == call.key;
      assert accepted[k + i] == live[i];
    }
    if SeenRecently(accepted, capacity, call) {
      var i :| 0 <= i < |accepted| && |accepted| - Room(capacity) <= i
        && accepted[i].key == call.key && Live(accepted[i], call.at);
      assert k > 0 ==> accepted[Min(i, k - 1)].at <= accepted[k - 1].at;
      assert live[i - k] == accepted[i];
    }
  }

  /** The deque answers as the full history would. */
  lemma WindowAnswers(p: Past, capacity: nat, before: nat, call: Stamp)
    requires IsWindow(p, capacity, before) && SortedUpTo(p.accepted, before) && before <= call.at
    ensures IsDuplicate(p.entries, call) <==> SeenRecently(p.accepted, capacity, call)
  {
    WindowAfterDrop(p, capacity, before, call.at);
    SuffixIsSorted(p.entries, p.accepted, before);
    LiveAfterDrop(p.entries, call.at);
    LiveWindowAnswers(DropExpired(p.entries, call.at), p.accepted, capacity, call);
  }

  lemma WindowAccepts(live: seq<Stamp>, accepted: seq<Stamp>, capacity: nat, call: Stamp)
    requires IsWindow(Past(live, accepted), capacity, call.at)
    ensures IsWindow(Past(MakeRoom(live, capacity) + [call], accepted + [call]), capacity, call.at)
  {
    var room, k := MakeRoom(live, capacity), |accepted| - |live|;
    assert IsSuffix(room, live);
    SuffixOfSuffix(room, live, accepted);
    if k > 0 && |room| + 1 < Room(capacity) {
      assert (accepted + [call])[k - 1] == accepted[k - 1];
    }
  }

  lemma WindowAdvances(p: Past, capacity: nat, before: nat, call: Stamp)
    requires IsWindow(p, capacity, before) && before <= call.at
    ensures IsWindow(Advance(p, capacity, call), capacity, call.at)
  {
    WindowAfterDrop(p, capacity, before, call.at);
    WindowAccepts(DropExpired(p.entries, call.at), p.accepted, capacity, call);
  }

  lemma ApartAdvances(p: Past, capacity: nat, before: nat, call: Stamp)
    requires IsWindow(p, capacity, before) && SortedUpTo(p.accepted, before) && before <= call.at
    requires Apart(p.accepted, capacity)
    ensures Apart(Advance(p, capacity, call).accepted, capacity)
  {
    WindowAnswers(p, capacity, before, call);
    var n, accepted := |p.accepted|, p.accepted + [call];
    if !IsDuplicate(p.entries, call) {
      forall i, j | 0 <= i < j < |accepted| && accepted[i].key == accepted[j].key
        ensures accepted[j].at - accepted[i].at > WINDOW || j - i > Room(capacity)
      {
        if j == n {
          assert p.accepted[i].key == call.key;
        } else {
          assert p.accepted[i].key == p.accepted[j].key;
        }
      }
    }
  }

  function LastTime(calls: seq<Stamp>, n: nat): nat
    requires n <= |calls|
  {
    if n == 0 then 0 else calls[n - 1].at
  }

  predicate Good(p: Past, capacity: nat, now: nat) {
    IsWindow(p, capacity, now) && SortedUpTo(p.accepted, now) && Apart(p.accepted, capacity)
  }

  lemma GoodAdvances(p: Past, capacity: nat, before: nat, call: Stamp)
    requires Good(p, capacity, before) && before <= call.at
    ensures Good(Advance(p, capacity, call), capacity, call.at)
  {
    WindowAdvances(p, capacity, before, call);
    ApartAdvances(p, capacity, before, call);
    SortedAdvances(p.accepted, before, call);
  }

  lemma SortedAdvances(accepted: seq<Stamp>, before: nat, call: Stamp)
    requires SortedUpTo(accepted, before) && before <= call.at
    ensures SortedUpTo(accepted + [call], call.at) && SortedUpTo(accepted, call.at)
  {
    var longer, n := accepted + [call], |accepted|;
    forall i, j | 0 <= i <= j < |longer| ensures longer[i].at <= longer[j].at {
      if i < n {
        assert accepted[i].at <= accepted[if j < n then j else n - 1].at;
      }
    }
  }

  lemma {:induction false} RunIsWindow(capacity: nat, calls: seq<Stamp>, n: nat)
    requires n <= |calls| && Monotone(calls)
    ensures Good(After(capacity, calls, n), capacity, LastTime(calls, n))
    decreases n
  {
    if n > 0 {
      RunIsWindow(capacity, calls, n - 1);
      GoodAdvances(After(capacity, calls, n - 1), capacity, LastTime(calls, n - 1), calls[n - 1]);
    }
  }

  /**
   * On every run a call is reported a duplicate exactly when its key was
   * accepted at most sixty seconds ago with fewer than the capacity accepted since.
   */
  lemma DuplicateIff(capacity: nat, calls: seq<Stamp>, n: nat)
    requires n < |calls| && Monotone(calls)
    ensures IsDuplicate(After(capacity, calls, n).entries, calls[n])
      <==> SeenRecently(After(capacity, calls, n).accepted, capacity, calls[n])
  {
    RunIsWindow(capacity, calls, n);
    WindowAnswers(After(capacity, calls, n), capacity, LastTime(calls, n), calls[n]);
  }

  /** No key twice among the live. */
  predicate DistinctKeys(entries: seq<Stamp>) {
    forall i, j :: 0 <= i < j < |entries| ==> entries[i].key != entries[j].key
  }

  lemma LiveAreDistinct(live: seq<Stamp>, accepted: seq<Stamp>, capacity: nat, now: nat)
    requires IsSuffix(live, accepted) && |live| <= Room(capacity) && AllLive(live, now)
    requires SortedUpTo(accepted, now) && Apart(accepted, capacity)
    ensures DistinctKeys(live)
  {
    var k := |accepted| - |live|;
    forall i, j | 0 <= i < j < |live| ensures live[i].key != live[j].key {
      assert live[i] == accepted[k + i] && live[j] == accepted[k + j];
      assert Live(live[i], now);
      assert accepted[k + j].at <= accepted[|accepted| - 1].at;
    }
  }

  lemma EntriesAreLive(p: Past, capacity: nat, before: nat, call: Stamp)
    requires IsWindow(p, capacity, before) && SortedUpTo(p.accepted, before) && before <= call.at
    ensures AllLive(Checked(p.entries, capacity, call), call.at)
  {
    SuffixIsSorted(p.entries, p.accepted, before);
    LiveAfterDrop(p.entries, call.at);
  }

  /** Bounded, sorted by time, and no key twice. */
  lemma DequeInvariant(capacity: nat, calls: seq<Stamp>, n: nat)
    requires n <= |calls| && Monotone(calls)
    ensures var entries := After(capacity, calls, n).entries;
      |entries| <= Room(capacity) && SortedUpTo(entries, LastTime(calls, n)) && DistinctKeys(entries)
  {
    RunIsWindow(capacity, calls, n);
    var q, now := After(capacity, calls, n), LastTime(calls, n);
    SuffixIsSorted(q.entries, q.accepted, now);
    if n > 0 {
      RunIsWindow(capacity, calls, n - 1);
      EntriesAreLive(After(capacity, calls, n - 1), capacity, LastTime(calls, n - 1), calls[n - 1]);
      LiveAreDistinct(q.entries, q.accepted, capacity, now);
    }
  }

  /**
   * Two acceptances of one key are more than sixty seconds apart, unless at
   * least as many other keys as the cache has room for, all distinct, were
   * accepted between them.
   */
  lemma AcceptedTwice(capacity: nat, calls: seq<Stamp>, n: nat, i: nat, j: nat)
    requires n <= |calls| && Monotone(calls)
    requires i < j < |After(capacity, calls, n).accepted|
    requires After(capacity, calls, n).accepted[i].key == After(capacity, calls, n).accepted[j].key
    ensures var accepted, room := After(capacity, calls, n).accepted, Room(capacity);
      || accepted[j].at - accepted[i].at > WINDOW
      || (&& i + room < j
          && forall a, b :: i <= a < b <= i + room ==> accepted[a].key != accepted[b].key)
  {
    RunIsWindow(capacity, calls, n);
    var accepted, room := After(capacity, calls, n).accepted, Room(capacity);
    if accepted[j].at - accepted[i].at <= WINDOW {
      forall a, b | i <= a < b <= i + room ensures accepted[a].key != accepted[b].key {
        assert accepted[i].at <= accepted[a].at && accepted[b].at <= accepted[j].at;
      }
    }
  }

  // ----- against an unbounded log -------------------------------------------

  /** The answer to call `m`. */
  predicate Answer(capacity: nat, calls: seq<Stamp>, m: nat)
    requires m < |calls|
  {
    IsDuplicate(After(capacity, calls, m).entries, calls[m])
  }

  predicate SameAnswers(c: nat, d: nat, calls: seq<Stamp>, n: nat)
    requires n <= |calls|
  {
    forall m: nat :: m < n ==> (Answer(c, calls, m) <==> Answer(d, calls, m))
  }

  /** In the larger cache's history, call `m` repeats a live key after which the smaller cache has no room left. */
  predicate MissedBy(c: nat, d: nat, calls: seq<Stamp>, m: nat)
    requires m < |calls|
  {
    var accepted := After(d, calls, m).accepted;
    SeenRecently(accepted, d, calls[m]) && !SeenRecently(accepted, c, calls[m])
  }

  lemma MoreRoomSeesMore(accepted: seq<Stamp>, c: nat, d: nat, call: Stamp)
    requires c <= d && SeenRecently(accepted, c, call)
    ensures SeenRecently(accepted, d, call)
  {
    var i :| 0 <= i < |accepted| && |accepted| - Room(c) <= i
      && accepted[i].key == call.key && Live(accepted[i], call.at);
    assert |accepted| - Room(d) <= i;
  }

  /** As long as the answers agree, so do the acceptances. */
  lemma {:induction false} SameAcceptances(c: nat, d: nat, calls: seq<Stamp>, n: nat)
    requires n <= |calls| && SameAnswers(c, d, calls, n)
    ensures After(c, calls, n).accepted == After(d, calls, n).accepted
    decreases n
  {
    if n > 0 {
      SameAcceptances(c, d, calls, n - 1);
      assert Answer(c, calls, n - 1) <==> Answer(d, calls, n - 1);
    }
  }

  /** From equal acceptances the next answers differ exactly at a call the smaller cache misses. */
  lemma SameAnswerIff(c: nat, d: nat, calls: seq<Stamp>, m: nat)
    requires c <= d && Monotone(calls) && m < |calls|
    requires After(c, calls, m).accepted == After(d, calls, m).accepted
    ensures (Answer(c, calls, m) <==> Answer(d, calls, m)) <==> !MissedBy(c, d, calls, m)
  {
    DuplicateIff(c, calls, m);
    DuplicateIff(d, calls, m);
    var accepted := After(d, calls, m).accepted;
    if SeenRecently(accepted, c, calls[m]) {
      MoreRoomSeesMore(accepted, c, d, calls[m]);
    }
  }

  /** None of the first `n` calls is missed. */
  predicate NoneMissed(c: nat, d: nat, calls: seq<Stamp>, n: nat)
    requires n <= |calls|
  {
    forall m: nat :: m < n ==> !MissedBy(c, d, calls, m)
  }

  lemma NoneMissedSnoc(c: nat, d: nat, calls: seq<Stamp>, n: nat)
    requires n < |calls|
    ensures NoneMissed(c, d, calls, n + 1) <==> NoneMissed(c, d, calls, n) && !MissedBy(c, d, calls, n)
    ensures SameAnswers(c, d, calls, n + 1) <==>
      SameAnswers(c, d, calls, n) && (Answer(c, calls, n) <==> Answer(d, calls, n))
  {
  }

  /**
   * Two capacities give the same answers exactly when no call repeats a key
   * that is live in the larger cache's history and crowded out of the smaller.
   */
  lemma {:induction false} LargerIsSame(c: nat, d: nat, calls: seq<Stamp>, n: nat)
    requires c <= d && Monotone(calls) && n <= |calls|
    ensures SameAnswers(c, d, calls, n) <==> NoneMissed(c, d, calls, n)
    decreases n
  {
    if n > 0 {
      LargerIsSame(c, d, calls, n - 1);
      NoneMissedSnoc(c, d, calls, n - 1);
      if SameAnswers(c, d, calls, n - 1) {
        SameAcceptances(c, d, calls, n - 1);
        SameAnswerIff(c, d, calls, n - 1);
      }
    }
  }

  /** At no acceptance was a live entry crowded out. */
  predicate NeverCrowded(capacity: nat, calls: seq<Stamp>, n: nat)
    requires n <= |calls|
  {
    n == 0
    || (NeverCrowded(capacity, calls, n - 1)
        && (IsDuplicate(After(capacity, calls, n - 1).entries, calls[n - 1])
            || |DropExpired(After(capacity, calls, n - 1).entries, calls[n - 1].at)| < Room(capacity)))
  }

  /** While nothing live is crowded out, even the deque is that of any larger capacity. */
  lemma {:induction false} UncrowdedIsSame(capacity: nat, larger: nat, calls: seq<Stamp>, n: nat)
    requires n <= |calls| && capacity <= larger && NeverCrowded(capacity, calls, n)
    ensures After(capacity, calls, n) == After(larger, calls, n)
    decreases n
  {
    if n > 0 {
      UncrowdedIsSame(capacity, larger, calls, n - 1);
    }
  }

  /** The key was logged at most sixty seconds ago. */
  predicate InLog(log: seq<Stamp>, call: Stamp) {
    exists i :: 0 <= i < |log| && log[i].key == call.key && Live(log[i], call.at)
  }

  /** The log without a bound: a call is logged unless its key was logged within the window. */
  function Log(calls: seq<Stamp>, n: nat): (log: seq<Stamp>)
    requires n <= |calls|
    ensures |log| <= n
  {
    if n == 0 then []
    else
      var log := Log(calls, n - 1);
      if InLog(log, calls[n - 1]) then log else log + [calls[n - 1]]
  }

  lemma RoomForAll(log: seq<Stamp>, capacity: nat, call: Stamp)
    requires |log| <= capacity
    ensures SeenRecently(log, capacity, call) <==> InLog(log, call)
  {
    if InLog(log, call) {
      var i :| 0 <= i < |log| && log[i].key == call.key && Live(log[i], call.at);
      assert |log| - Room(capacity) <= i;
    }
  }

  /**
   * The cache answers every call as the unbounded sixty-second log does exactly
   * when no call repeats a logged key after at least as many other logged calls
   * as the cache has room for.
   */
  lemma AnswersAsLogIff(capacity: nat, calls: seq<Stamp>)
    requires Monotone(calls)
    ensures (forall m: nat :: m < |calls| ==> (Answer(capacity, calls, m) <==> InLog(Log(calls, m), calls[m])))
       <==> (forall m: nat :: m < |calls| && InLog(Log(calls, m), calls[m]) ==>
               SeenRecently(Log(calls, m), capacity, calls[m]))
  {
    var d := Max(capacity, |calls|);
    forall m: nat | m < |calls|
      ensures Answer(d, calls, m) <==> InLog(Log(calls, m), calls[m])
      ensures MissedBy(capacity, d, calls, m)
        <==> InLog(Log(calls, m), calls[m]) && !SeenRecently(Log(calls, m), capacity, calls[m])
    {
      LargeIsLog(d, calls, m);
      DuplicateIff(d, calls, m);
      RoomForAll(Log(calls, m), d, calls[m]);
    }
    LargerIsSame(capacity, d, calls, |calls|);
  }

  /** A capacity no run reaches is no bound. */
  lemma {:induction false} LargeIsLog(d: nat, calls: seq<Stamp>, n: nat)
    requires Monotone(calls) && n <= |calls| <= d
    ensures After(d, calls, n).accepted == Log(calls, n)
    decreases n
  {
    if n > 0 {
      LargeIsLog(d, calls, n - 1);
      DuplicateIff(d, calls, n - 1);
      RoomForAll(Log(calls, n - 1), d, calls[n - 1]);
    }
  }

  /** A reported duplicate is always a call made before, no more than sixty seconds ago. */
  lemma DuplicateWasCalled(capacity: nat, calls: seq<Stamp>, n: nat)
    requires n < |calls| && Monotone(calls)
    requires IsDuplicate(After(capacity, calls, n).entries, calls[n])
    ensures exists m :: 0 <= m < n && calls[m].key == calls[n].key && calls[n].at - calls[m].at <= WINDOW
  {
    DuplicateIff(capacity, calls, n);
    var accepted := After(capacity, calls, n).accepted;
    var i :| 0 <= i < |accepted| && |accepted| - Room(capacity) <= i
      && accepted[i].key == calls[n].key && Live(accepted[i], calls[n].at);
    var m := AcceptedWasCalled(capacity, calls, n, i);
  }

  lemma {:induction false} AcceptedWasCalled(capacity: nat, calls: seq<Stamp>, n: nat, i: nat) returns (m: nat)
    requires n <= |calls| && i < |After(capacity, calls, n).accepted|
    ensures m < n && calls[m] == After(capacity, calls, n).accepted[i]
    decreases n
  {
    if i < |After(capacity, calls, n - 1).accepted| {
      m := AcceptedWasCalled(capacity, calls, n - 1, i);
    } else {
      m := n - 1;
    }
  }

  /** A cache without any capacity still reports a duplicate: it keeps the last call. */
  lemma ZeroCapacityReports(key: Key)
    ensures Answer(0, [Stamp(key, 0), Stamp(key, 1)], 1)
  {
    var calls := [Stamp(key, 0), Stamp(key, 1)];
    Next(0, calls, 0, [], [calls[0]]);
    assert DropExpired([calls[0]], 1) == [calls[0]];
    assert [calls[0]][0].key == calls[1].key;
  }

  /** One key at four moments, another in between. */
  function Crowding(): (calls: seq<Stamp>)
    ensures Monotone(calls) && |calls| == 4
  {
    var x, y := Key("s", "x"), Key("s", "y");
    [Stamp(x, 0), Stamp(y, 10), Stamp(x, WINDOW), Stamp(x, WINDOW + 5)]
  }

  /**
   * A cache that was crowded can report a duplicate that a larger one would
   * not: it accepted the key anew while the larger one kept the old stamp.
   */
  lemma CrowdedReportsMore()
    ensures IsDuplicate(After(1, Crowding(), 3).entries, Crowding()[3])
    ensures !IsDuplicate(After(2, Crowding(), 3).entries, Crowding()[3])
  {
    CrowdedReports();
    LargerDoesNot();
  }

  lemma CrowdedReports()
    ensures IsDuplicate(After(1, Crowding(), 3).entries, Crowding()[3])
  {
    var calls := Crowding();
    var a, b, c, d := calls[0], calls[1], calls[2], calls[3];
    Next(1, calls, 0, [], [a]);
    Next(1, calls, 1, [a], [b]);
    Next(1, calls, 2, [b], [c]);
    assert DropExpired([c], d.at) == [c] && [c][0].key == d.key;
  }

  lemma LargerDoesNot()
    ensures !IsDuplicate(After(2, Crowding(), 3).entries, Crowding()[3])
  {
    var calls := Crowding();
    var a, b, c, d := calls[0], calls[1], calls[2], calls[3];
    Next(2, calls, 0, [], [a]);
    Next(2, calls, 1, [a], [a, b]);
    assert [a, b][0].key == c.key;
    Next(2, calls, 2, [a, b], [a, b]);
    assert [a, b][1..] == [b];
    assert DropExpired([b], d.at) == [b];
  }

  lemma Next(capacity: nat, calls: seq<Stamp>, n: nat, live: seq<Stamp>, after: seq<Stamp>)
    requires n < |calls| && After(capacity, calls, n).entries == live && AllLive(live, calls[n].at)
    requires after == if Has(live, calls[n].key) then live else MakeRoom(live, capacity) + [calls[n]]
    ensures After(capacity, calls, n + 1).entries == after
  {
    assert live != [] ==> Live(live[0], calls[n].at);
  }
}
