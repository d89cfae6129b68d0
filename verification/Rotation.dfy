/**
 * The capture directory: entries come with Start, are filled in by Outbound
 * and Finish, and the oldest are deleted when a running estimate says the cap
 * may be crossed.
 */
module Rotation {
  import opened Wrappers
  import Arith

  /** An entry's place in the lexicographic order of directory names. */
  type Name = nat

  /** `metadata.json` is absent, partial, or holds the status of the response. */
  datatype Entry = Entry(requestOut: bool, response: bool, metadata: Option<Option<nat>>)

  datatype Fate = MkdirFailed | BodyFailed | Written

  /** A message to the writer; or an entry deleted by somebody else. `stuck` are entries that cannot be deleted. */
  datatype Event =
    | Start(id: Name, fate: Fate, stuck: set<Name>)
    | Outbound(id: Name)
    | Finish(id: Name, status: nat)
    | Vanish(id: Name)

  type Entries = map<Name, Entry>

  datatype State = State(entries: Entries, estimate: Option<nat>, drops: nat)

  // ----- oldest first -------------------------------------------------------

  lemma {:induction false} LeastExists(names: set<Name>)
    requires names != {}
    ensures exists x :: x in names && forall y :: y in names ==> x <= y
    decreases |names|
  {
    var a :| a in names;
    if names != {a} {
      var others := names - {a};
      assert names == others + {a};
      LeastExists(others);
      var b :| b in others && forall y :: y in others ==> b <= y;
      var x := Min(a, b);
      assert x in names && forall y :: y in names ==> x <= y;
    }
  }

  function Least(names: set<Name>): (x: Name)
    requires names != {}
    ensures x in names && forall y :: y in names ==> x <= y
  {
    LeastExists(names);
    var x :| x in names && forall y :: y in names ==> x <= y;
    x
  }

  function Sorted(names: set<Name>): (r: seq<Name>)
    ensures |r| == |names|
    decreases |names|
  {
    if names == {} then []
    else
      var x := Least(names);
      [x] + Sorted(names - {x})
  }

  /** The `n` least names. */
  function Oldest(names: set<Name>, n: nat): set<Name>
    requires n <= |names|
    decreases n
  {
    if n == 0 then {}
    else
      var x := Least(names);
      {x} + Oldest(names - {x}, n - 1)
  }

  lemma {:induction false} OldestFacts(names: set<Name>, n: nat)
    requires n <= |names|
    ensures var old_ := Oldest(names, n);
      old_ <= names && |old_| == n && forall x, y :: x in old_ && y in names && y !in old_ ==> x < y
    decreases n
  {
    if n > 0 {
      OldestFacts(names - {Least(names)}, n - 1);
    }
  }

  /** The sorted list has the least names in front. */
  lemma {:induction false} OldestIsPrefix(names: set<Name>, n: nat)
    requires n < |names|
    ensures var x := Sorted(names)[n];
      x in names && x !in Oldest(names, n) && Oldest(names, n + 1) == Oldest(names, n) + {x}
    decreases n
  {
    var least := Least(names);
    var others := names - {least};
    assert Oldest(names, n + 1) == {least} + Oldest(others, n);
    if n > 0 {
      var x := Sorted(others)[n - 1];
      assert Sorted(names)[n] == x;
      assert Oldest(names, n) == {least} + Oldest(others, n - 1);
      OldestIsPrefix(others, n - 1);
    }
  }

  // ----- rotation -----------------------------------------------------------

  function Excess(n: nat, max: nat): nat {
    if n <= max then 0 else n - max
  }

  /** What a scan tries to delete. */
  function Doomed(entries: Entries, max: nat): set<Name> {
    Oldest(entries.Keys, Excess(|entries.Keys|, max))
  }

  /** What is left after the first `i` entries in order were deleted, unless stuck. */
  function AfterDeleting(entries: Entries, i: nat, stuck: set<Name>): Entries
    requires i <= |entries.Keys|
  {
    entries - (Oldest(entries.Keys, i) - stuck)
  }

  /** `rotate_capture_dir` for a positive cap. */
  function Rotated(entries: Entries, max: nat, stuck: set<Name>): Entries {
    AfterDeleting(entries, Excess(|entries.Keys|, max), stuck)
  }

  lemma NothingDeleted(entries: Entries, stuck: set<Name>)
    ensures AfterDeleting(entries, 0, stuck) == entries
  {
  }

  lemma DeletionStep(entries: Entries, i: nat, stuck: set<Name>)
    requires i < |entries.Keys|
    ensures var id := Sorted(entries.Keys)[i];
      var before, after := AfterDeleting(entries, i, stuck), AfterDeleting(entries, i + 1, stuck);
      if id in stuck then after == before else after == before - {id} && |after.Keys| == |before.Keys| - 1
  {
    OldestIsPrefix(entries.Keys, i);
    var id := Sorted(entries.Keys)[i];
    var before, after := AfterDeleting(entries, i, stuck), AfterDeleting(entries, i + 1, stuck);
    if id !in stuck {
      assert after.Keys == before.Keys - {id} && id in before.Keys;
    }
  }

  function Slack(max: nat): (r: nat)
    ensures r >= 1
  {
    Max(max / 16, 1)
  }

  predicate NeedsScan(estimate: Option<nat>, max: nat) {
    estimate.None? || estimate.value + 1 >= max + Slack(max)
  }

  // ----- one message --------------------------------------------------------

  function Made(entries: Entries, id: Name): Entry {
    if id in entries then entries[id] else Entry(false, false, None)
  }

  function Recorded(max: nat, s: State, id: Name, stuck: set<Name>): State {
    if max == 0 then s
    else if NeedsScan(s.estimate, max) then
      var kept := Rotated(s.entries, max, stuck);
      s.(entries := kept, estimate := Some(|kept.Keys|))
    else s.(estimate := Some(s.estimate.value + 1))
  }

  function WithPartial(entries: Entries, id: Name): Entries {
    if id in entries then entries[id := entries[id].(metadata := Some(None))] else entries
  }

  function Finished(entry: Entry, status: nat): Entry {
    Entry(entry.requestOut, true, if entry.metadata.Some? then Some(Some(status)) else None)
  }

  function Step(max: nat, s: State, e: Event): State {
    match e
    case Start(id, fate, stuck) =>
      if fate.MkdirFailed? then s
      else
        var made := s.(entries := s.entries[id := Made(s.entries, id)]);
        if fate.BodyFailed? then made
        else
          var recorded := Recorded(max, made, id, stuck);
          recorded.(entries := WithPartial(recorded.entries, id))
    case Outbound(id) =>
      if id in s.entries then s.(entries := s.entries[id := s.entries[id].(requestOut := true)])
      else s.(drops := s.drops + 1)
    case Finish(id, status) =>
      if id in s.entries then s.(entries := s.entries[id := Finished(s.entries[id], status)])
      else s.(drops := s.drops + 1)
    case Vanish(id) => s.(entries := s.entries - {id})
  }

  /** Every entry left is one that was there, untouched, the message's own aside. */
  predicate OthersStay(before: Entries, after: Entries, id: Name) {
    forall k :: k in after && k != id ==> k in before && after[k] == before[k]
  }

  /** An Outbound adds the request that went out; it is counted as dropped when the entry is gone. */
  lemma OutboundTells(max: nat, s: State, id: Name)
    ensures var t := Step(max, s, Outbound(id));
      && t.estimate == s.estimate
      && (id in s.entries ==>
            && t.drops == s.drops && t.entries.Keys == s.entries.Keys && OthersStay(s.entries, t.entries, id)
            && t.entries[id] == Entry(true, s.entries[id].response, s.entries[id].metadata))
      && (id !in s.entries ==> t.drops == s.drops + 1 && t.entries == s.entries)
  {
  }

  /** A Finish adds the response and, where there is metadata, the status; it too is counted when the entry is gone. */
  lemma FinishTells(max: nat, s: State, id: Name, status: nat)
    ensures var t := Step(max, s, Finish(id, status));
      && t.estimate == s.estimate
      && (id in s.entries ==>
            && t.drops == s.drops && t.entries.Keys == s.entries.Keys && OthersStay(s.entries, t.entries, id)
            && t.entries[id].requestOut == s.entries[id].requestOut && t.entries[id].response
            && t.entries[id].metadata == if s.entries[id].metadata == None then None else Some(Some(status)))
      && (id !in s.entries ==> t.drops == s.drops + 1 && t.entries == s.entries)
  {
  }

  /** What an entry of this name holds, or would. */
  function Held(entries: Entries, id: Name): Entry {
    if id in entries then entries[id] else Entry(false, false, None)
  }

  /** One more entry stays under the cap and a sixteenth of it, at least one. */
  predicate StaysUnder(estimate: Option<nat>, max: nat) {
    estimate.Some? && estimate.value + 1 < max + (if max < 32 then 1 else max / 16)
  }

  /** Recording an entry moves the estimate by one, or deletes and counts; it changes no entry. */
  predicate RecordsAs(max: nat, s: State, t: State) {
    && t.drops == s.drops && (forall k :: k in t.entries ==> k in s.entries && t.entries[k] == s.entries[k])
    && (max == 0 ==> t == s)
    && (max > 0 && StaysUnder(s.estimate, max) ==>
          t.estimate == Some(s.estimate.value + 1) && t.entries == s.entries)
    && (max > 0 && !StaysUnder(s.estimate, max) ==> t.estimate == Some(|t.entries.Keys|))
  }

  lemma NeedsScanIff(estimate: Option<nat>, max: nat)
    ensures NeedsScan(estimate, max) <==> !StaysUnder(estimate, max)
  {
  }

  lemma RotatedUntouched(entries: Entries, max: nat, stuck: set<Name>)
    ensures var after := Rotated(entries, max, stuck);
      forall k :: k in after ==> k in entries && after[k] == entries[k]
  {
  }

  lemma RecordedTells(max: nat, s: State, id: Name, stuck: set<Name>)
    ensures RecordsAs(max, s, Recorded(max, s, id, stuck))
  {
    NeedsScanIff(s.estimate, max);
    RotatedUntouched(s.entries, max, stuck);
    var kept := Rotated(s.entries, max, stuck);
    if max > 0 && NeedsScan(s.estimate, max) {
      assert Recorded(max, s, id, stuck) == State(kept, Some(|kept.Keys|), s.drops);
    }
  }

  lemma PartialTells(entries: Entries, id: Name)
    ensures var after := WithPartial(entries, id);
      && after.Keys == entries.Keys && OthersStay(entries, after, id)
      && (id in entries ==> after[id] == Entry(entries[id].requestOut, entries[id].response, Some(None)))
  {
    assert WithPartial(entries, id).Keys == entries.Keys;
  }

  /** A Start that cannot make its directory does nothing; one that cannot write its body leaves the entry as it is. */
  lemma FailedStartTells(max: nat, s: State, id: Name, stuck: set<Name>)
    ensures Step(max, s, Start(id, MkdirFailed, stuck)) == s
    ensures Step(max, s, Start(id, BodyFailed, stuck)) == s.(entries := s.entries[id := Held(s.entries, id)])
  {
  }

  /**
   * Any other makes an entry, or keeps what one of that name holds, and leaves
   * partial metadata in it. It moves the estimate by one, or to the count when
   * one more may cross the cap.
   */
  lemma StartTells(max: nat, s: State, id: Name, stuck: set<Name>)
    ensures var t, held := Step(max, s, Start(id, Written, stuck)), Held(s.entries, id);
      && t.drops == s.drops && OthersStay(s.entries, t.entries, id)
      && (id in t.entries ==> t.entries[id] == Entry(held.requestOut, held.response, Some(None)))
      && (max == 0 ==> t.estimate == s.estimate && id in t.entries)
      && (max > 0 && StaysUnder(s.estimate, max) ==>
            t.estimate == Some(s.estimate.value + 1) && t.entries.Keys == s.entries.Keys + {id})
      && (max > 0 && !StaysUnder(s.estimate, max) ==> t.estimate == Some(|t.entries.Keys|))
  {
    var held := Held(s.entries, id);
    var made := s.(entries := s.entries[id := held]);
    var recorded, t := Recorded(max, made, id, stuck), Step(max, s, Start(id, Written, stuck));
    RecordedTells(max, made, id, stuck);
    PartialTells(recorded.entries, id);
    StartIs(max, s, id, stuck, made);
    MadeAndRecorded(max, s, id, held, made, recorded, t);
  }

  lemma StartIs(max: nat, s: State, id: Name, stuck: set<Name>, made: State)
    requires made == s.(entries := s.entries[id := Held(s.entries, id)])
    ensures var recorded := Recorded(max, made, id, stuck);
      Step(max, s, Start(id, Written, stuck)) == recorded.(entries := WithPartial(recorded.entries, id))
  {
  }

  lemma MadeAndRecorded(max: nat, s: State, id: Name, held: Entry, made: State, recorded: State, t: State)
    requires made == s.(entries := s.entries[id := held]) && RecordsAs(max, made, recorded)
    requires t.drops == recorded.drops && t.estimate == recorded.estimate && t.entries.Keys == recorded.entries.Keys
    requires OthersStay(recorded.entries, t.entries, id)
    requires id in t.entries ==>
      t.entries[id] == Entry(recorded.entries[id].requestOut, recorded.entries[id].response, Some(None))
    ensures t.drops == s.drops && OthersStay(s.entries, t.entries, id)
    ensures id in t.entries ==> t.entries[id] == Entry(held.requestOut, held.response, Some(None))
    ensures max == 0 ==> t.estimate == s.estimate && id in t.entries
    ensures max > 0 && StaysUnder(s.estimate, max) ==>
      t.estimate == Some(s.estimate.value + 1) && t.entries.Keys == s.entries.Keys + {id}
    ensures max > 0 && !StaysUnder(s.estimate, max) ==> t.estimate == Some(|t.entries.Keys|)
  {
  }

  /** Does this message walk the directory? */
  predicate Scans(max: nat, s: State, e: Event) {
    IsWritten(e) && max > 0 && NeedsScan(s.estimate, max)
  }

  // ----- what a step does to the names ---------------------------------------

  function Present(s: State): set<Name> {
    s.entries.Keys
  }

  lemma RotatedNames(entries: Entries, max: nat, stuck: set<Name>)
    ensures Rotated(entries, max, stuck).Keys == entries.Keys - (Doomed(entries, max) - stuck)
  {
  }

  lemma StepNames(max: nat, s: State, e: Event)
    ensures Present(Step(max, s, e)) ==
      if Scans(max, s, e) then Rotated(s.entries[e.id := Made(s.entries, e.id)], max, e.stuck).Keys
      else if e.Start? && !e.fate.MkdirFailed? then Present(s) + {e.id}
      else if e.Vanish? then Present(s) - {e.id}
      else Present(s)
  {
  }

  // ----- the estimate -------------------------------------------------------

  /** How far one message that does not scan moves the estimate ahead of the count. */
  function Shift(s: State, e: Event): int {
    match e
    case Start(id, fate, _) =>
      if fate.Written? then (if id in s.entries then 1 else 0)
      else if fate.BodyFailed? then (if id in s.entries then 0 else -1)
      else 0
    case Vanish(id) => if id in s.entries then 1 else 0
    case Outbound(_) => 0
    case Finish(_, _) => 0
  }

  predicate IsWritten(e: Event) {
    e.Start? && e.fate.Written?
  }

  /** Nobody else deletes, the body is written, and the id is new. */
  predicate IsTidy(s: State, e: Event) {
    !e.Vanish? && (e.Start? ==> !e.fate.BodyFailed? && e.id !in s.entries)
  }

  /**
   * A run so far: the state now, the sum of the shifts since the last scan, how
   * many Starts were written, how many of them scanned, whether every message
   * was tidy, and every name that was ever there.
   */
  datatype History = History(now: State, drift: int, written: nat, scans: nat, tidy: bool, ever: set<Name>)

  function Beginning(s: State): History {
    History(s, 0, 0, 0, true, Present(s))
  }

  function Track(max: nat, h: History, e: Event): History {
    var scans := Scans(max, h.now, e);
    History(Step(max, h.now, e),
            if scans then 0 else h.drift + Shift(h.now, e),
            h.written + if IsWritten(e) then 1 else 0,
            h.scans + if scans then 1 else 0,
            h.tidy && IsTidy(h.now, e),
            h.ever + if e.Start? && !e.fate.MkdirFailed? then {e.id} else {})
  }

  function Fold<S, E>(step: (S, E) -> S, s: S, events: seq<E>, n: nat): S
    requires n <= |events|
  {
    if n == 0 then s else step(Fold(step, s, events, n - 1), events[n - 1])
  }

  lemma {:induction false} FoldKeeps<S, E>(step: (S, E) -> S, inv: S -> bool, s: S, events: seq<E>, n: nat)
    requires n <= |events| && inv(s)
    requires forall x: S, i :: 0 <= i < n && inv(x) ==> inv(step(x, events[i]))
    ensures inv(Fold(step, s, events, n))
  {
    if n > 0 {
      FoldKeeps(step, inv, s, events, n - 1);
    }
  }

  /** The first `n` messages of a run from `s`. */
  function Run(max: nat, s: State, events: seq<Event>, n: nat): History
    requires n <= |events|
  {
    Fold((h: History, e: Event) => Track(max, h, e), Beginning(s), events, n)
  }

  predicate Accounts(s: State, drift: int) {
    s.estimate.Some? ==> s.estimate.value == |Present(s)| + drift
  }

  lemma StepAccounts(max: nat, s: State, e: Event, drift: int)
    requires max > 0 && Accounts(s, drift)
    ensures Accounts(Step(max, s, e), if Scans(max, s, e) then 0 else drift + Shift(s, e))
  {
    StepNames(max, s, e);
  }

  /** At every moment the estimate is the count plus exactly the drift since the last scan. */
  lemma EstimateAccounts(max: nat, s: State, events: seq<Event>, n: nat)
    requires n <= |events| && max > 0 && s.estimate.None?
    ensures Accounts(Run(max, s, events, n).now, Run(max, s, events, n).drift)
  {
    var inv := (h: History) => Accounts(h.now, h.drift);
    forall h: History, i | 0 <= i < n && inv(h) ensures inv(Track(max, h, events[i])) {
      StepAccounts(max, h.now, events[i], h.drift);
    }
    FoldKeeps((h: History, e: Event) => Track(max, h, e), inv, Beginning(s), events, n);
  }

  predicate Deletable(events: seq<Event>)
  {
    forall i :: 0 <= i < |events| && events[i].Start? ==> events[i].stuck == {}
  }

  lemma TidyHasNoDrift(max: nat, s: State, events: seq<Event>, n: nat)
    requires n <= |events| && Run(max, s, events, n).tidy
    ensures Run(max, s, events, n).drift == 0
  {
    var inv := (h: History) => h.tidy ==> h.drift == 0;
    FoldKeeps((h: History, e: Event) => Track(max, h, e), inv, Beginning(s), events, n);
  }

  lemma RotatedCount(entries: Entries, max: nat)
    ensures |Rotated(entries, max, {}).Keys| == Min(|entries.Keys|, max)
  {
    var doomed := Doomed(entries, max);
    OldestFacts(entries.Keys, Excess(|entries.Keys|, max));
    RotatedNames(entries, max, {});
    assert Rotated(entries, max, {}).Keys == entries.Keys - doomed;
  }

  /** What the estimate and the number of scans satisfy after `n` written Starts. */
  predicate Amortized(max: nat, estimate: Option<nat>, n: nat, scans: nat) {
    && (estimate.None? <==> n == 0)
    && (scans == 0 <==> n == 0)
    && (n > 0 ==>
          && estimate.value <= max + Slack(max) - 1
          && Arith.Times(Slack(max), scans - 1) + Excess(estimate.value, max) <= n - 1)
  }

  lemma StepAmortized(max: nat, s: State, e: Event, n: nat, scans: nat)
    requires max > 0 && (e.Start? ==> e.stuck == {})
    requires Amortized(max, s.estimate, n, scans)
    ensures Amortized(max, Step(max, s, e).estimate, n + if IsWritten(e) then 1 else 0,
                      scans + if Scans(max, s, e) then 1 else 0)
  {
    if Scans(max, s, e) {
      RotatedCount(s.entries[e.id := Made(s.entries, e.id)], max);
      if n > 0 {
        assert Arith.Times(Slack(max), scans) == Slack(max) + Arith.Times(Slack(max), scans - 1);
      }
    }
  }

  predicate AmortizedSoFar(max: nat, h: History) {
    Amortized(max, h.now.estimate, h.written, h.scans)
  }

  lemma TrackAmortized(max: nat, h: History, e: Event)
    requires max > 0 && (e.Start? ==> e.stuck == {}) && AmortizedSoFar(max, h)
    ensures AmortizedSoFar(max, Track(max, h, e))
  {
    StepAmortized(max, h.now, e, h.written, h.scans);
  }

  lemma RunAmortized(max: nat, s: State, events: seq<Event>, n: nat)
    requires n <= |events| && max > 0 && s.estimate.None? && Deletable(events)
    ensures AmortizedSoFar(max, Run(max, s, events, n))
  {
    var inv := (h: History) => AmortizedSoFar(max, h);
    forall h: History, i | 0 <= i < n && inv(h) ensures inv(Track(max, h, events[i])) {
      TrackAmortized(max, h, events[i]);
    }
    FoldKeeps((h: History, e: Event) => Track(max, h, e), inv, Beginning(s), events, n);
  }

  /** Between one scan and the next at least `slack` Starts are written. */
  lemma ScansAreRare(max: nat, s: State, events: seq<Event>, n: nat)
    requires n <= |events| && max > 0 && s.estimate.None? && Deletable(events)
    requires Run(max, s, events, n).written > 0
    ensures var h := Run(max, s, events, n); h.scans >= 1 && Arith.Times(Slack(max), h.scans - 1) <= h.written - 1
  {
    RunAmortized(max, s, events, n);
  }

  /** The cap is kept within the slack, give or take the drift. */
  lemma CapWithinSlack(max: nat, s: State, events: seq<Event>, n: nat)
    requires n <= |events| && max > 0 && s.estimate.None? && Deletable(events)
    requires Run(max, s, events, n).written > 0
    ensures var h := Run(max, s, events, n); |Present(h.now)| <= max + Slack(max) - 1 - h.drift
  {
    RunAmortized(max, s, events, n);
    EstimateAccounts(max, s, events, n);
  }

  /** On tidy runs the estimate is the count, and the cap is kept within the slack. */
  lemma TidyEstimateIsCount(max: nat, s: State, events: seq<Event>, n: nat)
    requires n <= |events| && max > 0 && s.estimate.None? && Deletable(events)
    requires Run(max, s, events, n).written > 0 && Run(max, s, events, n).tidy
    ensures var now := Run(max, s, events, n).now;
      now.estimate == Some(|Present(now)|) && |Present(now)| <= max + Slack(max) - 1
  {
    RunAmortized(max, s, events, n);
    EstimateAccounts(max, s, events, n);
    TidyHasNoDrift(max, s, events, n);
  }

  // ----- which entries stay -------------------------------------------------

  /** A scan keeps the greatest names, as many as the cap allows. */
  lemma ScanKeepsGreatest(max: nat, s: State, e: Event)
    requires Scans(max, s, e) && e.stuck == {}
    ensures var all, kept := Present(s) + {e.id}, Present(Step(max, s, e));
      && kept <= all && |kept| == Min(|all|, max)
      && forall x, y :: x in all && x !in kept && y in kept ==> x < y
  {
    StepNames(max, s, e);
    var made := s.entries[e.id := Made(s.entries, e.id)];
    assert made.Keys == Present(s) + {e.id};
    OldestFacts(made.Keys, Excess(|made.Keys|, max));
    RotatedNames(made, max, {});
    RotatedCount(made, max);
  }

  function Above(names: set<Name>, x: Name): set<Name> {
    set y | y in names && y > x
  }

  /** At least `max` entries are newer than `x`. */
  predicate Outranked(names: set<Name>, x: Name, max: nat) {
    |Above(names, x)| >= max
  }

  lemma SubsetCount(a: set<Name>, b: set<Name>)
    requires a <= b
    ensures |a| <= |b|
  {
    var rest := b - a;
    assert b == a + rest;
  }

  lemma OutrankedGrows(names: set<Name>, more: set<Name>, x: Name, max: nat)
    requires Outranked(names, x, max) && names <= more
    ensures Outranked(more, x, max)
  {
    SubsetCount(Above(names, x), Above(more, x));
  }

  lemma RotationOutranks(entries: Entries, max: nat, stuck: set<Name>, x: Name)
    requires x in Doomed(entries, max) || Outranked(entries.Keys, x, max)
    ensures Outranked(Rotated(entries, max, stuck).Keys, x, max)
  {
    var names, doomed := entries.Keys, Doomed(entries, max);
    var kept := Rotated(entries, max, stuck).Keys;
    RotatedNames(entries, max, stuck);
    OldestFacts(names, Excess(|names|, max));
    if x in doomed {
      var top := names - doomed;
      assert |top| == max;
      assert top <= Above(kept, x);
      SubsetCount(top, Above(kept, x));
    } else if |names| > max && exists d :: d in doomed && d > x {
      var d :| d in doomed && d > x;
      var top := names - doomed;
      assert top <= Above(kept, x);
      SubsetCount(top, Above(kept, x));
    } else {
      assert Above(names, x) <= Above(kept, x);
      SubsetCount(Above(names, x), Above(kept, x));
    }
  }

  lemma StepOutranks(max: nat, s: State, e: Event, x: Name)
    requires !e.Vanish? && max > 0
    requires x in Present(s) || Outranked(Present(s), x, max) || (e.Start? && !e.fate.MkdirFailed? && x == e.id)
    ensures var after := Step(max, s, e); x in Present(after) || Outranked(Present(after), x, max)
  {
    var after := Step(max, s, e);
    StepNames(max, s, e);
    if Scans(max, s, e) {
      var made := s.entries[e.id := Made(s.entries, e.id)];
      assert made.Keys == Present(s) + {e.id};
      RotatedNames(made, max, e.stuck);
      if x !in Present(after) {
        if x !in made.Keys {
          OutrankedGrows(Present(s), made.Keys, x, max);
        }
        RotationOutranks(made, max, e.stuck, x);
      }
    } else if x !in Present(after) {
      OutrankedGrows(Present(s), Present(after), x, max);
    }
  }

  /** Every name of `ever` is there, or has at least `max` newer ones there. */
  ghost predicate MissingOutranked(max: nat, h: History) {
    forall x :: x in h.ever ==> x in Present(h.now) || Outranked(Present(h.now), x, max)
  }

  /** Over any run of the writer, an entry is missing only while at least `max` newer ones are there. */
  lemma MissingAreOutranked(max: nat, s: State, events: seq<Event>, n: nat)
    requires n <= |events| && max > 0 && (forall i :: 0 <= i < n ==> !events[i].Vanish?)
    ensures MissingOutranked(max, Run(max, s, events, n))
  {
    var inv := (h: History) => MissingOutranked(max, h);
    forall h: History, i | 0 <= i < n && inv(h) ensures inv(Track(max, h, events[i])) {
      forall x | x in Track(max, h, events[i]).ever
        ensures var now := Step(max, h.now, events[i]); x in Present(now) || Outranked(Present(now), x, max)
      {
        StepOutranks(max, h.now, events[i], x);
      }
    }
    FoldKeeps((h: History, e: Event) => Track(max, h, e), inv, Beginning(s), events, n);
  }

  lemma StepStaysGone(max: nat, s: State, e: Event, id: Name)
    requires id !in s.entries && !(e.Start? && e.id == id)
    ensures id !in Step(max, s, e).entries
  {
    StepNames(max, s, e);
  }

  /** Late messages never bring an evicted entry back. */
  lemma EvictedStaysGone(max: nat, s: State, events: seq<Event>, n: nat, id: Name)
    requires n <= |events| && id !in s.entries
    requires forall i :: 0 <= i < n ==> !(events[i].Start? && events[i].id == id)
    ensures id !in Run(max, s, events, n).now.entries
  {
    var inv := (h: History) => id !in h.now.entries;
    forall h: History, i | 0 <= i < n && inv(h) ensures inv(Track(max, h, events[i])) {
      StepStaysGone(max, h.now, events[i], id);
    }
    FoldKeeps((h: History, e: Event) => Track(max, h, e), inv, Beginning(s), events, n);
  }

  // ----- the directory and its writer ----------------------------------------

  class CaptureDir {
    var entries: Entries
    var estimate: Option<nat>
    var drops: nat

    constructor ()
      ensures Now() == State(map[], None, 0)
    {
      entries, estimate, drops := map[], None, 0;
    }

    function Now(): State
      reads this
    {
      State(entries, estimate, drops)
    }

    /** Sort by name, delete from the front as many as are too many, count the deletions that worked. */
    method RotateCaptureDir(max: nat, stuck: set<Name>) returns (remaining: nat)
      modifies this`entries
      ensures max > 0 ==> entries == Rotated(old(entries), max, stuck) && remaining == |entries.Keys|
      ensures max == 0 ==> entries == old(entries) && remaining == 0
    {
      if max == 0 {
        return 0;
      }
      ghost var all := entries;
      NothingDeleted(all, stuck);
      var order, n := Sorted(entries.Keys), |entries.Keys|;
      if n <= max {
        return n;
      }
      var deleted := 0;
      var i := 0;
      while i < n - max
        invariant 0 <= i <= n - max
        invariant entries == AfterDeleting(all, i, stuck)
        invariant |entries.Keys| == n - deleted
      {
        var id := order[i];
        DeletionStep(all, i, stuck);
        if id !in stuck {
          entries := entries - {id};
          deleted := deleted + 1;
        }
        i := i + 1;
      }
      return n - deleted;
    }

    method RecordAndMaybeRotate(max: nat, id: Name, stuck: set<Name>)
      modifies this`entries, this`estimate
      ensures Now() == Recorded(max, old(Now()), id, stuck)
    {
      if max == 0 {
        return;
      }
      if estimate.None? || estimate.value + 1 >= max + Slack(max) {
        var remaining := RotateCaptureDir(max, stuck);
        estimate := Some(remaining);
      } else {
        estimate := Some(estimate.value + 1);
      }
    }

    method HandleCaptureMsg(max: nat, e: Event)
      requires !e.Vanish?
      modifies this
      ensures Now() == Step(max, old(Now()), e)
    {
      match e {
        case Start(id, fate, stuck) =>
          if fate.MkdirFailed? {
            return;
          }
          if id !in entries {
            entries := entries[id := Entry(false, false, None)];
          }
          assert entries == old(entries)[id := Made(old(entries), id)];
          if fate.BodyFailed? {
            return;
          }
          RecordAndMaybeRotate(max, id, stuck);
          if id in entries {
            entries := entries[id := entries[id].(metadata := Some(None))];
          }
        case Outbound(id) =>
          if id !in entries {
            drops := drops + 1;
            return;
          }
          entries := entries[id := entries[id].(requestOut := true)];
        case Finish(id, status) =>
          if id !in entries {
            drops := drops + 1;
            return;
          }
          entries := entries[id := entries[id].(response := true)];
          if entries[id].metadata.Some? {
            entries := entries[id := entries[id].(metadata := Some(Some(status)))];
          }
      }
    }
  }
}
