/** The sweep-line `peak` of scripts/evaluate_resume_concurrency.py against the definition of
    concurrency: the largest number of half-open call intervals that contain one moment. */
module SweepPeak {
  import opened PyText
  import opened Sorting

  /** One recorded call, in nanoseconds. */
  datatype Call = Call(start: int, end: int)

  /** A pair (time, delta) of the event list: delta is +1 at a start and -1 at an end. */
  datatype Event = Event(time: int, delta: int)

  /** Python's order on pairs: at equal times an end sorts before a start. */
  const EVENT_LE: (Event, Event) -> bool :=
    (a: Event, b: Event) => a.time < b.time || (a.time == b.time && a.delta <= b.delta)

  function Starts(calls: seq<Call>): (events: seq<Event>) {
    seq(|calls|, i requires 0 <= i < |calls| => Event(calls[i].start, 1))
  }

  function Ends(calls: seq<Call>): (events: seq<Event>) {
    seq(|calls|, i requires 0 <= i < |calls| => Event(calls[i].end, -1))
  }

  function SortedEvents(calls: seq<Call>): (events: seq<Event>) {
    Sort(Starts(calls) + Ends(calls), EVENT_LE)
  }

  /** The value of `active` after the first k events. */
  function Active(events: seq<Event>, k: nat): (n: int)
    requires k <= |events|
  {
    if k == 0 then 0 else Active(events, k - 1) + events[k - 1].delta
  }

  /** How many calls are running at time t. */
  function Overlap(calls: seq<Call>, t: int): (n: nat) {
    Count(calls, (c: Call) => c.start <= t < c.end)
  }

  ghost predicate WellTimed(calls: seq<Call>) {
    forall c :: c in calls ==> c.start <= c.end
  }

  /** The peak is the highest value `active` ever has.  When no call ends before it starts, it is
      the maximum overlap over all times, attained unless it is zero. */
  method Peak(calls: seq<Call>) returns (maximum: nat)
    ensures IsHighest(SortedEvents(calls), maximum)
    ensures WellTimed(calls) ==> forall t :: Overlap(calls, t) <= maximum
    ensures WellTimed(calls) ==> maximum == 0 || exists t :: Overlap(calls, t) == maximum
  {
    maximum := HighestActive(SortedEvents(calls));
    if WellTimed(calls) {
      forall t ensures Overlap(calls, t) <= maximum {
        var k := EventsUpTo(calls, t);
      }
      if maximum > 0 {
        HighestIsReached(calls, maximum);
      }
    }
  }

  /** maximum is the largest value the running total takes, the initial zero included. */
  ghost predicate IsHighest(events: seq<Event>, maximum: int) {
    && (forall k :: 0 <= k <= |events| ==> Active(events, k) <= maximum)
    && (exists k :: 0 <= k <= |events| && Active(events, k) == maximum)
  }

  method HighestActive(events: seq<Event>) returns (maximum: nat)
    ensures IsHighest(events, maximum)
  {
    var active := 0;
    maximum := 0;
    for k := 0 to |events|
      invariant active == Active(events, k)
      invariant forall i :: 0 <= i <= k ==> Active(events, i) <= maximum
      invariant exists i :: 0 <= i <= k && Active(events, i) == maximum
    {
      active := active + events[k].delta;
      maximum := Max(maximum, active);
    }
  }

  /** A positive peak is first reached right after a start, where it is an overlap. */
  lemma HighestIsReached(calls: seq<Call>, maximum: int)
    requires WellTimed(calls) && IsHighest(SortedEvents(calls), maximum) && maximum > 0
    requires forall t :: Overlap(calls, t) <= maximum
    ensures exists t :: Overlap(calls, t) == maximum
  {
    var events := SortedEvents(calls);
    SortedEventsFacts(calls);
    var k :| 0 <= k <= |events| && Active(events, k) == maximum;
    assert Active(events, k - 1) <= maximum;
    assert events[k - 1] in events;
    ActiveAfterStart(calls, k - 1);
  }

  // ----- what the running total counts

  predicate IsStart(e: Event) { e.delta == 1 }
  predicate IsEnd(e: Event) { e.delta == -1 }

  const AT_START: (int) -> (Event -> bool) := (t: int) => (e: Event) => IsStart(e) && e.time <= t
  const AT_END: (int) -> (Event -> bool) := (t: int) => (e: Event) => IsEnd(e) && e.time <= t

  lemma {:induction false} ActiveCounts(events: seq<Event>, k: nat)
    requires k <= |events| && forall e :: e in events ==> IsStart(e) || IsEnd(e)
    ensures Active(events, k) == Count(events[..k], IsStart) - Count(events[..k], IsEnd)
  {
    if k > 0 {
      ActiveCounts(events, k - 1);
      assert events[..k] == events[..k - 1] + [events[k - 1]];
      CountAppend(events[..k - 1], [events[k - 1]], IsStart);
      CountAppend(events[..k - 1], [events[k - 1]], IsEnd);
      assert events[k - 1] in events;
    }
  }

  lemma {:induction false} CountStarts(calls: seq<Call>, t: int)
    ensures Count(Starts(calls), AT_START(t)) == Count(calls, (c: Call) => c.start <= t)
    ensures Count(Starts(calls), AT_END(t)) == 0
  {
    if calls != [] {
      CountStarts(calls[1..], t);
      assert Starts(calls)[1..] == Starts(calls[1..]);
    }
  }

  lemma {:induction false} CountEnds(calls: seq<Call>, t: int)
    ensures Count(Ends(calls), AT_END(t)) == Count(calls, (c: Call) => c.end <= t)
    ensures Count(Ends(calls), AT_START(t)) == 0
  {
    if calls != [] {
      CountEnds(calls[1..], t);
      assert Ends(calls)[1..] == Ends(calls[1..]);
    }
  }

  lemma {:induction false} OverlapIsDifference(calls: seq<Call>, t: int)
    requires WellTimed(calls)
    ensures Overlap(calls, t)
         == Count(calls, (c: Call) => c.start <= t) - Count(calls, (c: Call) => c.end <= t)
  {
    if calls != [] {
      OverlapIsDifference(calls[1..], t);
    }
  }

  /** Starts up to t minus ends up to t, counted on the sorted events, is the overlap at t. */
  lemma OverlapFromEvents(calls: seq<Call>, t: int)
    requires WellTimed(calls)
    ensures Overlap(calls, t)
         == Count(SortedEvents(calls), AT_START(t)) - Count(SortedEvents(calls), AT_END(t))
  {
    CountSort(Starts(calls) + Ends(calls), EVENT_LE, AT_START(t));
    CountSort(Starts(calls) + Ends(calls), EVENT_LE, AT_END(t));
    CountAppend(Starts(calls), Ends(calls), AT_START(t));
    CountAppend(Starts(calls), Ends(calls), AT_END(t));
    CountStarts(calls, t);
    CountEnds(calls, t);
    OverlapIsDifference(calls, t);
  }

  lemma SortedEventsFacts(calls: seq<Call>)
    ensures Sorted(SortedEvents(calls), EVENT_LE)
    ensures forall e :: e in SortedEvents(calls) ==> IsStart(e) || IsEnd(e)
  {
    SortSorted(Starts(calls) + Ends(calls), EVENT_LE);
    SortKeepsMembers(Starts(calls) + Ends(calls), EVENT_LE);
  }

  /** Right after a start at time t every end up to t has been processed, so the running total
      does not exceed the overlap at t. */
  lemma ActiveAfterStart(calls: seq<Call>, k: nat)
    requires WellTimed(calls) && k < |SortedEvents(calls)| && IsStart(SortedEvents(calls)[k])
    ensures Active(SortedEvents(calls), k + 1) <= Overlap(calls, SortedEvents(calls)[k].time)
  {
    hide Count;
    hide Active;
    hide SortedEvents;
    hide Overlap;
    var events := SortedEvents(calls);
    var t, done, rest := events[k].time, events[..k + 1], events[k + 1..];
    SortedEventsFacts(calls);
    assert events == done + rest;
    ActiveCounts(events, k + 1);
    OverlapFromEvents(calls, t);
    CountAppend(done, rest, AT_START(t));
    CountAppend(done, rest, AT_END(t));
    forall e | e in done ensures e.time <= t {
      var i :| 0 <= i <= k && events[i] == e;
      assert i < k ==> EVENT_LE(events[i], events[k]);
    }
    forall e | e in rest ensures !AT_END(t)(e) {
      var i :| k < i < |events| && events[i] == e;
      assert EVENT_LE(events[k], events[i]);
    }
    CountMonotone(done, IsStart, AT_START(t));
    CountMonotone(done, AT_END(t), IsEnd);
    CountNoneOrAll(rest, AT_END(t));
  }

  /** The events up to time t are a prefix, after which the running total is the overlap at t. */
  lemma EventsUpTo(calls: seq<Call>, t: int) returns (k: nat)
    requires WellTimed(calls)
    ensures k <= |SortedEvents(calls)| && Active(SortedEvents(calls), k) == Overlap(calls, t)
  {
    var events := SortedEvents(calls);
    SortedEventsFacts(calls);
    k := |events|;
    while k > 0 && events[k - 1].time > t
      invariant k <= |events|
      invariant forall i :: k <= i < |events| ==> events[i].time > t
    {
      k := k - 1;
    }
    PrefixCounts(events, k, t);
    ActiveCounts(events, k);
    OverlapFromEvents(calls, t);
  }

  lemma PrefixCounts(events: seq<Event>, k: nat, t: int)
    requires k <= |events| && Sorted(events, EVENT_LE)
    requires k > 0 ==> events[k - 1].time <= t
    requires forall i :: k <= i < |events| ==> events[i].time > t
    ensures Count(events, AT_START(t)) == Count(events[..k], IsStart)
    ensures Count(events, AT_END(t)) == Count(events[..k], IsEnd)
  {
    hide Count;
    hide Sorted;
    var before, after := events[..k], events[k..];
    assert events == before + after;
    BeforeIsEarly(events, k, t);
    AfterIsLate(events, k, t);
    PrefixCount(before, after, AT_START(t), IsStart);
    PrefixCount(before, after, AT_END(t), IsEnd);
  }

  lemma BeforeIsEarly(events: seq<Event>, k: nat, t: int)
    requires k <= |events| && Sorted(events, EVENT_LE)
    requires k > 0 ==> events[k - 1].time <= t
    ensures forall e :: e in events[..k] ==> e.time <= t
  {
    forall e | e in events[..k] ensures e.time <= t {
      var i :| 0 <= i < k && events[i] == e;
      assert i < k - 1 ==> EVENT_LE(events[i], events[k - 1]);
    }
  }

  lemma AfterIsLate(events: seq<Event>, k: nat, t: int)
    requires k <= |events|
    requires forall i :: k <= i < |events| ==> events[i].time > t
    ensures forall e :: e in events[k..] ==> e.time > t
  {
  }

  lemma PrefixCount(before: seq<Event>, after: seq<Event>, p: Event -> bool, q: Event -> bool)
    requires forall e :: e in before ==> (p(e) <==> q(e))
    requires forall e :: e in after ==> !p(e)
    ensures Count(before + after, p) == Count(before, q)
  {
    hide Count;
    CountAppend(before, after, p);
    CountNoneOrAll(after, p);
    CountAgree(before, p, q);
  }
}
