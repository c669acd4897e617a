/** The samples that a streaming plot sink retains and the queries on them by time (ImPlotSink in
    src/ui/blocks/ImPlotSink.hpp, for streaming types). */
module SampleHistory {

  // ---- the clock: which time the next sample gets ----

  /** A tag of the input span; a trigger without a readable time has time 0, and offset 0 likewise. */
  datatype Tag = Tag(relIndex: int, hasTrigger: bool, triggerTime: nat, triggerOffset: real, droppedSamples: bool)

  datatype Clock = Clock(utcOffset: real, initialised: bool, sampleCount: nat)

  datatype Mark = Mark(timestamp: real, tag: Tag, fishy: bool)

  function UtcTime(tag: Tag): real { tag.triggerTime as real + tag.triggerOffset }

  function EventTime(tag: Tag): real { UtcTime(tag) / 1000000000.0 + tag.triggerOffset }

  predicate Accepts(c: Clock, tag: Tag) {
    && tag.hasTrigger
    && (UtcTime(tag) > 0.0 || EventTime(tag) > 0.0)
    && (EventTime(tag) > c.utcOffset || !c.initialised)
  }

  function AfterTag(c: Clock, tag: Tag): Clock {
    if Accepts(c, tag) then Clock(EventTime(tag), true, 0) else c
  }

  /** A trigger sets the clock to the time e in seconds that its nanoseconds and its offset give, if that
      is a time at all and, once the clock runs, a later one; nothing else does. */
  lemma TagSetsClock(c: Clock, tag: Tag, e: real)
    requires (e - tag.triggerOffset) * 1000000000.0 == tag.triggerTime as real + tag.triggerOffset
    ensures AfterTag(c, tag) == c || AfterTag(c, tag) == Clock(e, true, 0)
    ensures AfterTag(c, tag) == Clock(e, true, 0) && Accepts(c, tag) <==>
            && tag.hasTrigger && (tag.triggerTime as real + tag.triggerOffset > 0.0 || e > 0.0)
            && (c.initialised ==> c.utcOffset < e)
    ensures !Accepts(c, tag) ==> AfterTag(c, tag) == c
  {
  }

  /** The first trigger with a time and no offset starts the clock at that time. */
  lemma FirstTrigger(c: Clock, tag: Tag)
    requires !c.initialised && tag.hasTrigger && tag.triggerTime > 0 && tag.triggerOffset == 0.0
    ensures AfterTag(c, tag).initialised && AfterTag(c, tag).sampleCount == 0
    ensures AfterTag(c, tag).utcOffset * 1000000000.0 == tag.triggerTime as real
  {
    TagSetsClock(c, tag, tag.triggerTime as real / 1000000000.0);
  }

  function NextTime(c: Clock, period: real): real {
    c.utcOffset + c.sampleCount as real * period
  }

  /** What is drawn for a tag at the start of the span. */
  function MarksOf(c: Clock, tag: Tag, plotTags: bool, period: real): seq<Mark> {
    var after := AfterTag(c, tag);
    if !plotTags then []
    else (if tag.hasTrigger then [Mark(after.utcOffset, tag, !Accepts(c, tag))] else [])
         + (if tag.droppedSamples then [Mark(NextTime(after, period), tag, false)] else [])
  }

  /** A drawn trigger stands where the clock is after the tag: at its own time e if it set the clock,
      else where the clock was before, and marked. A gap is drawn where the next sample will be. */
  lemma MarksAre(c: Clock, tag: Tag, plotTags: bool, period: real, e: real)
    requires (e - tag.triggerOffset) * 1000000000.0 == tag.triggerTime as real + tag.triggerOffset
    ensures var marks := MarksOf(c, tag, plotTags, period);
      && |marks| == (if plotTags && tag.hasTrigger then 1 else 0) + (if plotTags && tag.droppedSamples then 1 else 0)
      && (forall m :: m in marks ==> m.tag == tag)
      && (plotTags && tag.hasTrigger ==> marks[0].timestamp == if marks[0].fishy then c.utcOffset else e)
      && (plotTags && tag.hasTrigger ==> AfterTag(c, tag) == if marks[0].fishy then c else Clock(e, true, 0))
      && (plotTags && tag.droppedSamples ==>
            var gap := marks[|marks| - 1];
            !gap.fishy && gap.timestamp == AfterTag(c, tag).utcOffset + AfterTag(c, tag).sampleCount as real * period)
  {
    TagSetsClock(c, tag, e);
  }

  /** Only tags at the start of the span count: earlier ones are skipped, the first later one ends the list. */
  function Relevant(tags: seq<Tag>): seq<Tag> {
    if tags == [] || tags[0].relIndex > 0 then []
    else if tags[0].relIndex < 0 then Relevant(tags[1..])
    else [tags[0]] + Relevant(tags[1..])
  }

  /** While no tag is after the start of the span, exactly the tags at the start count, in order; what
      follows a later tag does not count. */
  lemma {:induction false} RelevantAre(tags: seq<Tag>, rest: seq<Tag>)
    requires forall k :: 0 <= k < |tags| ==> tags[k].relIndex <= 0
    ensures Relevant(tags + rest) == Relevant(tags) + Relevant(rest)
    ensures forall t :: t in Relevant(tags) <==> t in tags && t.relIndex == 0
    ensures |Relevant(tags)| <= |tags|
    ensures rest != [] && rest[0].relIndex > 0 ==> Relevant(rest) == []
  {
    if tags == [] {
      assert tags + rest == rest;
    } else {
      RelevantAre(tags[1..], rest);
      assert (tags + rest)[1..] == tags[1..] + rest;
      assert tags == [tags[0]] + tags[1..];
    }
  }

  function AfterTags(c: Clock, tags: seq<Tag>): Clock
    decreases |tags|
  {
    if tags == [] then c else AfterTags(AfterTag(c, tags[0]), tags[1..])
  }

  function MarksOfAll(c: Clock, tags: seq<Tag>, plotTags: bool, period: real): seq<Mark>
    decreases |tags|
  {
    if tags == [] then [] else MarksOf(c, tags[0], plotTags, period) + MarksOfAll(AfterTag(c, tags[0]), tags[1..], plotTags, period)
  }

  /** The accepted event times never go back, and the clock shows the last one. */
  lemma {:induction false} TagsMoveForward(c: Clock, tags: seq<Tag>)
    ensures var r := AfterTags(c, tags);
      && (c.initialised ==> r.initialised && r.utcOffset >= c.utcOffset)
      && (r == c || (r.initialised && r.sampleCount == 0 && exists k :: 0 <= k < |tags| && tags[k].hasTrigger && r.utcOffset == EventTime(tags[k])))
    decreases |tags|
  {
    if tags != [] {
      TagsMoveForward(AfterTag(c, tags[0]), tags[1..]);
      assert forall k :: 0 <= k < |tags| - 1 ==> tags[1..][k] == tags[k + 1];
    }
  }

  // ---- the history ----

  ghost predicate Sorted(x: seq<real>) {
    forall i, j :: 0 <= i < j < |x| ==> x[i] <= x[j]
  }

  /** The newest elements that fit. */
  function Kept<T>(q: seq<T>, capacity: nat): (r: seq<T>) {
    if |q| <= capacity then q else q[|q| - capacity..]
  }

  /** Pushing to a history buffer drops its oldest element when it is full. */
  function PushBack<T>(q: seq<T>, capacity: nat, v: T): seq<T> {
    Kept(q + [v], capacity)
  }

  lemma AllKept<T>(q: seq<T>, capacity: nat)
    requires |q| <= capacity
    ensures Kept(q, capacity) == q
  {
  }

  lemma PushBackKeeps<T>(q: seq<T>, added: seq<T>, v: T, capacity: nat)
    ensures PushBack(Kept(q + added, capacity), capacity, v) == Kept(q + (added + [v]), capacity)
  {
    assert q + (added + [v]) == q + added + [v];
  }

  function Times(c: Clock, period: real, n: nat): (x: seq<real>)
    ensures |x| == n && forall k :: 0 <= k < n ==> x[k] == c.utcOffset + (c.sampleCount + k) as real * period
  {
    seq(n, k requires 0 <= k < n => c.utcOffset + (c.sampleCount + k) as real * period)
  }

  lemma TimesStep(c: Clock, period: real, n: nat)
    ensures Times(c, period, n) + [NextTime(c.(sampleCount := c.sampleCount + n), period)] == Times(c, period, n + 1)
  {
    var next := Times(c, period, n) + [NextTime(c.(sampleCount := c.sampleCount + n), period)];
    forall k | 0 <= k < n + 1
      ensures next[k] == Times(c, period, n + 1)[k]
    {
    }
  }

  lemma Spaced(a: real, i: nat, j: nat, period: real)
    requires i <= j && period > 0.0
    ensures a + i as real * period <= a + j as real * period
  {
    assert (j - i) as real * period >= 0.0;
    assert j as real * period == i as real * period + (j - i) as real * period;
  }

  lemma TimesSorted(c: Clock, period: real, n: nat)
    requires period > 0.0
    ensures Sorted(Times(c, period, n))
  {
    forall i, j | 0 <= i < j < n
      ensures Times(c, period, n)[i] <= Times(c, period, n)[j]
    {
      Spaced(c.utcOffset, c.sampleCount + i, c.sampleCount + j, period);
    }
  }

  /** Two sorted lists, one after the other and cut to the newest, are sorted exactly if they do not step
      back where they meet, or do not meet. */
  lemma AppendSorted(x: seq<real>, added: seq<real>, capacity: nat)
    requires Sorted(x) && Sorted(added) && |x| <= capacity
    ensures Sorted(Kept(x + added, capacity)) <==>
              x == [] || added == [] || |added| >= capacity || x[|x| - 1] <= added[0]
  {
    var all := x + added;
    var kept := Kept(all, capacity);
    var d := |all| - |kept|;
    assert forall i :: 0 <= i < |kept| ==> kept[i] == all[d + i];
    if x != [] && 0 < |added| < capacity {
      assert kept[|x| - 1 - d] == x[|x| - 1] && kept[|x| - d] == added[0];
      if x[|x| - 1] <= added[0] {
        forall i, j | 0 <= i < j < |all|
          ensures all[i] <= all[j]
        {
          if i < |x| <= j {
            assert x[i] <= x[|x| - 1] && added[0] <= added[j - |x|];
          }
        }
      }
    }
  }

  /** One span: the stored times stay sorted exactly when the new ones do not start before the last old
      one, or when they push every old one out. */
  lemma StaysSortedExactlyWhen(x: seq<real>, c: Clock, period: real, n: nat, capacity: nat)
    requires Sorted(x) && period > 0.0 && |x| <= capacity
    ensures Sorted(Kept(x + Times(c, period, n), capacity)) <==>
              x == [] || n == 0 || n >= capacity || x[|x| - 1] <= NextTime(c, period)
  {
    hide Sorted, Kept;
    var added := Times(c, period, n);
    TimesSorted(c, period, n);
    AppendSorted(x, added, capacity);
    assert n > 0 ==> added[0] == NextTime(c, period);
  }

  /** The last stored time belongs to the sample before the next one. */
  ghost predicate Continues(x: seq<real>, c: Clock, period: real) {
    c.sampleCount > 0 && x != [] ==> x[|x| - 1] == c.utcOffset + (c.sampleCount - 1) as real * period
  }

  /** Without an accepted trigger the times always go on in order. */
  lemma GoesOn(x: seq<real>, c: Clock, period: real)
    requires Continues(x, c, period) && period > 0.0 && c.sampleCount > 0 && x != []
    ensures x[|x| - 1] <= NextTime(c, period)
  {
    Spaced(c.utcOffset, c.sampleCount - 1, c.sampleCount, period);
  }

  // ---- whole runs ----

  datatype Span = Span(tags: seq<Tag>, samples: seq<real>)

  function AfterSpan(c: Clock, span: Span): Clock {
    var t := AfterTags(c, Relevant(span.tags));
    t.(sampleCount := t.sampleCount + |span.samples|)
  }

  function SpanTimes(c: Clock, period: real, span: Span): (x: seq<real>)
    ensures |x| == |span.samples|
  {
    Times(AfterTags(c, Relevant(span.tags)), period, |span.samples|)
  }

  function AllTimes(c: Clock, period: real, spans: seq<Span>): seq<real>
    decreases |spans|
  {
    if spans == [] then [] else SpanTimes(c, period, spans[0]) + AllTimes(AfterSpan(c, spans[0]), period, spans[1..])
  }

  function AllSamples(spans: seq<Span>): seq<real> {
    if spans == [] then [] else spans[0].samples + AllSamples(spans[1..])
  }

  /** Times and samples stay aligned: one time per sample. */
  lemma {:induction false} Aligned(c: Clock, period: real, spans: seq<Span>)
    ensures |AllTimes(c, period, spans)| == |AllSamples(spans)|
    decreases |spans|
  {
    if spans != [] {
      Aligned(AfterSpan(c, spans[0]), period, spans[1..]);
    }
  }

  /** No span with samples starts before the last time of the spans before it. */
  ghost predicate NoStepBack(before: seq<real>, c: Clock, period: real, spans: seq<Span>)
    decreases |spans|
  {
    spans != [] ==>
      && (before != [] && spans[0].samples != [] ==> before[|before| - 1] <= NextTime(AfterTags(c, Relevant(spans[0].tags)), period))
      && NoStepBack(before + SpanTimes(c, period, spans[0]), AfterSpan(c, spans[0]), period, spans[1..])
  }

  lemma SortedPrefix(a: seq<real>, b: seq<real>)
    requires Sorted(a + b)
    ensures Sorted(a)
  {
    forall i, j | 0 <= i < j < |a|
      ensures a[i] <= a[j]
    {
      assert (a + b)[i] <= (a + b)[j];
    }
  }

  /** Over any run the times are sorted exactly when no span steps back. */
  lemma {:induction false} SortedExactlyWhen(before: seq<real>, c: Clock, period: real, spans: seq<Span>)
    requires Sorted(before) && period > 0.0
    ensures Sorted(before + AllTimes(c, period, spans)) <==> NoStepBack(before, c, period, spans)
    decreases |spans|
  {
    if spans == [] {
      assert before + [] == before;
    } else {
      var t, n := AfterTags(c, Relevant(spans[0].tags)), |spans[0].samples|;
      var next := before + SpanTimes(c, period, spans[0]);
      StaysSortedExactlyWhen(before, t, period, n, |before| + n + 1);
      assert before + AllTimes(c, period, spans) == next + AllTimes(AfterSpan(c, spans[0]), period, spans[1..]);
      if Sorted(next) {
        SortedExactlyWhen(next, AfterSpan(c, spans[0]), period, spans[1..]);
      } else if Sorted(before + AllTimes(c, period, spans)) {
        SortedPrefix(next, AllTimes(AfterSpan(c, spans[0]), period, spans[1..]));
      }
    }
  }

  /** No accepted trigger is before the last time of the spans before it. */
  ghost predicate TriggersForward(before: seq<real>, c: Clock, period: real, spans: seq<Span>)
    decreases |spans|
  {
    spans != [] ==>
      var t := AfterTags(c, Relevant(spans[0].tags));
      && (t != c && before != [] ==> before[|before| - 1] <= t.utcOffset)
      && TriggersForward(before + SpanTimes(c, period, spans[0]), AfterSpan(c, spans[0]), period, spans[1..])
  }

  lemma TimesEnd(t: Clock, period: real, n: nat)
    requires n > 0 && period > 0.0
    ensures Times(t, period, n)[n - 1] <= NextTime(t.(sampleCount := t.sampleCount + n), period)
  {
    Spaced(t.utcOffset, t.sampleCount + n - 1, t.sampleCount + n, period);
  }

  lemma ClockSame(c: Clock, t: Clock, period: real, x: real)
    requires (t == c && x <= NextTime(c, period)) || (t.sampleCount == 0 && x <= t.utcOffset)
    ensures x <= NextTime(t, period)
  {
  }

  /** It is enough to look at the triggers: if none goes back behind a stored time, no span steps back. */
  lemma {:induction false} TriggersForwardIsEnough(before: seq<real>, c: Clock, period: real, spans: seq<Span>)
    requires period > 0.0 && TriggersForward(before, c, period, spans)
    requires before != [] ==> before[|before| - 1] <= NextTime(c, period)
    ensures NoStepBack(before, c, period, spans)
    decreases |spans|
  {
    hide NextTime;
    if spans != [] {
      var t, n := AfterTags(c, Relevant(spans[0].tags)), |spans[0].samples|;
      TagsMoveForward(c, Relevant(spans[0].tags));
      if before != [] { ClockSame(c, t, period, before[|before| - 1]); }
      var next := before + SpanTimes(c, period, spans[0]);
      if n > 0 {
        assert next[|next| - 1] == Times(t, period, n)[n - 1];
        TimesEnd(t, period, n);
      } else {
        assert next == before;
      }
      TriggersForwardIsEnough(next, AfterSpan(c, spans[0]), period, spans[1..]);
    }
  }

  lemma KeptSorted(x: seq<real>, capacity: nat)
    requires Sorted(x)
    ensures Sorted(Kept(x, capacity))
  {
  }

  lemma NothingKept<T>(capacity: nat)
    ensures Kept<T>([], capacity) == []
  {
  }

  lemma NothingSorted()
    ensures Sorted([])
  {
  }

  lemma RunStep(c: Clock, period: real, spans: seq<Span>, i: nat, times: seq<real>, samples: seq<real>)
    requires i < |spans|
    ensures times + AllTimes(c, period, spans[i..]) ==
            times + SpanTimes(c, period, spans[i]) + AllTimes(AfterSpan(c, spans[i]), period, spans[i + 1..])
    ensures samples + AllSamples(spans[i..]) == samples + spans[i].samples + AllSamples(spans[i + 1..])
  {
    assert spans[i..][0] == spans[i] && spans[i..][1..] == spans[i + 1..];
  }

  // ---- queries ----

  /** A bound of a query; the defaults are the infinities. */
  datatype Bound = NegInfinity | At(t: real) | PosInfinity

  predicate Less(a: Bound, b: Bound) {
    match (a, b)
    case (At(s), At(t)) => s < t
    case (NegInfinity, NegInfinity) => false
    case (NegInfinity, _) => true
    case (At(_), PosInfinity) => true
    case _ => false
  }

  predicate InRange(t: real, tMin: Bound, tMax: Bound) {
    !Less(At(t), tMin) && !Less(tMax, At(t))
  }

  /** The linear filter: the values whose time is in the range. */
  function Filter<T>(x: seq<real>, values: seq<T>, tMin: Bound, tMax: Bound): seq<T>
    requires |x| == |values|
  {
    if x == [] then []
    else
      var n := |x| - 1;
      Filter(x[..n], values[..n], tMin, tMax) + if InRange(x[n], tMin, tMax) then [values[n]] else []
  }

  lemma {:induction false} FilterIsSlice<T>(x: seq<real>, values: seq<T>, tMin: Bound, tMax: Bound, begin: nat,
                                            end: nat)
    requires |x| == |values| && begin <= end <= |x|
    requires forall i :: 0 <= i < |x| ==> (InRange(x[i], tMin, tMax) <==> begin <= i < end)
    ensures Filter(x, values, tMin, tMax) == values[begin..end]
  {
    hide InRange;
    if x != [] {
      var n := |x| - 1;
      var e := if end <= n then end else n;
      var b := if begin <= e then begin else e;
      FilterIsSlice(x[..n], values[..n], tMin, tMax, b, e);
      SliceOfPrefix(values, n, b, e);
      if begin <= n < end {
        SliceGrows(values, begin, n);
        assert InRange(x[n], tMin, tMax);
      } else {
        assert !InRange(x[n], tMin, tMax);
        assert values[b..e] + [] == values[begin..end];
      }
    }
  }

  lemma SliceOfPrefix<T>(s: seq<T>, n: nat, b: nat, e: nat)
    requires b <= e <= n <= |s|
    ensures s[..n][b..e] == s[b..e]
  {
  }

  lemma SliceGrows<T>(s: seq<T>, b: nat, n: nat)
    requires b <= n < |s|
    ensures s[b..n] + [s[n]] == s[b..n + 1]
  {
  }

  /** std::lower_bound: the first time that is not below the bound. */
  method LowerBound(x: seq<real>, bound: Bound) returns (i: nat)
    requires Sorted(x)
    ensures i <= |x|
    ensures forall k :: 0 <= k < |x| ==> (Less(At(x[k]), bound) <==> k < i)
  {
    i := 0;
    var hi := |x|;
    while i < hi
      invariant 0 <= i <= hi <= |x|
      invariant forall k :: 0 <= k < i ==> Less(At(x[k]), bound)
      invariant forall k :: hi <= k < |x| ==> !Less(At(x[k]), bound)
    {
      var mid := (i + hi) / 2;
      if Less(At(x[mid]), bound) {
        i := mid + 1;
      } else {
        hi := mid;
      }
    }
  }

  /** std::upper_bound: the first time above the bound. */
  method UpperBound(x: seq<real>, bound: Bound) returns (i: nat)
    requires Sorted(x)
    ensures i <= |x|
    ensures forall k :: 0 <= k < |x| ==> (Less(bound, At(x[k])) <==> i <= k)
  {
    i := 0;
    var hi := |x|;
    while i < hi
      invariant 0 <= i <= hi <= |x|
      invariant forall k :: 0 <= k < i ==> !Less(bound, At(x[k]))
      invariant forall k :: hi <= k < |x| ==> Less(bound, At(x[k]))
    {
      var mid := (i + hi) / 2;
      if !Less(bound, At(x[mid])) {
        i := mid + 1;
      } else {
        hi := mid;
      }
    }
  }

  class Sink {
    const period: real
    const plotTags: bool
    var capacity: nat
    var xValues: seq<real>  // oldest first
    var yValues: seq<real>
    var utcOffset: real
    var utcOffsetInitialised: bool
    var sampleCount: nat
    var tagValues: seq<Mark>

    function Now(): Clock
      reads this
    {
      Clock(utcOffset, utcOffsetInitialised, sampleCount)
    }

    ghost predicate Valid()
      reads this
    {
      && period > 0.0
      && |xValues| == |yValues| <= capacity && capacity > 0
      && Continues(xValues, Now(), period)
    }

    constructor (capacity: nat, period: real, plotTags: bool, now: real)
      requires capacity > 0 && period > 0.0
      ensures Valid() && xValues == [] && yValues == [] && tagValues == [] && Now() == Clock(now, false, 0)
      ensures this.capacity == capacity && this.period == period && this.plotTags == plotTags
    {
      this.capacity, this.period, this.plotTags := capacity, period, plotTags;
      xValues, yValues, tagValues := [], [], [];
      utcOffset, utcOffsetInitialised, sampleCount := now, false, 0;
    }

    /** The tags of a span. */
    method ProcessTags(tags: seq<Tag>)
      modifies `utcOffset, `utcOffsetInitialised, `sampleCount, `tagValues
      ensures Now() == AfterTags(old(Now()), Relevant(tags))
      ensures tagValues == old(tagValues) + MarksOfAll(old(Now()), Relevant(tags), plotTags, period)
    {
      for i := 0 to |tags|
        invariant AfterTags(old(Now()), Relevant(tags)) == AfterTags(Now(), Relevant(tags[i..]))
        invariant old(tagValues) + MarksOfAll(old(Now()), Relevant(tags), plotTags, period) ==
                  tagValues + MarksOfAll(Now(), Relevant(tags[i..]), plotTags, period)
      {
        var tag := tags[i];
        if tag.relIndex < 0 {
          continue;
        }
        if tag.relIndex > 0 {
          break;
        }
        ProcessTag(tag);
      }
    }

    method ProcessTag(tag: Tag)
      modifies `utcOffset, `utcOffsetInitialised, `sampleCount, `tagValues
      ensures Now() == AfterTag(old(Now()), tag)
      ensures tagValues == old(tagValues) + MarksOf(old(Now()), tag, plotTags, period)
    {
      if tag.hasTrigger {
        var utcTime := tag.triggerTime as real + tag.triggerOffset;
        var tagEventTime := utcTime / 1000000000.0 + tag.triggerOffset;
        var tagOK := true;
        if (utcTime > 0.0 || tagEventTime > 0.0) && (tagEventTime > utcOffset || !utcOffsetInitialised) {
          utcOffset, sampleCount, utcOffsetInitialised := tagEventTime, 0, true;
        } else {
          tagOK := false;
        }
        if plotTags {
          tagValues := tagValues + [Mark(utcOffset, tag, !tagOK)];
        }
      }
      ghost var c, after := old(Now()), Now();
      assert after == AfterTag(c, tag);
      ghost var trigger := if plotTags && tag.hasTrigger then [Mark(utcOffset, tag, !Accepts(c, tag))] else [];
      assert tagValues == old(tagValues) + trigger;
      if plotTags && tag.droppedSamples {
        ghost var dropped := [Mark(NextTime(after, period), tag, false)];
        assert old(tagValues) + trigger + dropped == old(tagValues) + (trigger + dropped);
        var t := utcOffset + sampleCount as real * period;
        assert t == NextTime(after, period);
        tagValues := tagValues + [Mark(t, tag, false)];
        assert [Mark(t, tag, false)] == dropped;
        assert tagValues == old(tagValues) + trigger + dropped;
        assert trigger + dropped == MarksOf(c, tag, plotTags, period);
      } else {
        assert trigger == MarksOf(c, tag, plotTags, period);
      }
    }

    /** The new times go behind the old ones, the samples behind the old samples, and both drop the oldest.
        The times stay sorted exactly when they do not step back over what is still stored. */
    method ProcessBulk(span: Span)
      requires Valid()
      modifies this
      ensures Valid() && capacity == old(capacity) && Now() == AfterSpan(old(Now()), span)
      ensures xValues == Kept(old(xValues) + SpanTimes(old(Now()), period, span), capacity)
      ensures yValues == Kept(old(yValues) + span.samples, capacity)
      ensures tagValues == old(tagValues) + MarksOfAll(old(Now()), Relevant(span.tags), plotTags, period)
      ensures Sorted(old(xValues)) ==>
                (Sorted(xValues) <==>
                 || old(xValues) == [] || span.samples == [] || |span.samples| >= capacity
                 || old(xValues)[|old(xValues)| - 1] <= NextTime(AfterTags(old(Now()), Relevant(span.tags)), period))
    {
      hide Sorted, Kept, MarksOfAll, AfterTags, Relevant, NextTime;
      ProcessTags(span.tags);
      TagsMoveForward(old(Now()), Relevant(span.tags));
      ghost var c := Now();
      ProcessSamples(span.samples);
      if Sorted(old(xValues)) {
        StaysSortedExactlyWhen(old(xValues), c, period, |span.samples|, capacity);
      }
    }

    method ProcessSamples(samples: seq<real>)
      requires Valid()
      modifies `xValues, `yValues, `sampleCount
      ensures Valid() && Now() == old(Now()).(sampleCount := old(sampleCount) + |samples|)
      ensures xValues == Kept(old(xValues) + Times(old(Now()), period, |samples|), capacity)
      ensures yValues == Kept(old(yValues) + samples, capacity)
    {
      hide Kept, PushBack, Continues;
      ghost var c := Now();
      assert Times(c, period, 0) == [] && samples[..0] == [];
      assert old(xValues) + [] == old(xValues) && old(yValues) + [] == old(yValues);
      AllKept(xValues, capacity);
      AllKept(yValues, capacity);
      for k := 0 to |samples|
        invariant Valid() && Now() == c.(sampleCount := c.sampleCount + k)
        invariant xValues == Kept(old(xValues) + Times(c, period, k), capacity)
        invariant yValues == Kept(old(yValues) + samples[..k], capacity)
      {
        var t := utcOffset + sampleCount as real * period;
        TimesStep(c, period, k);
        assert samples[..k] + [samples[k]] == samples[..k + 1];
        PushBackKeeps(old(xValues), Times(c, period, k), t, capacity);
        PushBackKeeps(old(yValues), samples[..k], samples[k], capacity);
        Push(t, samples[k]);
      }
      assert samples[..|samples|] == samples;
    }

    method Push(t: real, sample: real)
      requires Valid() && t == NextTime(Now(), period)
      modifies `xValues, `yValues, `sampleCount
      ensures Valid() && sampleCount == old(sampleCount) + 1
      ensures xValues == PushBack(old(xValues), capacity, t) && yValues == PushBack(old(yValues), capacity, sample)
    {
      xValues := PushBack(xValues, capacity, t);
      yValues := PushBack(yValues, capacity, sample);
      sampleCount := sampleCount + 1;
    }

    /** Over any run the sink holds the newest times and samples, aligned; and they are sorted if no span
        steps back. */
    method Run(spans: seq<Span>)
      requires Valid() && xValues == [] && yValues == []
      modifies this
      ensures Valid() && capacity == old(capacity)
      ensures xValues == Kept(AllTimes(old(Now()), period, spans), capacity)
      ensures yValues == Kept(AllSamples(spans), capacity)
      ensures NoStepBack([], old(Now()), period, spans) ==> Sorted(xValues)
      ensures TriggersForward([], old(Now()), period, spans) ==> Sorted(xValues)
    {
      hide Kept, SpanTimes, Sorted;
      ghost var c := Now();
      ghost var times: seq<real>, samples: seq<real> := [], [];
      NothingKept<real>(capacity);
      for i := 0 to |spans|
        invariant Valid() && capacity == old(capacity)
        invariant times + AllTimes(Now(), period, spans[i..]) == AllTimes(c, period, spans)
        invariant samples + AllSamples(spans[i..]) == AllSamples(spans)
        invariant xValues == Kept(times, capacity) && yValues == Kept(samples, capacity)
      {
        ghost var before := Now();
        KeptKept(times, SpanTimes(before, period, spans[i]), capacity);
        KeptKept(samples, spans[i].samples, capacity);
        RunStep(before, period, spans, i, times, samples);
        ProcessBulk(spans[i]);
        times := times + SpanTimes(before, period, spans[i]);
        samples := samples + spans[i].samples;
      }
      assert times + [] == times && samples + [] == samples;
      NothingSorted();
      SortedExactlyWhen([], c, period, spans);
      assert [] + times == times;
      if TriggersForward([], c, period, spans) {
        TriggersForwardIsEnough([], c, period, spans);
      }
      if Sorted(times) {
        KeptSorted(times, capacity);
      }
    }

    /** The index range of the times in [tMin, tMax]. */
    method GetXRange(tMin: Bound, tMax: Bound) returns (startIdx: nat, count: nat)
      requires Valid() && Sorted(xValues)
      ensures startIdx + count <= |xValues| && (count == 0 ==> startIdx == 0)
      ensures xValues[startIdx..startIdx + count] == Filter(xValues, xValues, tMin, tMax)
      ensures yValues[startIdx..startIdx + count] == Filter(xValues, yValues, tMin, tMax)
    {
      hide Filter, InRange;
      if xValues == [] {
        Selected(xValues, yValues, tMin, tMax, 0, 0);
        return 0, 0;
      }
      var begin := LowerBound(xValues, tMin);
      var end := UpperBound(xValues, tMax);
      Selected(xValues, yValues, tMin, tMax, begin, end);
      if begin >= end {
        return 0, 0;
      }
      return begin, end - begin;
    }

    /** The times in [tMin, tMax], from startIdx on, with the first and the last of them; without any, the
        limits of what is stored. */
    method GetX(tMin: Bound, tMax: Bound) returns (data: seq<real>, actualMin: real, actualMax: real, startIdx: nat)
      requires Valid() && Sorted(xValues)
      ensures data == Filter(xValues, xValues, tMin, tMax)
      ensures startIdx + |data| <= |xValues| && data == xValues[startIdx..startIdx + |data|]
      ensures yValues[startIdx..startIdx + |data|] == Filter(xValues, yValues, tMin, tMax)
      ensures data != [] ==> actualMin == data[0] && actualMax == data[|data| - 1]
      ensures data == [] && xValues != [] ==> actualMin == xValues[0] && actualMax == xValues[|xValues| - 1]
      ensures xValues == [] ==> actualMin == actualMax == 0.0
    {
      hide Filter, InRange;
      if xValues == [] {
        Selected(xValues, yValues, tMin, tMax, 0, 0);
        return [], 0.0, 0.0, 0;
      }
      var dataMin, dataMax := xValues[0], xValues[|xValues| - 1];
      var effectiveMin := if Less(tMin, At(dataMin)) then At(dataMin) else tMin;
      var effectiveMax := if Less(At(dataMax), tMax) then At(dataMax) else tMax;
      var begin := LowerBound(xValues, effectiveMin);
      var end := UpperBound(xValues, effectiveMax);
      ClampedBounds(xValues, tMin, effectiveMin, tMax, effectiveMax, begin, end);
      Selected(xValues, yValues, tMin, tMax, begin, end);
      if Less(effectiveMax, effectiveMin) || begin >= end {
        return [], dataMin, dataMax, 0;
      }
      return xValues[begin..end], xValues[begin], xValues[end - 1], begin;
    }

    /** The samples whose time is in [tMin, tMax]. */
    method GetY(tMin: Bound, tMax: Bound) returns (data: seq<real>, actualMin: real, actualMax: real)
      requires Valid() && Sorted(xValues)
      ensures data == Filter(xValues, yValues, tMin, tMax)
      ensures var times := Filter(xValues, xValues, tMin, tMax);
        && |data| == |times|
        && (times != [] ==> actualMin == times[0] && actualMax == times[|times| - 1])
        && (times == [] && xValues != [] ==> actualMin == xValues[0] && actualMax == xValues[|xValues| - 1])
        && (xValues == [] ==> actualMin == actualMax == 0.0)
    {
      if yValues == [] || xValues == [] {
        return [], 0.0, 0.0;
      }
      var x, lo, hi, startIdx := GetX(tMin, tMax);
      if x == [] {
        return [], lo, hi;
      }
      return yValues[startIdx..startIdx + |x|], lo, hi;
    }
  }

  /** Where the binary searches end, the linear filter selects just what is between them. */
  lemma Selected(x: seq<real>, y: seq<real>, tMin: Bound, tMax: Bound, begin: nat, end: nat)
    requires |x| == |y| && begin <= |x| && end <= |x|
    requires forall k :: 0 <= k < |x| ==> (Less(At(x[k]), tMin) <==> k < begin)
    requires forall k :: 0 <= k < |x| ==> (Less(tMax, At(x[k])) <==> end <= k)
    ensures var e := if begin <= end then end else begin;
      Filter(x, x, tMin, tMax) == x[begin..e] && Filter(x, y, tMin, tMax) == y[begin..e]
  {
    var e := if begin <= end then end else begin;
    FilterIsSlice(x, x, tMin, tMax, begin, e);
    FilterIsSlice(x, y, tMin, tMax, begin, e);
  }

  /** Limiting the bounds to what is stored selects the same; limits that cross select nothing. */
  lemma ClampedBounds(x: seq<real>, tMin: Bound, effectiveMin: Bound, tMax: Bound, effectiveMax: Bound, begin: nat,
                      end: nat)
    requires Sorted(x) && x != [] && begin <= |x| && end <= |x|
    requires effectiveMin == (if Less(tMin, At(x[0])) then At(x[0]) else tMin)
    requires effectiveMax == (if Less(At(x[|x| - 1]), tMax) then At(x[|x| - 1]) else tMax)
    requires forall k :: 0 <= k < |x| ==> (Less(At(x[k]), effectiveMin) <==> k < begin)
    requires forall k :: 0 <= k < |x| ==> (Less(effectiveMax, At(x[k])) <==> end <= k)
    ensures forall k :: 0 <= k < |x| ==> (Less(At(x[k]), tMin) <==> k < begin)
    ensures forall k :: 0 <= k < |x| ==> (Less(tMax, At(x[k])) <==> end <= k)
    ensures Less(effectiveMax, effectiveMin) ==> begin >= end
  {
    if Less(effectiveMax, effectiveMin) && begin < |x| {
      NotBetween(x[begin], effectiveMin, effectiveMax);
    }
  }

  lemma NotBetween(t: real, lo: Bound, hi: Bound)
    requires Less(hi, lo)
    ensures Less(At(t), lo) || Less(hi, At(t))
  {
  }

  lemma KeptKept<T>(q: seq<T>, added: seq<T>, capacity: nat)
    ensures Kept(Kept(q, capacity) + added, capacity) == Kept(q + added, capacity)
  {
  }
}
