/** The timing state that a streaming poller keeps from the tags of its stream (TimingEventState in
    src/service/gnuradio/GnuRadioAcquisitionWorker.hpp). */
module TimingEventState {
  import opened Shared

  datatype Value = Number(n: int) | Text(s: string) | Map(fields: PropertyMap) | Other

  type PropertyMap = map<string, Value>

  const CMD_BP_START := 256
  const CONTEXT := "context"
  const TRIGGER_META_INFO := "trigger_meta_info"
  const TRIGGER_TIME := "trigger_time"

  /** There is a number at the key that fits into the type. */
  predicate HasNumber(m: PropertyMap, key: string, lo: int, hi: int, n: int) {
    key in m && m[key] == Number(n) && lo <= n < hi
  }

  /** The number at a key, if it is there and fits into the type. */
  function GetNumber(m: PropertyMap, key: string, lo: int, hi: int): (r: Option<int>)
    ensures forall n :: HasNumber(m, key, lo, hi, n) <==> r == Some(n)
  {
    if key in m && m[key].Number? && lo <= m[key].n < hi then Some(m[key].n) else None
  }

  function GetInt(m: PropertyMap, key: string): Option<int> {
    GetNumber(m, key, -0x8000_0000, 0x8000_0000)
  }

  /** The signed 64-bit number that is congruent to an unsigned one. */
  predicate IsSigned(i: int, u: int) {
    -0x8000_0000_0000_0000 <= i < 0x8000_0000_0000_0000 && (i - u) % 0x1_0000_0000_0000_0000 == 0
  }

  /** An unsigned 64-bit time cast to a signed one. */
  function ToInt64(u: int): (i: int)
    requires 0 <= u < 0x1_0000_0000_0000_0000
    ensures -0x8000_0000_0000_0000 <= i < 0x8000_0000_0000_0000
  {
    if u < 0x8000_0000_0000_0000 then u else u - 0x1_0000_0000_0000_0000
  }

  /** The cast keeps the number modulo 2^64, and so below 2^63 the number itself. */
  lemma ToInt64Is(u: int)
    requires 0 <= u < 0x1_0000_0000_0000_0000
    ensures IsSigned(ToInt64(u), u)
    ensures if u < 0x8000_0000_0000_0000 then ToInt64(u) == u else ToInt64(u) < 0
  {
  }

  predicate StartsWith(s: string, prefix: string) {
    |prefix| <= |s| && s[..|prefix|] == prefix
  }

  predicate HasFairTimingContext(tag: PropertyMap) {
    CONTEXT in tag && tag[CONTEXT].Text? && StartsWith(tag[CONTEXT].s, "FAIR-TIMING:")
  }

  predicate IsFairTimingTag(tag: PropertyMap, meta: PropertyMap) {
    HasFairTimingContext(tag) || ("BPCID" in meta && "SID" in meta && "BPID" in meta && "GID" in meta)
  }

  /** A timing tag names its context, or all four numbers. */
  lemma FairTimingIs(tag: PropertyMap, meta: PropertyMap)
    ensures IsFairTimingTag(tag, meta) <==>
            || {"BPCID", "SID", "BPID", "GID"} <= meta.Keys
            || (exists rest: string :: CONTEXT in tag && tag[CONTEXT] == Text("FAIR-TIMING:" + rest))
  {
    if HasFairTimingContext(tag) {
      var s, prefix := tag[CONTEXT].s, "FAIR-TIMING:";
      assert s == prefix + s[|prefix|..];
    }
    if rest: string :| CONTEXT in tag && tag[CONTEXT] == Text("FAIR-TIMING:" + rest) {
      assert StartsWith("FAIR-TIMING:" + rest, "FAIR-TIMING:");
    }
  }

  /** What can be read off a timing tag: a time and an event number. */
  ghost predicate Reads(tag: PropertyMap, time: int, event: int) {
    && TRIGGER_META_INFO in tag && tag[TRIGGER_META_INFO].Map?
    && var meta := tag[TRIGGER_META_INFO].fields;
       && ({"BPCID", "SID", "BPID", "GID"} <= meta.Keys
           || exists rest: string :: CONTEXT in tag && tag[CONTEXT] == Text("FAIR-TIMING:" + rest))
       && HasNumber(tag, TRIGGER_TIME, 0, 0x1_0000_0000_0000_0000, time)
       && HasNumber(meta, "EVENT-NO", -0x8000_0000, 0x8000_0000, event)
  }

  /** ... and for event 256 the process, the sequence, the chain and the timing group. */
  ghost predicate ReadsAll(tag: PropertyMap, time: int, process: int, sequence: int, chain: int, group: int) {
    && Reads(tag, time, 256)
    && var meta := tag[TRIGGER_META_INFO].fields;
       && HasNumber(meta, "BPID", -0x8000_0000, 0x8000_0000, process)
       && HasNumber(meta, "SID", -0x8000_0000, 0x8000_0000, sequence)
       && HasNumber(meta, "BPCID", -0x8000_0000, 0x8000_0000, chain)
       && HasNumber(meta, "GID", -0x8000_0000, 0x8000_0000, group)
  }

  // ---- what a tag says ----

  datatype Kind = Chain | Sequence | Process

  function Key(kind: Kind): string {
    match kind case Chain => "BPCID" case Sequence => "SID" case Process => "BPID"
  }

  /** A timing tag with a time and an event number; the others are ignored. */
  ghost predicate Accepted(tag: PropertyMap) {
    && TRIGGER_META_INFO in tag && tag[TRIGGER_META_INFO].Map?
    && IsFairTimingTag(tag, tag[TRIGGER_META_INFO].fields)
    && GetNumber(tag, TRIGGER_TIME, 0, 0x1_0000_0000_0000_0000).Some?
    && GetInt(tag[TRIGGER_META_INFO].fields, "EVENT-NO").Some?
  }

  ghost function Time(tag: PropertyMap): int
    requires Accepted(tag)
  {
    ToInt64(GetNumber(tag, TRIGGER_TIME, 0, 0x1_0000_0000_0000_0000).value)
  }

  ghost function Event(tag: PropertyMap): int
    requires Accepted(tag)
  {
    GetInt(tag[TRIGGER_META_INFO].fields, "EVENT-NO").value
  }

  ghost function Field(tag: PropertyMap, key: string): Option<int>
    requires Accepted(tag)
  {
    GetInt(tag[TRIGGER_META_INFO].fields, key)
  }

  /** An accepted CMD_BP_START with all four numbers. */
  ghost predicate Complete(tag: PropertyMap) {
    && Accepted(tag) && Event(tag) == CMD_BP_START
    && Field(tag, "BPID").Some? && Field(tag, "SID").Some? && Field(tag, "BPCID").Some? && Field(tag, "GID").Some?
  }

  /** The accepted tags are those that can be read; their time is the number in the tag as a signed one. */
  lemma AcceptedIs(tag: PropertyMap, time: int, event: int)
    ensures Reads(tag, time, event) <==> Accepted(tag) && tag[TRIGGER_TIME] == Number(time) && Event(tag) == event
    ensures Reads(tag, time, event) ==> IsSigned(Time(tag), time) && (if time < 0x8000_0000_0000_0000 then Time(tag) == time else Time(tag) < 0)
  {
    hide IsFairTimingTag, ToInt64;
    if TRIGGER_META_INFO in tag && tag[TRIGGER_META_INFO].Map? {
      FairTimingIs(tag, tag[TRIGGER_META_INFO].fields);
    }
    if Reads(tag, time, event) {
      ToInt64Is(time);
    }
  }

  lemma CompleteIs(tag: PropertyMap, time: int, process: int, sequence: int, chain: int, group: int)
    ensures ReadsAll(tag, time, process, sequence, chain, group) <==>
            && Complete(tag) && tag[TRIGGER_TIME] == Number(time)
            && Field(tag, Key(Process)) == Some(process) && Field(tag, Key(Sequence)) == Some(sequence)
            && Field(tag, Key(Chain)) == Some(chain) && Field(tag, "GID") == Some(group)
  {
    hide GetNumber, Accepted, Reads;
    AcceptedIs(tag, time, 256);
  }

  // ---- what a stream of tags says ----

  /** The last accepted tag, the last complete one. */
  ghost function LastAccepted(tags: seq<PropertyMap>): Option<PropertyMap> {
    if tags == [] then None
    else if Accepted(tags[|tags| - 1]) then Some(tags[|tags| - 1]) else LastAccepted(tags[..|tags| - 1])
  }

  ghost function LastComplete(tags: seq<PropertyMap>): Option<PropertyMap> {
    if tags == [] then None
    else if Complete(tags[|tags| - 1]) then Some(tags[|tags| - 1]) else LastComplete(tags[..|tags| - 1])
  }

  /** An index from a time on. */
  datatype Point = Point(index: int, time: int)

  /** The indices of a kind over time: one point per complete tag; before them the default 0 if the first
      accepted tag was not complete. */
  ghost function Points(tags: seq<PropertyMap>, kind: Kind): seq<Point> {
    if tags == [] then []
    else
      var front, last := tags[..|tags| - 1], tags[|tags| - 1];
      if Complete(last) then
        Points(front, kind) + [Point(Field(last, Key(kind)).value, Time(last))]
      else if Accepted(last) && LastAccepted(front).None? then [Point(0, 0)]
      else Points(front, kind)
  }

  /** Where the last run of equal indices begins. */
  ghost function RunBegin(points: seq<Point>): (s: nat)
    requires points != []
    ensures s < |points| && (forall k :: s <= k < |points| ==> points[k].index == points[|points| - 1].index)
    ensures s == 0 || points[s - 1].index != points[s].index
  {
    var n := |points| - 1;
    if n == 0 || points[n - 1].index != points[n].index then n else RunBegin(points[..n])
  }

  ghost function CurrentIndex(points: seq<Point>): int {
    if points == [] then 0 else points[|points| - 1].index
  }

  ghost function StartStamp(points: seq<Point>): int {
    if points == [] then 0 else points[RunBegin(points)].time
  }

  lemma {:induction false} PointsEmpty(tags: seq<PropertyMap>, kind: Kind)
    ensures Points(tags, kind) == [] <==> LastAccepted(tags).None?
    ensures LastAccepted(tags).None? ==> LastComplete(tags).None?
  {
    if tags != [] {
      PointsEmpty(tags[..|tags| - 1], kind);
    }
  }

  /** A new point keeps the stamp exactly when it repeats the index. */
  lemma NextPoint(points: seq<Point>, p: Point)
    ensures CurrentIndex(points + [p]) == p.index
    ensures StartStamp(points + [p]) ==
            if points != [] && CurrentIndex(points) == p.index then StartStamp(points) else p.time
  {
    assert (points + [p])[..|points|] == points;
  }

  /** Every later point is not before an earlier one. */
  ghost predicate InOrder(tags: seq<PropertyMap>) {
    forall i, j :: 0 <= i < j < |tags| && Accepted(tags[i]) && Accepted(tags[j]) ==> Time(tags[i]) <= Time(tags[j])
  }

  lemma {:induction false} LastAcceptedIs(tags: seq<PropertyMap>)
    ensures LastAccepted(tags).Some? ==> LastAccepted(tags).value in tags && Accepted(LastAccepted(tags).value)
    ensures LastAccepted(tags).Some? && InOrder(tags) ==>
              forall i :: 0 <= i < |tags| && Accepted(tags[i]) ==> Time(tags[i]) <= Time(LastAccepted(tags).value)
    ensures LastAccepted(tags).None? ==> forall i :: 0 <= i < |tags| ==> !Accepted(tags[i])
  {
    if tags != [] {
      LastAcceptedIs(tags[..|tags| - 1]);
    }
  }

  ghost predicate TimeOfComplete(tags: seq<PropertyMap>, time: int) {
    exists i :: 0 <= i < |tags| && Complete(tags[i]) && time == Time(tags[i])
  }

  lemma TimeOfStep(tags: seq<PropertyMap>, n: nat, time: int)
    requires n <= |tags| && TimeOfComplete(tags[..n], time)
    ensures TimeOfComplete(tags, time)
  {
    var i :| 0 <= i < n && Complete(tags[..n][i]) && time == Time(tags[..n][i]);
    assert tags[i] == tags[..n][i];
  }

  /** Every point but the leading default has the time of a complete tag. */
  lemma {:induction false} PointsAreTags(tags: seq<PropertyMap>, kind: Kind)
    ensures forall k :: 0 <= k < |Points(tags, kind)| ==>
              TimeOfComplete(tags, Points(tags, kind)[k].time) || (k == 0 && Points(tags, kind)[k] == Point(0, 0))
  {
    hide TimeOfComplete, Complete, Accepted;
    if tags != [] {
      var n := |tags| - 1;
      PointsAreTags(tags[..n], kind);
      var front, points := Points(tags[..n], kind), Points(tags, kind);
      forall k | 0 <= k < |points|
        ensures TimeOfComplete(tags, points[k].time) || (k == 0 && points[k] == Point(0, 0))
      {
        if k < |front| && points[k] == front[k] {
          if TimeOfComplete(tags[..n], points[k].time) {
            TimeOfStep(tags, n, points[k].time);
          }
        } else if Complete(tags[n]) {
          LastIsTime(tags);
        }
      }
    }
  }

  lemma LastIsTime(tags: seq<PropertyMap>)
    requires tags != [] && Complete(tags[|tags| - 1])
    ensures Accepted(tags[|tags| - 1]) && TimeOfComplete(tags, Time(tags[|tags| - 1]))
  {
  }

  /** What one more tag changes. */
  lemma Ignored(seen: seq<PropertyMap>, tag: PropertyMap)
    requires !Accepted(tag)
    ensures var tags := seen + [tag];
      && LastAccepted(tags) == LastAccepted(seen) && LastComplete(tags) == LastComplete(seen)
      && forall kind :: Points(tags, kind) == Points(seen, kind)
  {
    assert (seen + [tag])[..|seen|] == seen;
  }

  lemma Incomplete(seen: seq<PropertyMap>, tag: PropertyMap, kind: Kind)
    requires Accepted(tag) && !Complete(tag)
    ensures var tags := seen + [tag];
      && LastAccepted(tags) == Some(tag) && LastComplete(tags) == LastComplete(seen)
      && CurrentIndex(Points(tags, kind)) == CurrentIndex(Points(seen, kind))
      && StartStamp(Points(tags, kind)) == StartStamp(Points(seen, kind))
  {
    hide Accepted, Complete;
    assert (seen + [tag])[..|seen|] == seen;
    PointsEmpty(seen, kind);
  }

  lemma Completed(seen: seq<PropertyMap>, tag: PropertyMap, kind: Kind)
    requires Complete(tag)
    ensures var tags, index := seen + [tag], Field(tag, Key(kind)).value;
      && LastAccepted(tags) == Some(tag) && LastComplete(tags) == Some(tag)
      && CurrentIndex(Points(tags, kind)) == index
      && StartStamp(Points(tags, kind)) ==
         if LastAccepted(seen).Some? && CurrentIndex(Points(seen, kind)) == index then StartStamp(Points(seen, kind)) else Time(tag)
  {
    assert (seen + [tag])[..|seen|] == seen;
    PointsEmpty(seen, kind);
    NextPoint(Points(seen, kind), Point(Field(tag, Key(kind)).value, Time(tag)));
  }

  /** The current index is the one of the last complete tag, or the default. */
  ghost function IndexAfter(tags: seq<PropertyMap>, kind: Kind): int {
    if LastComplete(tags).Some? && Complete(LastComplete(tags).value) then Field(LastComplete(tags).value, Key(kind)).value else 0
  }

  /** Tag i begins the run that still lasts: it is complete, every complete tag since carries its index,
      and before it there was no state, or another index. */
  ghost predicate BeginsRun(tags: seq<PropertyMap>, kind: Kind, i: int) {
    && 0 <= i < |tags| && Complete(tags[i])
    && (forall j :: i <= j < |tags| && Complete(tags[j]) ==> Field(tags[j], Key(kind)) == Field(tags[i], Key(kind)))
    && (LastAccepted(tags[..i]).None? || IndexAfter(tags[..i], kind) != Field(tags[i], Key(kind)).value)
  }

  /** The index never left the default that an earlier, incomplete tag made valid. */
  ghost predicate StillDefault(tags: seq<PropertyMap>, kind: Kind) {
    forall j :: 0 <= j < |tags| && Complete(tags[j]) ==>
      Field(tags[j], Key(kind)) == Some(0) && LastAccepted(tags[..j]).Some?
  }

  lemma BeginsRunStep(tags: seq<PropertyMap>, kind: Kind, i: int)
    requires tags != [] && BeginsRun(tags[..|tags| - 1], kind, i)
    requires Complete(tags[|tags| - 1]) ==> Field(tags[|tags| - 1], Key(kind)) == Field(tags[i], Key(kind))
    ensures BeginsRun(tags, kind, i)
  {
    var front := tags[..|tags| - 1];
    assert front[..i] == tags[..i] && front[i] == tags[i];
    assert forall j :: i <= j < |front| ==> front[j] == tags[j];
  }

  lemma StillDefaultStep(tags: seq<PropertyMap>, kind: Kind)
    requires tags != [] && StillDefault(tags[..|tags| - 1], kind)
    requires Complete(tags[|tags| - 1]) ==>
               Field(tags[|tags| - 1], Key(kind)) == Some(0) && LastAccepted(tags[..|tags| - 1]).Some?
    ensures StillDefault(tags, kind)
  {
    var front := tags[..|tags| - 1];
    forall j | 0 <= j < |front|
      ensures front[j] == tags[j] && front[..j] == tags[..j]
    {
    }
  }

  /** A start stamp is the time of the tag that begins the run of the current index; or 0, while the
      index is still the default. */
  lemma {:induction false} StartStampIs(tags: seq<PropertyMap>, kind: Kind) returns (i: int)
    ensures CurrentIndex(Points(tags, kind)) == IndexAfter(tags, kind)
    ensures i >= 0 ==> BeginsRun(tags, kind, i) && StartStamp(Points(tags, kind)) == Time(tags[i])
                       && CurrentIndex(Points(tags, kind)) == Field(tags[i], Key(kind)).value
    ensures i < 0 ==> StillDefault(tags, kind) && StartStamp(Points(tags, kind)) == 0 && CurrentIndex(Points(tags, kind)) == 0
  {
    hide Points, StartStamp, CurrentIndex, Complete, Accepted, Time, Event, Field, BeginsRun, StillDefault;
    i := -1;
    if tags == [] {
      NoTags(kind);
    } else {
      var front, last := tags[..|tags| - 1], tags[|tags| - 1];
      assert front + [last] == tags;
      i := StartStampIs(front, kind);
      CompleteIsAccepted(last, kind);
      if !Accepted(last) {
        Ignored(front, last);
      } else if !Complete(last) {
        Incomplete(front, last, kind);
      } else {
        Completed(front, last, kind);
        if LastAccepted(front).None? || IndexAfter(front, kind) != Field(last, Key(kind)).value {
          i := |front|;
          BeginsHere(tags, kind);
          return;
        }
      }
      if i >= 0 {
        BeginsInside(front, kind, i);
        assert tags[i] == front[i];
        if Complete(last) {
          assert Field(last, Key(kind)) == Some(Field(last, Key(kind)).value);
          assert Field(tags[i], Key(kind)) == Some(Field(tags[i], Key(kind)).value);
        }
        BeginsRunStep(tags, kind, i);
      } else {
        StillDefaultStep(tags, kind);
      }
    }
  }

  /** A start stamp is the number in the tag that begins the run, as a signed one. */
  lemma StartStampNumber(tags: seq<PropertyMap>, kind: Kind) returns (i: int)
    ensures i < 0 ==> StillDefault(tags, kind) && StartStamp(Points(tags, kind)) == 0
    ensures i >= 0 ==> BeginsRun(tags, kind, i) && exists time :: Reads(tags[i], time, 256) && IsSigned(StartStamp(Points(tags, kind)), time)
  {
    hide Points, StartStamp, CurrentIndex, BeginsRun, StillDefault, IsSigned, Reads;
    i := StartStampIs(tags, kind);
    if i >= 0 {
      BeginsInside(tags, kind, i);
      var time := tags[i][TRIGGER_TIME].n;
      AcceptedIs(tags[i], time, 256);
    }
  }

  lemma NoTags(kind: Kind)
    ensures CurrentIndex(Points([], kind)) == 0 == StartStamp(Points([], kind)) && StillDefault([], kind) && IndexAfter([], kind) == 0
  {
  }

  lemma CompleteIsAccepted(tag: PropertyMap, kind: Kind)
    ensures Complete(tag) ==> Accepted(tag) && Field(tag, Key(kind)).Some?
  {
  }

  lemma BeginsInside(tags: seq<PropertyMap>, kind: Kind, i: int)
    requires BeginsRun(tags, kind, i)
    ensures 0 <= i < |tags| && Complete(tags[i]) && Accepted(tags[i]) && Field(tags[i], Key(kind)).Some?
  {
  }

  lemma BeginsHere(tags: seq<PropertyMap>, kind: Kind)
    requires tags != [] && Complete(tags[|tags| - 1])
    requires var front := tags[..|tags| - 1];
      LastAccepted(front).None? || IndexAfter(front, kind) != Field(tags[|tags| - 1], Key(kind)).value
    ensures BeginsRun(tags, kind, |tags| - 1)
  {
  }

  lemma {:induction false} LastCompleteIs(tags: seq<PropertyMap>) returns (i: nat)
    requires LastComplete(tags).Some?
    ensures i < |tags| && Complete(tags[i]) && tags[i] == LastComplete(tags).value
  {
    var n := |tags| - 1;
    if Complete(tags[n]) {
      i := n;
    } else {
      i := LastCompleteIs(tags[..n]);
    }
  }

  /** No tag begins a run while the index is still the default. */
  lemma DefaultHasNoBegin(tags: seq<PropertyMap>, kind: Kind, i: int)
    requires BeginsRun(tags, kind, i)
    ensures !StillDefault(tags, kind)
  {
    if StillDefault(tags, kind) && LastComplete(tags[..i]).Some? {
      var j := LastCompleteIs(tags[..i]);
    }
  }

  /** With times in order a start stamp is after the last event exactly when no complete tag has set the
      index yet, so that the stamp is 0, and the time of the last event is negative as a signed number. */
  lemma StampsNotAfterEvent(tags: seq<PropertyMap>, kind: Kind)
    requires InOrder(tags) && LastAccepted(tags).Some? && Accepted(LastAccepted(tags).value)
    ensures StartStamp(Points(tags, kind)) > Time(LastAccepted(tags).value) <==>
            StillDefault(tags, kind) && Time(LastAccepted(tags).value) < 0
  {
    hide Points, StartStamp, CurrentIndex, Time, Event, Field, BeginsRun, StillDefault, IndexAfter;
    LastAcceptedIs(tags);
    var i := StartStampIs(tags, kind);
    if i >= 0 {
      BeginsInside(tags, kind, i);
      DefaultHasNoBegin(tags, kind, i);
    }
  }

  /** A first timing tag with only an event number, at 2^63 ns: all three start stamps are after it. */
  lemma StampAfterEvent(kind: Kind) returns (tag: PropertyMap)
    ensures Accepted(tag) && InOrder([tag]) && LastAccepted([tag]) == Some(tag)
    ensures GetNumber(tag, TRIGGER_TIME, 0, 0x1_0000_0000_0000_0000) == Some(0x8000_0000_0000_0000)
    ensures StartStamp(Points([tag], kind)) > Time(tag)
  {
    var event: PropertyMap := map["EVENT-NO" := Number(CMD_BP_START)];
    tag := map[CONTEXT := Text("FAIR-TIMING:"), TRIGGER_TIME := Number(0x8000_0000_0000_0000), TRIGGER_META_INFO := Map(event)];
    assert tag[CONTEXT] == Text("FAIR-TIMING:") && tag[TRIGGER_META_INFO] == Map(event);
    assert HasFairTimingContext(tag);
    assert Accepted(tag) && !Complete(tag);
    assert [tag][..0] == [];
    StampsNotAfterEvent([tag], kind);
  }

  // ---- the state ----

  /** The fields of the state. */
  datatype Fields = Fields(valid: bool, processIndex: int, sequenceIndex: int, chainIndex: int, eventNumber: int, timingGroupID: int,
                           acquisitionStamp: int, eventStamp: int,
                           processStartStamp: int, sequenceStartStamp: int, chainStartStamp: int)

  ghost function AfterTag(f: Fields, tag: PropertyMap): Fields {
    if !Accepted(tag) then f
    else
      var g := f.(valid := true, acquisitionStamp := Time(tag), eventStamp := Time(tag), eventNumber := Event(tag));
      if !Complete(tag) then g
      else
        var p, s, c := Field(tag, Key(Process)).value, Field(tag, Key(Sequence)).value, Field(tag, Key(Chain)).value;
        g.(processIndex := p, sequenceIndex := s, chainIndex := c, timingGroupID := Field(tag, "GID").value,
           processStartStamp := if f.valid && f.processIndex == p then f.processStartStamp else Time(tag),
           sequenceStartStamp := if f.valid && f.sequenceIndex == s then f.sequenceStartStamp else Time(tag),
           chainStartStamp := if f.valid && f.chainIndex == c then f.chainStartStamp else Time(tag))
  }

  /** A tag from which no time and event can be read changes nothing ... */
  ghost predicate IgnoresOthers(f: Fields, tag: PropertyMap, g: Fields) {
    (forall time, event :: !Reads(tag, time, event)) ==> g == f
  }

  /** ... these are otherwise the last event, at the time in the tag as a signed number; ... */
  ghost predicate TakesEvent(tag: PropertyMap, g: Fields) {
    forall time, event :: Reads(tag, time, event) ==>
      g.valid && g.acquisitionStamp == g.eventStamp && IsSigned(g.eventStamp, time) && g.eventNumber == event
  }

  /** ... and the indices follow event 256 with all numbers, and only that; a stamp moves with its index. */
  ghost predicate TakesPeriods(f: Fields, tag: PropertyMap, g: Fields) {
    && ((forall time, p, s, c, group :: !ReadsAll(tag, time, p, s, c, group)) ==>
          && g.processIndex == f.processIndex && g.processStartStamp == f.processStartStamp
          && g.sequenceIndex == f.sequenceIndex && g.sequenceStartStamp == f.sequenceStartStamp
          && g.chainIndex == f.chainIndex && g.chainStartStamp == f.chainStartStamp
          && g.timingGroupID == f.timingGroupID)
    && forall time, p, s, c, group :: ReadsAll(tag, time, p, s, c, group) ==>
         && g.processIndex == p && g.sequenceIndex == s && g.chainIndex == c && g.timingGroupID == group
         && g.processStartStamp == (if f.valid && f.processIndex == p then f.processStartStamp else g.eventStamp)
         && g.sequenceStartStamp == (if f.valid && f.sequenceIndex == s then f.sequenceStartStamp else g.eventStamp)
         && g.chainStartStamp == (if f.valid && f.chainIndex == c then f.chainStartStamp else g.eventStamp)
  }

  ghost predicate StepsTo(f: Fields, tag: PropertyMap, g: Fields) {
    IgnoresOthers(f, tag, g) && TakesEvent(tag, g) && TakesPeriods(f, tag, g)
  }

  lemma AcceptedReads(tag: PropertyMap)
    requires Accepted(tag)
    ensures TRIGGER_TIME in tag && tag[TRIGGER_TIME].Number? && Reads(tag, tag[TRIGGER_TIME].n, Event(tag))
  {
    hide IsFairTimingTag, ToInt64, Reads;
    AcceptedIs(tag, GetNumber(tag, TRIGGER_TIME, 0, 0x1_0000_0000_0000_0000).value, Event(tag));
  }

  lemma CompleteReads(tag: PropertyMap)
    requires Complete(tag)
    ensures Accepted(tag) && Event(tag) == 256 && Field(tag, Key(Process)).Some? && Field(tag, Key(Sequence)).Some?
    ensures Field(tag, Key(Chain)).Some? && Field(tag, "GID").Some?
    ensures TRIGGER_TIME in tag && tag[TRIGGER_TIME].Number?
    ensures ReadsAll(tag, tag[TRIGGER_TIME].n, Field(tag, Key(Process)).value, Field(tag, Key(Sequence)).value,
                     Field(tag, Key(Chain)).value, Field(tag, "GID").value)
  {
    hide Accepted, ReadsAll, Reads, Field, Time, Event;
    CompleteIsAccepted(tag, Process);
    CompleteIsAccepted(tag, Sequence);
    CompleteIsAccepted(tag, Chain);
    AcceptedReads(tag);
    CompleteIs(tag, tag[TRIGGER_TIME].n, Field(tag, Key(Process)).value, Field(tag, Key(Sequence)).value,
               Field(tag, Key(Chain)).value, Field(tag, "GID").value);
  }

  /** What the model makes of a tag is what can be read off it. */
  lemma AfterTagSteps(f: Fields, tag: PropertyMap)
    ensures StepsTo(f, tag, AfterTag(f, tag))
  {
    hide Accepted, Complete, Reads, ReadsAll, Field, Time, Event, IsSigned;
    var g := AfterTag(f, tag);
    CompleteIsAccepted(tag, Process);
    forall time, event
      ensures Reads(tag, time, event) ==> Accepted(tag) && IsSigned(Time(tag), time) && Event(tag) == event
    {
      AcceptedIs(tag, time, event);
    }
    forall time, p, s, c, group
      ensures ReadsAll(tag, time, p, s, c, group) ==>
                && Accepted(tag) && Complete(tag) && Field(tag, Key(Process)) == Some(p) && Field(tag, Key(Sequence)) == Some(s)
                && Field(tag, Key(Chain)) == Some(c) && Field(tag, "GID") == Some(group)
    {
      CompleteIs(tag, time, p, s, c, group);
    }
    if Accepted(tag) {
      AcceptedReads(tag);
    }
    if Complete(tag) {
      CompleteReads(tag);
    }
  }

  class State {
    var valid: bool
    var processIndex: int
    var sequenceIndex: int
    var chainIndex: int
    var eventNumber: int
    var timingGroupID: int
    var acquisitionStamp: int
    var eventStamp: int
    var processStartStamp: int
    var sequenceStartStamp: int
    var chainStartStamp: int

    /** The fields are what the whole stream of tags says, however it was cut into spans. */
    ghost predicate Shows(tags: seq<PropertyMap>)
      reads this
    {
      && ShowsEvents(tags)
      && chainIndex == CurrentIndex(Points(tags, Chain)) && chainStartStamp == StartStamp(Points(tags, Chain))
      && sequenceIndex == CurrentIndex(Points(tags, Sequence)) && sequenceStartStamp == StartStamp(Points(tags, Sequence))
      && processIndex == CurrentIndex(Points(tags, Process)) && processStartStamp == StartStamp(Points(tags, Process))
    }

    ghost predicate ShowsEvents(tags: seq<PropertyMap>)
      reads this
    {
      && valid == LastAccepted(tags).Some?
      && (if valid then
            && Accepted(LastAccepted(tags).value)
            && eventStamp == acquisitionStamp == Time(LastAccepted(tags).value)
            && eventNumber == Event(LastAccepted(tags).value)
          else eventStamp == acquisitionStamp == eventNumber == 0)
      && (if LastComplete(tags).Some? then
            Complete(LastComplete(tags).value) && Field(LastComplete(tags).value, "GID") == Some(timingGroupID)
          else timingGroupID == 0)
    }

    ghost function Values(): Fields
      reads this
    {
      Fields(valid, processIndex, sequenceIndex, chainIndex, eventNumber, timingGroupID, acquisitionStamp, eventStamp,
             processStartStamp, sequenceStartStamp, chainStartStamp)
    }

    constructor ()
      ensures Shows([]) && Values() == Fields(false, 0, 0, 0, 0, 0, 0, 0, 0, 0, 0)
    {
      valid := false;
      processIndex, sequenceIndex, chainIndex, eventNumber, timingGroupID := 0, 0, 0, 0, 0;
      acquisitionStamp, eventStamp, processStartStamp, sequenceStartStamp, chainStartStamp := 0, 0, 0, 0, 0;
    }

    method UpdateFromTags(tags: seq<PropertyMap>, ghost seen: seq<PropertyMap>)
      requires Shows(seen)
      modifies this
      ensures Shows(seen + tags)
    {
      assert seen + tags[..0] == seen;
      for i := 0 to |tags|
        invariant Shows(seen + tags[..i])
      {
        UpdateFromTagMap(tags[i], seen + tags[..i]);
        assert seen + tags[..i] + [tags[i]] == seen + tags[..i + 1];
      }
      assert tags[..|tags|] == tags;
    }

    /** One tag changes the fields as what can be read off it says, and they then show the stream with it. */
    method UpdateFromTagMap(tag: PropertyMap, ghost seen: seq<PropertyMap>)
      requires Shows(seen)
      modifies this
      ensures Shows(seen + [tag])
      ensures StepsTo(old(Values()), tag, Values())
    {
      hide LastAccepted, LastComplete, Points, CurrentIndex, StartStamp, Accepted, Complete, Field, Time, Event, StepsTo,
           ReadsAll;
      if !Accepted(tag) {
        Ignored(seen, tag);
      } else if Complete(tag) {
        CompleteReads(tag);
        Completed(seen, tag, Chain);
        Completed(seen, tag, Sequence);
        Completed(seen, tag, Process);
      } else {
        Incomplete(seen, tag, Chain);
        Incomplete(seen, tag, Sequence);
        Incomplete(seen, tag, Process);
      }
      AfterTagSteps(Values(), tag);
      CompleteIsAccepted(tag, Process);
      Apply(tag);
    }

    method Apply(tag: PropertyMap)
      modifies this
      ensures Values() == AfterTag(old(Values()), tag)
    {
      hide IsFairTimingTag, GetNumber, ToInt64;
      if TRIGGER_META_INFO !in tag {
        return;
      }
      if !tag[TRIGGER_META_INFO].Map? {
        return;
      }
      var metaInfo := tag[TRIGGER_META_INFO].fields;
      if !IsFairTimingTag(tag, metaInfo) {
        return;
      }
      var parsedTriggerTime := GetNumber(tag, TRIGGER_TIME, 0, 0x1_0000_0000_0000_0000);
      var newEventNumber := GetInt(metaInfo, "EVENT-NO");
      if parsedTriggerTime.None? || newEventNumber.None? {
        return;
      }
      var newTriggerTime := ToInt64(parsedTriggerTime.value);
      var hadState := valid;
      valid := true;
      acquisitionStamp := newTriggerTime;
      eventStamp := newTriggerTime;
      eventNumber := newEventNumber.value;
      if newEventNumber.value != CMD_BP_START {
        return;
      }
      var newProcessIndex := GetInt(metaInfo, "BPID");
      var newSequenceIndex := GetInt(metaInfo, "SID");
      var newChainIndex := GetInt(metaInfo, "BPCID");
      var newTimingGroupID := GetInt(metaInfo, "GID");
      if newProcessIndex.None? || newSequenceIndex.None? || newChainIndex.None? || newTimingGroupID.None? {
        return;
      }
      timingGroupID := newTimingGroupID.value;
      StartPeriods(newTriggerTime, hadState, newProcessIndex.value, newSequenceIndex.value, newChainIndex.value);
    }

    /** A period starts where there was no state yet, or where its index changes. */
    method StartPeriods(newTriggerTime: int, hadState: bool, newProcessIndex: int, newSequenceIndex: int,
                        newChainIndex: int)
      modifies `chainIndex, `chainStartStamp, `sequenceIndex, `sequenceStartStamp, `processIndex, `processStartStamp
      ensures chainIndex == newChainIndex && sequenceIndex == newSequenceIndex && processIndex == newProcessIndex
      ensures chainStartStamp == if hadState && old(chainIndex) == newChainIndex then old(chainStartStamp) else newTriggerTime
      ensures sequenceStartStamp == if hadState && old(sequenceIndex) == newSequenceIndex then old(sequenceStartStamp) else newTriggerTime
      ensures processStartStamp == if hadState && old(processIndex) == newProcessIndex then old(processStartStamp) else newTriggerTime
    {
      if !hadState || chainIndex != newChainIndex {
        chainStartStamp := newTriggerTime;
        chainIndex := newChainIndex;
      }
      if !hadState || sequenceIndex != newSequenceIndex {
        sequenceStartStamp := newTriggerTime;
        sequenceIndex := newSequenceIndex;
      }
      if !hadState || processIndex != newProcessIndex {
        processStartStamp := newTriggerTime;
        processIndex := newProcessIndex;
      }
    }
  }
}
