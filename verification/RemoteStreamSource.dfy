/** Queued acquisitions cut into output spans of any size, with their trigger tags
    (RemoteStreamSource in src/ui/blocks/RemoteSource.hpp). */
module RemoteStreamSource {
  import opened Shared

  /** One update of a single signal: its samples, and the columns of its trigger table. */
  datatype Acquisition = Acquisition(values: seq<real>, indices: seq<int>, names: seq<string>, timestamps: seq<int>,
                                     offsets: seq<real>, yamls: seq<string>)

  datatype Trigger = Trigger(index: int, name: string, timestamp: int, offset: real, yaml: string)

  /** An acquisition in the queue, and how many of its samples have been published. */
  datatype Queued = Queued(acq: Acquisition, read: nat)

  /** A published tag; `position` counts samples. A zero timestamp gives no trigger time. */
  datatype Tag = Tag(position: int, name: string, offset: real, time: Option<int>, yaml: string)

  datatype Status = OK | INSUFFICIENT_INPUT_ITEMS

  /** Rows of the trigger table; the shortest column decides how many there are. */
  function Zip(acq: Acquisition): (r: seq<Trigger>)
  {
    var n := Min(Min(Min(Min(|acq.indices|, |acq.names|), |acq.timestamps|), |acq.offsets|), |acq.yamls|);
    seq(n, i requires 0 <= i < n => Trigger(acq.indices[i], acq.names[i], acq.timestamps[i], acq.offsets[i], acq.yamls[i]))
  }

  function TagAt(t: Trigger, position: int): Tag {
    Tag(position, t.name, t.offset, if t.timestamp != 0 then Some(t.timestamp) else None, t.yaml)
  }

  /** The tags of the triggers with an index in [lo, hi), where sample lo stands at position `at`. */
  ghost function TagsIn(ts: seq<Trigger>, lo: int, hi: int, at: int): multiset<Tag> {
    if |ts| == 0 then multiset{}
    else
      var t := ts[|ts| - 1];
      TagsIn(ts[..|ts| - 1], lo, hi, at) + if lo <= t.index < hi then multiset{TagAt(t, at + t.index - lo)} else multiset{}
  }

  /** Tags with positions in the span, placed in the whole stream. */
  ghost function Shifted(tags: seq<Tag>, base: int): multiset<Tag> {
    if |tags| == 0 then multiset{}
    else
      var t := tags[|tags| - 1];
      Shifted(tags[..|tags| - 1], base) + multiset{t.(position := t.position + base)}
  }

  lemma NoTags(base: int)
    ensures Shifted([], base) == multiset{}
  {
  }

  lemma ShiftedOne(tags: seq<Tag>, t: Tag, base: int)
    ensures Shifted(tags + [t], base) == Shifted(tags, base) + multiset{t.(position := t.position + base)}
  {
    assert (tags + [t])[..|tags|] == tags;
  }

  lemma {:induction false} ShiftedAppend(a: seq<Tag>, b: seq<Tag>, base: int)
    ensures Shifted(a + b, base) == Shifted(a, base) + Shifted(b, base)
    decreases |b|
  {
    hide Shifted;
    NoTags(base);
    if |b| == 0 {
      assert a + b == a;
    } else {
      var c, last := b[..|b| - 1], b[|b| - 1];
      ShiftedAppend(a, c, base);
      assert a + b == (a + c) + [last];
      ShiftedOne(a + c, last, base);
      ShiftedOne(c, last, base);
      assert c + [last] == b;
    }
  }

  lemma {:induction false} TagsSplit(ts: seq<Trigger>, lo: int, mid: int, hi: int, at: int)
    requires lo <= mid <= hi
    ensures TagsIn(ts, lo, hi, at) == TagsIn(ts, lo, mid, at) + TagsIn(ts, mid, hi, at + mid - lo)
  {
    if |ts| != 0 {
      TagsSplit(ts[..|ts| - 1], lo, mid, hi, at);
    }
  }

  lemma {:induction false} TagsNone(ts: seq<Trigger>, lo: int, at: int)
    ensures TagsIn(ts, lo, lo, at) == multiset{}
  {
    if |ts| != 0 {
      TagsNone(ts[..|ts| - 1], lo, at);
    }
  }

  function Unread(q: Queued): seq<real> {
    if q.read <= |q.acq.values| then q.acq.values[q.read..] else []
  }

  /** The samples that are still to be published. */
  ghost function Pending(queue: seq<Queued>): seq<real> {
    if |queue| == 0 then [] else Unread(queue[0]) + Pending(queue[1..])
  }

  ghost function TagsOf(q: Queued, at: int): multiset<Tag> {
    TagsIn(Zip(q.acq), q.read, |q.acq.values|, at)
  }

  /** The tags that are still to be published, if the next sample stands at position `at`. */
  ghost function PendingTags(queue: seq<Queued>, at: int): multiset<Tag> {
    if |queue| == 0 then multiset{}
    else
      var q := queue[0];
      TagsOf(q, at) + PendingTags(queue[1..], at + |q.acq.values| - q.read)
  }

  /** What a stream of acquisitions should publish: its samples one after the other ... */
  ghost function Samples(acqs: seq<Acquisition>): seq<real> {
    if |acqs| == 0 then [] else Samples(acqs[..|acqs| - 1]) + acqs[|acqs| - 1].values
  }

  /** ... and every trigger with an index into its own samples, at its acquisition's start plus its index. */
  ghost function Tags(acqs: seq<Acquisition>): multiset<Tag> {
    if |acqs| == 0 then multiset{}
    else
      var init, last := acqs[..|acqs| - 1], acqs[|acqs| - 1];
      Tags(init) + TagsOf(Queued(last, 0), |Samples(init)|)
  }

  ghost predicate QueueOk(queue: seq<Queued>) {
    forall i :: 0 <= i < |queue| ==> queue[i].read < |queue[i].acq.values|
  }

  lemma {:induction false} PendingAppend(queue: seq<Queued>, q: Queued)
    ensures Pending(queue + [q]) == Pending(queue) + Unread(q)
    decreases |queue|
  {
    var more := queue + [q];
    if |queue| == 0 {
      assert more[1..] == [];
    } else {
      assert more[1..] == queue[1..] + [q];
      PendingAppend(queue[1..], q);
    }
  }

  lemma {:induction false} PendingTagsAppend(queue: seq<Queued>, q: Queued, at: int)
    requires QueueOk(queue)
    ensures PendingTags(queue + [q], at) == PendingTags(queue, at) + TagsOf(q, at + |Pending(queue)|)
    decreases |queue|
  {
    hide TagsOf;
    var more := queue + [q];
    if |queue| == 0 {
      assert more[1..] == [];
    } else {
      assert more[1..] == queue[1..] + [q];
      PendingTagsAppend(queue[1..], q, at + |queue[0].acq.values| - queue[0].read);
    }
  }

  /** The queue after k more samples of its first acquisition; a finished acquisition is dropped. */
  function Advance(queue: seq<Queued>, k: nat): seq<Queued>
    requires |queue| > 0
  {
    var q := queue[0];
    if q.read + k == |q.acq.values| then queue[1..] else [q.(read := q.read + k)] + queue[1..]
  }

  lemma AdvanceOk(queue: seq<Queued>, k: nat)
    requires |queue| > 0 && QueueOk(queue) && queue[0].read + k <= |queue[0].acq.values|
    ensures QueueOk(Advance(queue, k))
  {
  }

  lemma AdvanceSamples(queue: seq<Queued>, k: nat)
    requires |queue| > 0 && queue[0].read + k <= |queue[0].acq.values|
    ensures Pending(queue) == queue[0].acq.values[queue[0].read..queue[0].read + k] + Pending(Advance(queue, k))
  {
    hide Unread;
    var q, after, rest := queue[0], Advance(queue, k), queue[1..];
    var later := q.(read := q.read + k);
    SplitUnread(q, k);
    Assoc(q.acq.values[q.read..q.read + k], Unread(later), Pending(rest));
    if q.read + k < |q.acq.values| {
      assert after[0] == later && after[1..] == rest;
    } else {
      NothingUnread(later);
    }
  }

  lemma Assoc(a: seq<real>, b: seq<real>, c: seq<real>)
    ensures (a + b) + c == a + (b + c)
  {
  }

  lemma NothingUnread(q: Queued)
    requires q.read == |q.acq.values|
    ensures Unread(q) == []
  {
  }

  lemma Conserve(published: seq<real>, chunk: seq<real>, rest: seq<real>, all: seq<real>)
    requires chunk + rest == all
    ensures all[..|chunk|] == chunk && all[|chunk|..] == rest
    ensures (published + chunk) + rest == published + all
  {
  }

  lemma NothingPending()
    ensures Pending([]) == []
  {
  }

  lemma SplitUnread(q: Queued, k: nat)
    requires q.read + k <= |q.acq.values|
    ensures Unread(q) == q.acq.values[q.read..q.read + k] + Unread(q.(read := q.read + k))
  {
  }

  lemma AdvanceTags(queue: seq<Queued>, k: nat, at: int)
    requires |queue| > 0 && queue[0].read + k <= |queue[0].acq.values|
    ensures PendingTags(queue, at) ==
            TagsIn(Zip(queue[0].acq), queue[0].read, queue[0].read + k, at) + PendingTags(Advance(queue, k), at + k)
  {
    hide TagsIn, Zip;
    var q, after := queue[0], Advance(queue, k);
    var n := |q.acq.values|;
    TagsSplit(Zip(q.acq), q.read, q.read + k, n, at);
    if q.read + k < n {
      assert after[1..] == queue[1..];
    } else {
      TagsNone(Zip(q.acq), n, at + k);
    }
  }

  // ---- the tags, row by row of the trigger table ----

  /** What row i of the table says, column by column; the position is said by the index. */
  ghost predicate RowSays(acq: Acquisition, i: nat, t: Tag) {
    && i < |acq.indices| && i < |acq.names| && i < |acq.timestamps| && i < |acq.offsets| && i < |acq.yamls|
    && t.name == acq.names[i] && t.offset == acq.offsets[i] && t.yaml == acq.yamls[i]
    && (acq.timestamps[i] == 0 <==> t.time == None)
    && (acq.timestamps[i] != 0 ==> t.time == Some(acq.timestamps[i]))
  }

  /** Row i says t, and its index, in [lo, hi), puts it there when sample lo stands at `at`. */
  ghost predicate RowPuts(acq: Acquisition, lo: int, hi: int, at: int, i: nat, t: Tag) {
    RowSays(acq, i, t) && lo <= acq.indices[i] < hi && t.position == at + acq.indices[i] - lo
  }

  ghost function RowsIn(acq: Acquisition, lo: int, hi: int, at: int, n: nat, t: Tag): set<int> {
    set i | 0 <= i < n && RowPuts(acq, lo, hi, at, i, t)
  }

  lemma ZipRow(acq: Acquisition, i: nat, t: Tag)
    ensures i < |Zip(acq)| <==>
              i < |acq.indices| && i < |acq.names| && i < |acq.timestamps| && i < |acq.offsets| && i < |acq.yamls|
    ensures i < |Zip(acq)| ==> Zip(acq)[i].index == acq.indices[i]
    ensures i < |Zip(acq)| ==> (TagAt(Zip(acq)[i], t.position) == t <==> RowSays(acq, i, t))
  {
  }

  lemma RowsInStep(acq: Acquisition, lo: int, hi: int, at: int, i: nat, t: Tag)
    ensures |RowsIn(acq, lo, hi, at, i + 1, t)| ==
            |RowsIn(acq, lo, hi, at, i, t)| + if RowPuts(acq, lo, hi, at, i, t) then 1 else 0
    ensures RowsIn(acq, lo, hi, at, 0, t) == {}
  {
    hide RowPuts;
    assert RowsIn(acq, lo, hi, at, i + 1, t) ==
           RowsIn(acq, lo, hi, at, i, t) + if RowPuts(acq, lo, hi, at, i, t) then {i} else {};
  }

  /** One more trigger adds its tag, if its index is in the range. */
  lemma TagsInStep(ts: seq<Trigger>, lo: int, hi: int, at: int, i: nat, t: Tag)
    requires i < |ts|
    ensures TagsIn(ts[..i + 1], lo, hi, at)[t] ==
            TagsIn(ts[..i], lo, hi, at)[t] + if lo <= ts[i].index < hi && TagAt(ts[i], at + ts[i].index - lo) == t then 1 else 0
    ensures TagsIn(ts[..0], lo, hi, at)[t] == 0
  {
    assert ts[..i + 1][..i] == ts[..i];
  }

  /** Every row gives one tag, so a tag is there as often as rows say it. */
  lemma {:induction false} TagsInRows(acq: Acquisition, lo: int, hi: int, at: int, n: nat, t: Tag)
    requires 0 < n <= |Zip(acq)|
    ensures TagsIn(Zip(acq)[..n], lo, hi, at)[t] == |RowsIn(acq, lo, hi, at, n, t)|
  {
    hide Zip, TagsIn, RowsIn;
    var i := n - 1;
    TagsInStep(Zip(acq), lo, hi, at, i, t);
    RowsInStep(acq, lo, hi, at, i, t);
    ZipRow(acq, i, t);
    if i > 0 {
      TagsInRows(acq, lo, hi, at, i, t);
    }
  }

  /** All rows of the table, however many there are. */
  ghost function AllRowsIn(acq: Acquisition, lo: int, hi: int, at: int, t: Tag): set<int> {
    RowsIn(acq, lo, hi, at, |acq.indices|, t)
  }

  lemma TagsInAllRows(acq: Acquisition, lo: int, hi: int, at: int, t: Tag)
    ensures TagsIn(Zip(acq), lo, hi, at)[t] == |AllRowsIn(acq, lo, hi, at, t)|
  {
    hide Zip;
    var n := |Zip(acq)|;
    assert Zip(acq)[..n] == Zip(acq);
    forall i: nat
      ensures RowSays(acq, i, t) ==> i < n
    {
      ZipRow(acq, i, t);
    }
    if n > 0 {
      TagsInRows(acq, lo, hi, at, n, t);
      ZipRow(acq, n - 1, t);
    }
    assert RowsIn(acq, lo, hi, at, n, t) == AllRowsIn(acq, lo, hi, at, t);
  }

  /** How many rows of all these acquisitions say t, at the position where their sample stands. */
  ghost function Sayings(acqs: seq<Acquisition>, t: Tag): nat {
    if |acqs| == 0 then 0
    else
      var init, last := acqs[..|acqs| - 1], acqs[|acqs| - 1];
      Sayings(init, t) + |set i | 0 <= i < |last.indices| && RowSays(last, i, t) && 0 <= last.indices[i] < |last.values|
                                  && t.position == |Samples(init)| + last.indices[i]|
  }

  lemma {:induction false} TagsSayings(acqs: seq<Acquisition>, t: Tag)
    ensures Tags(acqs)[t] == Sayings(acqs, t)
  {
    hide Zip, TagsIn;
    if |acqs| != 0 {
      var init, last := acqs[..|acqs| - 1], acqs[|acqs| - 1];
      TagsSayings(init, t);
      var at := |Samples(init)|;
      TagsInAllRows(last, 0, |last.values|, at, t);
      assert AllRowsIn(last, 0, |last.values|, at, t) ==
             set i | 0 <= i < |last.indices| && RowSays(last, i, t) && 0 <= last.indices[i] < |last.values|
                     && t.position == at + last.indices[i];
    }
  }

  /** What is pending stands behind what was published. */
  lemma {:induction false} PendingBehind(queue: seq<Queued>, at: int, t: Tag)
    requires QueueOk(queue) && t in PendingTags(queue, at)
    ensures at <= t.position
    decreases |queue|
  {
    hide Zip, TagsIn;
    var q := queue[0];
    if t in TagsOf(q, at) {
      TagsInAllRows(q.acq, q.read, |q.acq.values|, at, t);
      var i :| i in AllRowsIn(q.acq, q.read, |q.acq.values|, at, t);
    } else {
      PendingBehind(queue[1..], at + |q.acq.values| - q.read, t);
    }
  }

  lemma MovedSame(t: Tag, u: Tag, base: int)
    ensures t.(position := t.position + base) == u.(position := u.position + base) <==> t == u
  {
  }

  lemma {:induction false} ShiftedCount(tags: seq<Tag>, base: int, t: Tag)
    ensures Shifted(tags, base)[t.(position := t.position + base)] == multiset(tags)[t]
  {
    hide Shifted;
    NoTags(base);
    if |tags| != 0 {
      var init, last := tags[..|tags| - 1], tags[|tags| - 1];
      ShiftedCount(init, base, t);
      MovedSame(t, last, base);
      ShiftedOne(init, last, base);
      assert tags == init + [last];
    }
  }

  lemma {:induction false} ShiftedWithin(tags: seq<Tag>, base: int, n: nat)
    requires forall t :: t in tags ==> 0 <= t.position < n
    ensures forall t :: t in Shifted(tags, base) ==> base <= t.position < base + n
  {
    if |tags| != 0 {
      ShiftedWithin(tags[..|tags| - 1], base, n);
      assert tags[|tags| - 1] in tags;
    }
  }

  /** Where the samples have been published, exactly what the rows say has been; elsewhere nothing. */
  lemma PublishedIsSaid(queue: seq<Queued>, acqs: seq<Acquisition>, publishedTags: multiset<Tag>, n: nat, t: Tag)
    requires QueueOk(queue) && publishedTags + PendingTags(queue, n) == Tags(acqs)
    requires forall x :: x in publishedTags ==> x.position < n
    ensures publishedTags[t] == if t.position < n then Sayings(acqs, t) else 0
  {
    TagsSayings(acqs, t);
    if t in PendingTags(queue, n) {
      PendingBehind(queue, n, t);
    }
    assert (publishedTags + PendingTags(queue, n))[t] == Tags(acqs)[t];
  }

  /** The tags of a span are those that the rows say for its samples. */
  lemma SpanIsSaid(acqs: seq<Acquisition>, before: multiset<Tag>, tags: seq<Tag>, start: nat, n: nat, t: Tag)
    requires forall x :: x in before ==> x.position < start
    requires forall x :: x in tags ==> 0 <= x.position < n
    requires var at := t.(position := t.position + start);
      (before + Shifted(tags, start))[at] == if at.position < start + n then Sayings(acqs, at) else 0
    ensures multiset(tags)[t] == if 0 <= t.position < n then Sayings(acqs, t.(position := t.position + start)) else 0
  {
    ShiftedCount(tags, start, t);
  }

  ghost predicate AllBefore(tags: multiset<Tag>, n: nat) {
    forall t :: t in tags ==> t.position < n
  }

  /** A span of n samples from position `start` on has exactly the tags that the rows of the acquisitions
      say for its samples, each as often. */
  ghost predicate SpanSays(acqs: seq<Acquisition>, tags: seq<Tag>, start: nat, n: nat) {
    forall t :: multiset(tags)[t] == if 0 <= t.position < n then Sayings(acqs, t.(position := t.position + start)) else 0
  }

  /** Up to position n exactly the tags that the rows say are there. */
  ghost predicate StreamSays(acqs: seq<Acquisition>, tags: multiset<Tag>, n: nat) {
    forall t :: tags[t] == if t.position < n then Sayings(acqs, t) else 0
  }

  lemma StreamIsSaid(queue: seq<Queued>, acqs: seq<Acquisition>, publishedTags: multiset<Tag>, n: nat)
    requires QueueOk(queue) && publishedTags + PendingTags(queue, n) == Tags(acqs) && AllBefore(publishedTags, n)
    ensures StreamSays(acqs, publishedTags, n)
  {
    hide PendingTags, Tags, Sayings;
    forall t
      ensures publishedTags[t] == if t.position < n then Sayings(acqs, t) else 0
    {
      PublishedIsSaid(queue, acqs, publishedTags, n, t);
    }
  }

  lemma AllSpanSaid(queue: seq<Queued>, acqs: seq<Acquisition>, before: multiset<Tag>, tags: seq<Tag>, start: nat, n: nat)
    requires QueueOk(queue) && before + Shifted(tags, start) + PendingTags(queue, start + n) == Tags(acqs)
    requires AllBefore(before, start) && forall t :: t in tags ==> 0 <= t.position < n
    ensures AllBefore(before + Shifted(tags, start), start + n) && SpanSays(acqs, tags, start, n)
  {
    hide PendingTags, Tags, Sayings, Shifted;
    ShiftedWithin(tags, start, n);
    StreamIsSaid(queue, acqs, before + Shifted(tags, start), start + n);
    forall t
      ensures multiset(tags)[t] == if 0 <= t.position < n then Sayings(acqs, t.(position := t.position + start)) else 0
    {
      SpanIsSaid(acqs, before, tags, start, n, t);
    }
  }

  /** The trigger that marks skipped updates is put in front of four of the five columns. */
  function WithDropWarning(acq: Acquisition): Acquisition {
    acq.(indices := [0] + acq.indices, timestamps := [0] + acq.timestamps,
         names := ["WARNING_SAMPLES_DROPPED"] + acq.names, offsets := [0.0] + acq.offsets)
  }

  /** Rows that the four columns that get the warning have in common. */
  function OtherRows(acq: Acquisition): nat {
    Min(Min(Min(|acq.indices|, |acq.names|), |acq.timestamps|), |acq.offsets|)
  }

  /** The warning comes in front of all triggers, and each trigger keeps its own property map,
      exactly if there are more property maps than triggers and they are all the same. */
  lemma DropWarningKeepsTriggers(acq: Acquisition)
    ensures (exists w :: Zip(WithDropWarning(acq)) == [w] + Zip(acq)) <==>
            OtherRows(acq) < |acq.yamls| && forall k :: 0 <= k < OtherRows(acq) ==> acq.yamls[k + 1] == acq.yamls[k]
    ensures WithDropWarning(acq).values == acq.values && WithDropWarning(acq).yamls == acq.yamls
  {
    var m, before, after := OtherRows(acq), Zip(acq), Zip(WithDropWarning(acq));
    assert OtherRows(WithDropWarning(acq)) == m + 1;
    assert |before| == Min(m, |acq.yamls|) && |after| == Min(m + 1, |acq.yamls|);
    if w :| after == [w] + before {
      forall k | 0 <= k < m
        ensures acq.yamls[k + 1] == acq.yamls[k]
      {
        assert after[k + 1] == before[k];
      }
    }
    if m < |acq.yamls| && forall k :: 0 <= k < m ==> acq.yamls[k + 1] == acq.yamls[k] {
      forall k | 0 <= k < m
        ensures after[k + 1] == before[k]
      {
      }
      assert after == [after[0]] + before;
    }
  }

  /** With columns of one length, as the service sends them, the last trigger is lost, and every
      other one is published with the property map of its successor. */
  lemma DropWarningShiftsMaps(acq: Acquisition, n: nat)
    requires |acq.indices| == |acq.names| == |acq.timestamps| == |acq.offsets| == |acq.yamls| == n
    ensures |Zip(WithDropWarning(acq))| == n == |Zip(acq)|
    ensures forall k :: 1 <= k < n ==> Zip(WithDropWarning(acq))[k] == Zip(acq)[k - 1].(yaml := Zip(acq)[k].yaml)
    ensures n > 0 ==> Zip(WithDropWarning(acq))[0] == Trigger(0, "WARNING_SAMPLES_DROPPED", 0, 0.0, Zip(acq)[0].yaml)
  {
  }

  /** The acquisition that stands in for an interrupted subscription. */
  function Interrupted(yaml: string): Acquisition {
    Acquisition([0.0], [0], ["SubscriptionInterrupted"], [0], [0.0], [yaml])
  }

  /** An interruption is one sample, with just the tag that names it, without a time. */
  lemma InterruptedSays(yaml: string)
    ensures Samples([Interrupted(yaml)]) == [0.0]
    ensures Tags([Interrupted(yaml)]) == multiset{Tag(0, "SubscriptionInterrupted", 0.0, None, yaml)}
  {
    var acqs := [Interrupted(yaml)];
    var row := Trigger(0, "SubscriptionInterrupted", 0, 0.0, yaml);
    assert Zip(acqs[0]) == [row] && [row][..0] == [];
    assert acqs[..0] == [] && Samples([]) == [] && Tags([]) == multiset{};
    assert TagsIn([row], 0, 1, 0) == multiset{TagAt(row, 0)};
  }

  /** A message of the service. */
  datatype Reply = Error(yaml: string) | Empty | Update(acq: Acquisition, skipped: int)

  /** What a reply adds to the queue. */
  function Contribution(rep: Reply): seq<Acquisition> {
    match rep
    case Error(yaml) => [Interrupted(yaml)]
    case Empty => []
    case Update(acq, skipped) => [if skipped != 0 then WithDropWarning(acq) else acq]
  }

  function Contributions(reps: seq<Reply>): seq<Acquisition> {
    if |reps| == 0 then [] else Contributions(reps[..|reps| - 1]) + Contribution(reps[|reps| - 1])
  }

  datatype Event = Received(rep: Reply) | Span(size: nat)

  function Replies(events: seq<Event>): seq<Reply> {
    if |events| == 0 then []
    else
      var init, last := Replies(events[..|events| - 1]), events[|events| - 1];
      if last.Received? then init + [last.rep] else init
  }

  class StreamSource {
    var queue: seq<Queued>

    // what has happened since the source was made
    ghost var enqueued: seq<Acquisition>
    ghost var published: seq<real>
    ghost var publishedTags: multiset<Tag>

    /** Published so far and still queued make up what was enqueued: no sample and no tag is lost,
        repeated, moved or out of order. */
    ghost predicate Valid()
      reads this
    {
      && QueueOk(queue)
      && published + Pending(queue) == Samples(enqueued)
      && publishedTags + PendingTags(queue, |published|) == Tags(enqueued)
      && AllBefore(publishedTags, |published|)
    }

    constructor ()
      ensures Valid() && queue == [] && enqueued == [] && published == [] && publishedTags == multiset{}
    {
      queue, enqueued, published, publishedTags := [], [], [], multiset{};
    }

    method Enqueue(acq: Acquisition)
      requires Valid() && |acq.values| > 0
      modifies this
      ensures Valid() && queue == old(queue) + [Queued(acq, 0)]
      ensures enqueued == old(enqueued) + [acq] && published == old(published) && publishedTags == old(publishedTags)
    {
      hide TagsOf, PendingTags, Pending;
      PendingAppend(queue, Queued(acq, 0));
      PendingTagsAppend(queue, Queued(acq, 0), |published|);
      assert (enqueued + [acq])[..|enqueued|] == enqueued;
      queue := queue + [Queued(acq, 0)];
      enqueued := enqueued + [acq];
    }

    /** copyRestResponseDataIntoQueue: an error, too, becomes an acquisition. */
    method CopyResponseIntoQueue(rep: Reply)
      requires Valid() && (rep.Update? ==> |rep.acq.values| > 0)
      modifies this
      ensures Valid() && enqueued == old(enqueued) + Contribution(rep)
      ensures rep.Empty? ==> queue == old(queue)
      ensures rep.Error? ==> queue == old(queue) + [Queued(Interrupted(rep.yaml), 0)]
      ensures rep.Update? && rep.skipped == 0 ==> queue == old(queue) + [Queued(rep.acq, 0)]
      ensures rep.Update? && rep.skipped != 0 ==> queue == old(queue) + [Queued(WithDropWarning(rep.acq), 0)]
      ensures published == old(published) && publishedTags == old(publishedTags)
    {
      match rep {
        case Error(yaml) => Enqueue(Interrupted(yaml));
        case Empty =>
        case Update(acq, skipped) =>
          if skipped != 0 {
            Enqueue(WithDropWarning(acq));
          } else {
            Enqueue(acq);
          }
      }
    }

    /** Any replies, cut into any spans: nothing of what was enqueued is lost or repeated. */
    method Run(events: seq<Event>)
      requires Valid() && enqueued == []
      requires forall e :: e in events && e.Received? && e.rep.Update? ==> |e.rep.acq.values| > 0
      modifies this
      ensures published + Pending(queue) == Samples(Contributions(Replies(events)))
      ensures publishedTags + PendingTags(queue, |published|) == Tags(Contributions(Replies(events)))
      ensures StreamSays(Contributions(Replies(events)), publishedTags, |published|)
    {
      hide Pending, PendingTags, Samples, Tags, QueueOk, SpanSays, StreamSays, AllBefore;
      for i := 0 to |events|
        invariant Valid() && enqueued == Contributions(Replies(events[..i]))
      {
        assert events[..i + 1][..i] == events[..i];
        match events[i] {
          case Received(rep) =>
            assert (Replies(events[..i]) + [rep])[..|Replies(events[..i])|] == Replies(events[..i]);
            CopyResponseIntoQueue(rep);
          case Span(size) =>
            var output := new real[size];
            var written, tags, status := ProcessBulk(output);
        }
      }
      assert events[..|events|] == events;
      StreamIsSaid(queue, enqueued, publishedTags, |published|);
    }

    /** Copies k samples of the acquisition to the span. */
    static method CopySamples(values: seq<real>, from: nat, k: nat, output: array<real>, written: nat)
      requires from + k <= |values| && written + k <= output.Length
      modifies output
      ensures output[..written + k] == old(output[..written]) + values[from..from + k]
      ensures output[written + k..] == old(output[written + k..])
    {
      for i := 0 to k
        invariant output[..written] == old(output[..written])
        invariant output[written..written + i] == values[from..from + i]
        invariant output[written + k..] == old(output[written + k..])
      {
        output[written + i] := values[from + i];
      }
    }

    /** The tags of the triggers that fall into the k samples from `read`, in table order. */
    static method PublishTags(ts: seq<Trigger>, read: nat, k: nat, written: nat, ghost base: int) returns (tags: seq<Tag>)
      ensures Shifted(tags, base) == TagsIn(ts, read, read + k, base + written)
      ensures forall t :: t in tags ==> written <= t.position < written + k
    {
      hide Shifted;
      NoTags(base);
      tags := [];
      for i := 0 to |ts|
        invariant Shifted(tags, base) == TagsIn(ts[..i], read, read + k, base + written)
        invariant forall t :: t in tags ==> written <= t.position < written + k
      {
        var t := ts[i];
        assert ts[..i + 1][..i] == ts[..i];
        if t.index < read || t.index - read >= k {
          continue;
        }
        ShiftedOne(tags, TagAt(t, written + (t.index - read)), base);
        tags := tags + [TagAt(t, written + (t.index - read))];
      }
      assert ts[..|ts|] == ts;
    }

    /** One round: the front acquisition fills the span as far as either goes. */
    method PublishFront(output: array<real>, written: nat, ghost start: nat) returns (k: nat, tags: seq<Tag>)
      requires QueueOk(queue) && queue != [] && written < output.Length
      modifies this`queue, output
      ensures QueueOk(queue) && 0 < k <= output.Length - written
      ensures output[..written] == old(output[..written]) && output[written + k..] == old(output[written + k..])
      ensures old(Pending(queue)) == output[written..written + k] + Pending(queue)
      ensures old(PendingTags(queue, start + written)) == Shifted(tags, start) + PendingTags(queue, start + written + k)
      ensures forall t :: t in tags ==> written <= t.position < written + k
      ensures var q := old(queue[0]);
        forall t :: Shifted(tags, start)[t] == |AllRowsIn(q.acq, q.read, q.read + k, start + written, t)|
    {
      hide Pending, PendingTags, TagsIn, Zip, Shifted, AllRowsIn;
      var d := queue[0];
      k := Min(output.Length - written, |d.acq.values| - d.read);
      AdvanceOk(queue, k);
      AdvanceSamples(queue, k);
      AdvanceTags(queue, k, start + written);
      CopySamples(d.acq.values, d.read, k, output, written);
      assert output[written..written + k] == d.acq.values[d.read..d.read + k];
      tags := PublishTags(Zip(d.acq), d.read, k, written, start);
      queue := Advance(queue, k);
      forall t
        ensures Shifted(tags, start)[t] == |AllRowsIn(d.acq, d.read, d.read + k, start + written, t)|
      {
        TagsInAllRows(d.acq, d.read, d.read + k, start + written, t);
      }
    }

    /** Takes samples and tags from the queue until the span is full or the queue is empty. */
    method FillSpan(output: array<real>, ghost start: nat) returns (written: nat, tags: seq<Tag>)
      requires QueueOk(queue)
      modifies this`queue, output
      ensures QueueOk(queue) && written <= output.Length && (written == output.Length || queue == [])
      ensures old(Pending(queue)) == output[..written] + Pending(queue) && output[written..] == old(output[written..])
      ensures old(PendingTags(queue, start)) == Shifted(tags, start) + PendingTags(queue, start + written)
      ensures forall t :: t in tags ==> 0 <= t.position < written
    {
      hide Pending, PendingTags, Shifted, QueueOk;
      NoTags(start);
      written, tags := 0, [];
      while written < output.Length && queue != []
        invariant QueueOk(queue) && written <= output.Length
        invariant old(Pending(queue)) == output[..written] + Pending(queue) && output[written..] == old(output[written..])
        invariant old(PendingTags(queue, start)) == Shifted(tags, start) + PendingTags(queue, start + written)
        invariant forall t :: t in tags ==> 0 <= t.position < written
        decreases output.Length - written
      {
        ghost var before := output[..written];
        var k, more := PublishFront(output, written, start);
        ShiftedAppend(tags, more, start);
        Assoc(before, output[written..written + k], Pending(queue));
        assert output[..written + k] == before + output[written..written + k];
        assert output[written + k..] == old(output[written..])[k..];
        tags, written := tags + more, written + k;
      }
    }

    /** Fills the span from the queue, as far as either goes, and publishes the tags that fall into
        the part that is filled; their positions count from the start of the span. */
    method ProcessBulk(output: array<real>) returns (written: nat, tags: seq<Tag>, status: Status)
      requires Valid()
      modifies this, output
      ensures Valid()
      ensures enqueued == old(enqueued)
      ensures written == Min(output.Length, |old(Pending(queue))|)
      ensures output[..written] == old(Pending(queue))[..written] && output[written..] == old(output[written..])
      ensures Pending(queue) == old(Pending(queue))[written..]
      ensures published == old(published) + output[..written]
      ensures publishedTags == old(publishedTags) + Shifted(tags, |old(published)|)
      ensures SpanSays(enqueued, tags, |old(published)|, written)
      ensures status == if written == 0 then INSUFFICIENT_INPUT_ITEMS else OK
    {
      hide Pending, PendingTags, Samples, Tags, Shifted, QueueOk, SpanSays, StreamSays, AllBefore;
      NothingPending();
      ghost var start, all := |published|, Pending(queue);
      written, tags := FillSpan(output, start);
      status := if written == 0 then INSUFFICIENT_INPUT_ITEMS else OK;
      Conserve(published, output[..written], Pending(queue), all);
      AllSpanSaid(queue, enqueued, publishedTags, tags, start, written);
      published := published + output[..written];
      publishedTags := publishedTags + Shifted(tags, start);
    }
  }
}
