/** Keeping the list of sinks that a chart draws in step with the names it is asked to draw (Chart in
    src/ui/charts/Chart.hpp, SinkRegistry in src/ui/charts/SinkRegistry.hpp). */
module ChartSinks {
  import opened Shared

  /** A registered sink, with its identity; both of its names can be asked for. */
  datatype Sink = Sink(uniqueName: string, name: string, signalName: string)

  predicate Answers(sink: Sink, name: string) {
    sink.signalName == name || sink.name == name
  }

  predicate Desired(sink: Sink, names: seq<string>) {
    sink.name in names || sink.signalName in names
  }

  /** The first registered sink that answers to the name, in the order of the registry. */
  function FindSink(registry: seq<Sink>, name: string): (r: Option<Sink>)
    ensures r.Some? ==> r.value in registry && Answers(r.value, name)
    ensures r.None? ==> forall s :: s in registry ==> !Answers(s, name)
    ensures r.Some? ==> exists i :: 0 <= i < |registry| && registry[i] == r.value && forall j :: 0 <= j < i ==> !Answers(registry[j], name)
  {
    if registry == [] then None
    else if Answers(registry[0], name) then Some(registry[0])
    else FindSink(registry[1..], name)
  }

  /** What is left after erasing the sinks that are not asked for; empty entries stay. */
  function Remaining(sinks: seq<Option<Sink>>, names: seq<string>): (r: seq<Option<Sink>>)
    ensures forall e :: e in r <==> e in sinks && (e.None? || Desired(e.value, names))
  {
    if sinks == [] then []
    else
      var n := |sinks| - 1;
      Remaining(sinks[..n], names) + if sinks[n].None? || Desired(sinks[n].value, names) then [sinks[n]] else []
  }

  ghost predicate Held(sinks: seq<Option<Sink>>, name: string) {
    exists e :: e in sinks && e.Some? && Answers(e.value, name)
  }

  /** One sink for every name that is not held yet and that the registry resolves. */
  ghost function Missing(sinks: seq<Option<Sink>>, names: seq<string>, registry: seq<Sink>): (r: seq<Option<Sink>>)
    ensures forall e :: e in r <==> exists n :: n in names && !Held(sinks, n) && FindSink(registry, n).Some? && e == FindSink(registry, n)
  {
    if names == [] then []
    else
      var n := |names| - 1;
      var front := Missing(sinks, names[..n], registry);
      var found := FindSink(registry, names[n]);
      assert names == names[..n] + [names[n]];
      if !Held(sinks, names[n]) && found.Some? then front + [found] else front
  }

  ghost function Synced(sinks: seq<Option<Sink>>, names: seq<string>, registry: seq<Sink>): seq<Option<Sink>> {
    var remaining := Remaining(sinks, names);
    remaining + Missing(remaining, names, registry)
  }

  /** Every held sink is asked for, and every name that the registry resolves is held. */
  ghost predicate InStep(sinks: seq<Option<Sink>>, names: seq<string>, registry: seq<Sink>) {
    && (forall e :: e in sinks && e.Some? ==> Desired(e.value, names))
    && (forall n :: n in names && FindSink(registry, n).Some? ==> Held(sinks, n))
  }

  /** After a sync the list is in step. */
  lemma SyncBringsInStep(sinks: seq<Option<Sink>>, names: seq<string>, registry: seq<Sink>)
    ensures InStep(Synced(sinks, names, registry), names, registry)
  {
    var remaining, synced := Remaining(sinks, names), Synced(sinks, names, registry);
    forall n | n in names && FindSink(registry, n).Some?
      ensures Held(synced, n)
    {
      if Held(remaining, n) {
        var e :| e in remaining && e.Some? && Answers(e.value, n);
        assert e in synced;
      } else {
        assert FindSink(registry, n) in Missing(remaining, names, registry);
        assert FindSink(registry, n) in synced;
      }
    }
  }

  lemma {:induction false} AllRemain(sinks: seq<Option<Sink>>, names: seq<string>)
    requires forall e :: e in sinks && e.Some? ==> Desired(e.value, names)
    ensures Remaining(sinks, names) == sinks
  {
    hide Desired;
    if sinks != [] {
      var front, last := sinks[..|sinks| - 1], sinks[|sinks| - 1];
      AllRemain(front, names);
      assert last in sinks && Remaining(sinks, names) == front + [last];
    }
  }

  lemma {:induction false} NoneMissing(sinks: seq<Option<Sink>>, names: seq<string>, registry: seq<Sink>)
    requires forall n :: n in names && FindSink(registry, n).Some? ==> Held(sinks, n)
    ensures Missing(sinks, names, registry) == []
  {
    if names != [] {
      NoneMissing(sinks, names[..|names| - 1], registry);
    }
  }

  /** A sync leaves a list as it is exactly when it is in step already. */
  lemma UnchangedExactlyWhen(sinks: seq<Option<Sink>>, names: seq<string>, registry: seq<Sink>)
    ensures Synced(sinks, names, registry) == sinks <==> InStep(sinks, names, registry)
  {
    if InStep(sinks, names, registry) {
      AllRemain(sinks, names);
      NoneMissing(sinks, names, registry);
      assert sinks + [] == sinks;
    } else {
      SyncBringsInStep(sinks, names, registry);
    }
  }

  /** Syncing twice is syncing once. */
  lemma SyncIsIdempotent(sinks: seq<Option<Sink>>, names: seq<string>, registry: seq<Sink>)
    ensures Synced(Synced(sinks, names, registry), names, registry) == Synced(sinks, names, registry)
  {
    SyncBringsInStep(sinks, names, registry);
    UnchangedExactlyWhen(Synced(sinks, names, registry), names, registry);
  }

  /** The cheap check: an entry for every name, each answering to its own. */
  predicate MatchesInOrder(sinks: seq<Option<Sink>>, names: seq<string>) {
    |sinks| == |names| && forall i :: 0 <= i < |sinks| ==> sinks[i].Some? && Answers(sinks[i].value, names[i])
  }

  lemma MatchingIsInStep(sinks: seq<Option<Sink>>, names: seq<string>, registry: seq<Sink>)
    requires MatchesInOrder(sinks, names)
    ensures InStep(sinks, names, registry)
  {
    forall n | n in names
      ensures Held(sinks, n)
    {
      var i :| 0 <= i < |names| && names[i] == n;
      assert sinks[i] in sinks;
    }
    forall e | e in sinks && e.Some?
      ensures Desired(e.value, names)
    {
      var i :| 0 <= i < |sinks| && sinks[i] == e;
      assert names[i] in names;
    }
  }

  class Chart {
    var signalSinks: seq<Option<Sink>>

    method EraseUndesired(sinkNames: seq<string>)
      modifies this
      ensures signalSinks == Remaining(old(signalSinks), sinkNames)
    {
      ghost var before := signalSinks;
      var kept: seq<Option<Sink>> := [];
      for i := 0 to |signalSinks|
        modifies {}
        invariant kept == Remaining(before[..i], sinkNames)
      {
        var sink := signalSinks[i];
        assert before[..i + 1][..i] == before[..i];
        if !(sink.Some? && sink.value.name !in sinkNames && sink.value.signalName !in sinkNames) {
          kept := kept + [sink];
        }
      }
      assert before[..|before|] == before;
      signalSinks := kept;
    }

    /** The names of the held sinks. */
    method CurrentNames() returns (current: set<string>)
      ensures forall n :: n in current <==> Held(signalSinks, n)
    {
      current := {};
      for i := 0 to |signalSinks|
        invariant forall n :: n in current <==> Held(signalSinks[..i], n)
      {
        HeldStep(signalSinks, i);
        if signalSinks[i].Some? {
          current := current + {signalSinks[i].value.name};
          current := current + {signalSinks[i].value.signalName};
        }
      }
      assert signalSinks[..|signalSinks|] == signalSinks;
    }

    method SyncSinksFromNames(sinkNames: seq<string>, registry: seq<Sink>)
      modifies this
      ensures signalSinks == Synced(old(signalSinks), sinkNames, registry)
    {
      EraseUndesired(sinkNames);
      var current := CurrentNames();
      ghost var remaining := signalSinks;
      assert remaining + [] == remaining;
      for i := 0 to |sinkNames|
        invariant signalSinks == remaining + Missing(remaining, sinkNames[..i], registry)
      {
        var name := sinkNames[i];
        assert sinkNames[..i + 1][..i] == sinkNames[..i];
        if name !in current {
          var sink := FindSink(registry, name);
          if sink.Some? {
            signalSinks := signalSinks + [sink];
          }
        }
      }
      assert sinkNames[..|sinkNames|] == sinkNames;
    }

    /** The cheap check before the sync never changes the outcome. */
    method SyncSinksIfNeeded(dataSinks: seq<string>, registry: seq<Sink>)
      modifies this
      ensures signalSinks == Synced(old(signalSinks), dataSinks, registry)
    {
      if |signalSinks| != |dataSinks| {
        SyncSinksFromNames(dataSinks, registry);
        return;
      }
      for i := 0 to |dataSinks|
        invariant signalSinks == old(signalSinks)
        invariant forall k :: 0 <= k < i ==> signalSinks[k].Some? && Answers(signalSinks[k].value, dataSinks[k])
      {
        if signalSinks[i].None? || (signalSinks[i].value.name != dataSinks[i] && signalSinks[i].value.signalName != dataSinks[i]) {
          SyncSinksFromNames(dataSinks, registry);
          return;
        }
      }
      MatchingIsInStep(signalSinks, dataSinks, registry);
      UnchangedExactlyWhen(signalSinks, dataSinks, registry);
    }
  }

  lemma HeldStep(sinks: seq<Option<Sink>>, i: nat)
    requires i < |sinks|
    ensures forall n :: Held(sinks[..i + 1], n) <==> Held(sinks[..i], n) || (sinks[i].Some? && Answers(sinks[i].value, n))
  {
    var before, after := sinks[..i], sinks[..i + 1];
    assert after == before + [sinks[i]];
    forall n
      ensures Held(after, n) <==> Held(before, n) || (sinks[i].Some? && Answers(sinks[i].value, n))
    {
      if Held(before, n) {
        var e :| e in before && e.Some? && Answers(e.value, n);
        assert e in after;
      }
      if sinks[i].Some? && Answers(sinks[i].value, n) {
        assert sinks[i] in after;
      }
    }
  }
}
