// Many goroutines in binaryMetadataRegistryImpl.putMetadata.  Each reads the cache in one critical
// section, merges and sends on its own, and merges again in a second critical section; between
// those steps anything can happen.
module MetadataPuts {
  import opened Wrappers
  import opened Bytes
  import opened Metadata
  import opened MetadataCache
  import SchemaIds

  datatype Thread =
    | Begun(input: Meta)
    | Snapshot(input: Meta, prev: Option<Meta>)
    | Merged(input: Meta, prev: Option<Meta>, merged: Meta, mustSend: bool)
    | Sent(input: Meta, prev: Option<Meta>, merged: Meta)
    | Done(input: Meta)
    | Failed(input: Meta)

  datatype State = State(cache: map<int32, Meta>, threads: map<nat, Thread>)

  datatype Action =
    | Begin(t: nat, m: Meta)        // a goroutine calls putMetadata
    | Read(t: nat)                  // cache.getMetadata
    | MergeLocally(t: nat)          // mergeMetadata(old, meta)
    | Send(t: nat, ok: bool)        // sendBinaryMeta, which may fail
    | Store(t: nat)                 // cache.putMetadata
    | Fetch(m: Meta)                // a record requested from the server is cached

  function Lookup(cache: map<int32, Meta>, typeId: int32): Option<Meta> {
    if typeId in cache then Some(cache[typeId]) else None
  }

  // The entry that was read has only grown since.
  ghost predicate HasRead(cache: map<int32, Meta>, m: Meta, prev: Option<Meta>) {
    WellFormed(m) && (prev.Some? ==>
      && prev.value.typeId == m.typeId && WellFormed(prev.value)
      && m.typeId in cache && Grows(prev.value, cache[m.typeId]))
  }

  // What a goroutine knows in each phase.
  ghost predicate ThreadInv(cache: map<int32, Meta>, thread: Thread) {
    match thread
    case Begun(m) => WellFormed(m)
    case Snapshot(m, prev) => HasRead(cache, m, prev)
    case Merged(m, prev, merged, mustSend) => HasRead(cache, m, prev) && thread == Merging(m, prev)
    case Sent(m, prev, merged) => HasRead(cache, m, prev) && Merged(m, prev, merged, true) == Merging(m, prev)
    case Done(m) => m.typeId in cache && Holds(cache[m.typeId], m)
    case Failed(_) => true
  }

  ghost predicate Inv(s: State) {
    CacheWellFormed(s.cache) && forall t :: t in s.threads ==> ThreadInv(s.cache, s.threads[t])
  }

  // One atomic step; an action that is not enabled changes nothing.
  ghost function Step(s: State, a: Action): State
    requires Inv(s)
  {
    match a
    case Begin(t, m) =>
      if t in s.threads || !WellFormed(m) then s else s.(threads := s.threads[t := Begun(m)])
    case Read(t) =>
      if t !in s.threads || !s.threads[t].Begun? then s
      else
        var m := s.threads[t].input;
        s.(threads := s.threads[t := Snapshot(m, Lookup(s.cache, m.typeId))])
    case MergeLocally(t) =>
      if t !in s.threads || !s.threads[t].Snapshot? then s
      else s.(threads := s.threads[t := Merging(s.threads[t].input, s.threads[t].prev)])
    case Send(t, ok) =>
      if t !in s.threads || !s.threads[t].Merged? || !s.threads[t].mustSend then s
      else
        var thread := s.threads[t];
        s.(threads := s.threads[t := if ok then Sent(thread.input, thread.prev, thread.merged) else Failed(thread.input)])
    case Store(t) =>
      if t !in s.threads || !CanStore(s.threads[t]) then s
      else
        var (cache, ok) := Put(s.cache, s.threads[t].merged);
        var m := s.threads[t].input;
        State(cache, s.threads[t := if ok then Done(m) else Failed(m)])
    case Fetch(m) =>
      if WellFormed(m) then s.(cache := Put(s.cache, m).0) else s
  }

  ghost function Merging(m: Meta, prev: Option<Meta>): Thread
    requires prev.Some? ==> WellFormed(prev.value)
  {
    if prev.None? then Merged(m, prev, m, true)
    else
      match MergeMeta(prev.value, m)
      case Conflict => Failed(m)
      case Unchanged => Merged(m, prev, m, false)
      case Changed(merged) => Merged(m, prev, merged, true)
  }

  predicate CanStore(thread: Thread) {
    thread.Sent? || (thread.Merged? && !thread.mustSend)
  }

  // What a goroutine knows stays true while the cache grows under it.
  lemma ThreadInvStable(earlier: map<int32, Meta>, later: map<int32, Meta>, thread: Thread)
    requires ThreadInv(earlier, thread) && CacheGrows(earlier, later)
    ensures ThreadInv(later, thread)
  {
    hide Grows, Holds, WellFormed, HasRead, Merging;
    match thread
    case Begun(_) | Failed(_) =>
    case Done(m) => HoldsGrows(m, earlier[m.typeId], later[m.typeId]);
    case _ => ReadStable(earlier, later, thread.input, thread.prev);
  }

  lemma ReadStable(earlier: map<int32, Meta>, later: map<int32, Meta>, m: Meta, prev: Option<Meta>)
    requires HasRead(earlier, m, prev) && CacheGrows(earlier, later)
    ensures HasRead(later, m, prev)
  {
    hide Grows, WellFormed;
    if prev.Some? {
      GrowsTransitive(prev.value, earlier[m.typeId], later[m.typeId]);
    }
  }

  lemma MergingInv(cache: map<int32, Meta>, m: Meta, prev: Option<Meta>)
    requires HasRead(cache, m, prev)
    ensures prev.Some? ==> WellFormed(prev.value)
    ensures ThreadInv(cache, Merging(m, prev))
  {
    hide Grows, Holds, WellFormed, MergeMeta;
  }

  // Storing: however the cache has moved on since the goroutine merged, its second merge comes to
  // putting the input in one go, but for an affinity key that the first merge has dropped.
  lemma StoreMerges(cache: map<int32, Meta>, m: Meta, prev: Option<Meta>)
    requires CacheWellFormed(cache) && HasRead(cache, m, prev) && Merging(m, prev).Merged?
    ensures var merged := Merging(m, prev).merged;
      Put(cache, merged) == Put(cache, m.(affKeyName := merged.affKeyName))
  {
    hide Grows, WellFormed, MergeMeta;
    if prev.Some? && MergeMeta(prev.value, m).Changed? {
      MergeCatchUp(prev.value, cache[m.typeId], m);
      MergedType(prev.value, m);
    } else {
      assert m.(affKeyName := m.affKeyName) == m;
    }
  }

  // The affinity key is only ever dropped, and only from an enum.
  lemma MergedType(prev: Meta, m: Meta)
    requires WellFormed(prev) && MergeMeta(prev, m).Changed?
    ensures var merged := MergeMeta(prev, m).meta;
      && merged.typeId == m.typeId
      && merged.affKeyName == if m.body.Enum? then [] else m.affKeyName
  {
  }

  lemma RenamedKey(entry: Meta, m: Meta, key: Name)
    ensures Holds(entry, m.(affKeyName := key)) <==> Holds(entry, m)
    ensures Agrees(entry, m.(affKeyName := key)) <==> Agrees(entry, m)
    ensures WellFormed(m.(affKeyName := key)) <==> WellFormed(m)
  {
  }

  lemma StoredInv(cache: map<int32, Meta>, m: Meta, prev: Option<Meta>)
    requires CacheWellFormed(cache) && HasRead(cache, m, prev) && Merging(m, prev).Merged?
    ensures var (after, ok) := Put(cache, Merging(m, prev).merged);
      && CacheGrows(cache, after) && CacheWellFormed(after)
      && (ok ==> ThreadInv(after, Done(m)))
      && (ok ==> (HoldsAll(after[m.typeId], m) <==> (m.typeId in cache ==> Agrees(cache[m.typeId], m))))
  {
    hide Grows, Holds, Agrees, WellFormed, Put, Merging, CacheWellFormed, CacheGrows;
    var key := Merging(m, prev).merged.affKeyName;
    StoreMerges(cache, m, prev);
    RenamedKey(m, m, key);
    assert WellFormed(m) by { ReadWellFormed(cache, m, prev); }
    PutOutcome(cache, m.(affKeyName := key));
    var after := Put(cache, m.(affKeyName := key)).0;
    if m.typeId in after {
      RenamedKey(after[m.typeId], m, key);
    }
    if m.typeId in cache {
      RenamedKey(cache[m.typeId], m, key);
    }
  }

  lemma ReadWellFormed(cache: map<int32, Meta>, m: Meta, prev: Option<Meta>)
    requires HasRead(cache, m, prev)
    ensures WellFormed(m) && (prev.Some? ==> WellFormed(prev.value))
  {
  }

  // Every step keeps the invariant and only adds to the cache.
  lemma StepKeeps(s: State, a: Action)
    requires Inv(s)
    ensures Inv(Step(s, a)) && CacheGrows(s.cache, Step(s, a).cache)
  {
    hide Grows, Holds, WellFormed, Put, MergeMeta, ThreadInv, Merging;
    var s' := Step(s, a);
    forall id | id in s.cache ensures Grows(s.cache[id], s.cache[id]) {
      GrowsReflexive(s.cache[id]);
    }
    match a {
      case Begin(t, m) =>
        BegunInv(s.cache, m);
      case Read(t) =>
        if t in s.threads && s.threads[t].Begun? {
          ReadInv(s.cache, s.threads[t].input);
        }
      case MergeLocally(t) =>
        if t in s.threads && s.threads[t].Snapshot? {
          ThreadRead(s.cache, s.threads[t]);
          MergingInv(s.cache, s.threads[t].input, s.threads[t].prev);
        }
      case Send(t, ok) =>
        if t in s.threads && s.threads[t].Merged? && s.threads[t].mustSend {
          SentInv(s.cache, s.threads[t]);
        }
      case Store(t) =>
        if t in s.threads && CanStore(s.threads[t]) {
          ThreadRead(s.cache, s.threads[t]);
          StoredInv(s.cache, s.threads[t].input, s.threads[t].prev);
          FailedInv(s'.cache, s.threads[t].input);
        }
      case Fetch(m) =>
        if WellFormed(m) {
          PutOutcome(s.cache, m);
        }
    }
    forall t | t in s'.threads ensures ThreadInv(s'.cache, s'.threads[t]) {
      if t in s.threads && s'.threads[t] == s.threads[t] {
        ThreadInvStable(s.cache, s'.cache, s.threads[t]);
      }
    }
  }

  lemma BegunInv(cache: map<int32, Meta>, m: Meta)
    ensures WellFormed(m) ==> ThreadInv(cache, Begun(m))
  {
  }

  lemma FailedInv(cache: map<int32, Meta>, m: Meta)
    ensures ThreadInv(cache, Failed(m))
  {
  }

  lemma ReadInv(cache: map<int32, Meta>, m: Meta)
    requires CacheWellFormed(cache) && ThreadInv(cache, Begun(m))
    ensures ThreadInv(cache, Snapshot(m, Lookup(cache, m.typeId)))
  {
    if m.typeId in cache {
      GrowsReflexive(cache[m.typeId]);
    }
  }

  // What a goroutine has read, and that what it has merged comes of that.
  lemma ThreadRead(cache: map<int32, Meta>, thread: Thread)
    requires (thread.Snapshot? || thread.Merged? || thread.Sent?) && ThreadInv(cache, thread)
    ensures HasRead(cache, thread.input, thread.prev)
    ensures thread.prev.Some? ==> WellFormed(thread.prev.value)
    ensures thread.Snapshot? || (Merging(thread.input, thread.prev).Merged?
      && thread.merged == Merging(thread.input, thread.prev).merged)
  {
  }

  lemma SentInv(cache: map<int32, Meta>, thread: Thread)
    requires thread.Merged? && thread.mustSend && ThreadInv(cache, thread)
    ensures ThreadInv(cache, Sent(thread.input, thread.prev, thread.merged)) && ThreadInv(cache, Failed(thread.input))
  {
  }

  ghost function Run(s: State, actions: seq<Action>): (r: State)
    requires Inv(s)
    ensures Inv(r)
    decreases |actions|
  {
    if actions == [] then s
    else
      StepKeeps(s, actions[0]);
      Run(Step(s, actions[0]), actions[1..])
  }

  lemma {:induction false} RunGrows(s: State, actions: seq<Action>)
    requires Inv(s)
    ensures CacheGrows(s.cache, Run(s, actions).cache)
    decreases |actions|
  {
    if actions == [] {
      forall id | id in s.cache ensures Grows(s.cache[id], s.cache[id]) {
        GrowsReflexive(s.cache[id]);
      }
    } else {
      hide Grows;
      StepKeeps(s, actions[0]);
      var next := Step(s, actions[0]);
      RunGrows(next, actions[1..]);
      var last := Run(next, actions[1..]);
      forall id | id in s.cache ensures id in last.cache && Grows(s.cache[id], last.cache[id]) {
        GrowsTransitive(s.cache[id], next.cache[id], last.cache[id]);
      }
    }
  }

  const EMPTY := State(map[], map[])

  // The two merges of putMetadata, with whatever happens in between, are one put: in every
  // interleaving a goroutine that stores moves the cache as putting its input there in one go would,
  // and fails exactly if that fails.  Only an enum may have lost its affinity key on the way.
  lemma StoreIsPut(actions: seq<Action>, t: nat)
    ensures var s := Run(EMPTY, actions);
      t in s.threads && CanStore(s.threads[t]) ==>
      var m, merged := s.threads[t].input, s.threads[t].merged;
      && (Step(s, Store(t)).cache, Step(s, Store(t)).threads[t] == Done(m)) == Put(s.cache, m.(affKeyName := merged.affKeyName))
      && (merged.affKeyName == m.affKeyName || (m.body.Enum? && merged.affKeyName == []))
  {
    hide Put, Run, ThreadInv, HasRead, Merging;
    var s := Run(EMPTY, actions);
    if t in s.threads && CanStore(s.threads[t]) {
      var m, prev := s.threads[t].input, s.threads[t].prev;
      ThreadRead(s.cache, s.threads[t]);
      StoreMerges(s.cache, m, prev);
      MergingKey(m, prev);
    }
  }

  lemma MergingKey(m: Meta, prev: Option<Meta>)
    requires (prev.Some? ==> WellFormed(prev.value)) && Merging(m, prev).Merged?
    ensures var merged := Merging(m, prev).merged;
      && merged.typeId == m.typeId && merged.body.Enum? == m.body.Enum?
      && (merged.affKeyName == m.affKeyName || (m.body.Enum? && merged.affKeyName == []))
  {
  }

  // Which field list a schema id stands for after a store that succeeds: the one that came first.
  lemma StoredSchemas(actions: seq<Action>, t: nat, id: int32)
    requires t in Run(EMPTY, actions).threads && CanStore(Run(EMPTY, actions).threads[t])
    requires Step(Run(EMPTY, actions), Store(t)).threads[t].Done?
    ensures var s := Run(EMPTY, actions);
      var m, known := s.threads[t].input, SchemaOf(s.cache, s.threads[t].input.typeId, id);
      SchemaOf(Step(s, Store(t)).cache, m.typeId, id) ==
        if known.Some? then known
        else if m.body.Fields? && id in m.body.schemas then Some(m.body.schemas[id])
        else None
  {
    hide Put, Run, SchemaOf;
    var s := Run(EMPTY, actions);
    StoreIsPut(actions, t);
    PutSchemas(s.cache, s.threads[t].input.(affKeyName := s.threads[t].merged.affKeyName), id);
  }

  // So a put is taken over as it is exactly if the entry did not disagree when it was stored.
  lemma StoreExact(actions: seq<Action>, t: nat)
    ensures var s := Run(EMPTY, actions);
      t in s.threads && CanStore(s.threads[t]) && Step(s, Store(t)).threads[t].Done? ==>
      var m, after := s.threads[t].input, Step(s, Store(t)).cache;
      m.typeId in after && (HoldsAll(after[m.typeId], m) <==> (m.typeId in s.cache ==> Agrees(s.cache[m.typeId], m)))
  {
    hide Put, Run, ThreadInv, HasRead, Merging, HoldsAll, Agrees;
    var s := Run(EMPTY, actions);
    if t in s.threads && CanStore(s.threads[t]) && Step(s, Store(t)).threads[t].Done? {
      ThreadRead(s.cache, s.threads[t]);
      StoredInv(s.cache, s.threads[t].input, s.threads[t].prev);
      StepKeeps(s, Store(t));
      DoneHolds(Step(s, Store(t)), t);
    }
  }

  lemma DoneHolds(s: State, t: nat)
    requires Inv(s) && t in s.threads && s.threads[t].Done?
    ensures var m := s.threads[t].input; m.typeId in s.cache && Holds(s.cache[m.typeId], m)
  {
  }

  // ------------------------------------------------------- inputs that agree

  // All metadata that comes into a run, from callers and from the server.
  ghost function Inputs(actions: seq<Action>): set<Meta> {
    set a | a in actions && (a.Begin? || a.Fetch?) :: a.m
  }

  // No two of them give one field two types or ids, or one schema id two field lists.
  ghost predicate AllAgree(inputs: set<Meta>) {
    forall a, b :: a in inputs && b in inputs && a.typeId == b.typeId ==> Agrees(a, b)
  }

  ghost predicate CacheAgrees(cache: map<int32, Meta>, inputs: set<Meta>) {
    forall m :: m in inputs && m.typeId in cache ==> Agrees(cache[m.typeId], m)
  }

  ghost predicate ThreadsFrom(s: State, inputs: set<Meta>) {
    forall t :: t in s.threads ==> s.threads[t].input in inputs
  }

  lemma PutAgrees(cache: map<int32, Meta>, m: Meta, key: Name, inputs: set<Meta>)
    requires CacheWellFormed(cache) && WellFormed(m) && m in inputs && AllAgree(inputs) && CacheAgrees(cache, inputs)
    ensures CacheAgrees(Put(cache, m.(affKeyName := key)).0, inputs)
  {
    hide Agrees, WellFormed, MergeMeta;
    var named := m.(affKeyName := key);
    var after := Put(cache, named).0;
    forall other | other in inputs && other.typeId in after ensures Agrees(after[other.typeId], other) {
      if other.typeId == m.typeId {
        RenamedKey(m, m, key);
        RenamedEntry(m, key, other);
        if m.typeId in cache && MergeMeta(cache[m.typeId], named).Changed? {
          MergedAgrees(cache[m.typeId], named, other);
        }
      }
    }
  }

  lemma RenamedEntry(entry: Meta, key: Name, m: Meta)
    ensures Agrees(entry.(affKeyName := key), m) <==> Agrees(entry, m)
  {
  }

  lemma StepAgrees(s: State, a: Action, inputs: set<Meta>)
    requires Inv(s) && AllAgree(inputs) && CacheAgrees(s.cache, inputs) && ThreadsFrom(s, inputs)
    requires a.Begin? || a.Fetch? ==> a.m in inputs
    ensures CacheAgrees(Step(s, a).cache, inputs) && ThreadsFrom(Step(s, a), inputs)
  {
    hide Put, ThreadInv, AllAgree, CacheAgrees, Merging, MergeMeta, HasRead;
    match a
    case Fetch(m) =>
      if WellFormed(m) {
        PutAgrees(s.cache, m, m.affKeyName, inputs);
        assert m.(affKeyName := m.affKeyName) == m;
      }
    case Store(t) =>
      if t in s.threads && CanStore(s.threads[t]) {
        var m, prev := s.threads[t].input, s.threads[t].prev;
        ThreadRead(s.cache, s.threads[t]);
        ReadWellFormed(s.cache, m, prev);
        StoreMerges(s.cache, m, prev);
        PutAgrees(s.cache, m, s.threads[t].merged.affKeyName, inputs);
      }
    case MergeLocally(t) =>
      if t in s.threads && s.threads[t].Snapshot? {
        ThreadRead(s.cache, s.threads[t]);
        MergingInput(s.threads[t].input, s.threads[t].prev);
      }
    case _ =>
  }

  lemma MergingInput(m: Meta, prev: Option<Meta>)
    requires prev.Some? ==> WellFormed(prev.value)
    ensures Merging(m, prev).input == m
  {
  }

  lemma {:induction false} RunAgrees(s: State, actions: seq<Action>, inputs: set<Meta>)
    requires Inv(s) && AllAgree(inputs) && CacheAgrees(s.cache, inputs) && ThreadsFrom(s, inputs)
    requires Inputs(actions) <= inputs
    ensures CacheAgrees(Run(s, actions).cache, inputs) && ThreadsFrom(Run(s, actions), inputs)
    decreases |actions|
  {
    hide AllAgree, CacheAgrees, ThreadsFrom, Step, Inv;
    if actions != [] {
      var a := actions[0];
      assert a in actions && forall b :: b in actions[1..] ==> b in actions;
      assert Inputs(actions[1..]) <= Inputs(actions);
      StepKeeps(s, a);
      StepAgrees(s, a, inputs);
      RunAgrees(Step(s, a), actions[1..], inputs);
    }
  }

  // No interleaving loses a put: however the goroutines are scheduled, whatever sends fail and
  // whatever the server contributes, the entry of a type holds every field, schema id and enum name
  // of every goroutine that returned without error; and if no two inputs of the run disagree, it holds
  // all of that, field ids and field lists included, as the goroutine put it.
  lemma NoLostPut(actions: seq<Action>, t: nat)
    ensures var s := Run(EMPTY, actions);
      t in s.threads && s.threads[t].Done? ==>
      var m := s.threads[t].input;
      && m.typeId in s.cache && Holds(s.cache[m.typeId], m)
      && (AllAgree(Inputs(actions)) ==> HoldsAll(s.cache[m.typeId], m))
  {
    hide Run, AllAgree, Agrees, Holds, Inputs;
    var s := Run(EMPTY, actions);
    if t in s.threads && s.threads[t].Done? {
      DoneHolds(s, t);
      if AllAgree(Inputs(actions)) {
        RunAgrees(EMPTY, actions, Inputs(actions));
      }
    }
  }

  // And it stays so: what is held at some point of a run is held at every later point, and what has
  // been taken over as it is, or not, stays with that.
  lemma PutStays(before: seq<Action>, after: seq<Action>, t: nat)
    requires t in Run(EMPTY, before).threads && Run(EMPTY, before).threads[t].Done?
    ensures var mid, s := Run(EMPTY, before), Run(Run(EMPTY, before), after);
      var m := mid.threads[t].input;
      && m.typeId in mid.cache && m.typeId in s.cache && Holds(s.cache[m.typeId], m)
      && (HoldsAll(s.cache[m.typeId], m) <==> HoldsAll(mid.cache[m.typeId], m))
  {
    hide Run, Holds, Agrees, Grows;
    var mid := Run(EMPTY, before);
    NoLostPut(before, t);
    RunGrows(mid, after);
    var m := mid.threads[t].input;
    HoldsGrows(m, mid.cache[m.typeId], Run(mid, after).cache[m.typeId]);
    AgreesGrows(m, mid.cache[m.typeId], Run(mid, after).cache[m.typeId]);
  }

  // A goroutine sends its metadata exactly if the entry that it has read does not hold it already.
  lemma SendsExactly(actions: seq<Action>, t: nat)
    ensures var s := Run(EMPTY, actions);
      t in s.threads && s.threads[t].Merged? ==>
        (s.threads[t].mustSend <==> s.threads[t].prev.None? || !Holds(s.threads[t].prev.value, s.threads[t].input))
  {
    hide Run, Holds;
    var s := Run(EMPTY, actions);
    if t in s.threads && s.threads[t].Merged? {
      var m, prev := s.threads[t].input, s.threads[t].prev;
      assert ThreadInv(s.cache, s.threads[t]);
      if prev.Some? {
        MergeOutcome(prev.value, m);
      }
    }
  }

  // A goroutine that found nothing to send leaves the cache as it is, even if the cache has moved
  // on since it read it: nothing enters the cache that did not go to or come from the server.
  lemma UnsentChangesNothing(actions: seq<Action>, t: nat)
    ensures var s := Run(EMPTY, actions);
      t in s.threads && s.threads[t].Merged? && !s.threads[t].mustSend ==> Step(s, Store(t)).cache == s.cache
  {
    hide Run, Holds, Grows;
    var s := Run(EMPTY, actions);
    if t in s.threads && s.threads[t].Merged? && !s.threads[t].mustSend {
      var m, prev := s.threads[t].input, s.threads[t].prev;
      assert ThreadInv(s.cache, s.threads[t]);
      MergeOutcome(prev.value, m);
      HoldsGrows(m, prev.value, s.cache[m.typeId]);
      MergeOutcome(s.cache[m.typeId], m);
    }
  }

  lemma {:induction false} RunSnoc(s: State, init: seq<Action>, a: Action)
    requires Inv(s)
    ensures Run(s, init + [a]) == Step(Run(s, init), a)
    decreases |init|
  {
    hide Inv, Step;
    if init == [] {
      assert [] + [a] == [a] && [a][1..] == [];
    } else {
      StepKeeps(s, init[0]);
      assert (init + [a])[1..] == init[1..] + [a];
      RunSnoc(Step(s, init[0]), init[1..], a);
    }
  }

  function OnePut(a: Meta, b: Meta): seq<Action> {
    [Fetch(a)] + [Begin(0, b)] + [Read(0)] + [MergeLocally(0)] + [Send(0, true)]
  }

  lemma UntilStore(a: Meta, b: Meta)
    requires WellFormed(a) && WellFormed(b) && a.typeId == b.typeId && MergeMeta(a, b) != Conflict
    ensures var s, merged := Run(EMPTY, OnePut(a, b)), Merging(b, Some(a));
      && s.cache == map[a.typeId := a] && 0 in s.threads
      && s.threads[0] == if merged.mustSend then Sent(b, Some(a), merged.merged) else merged
  {
    hide WellFormed, MergeMeta, Inv, Merging;
    assert Inv(EMPTY) by { EmptyInv(); }
    RunSnoc(EMPTY, [], Fetch(a));
    assert Run(EMPTY, [Fetch(a)]) == State(map[a.typeId := a], map[]);
    RunSnoc(EMPTY, [Fetch(a)], Begin(0, b));
    RunSnoc(EMPTY, [Fetch(a)] + [Begin(0, b)], Read(0));
    RunSnoc(EMPTY, [Fetch(a)] + [Begin(0, b)] + [Read(0)], MergeLocally(0));
    MergedOf(a, b);
    RunSnoc(EMPTY, [Fetch(a)] + [Begin(0, b)] + [Read(0)] + [MergeLocally(0)], Send(0, true));
  }

  lemma MergedOf(a: Meta, b: Meta)
    requires WellFormed(a) && MergeMeta(a, b) != Conflict
    ensures Merging(b, Some(a)).Merged? && Merging(b, Some(a)).input == b && Merging(b, Some(a)).prev == Some(a)
  {
  }

  lemma EmptyInv()
    ensures Inv(EMPTY)
  {
  }

  // Inputs that can be merged but disagree do lose: the later put returns without an error.
  lemma LaterPutLost(a: Meta, b: Meta)
    requires WellFormed(a) && WellFormed(b) && Mergeable(a, b) && !Agrees(a, b)
    ensures var s := Run(EMPTY, [Fetch(a), Begin(0, b), Read(0), MergeLocally(0), Send(0, true), Store(0)]);
      && 0 in s.threads && s.threads[0] == Done(b)
      && b.typeId in s.cache && !HoldsAll(s.cache[b.typeId], b)
  {
    hide Holds, WellFormed, Run, ThreadInv, MergeMeta;
    MergeOutcome(a, b);
    UntilStore(a, b);
    StoreIsPut(OnePut(a, b), 0);
    assert b.(affKeyName := b.affKeyName) == b;
    StoreExact(OnePut(a, b), 0);
    assert Inv(EMPTY) by { EmptyInv(); }
    RunSnoc(EMPTY, OnePut(a, b), Store(0));
    assert OnePut(a, b) + [Store(0)]
      == [Fetch(a), Begin(0, b), Read(0), MergeLocally(0), Send(0, true), Store(0)];
  }

  // The metadata of an object of two int fields.
  function TwoFields(typeId: int32, typeName: Name, x: Name, xId: int32, y: Name, yId: int32): Meta {
    Meta(typeId, typeName, [],
      Fields(map[x := FieldMeta(3, xId), y := FieldMeta(3, yId)], [x, y],
             map[SchemaIds.SchemaId([xId, yId]) := [xId, yId]]))
  }

  // Two objects of one type with ordinary field names are such inputs, for their schema ids collide.
  lemma CollidingFields(typeId: int32, typeName: Name)
    ensures var a := TwoFields(typeId, typeName, [102, 49, 49, 53], SchemaIds.F115, [102, 52, 56], SchemaIds.F48);
      var b := TwoFields(typeId, typeName, [102, 50, 56, 52], SchemaIds.F284, [102, 50, 54, 55], SchemaIds.F267);
      && WellFormed(a) && WellFormed(b) && Mergeable(a, b) && !Agrees(a, b)
  {
    hide SchemaIds.SchemaId;
    SchemaIds.SchemaIdsCollide();
    var id := SchemaIds.SchemaId([SchemaIds.F115, SchemaIds.F48]);
    var a := TwoFields(typeId, typeName, [102, 49, 49, 53], SchemaIds.F115, [102, 52, 56], SchemaIds.F48);
    var b := TwoFields(typeId, typeName, [102, 50, 56, 52], SchemaIds.F284, [102, 50, 54, 55], SchemaIds.F267);
    assert a.body.schemas[id][0] != b.body.schemas[id][0];
    assert [102, 49, 49, 53][1] != [102, 50, 56, 52][1] && [102, 49, 49, 53][1] != [102, 50, 54, 55][1];
    assert [102, 52, 56][1] != [102, 50, 56, 52][1] && [102, 52, 56][1] != [102, 50, 54, 55][1];
  }
}
