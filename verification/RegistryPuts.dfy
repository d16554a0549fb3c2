// Putting metadata through the registry (binary_schema.go), one caller at a time.
module RegistryPuts {
  import opened Wrappers
  import opened Bytes
  import opened IterationOrder
  import opened Metadata
  import opened MetadataCache

  // Some order, as Go picks one.
  method RangeOver<K(!new, ==)>(keys: set<K>) returns (order: seq<K>)
    ensures IsOrderOf(order, keys)
  {
    order := [];
    var rest := keys;
    while rest != {}
      invariant rest <= keys && IsOrderOf(order, keys - rest)
      decreases rest
    {
      var k :| k in rest;
      rest := rest - {k};
      order := order + [k];
    }
    assert keys - rest == keys;
  }

  method RangeOverNames(m: Meta) returns (order: seq<Name>)
    ensures m.body.Enum? ==> IsOrderOf(order, m.body.nameToOrd.Keys)
  {
    if m.body.Enum? {
      order := RangeOver(m.body.nameToOrd.Keys);
    } else {
      order := [];
    }
  }

  // One undisturbed putMetadata: merge, send if that changes something, and put the merge.
  ghost function RegistryPut(cache: map<int32, Meta>, m: Meta, sent: bool): (map<int32, Meta>, Result<()>)
    requires CacheWellFormed(cache)
  {
    if m.typeId !in cache then (if sent then PutAs(cache, m) else (cache, Err(SendFailed)))
    else
      match MergeMeta(cache[m.typeId], m)
      case Conflict => (cache, Err(MetadataConflict))
      case Unchanged => PutAs(cache, m)
      case Changed(merged) => if sent then PutAs(cache, merged) else (cache, Err(SendFailed))
  }

  ghost function PutAs(cache: map<int32, Meta>, m: Meta): (map<int32, Meta>, Result<()>)
    requires CacheWellFormed(cache)
  {
    var (after, ok) := Put(cache, m);
    (after, if ok then Ok(()) else Err(MetadataConflict))
  }

  // An enum with an affinity key that would have to grow: the first merge drops the key.
  ghost predicate DropsKey(cache: map<int32, Meta>, m: Meta)
    requires CacheWellFormed(cache)
  {
    m.typeId in cache && m.body.Enum? && m.affKeyName != [] && Put(cache, m).1 && Put(cache, m).0 != cache
  }

  // The registry's two merges come to one put.  It fails exactly if that put would, if it changes
  // something that cannot be sent, or if an enum would lose its affinity key on the way.
  lemma RegistryPutOutcome(cache: map<int32, Meta>, m: Meta, sent: bool)
    requires CacheWellFormed(cache)
    ensures var (after, r) := RegistryPut(cache, m, sent);
      && (r.Ok? ==> (after, true) == Put(cache, m))
      && (r.Err? ==> after == cache)
      && (r == Err(SendFailed) <==> !sent && Put(cache, m).1 && Put(cache, m).0 != cache)
      && (r == Err(MetadataConflict) <==> !Put(cache, m).1 || (sent && DropsKey(cache, m)))
      && r in {Ok(()), Err(SendFailed), Err(MetadataConflict)}
  {
    hide MergeMeta, WellFormed, Grows, Holds;
    if m.typeId in cache {
      var prev := cache[m.typeId];
      MergeOutcome(prev, m);
      if MergeMeta(prev, m).Changed? {
        var merged := MergeMeta(prev, m).meta;
        KeptOrLost(prev, m);
        if merged.affKeyName == prev.affKeyName {
          MergeTwice(prev, m);
        }
        ChangesEntry(prev, m);
        assert cache[m.typeId := merged][m.typeId] != cache[m.typeId];
      }
    }
  }

  lemma KeptOrLost(prev: Meta, m: Meta)
    requires WellFormed(prev) && MergeMeta(prev, m).Changed?
    ensures var merged := MergeMeta(prev, m).meta;
      && merged.typeId == m.typeId
      && (merged.affKeyName == prev.affKeyName <==> m.body.Fields? || m.affKeyName == [])
      && (merged.affKeyName != prev.affKeyName ==> MergeMeta(prev, merged) == Conflict)
  {
    AffinityKeyKept(prev, m);
  }

  lemma ChangesEntry(prev: Meta, m: Meta)
    requires WellFormed(prev) && MergeMeta(prev, m).Changed?
    ensures MergeMeta(prev, m).meta != prev
  {
    MergeOutcome(prev, m);
  }

  // A record that is the entry of its type already merges without change.
  lemma EntryUnchanged(cache: map<int32, Meta>, m: Meta)
    requires CacheWellFormed(cache) && m.typeId in cache && cache[m.typeId] == m
    ensures MergeMeta(m, m) == Unchanged
  {
    MergeOutcome(m, m);
    SelfMergeable(m);
  }

  // putMetadata of the registry, in one go.  The record may be in the cache already.
  method PutMetadata(cache: BinaryMetadataCache, meta: BinaryMetadata, sent: bool) returns (r: Result<()>)
    requires cache.Valid() && WellFormed(meta.meta)
    modifies cache, meta
    ensures cache.Valid()
    ensures (cache.View(), r) == RegistryPut(old(cache.View()), old(meta.meta), sent)
  {
    hide WellFormed, MergeMeta, Grows, Holds, MergeInOrder, IsOrderOf;
    ghost var view, m := cache.View(), meta.meta;
    var prev := cache.GetMetadata(meta.meta.typeId);
    var prevOrder, moreOrder := [], [];
    if prev != null {
      prevOrder := RangeOverNames(prev.meta);
      moreOrder := RangeOverNames(meta.meta);
      MergeOrderIrrelevant(prev.meta, m, prevOrder, moreOrder);
      MergeOutcome(prev.meta, m);
    }
    if meta in cache.metaData.Values {
      EntryOfItsType(cache, meta);
      EntryUnchanged(view, m);
    }
    var shouldSend := MergeMetadata(prev, meta, prevOrder, moreOrder);
    assert cache.View() == view;
    if shouldSend.Err? {
      return Err(shouldSend.error);
    }
    if shouldSend.value && !sent {
      return Err(SendFailed);
    }
    prevOrder, moreOrder := [], [];
    if prev != null {
      prevOrder := RangeOverNames(prev.meta);
      moreOrder := RangeOverNames(meta.meta);
    }
    var ok := cache.PutMetadata(meta, prevOrder, moreOrder);
    r := if ok then Ok(()) else Err(MetadataConflict);
  }

  lemma EntryOfItsType(cache: BinaryMetadataCache, meta: BinaryMetadata)
    requires cache.Valid() && meta in cache.metaData.Values
    ensures meta.meta.typeId in cache.View() && cache.View()[meta.meta.typeId] == meta.meta
  {
    var id :| id in cache.metaData && cache.metaData[id] == meta;
    assert id in cache.View() && cache.View()[id] == meta.meta;
  }
}
