// The metadata cache and registry of binary_schema.go, with the loops of mergeMetadata.
module MetadataCache {
  import opened Wrappers
  import opened Bytes
  import opened IterationOrder
  import opened Metadata

  // A metadata record that is passed around by reference and overwritten by a merge.
  class BinaryMetadata {
    var meta: Meta

    constructor (meta: Meta)
      ensures this.meta == meta
    {
      this.meta := meta;
    }
  }

  // ------------------------------------------------------- loops of the merge

  method MergeNameMaps(prev: map<Name, int32>, more: map<Name, int32>, prevOrder: seq<Name>, moreOrder: seq<Name>)
    returns (r: Option<Names>)
    requires IsOrderOf(prevOrder, prev.Keys) && IsOrderOf(moreOrder, more.Keys)
    ensures r == MergeNames(prev, more, prevOrder, moreOrder)
  {
    var merged := Names(map[], map[]);
    for i := 0 to |prevOrder|
      invariant merged == OldNames(prev, prevOrder[..i])
    {
      assert prevOrder[..i + 1][..i] == prevOrder[..i];
      var name := prevOrder[i];
      merged := Names(merged.nameToOrd[name := prev[name]], merged.ordToName[prev[name] := name]);
    }
    assert prevOrder[..|prevOrder|] == prevOrder;
    for i := 0 to |moreOrder|
      invariant MergeNames(prev, more, prevOrder, moreOrder) == AddNames(merged, more, moreOrder[i..])
    {
      var name, ord := moreOrder[i], more[moreOrder[i]];
      if ord in merged.ordToName && merged.ordToName[ord] != name {
        return None;
      }
      if name in merged.nameToOrd && merged.nameToOrd[name] != ord {
        return None;
      }
      merged := Names(merged.nameToOrd[name := ord], merged.ordToName[ord := name]);
    }
    return Some(merged);
  }

  method MergeFieldLists(prev: Body, more: Body) returns (r: Option<Added>)
    requires prev.Fields? && more.Fields?
    ensures r == AddFields(prev.fields, KnownFields(prev), more.fields, more.order)
  {
    var fields: map<Name, FieldMeta>, order: seq<Name>, changed := map[], [], false;
    for i := 0 to |prev.order|
      invariant order == prev.order[..i]
      invariant fields == map f | f in prev.order[..i] :: FieldOf(prev.fields, f)
    {
      order := order + [prev.order[i]];
      fields := fields[prev.order[i] := FieldOf(prev.fields, prev.order[i])];
    }
    assert prev.order[..|prev.order|] == prev.order;
    for i := 0 to |more.order|
      invariant AddFields(prev.fields, KnownFields(prev), more.fields, more.order)
        == AddFields(prev.fields, Added(fields, order, changed), more.fields, more.order[i..])
    {
      var field := more.order[i];
      var fieldMeta := FieldOf(more.fields, field);
      if field in prev.fields && prev.fields[field].typeId != fieldMeta.typeId {
        return None;
      }
      if field !in prev.fields {
        changed := true;
        fields := fields[field := fieldMeta];
        order := order + [field];
      }
    }
    return Some(Added(fields, order, changed));
  }

  // Copies the old schemas and adds the new ones, whatever order they come in.
  method MergeSchemas(prev: map<int32, seq<int32>>, more: map<int32, seq<int32>>)
    returns (merged: map<int32, seq<int32>>, changed: bool)
    ensures merged == more + prev
    ensures changed <==> !(more.Keys <= prev.Keys)
  {
    merged, changed := prev, false;
    var ids := more.Keys;
    while ids != {}
      invariant ids <= more.Keys
      invariant forall id :: id in merged <==> id in prev || (id in more && id !in ids)
      invariant forall id :: id in merged ==> merged[id] == if id in prev then prev[id] else more[id]
      invariant changed <==> exists id :: id in more && id !in ids && id !in prev
      decreases ids
    {
      var id :| id in ids;
      ids := ids - {id};
      if id !in prev {
        changed := true;
        merged := merged[id := more[id]];
      }
    }
  }

  // mergeMetadata: overwrites `meta` when the merge changes something.
  method MergeMetadata(prev: BinaryMetadata?, meta: BinaryMetadata, prevOrder: seq<Name>, moreOrder: seq<Name>)
    returns (r: Result<bool>)
    requires prev != null ==> Orders(prev.meta, meta.meta, prevOrder, moreOrder)
    modifies meta
    ensures prev == null ==> r == Ok(true) && meta.meta == old(meta.meta)
    ensures prev != null ==>
      match old(MergeInOrder(prev.meta, meta.meta, prevOrder, moreOrder))
      case Conflict => r == Err(MetadataConflict) && meta.meta == old(meta.meta)
      case Unchanged => r == Ok(false) && meta.meta == old(meta.meta)
      case Changed(merged) => r == Ok(true) && meta.meta == merged
  {
    if prev == null {
      return Ok(true);
    }
    var p, m := prev.meta, meta.meta;
    if p.typeId != m.typeId || p.typeName != m.typeName {
      return Err(MetadataConflict);
    }
    if p.body.Enum? != m.body.Enum? || p.affKeyName != m.affKeyName {
      return Err(MetadataConflict);
    }
    if m.body.Enum? {
      if |m.body.nameToOrd| == 0 {
        return Ok(false);
      }
      var names := MergeNameMaps(p.body.nameToOrd, m.body.nameToOrd, prevOrder, moreOrder);
      if names.None? {
        return Err(MetadataConflict);
      }
      if |names.value.nameToOrd| > |p.body.nameToOrd| {
        meta.meta := Meta(m.typeId, m.typeName, [], Enum(names.value.nameToOrd, names.value.ordToName));
        return Ok(true);
      }
      return Ok(false);
    }
    var added := MergeFieldLists(p.body, m.body);
    if added.None? {
      return Err(MetadataConflict);
    }
    var schemas, newSchemas := MergeSchemas(p.body.schemas, m.body.schemas);
    var changed := added.value.changed || newSchemas;
    if changed {
      meta.meta := m.(body := Fields(added.value.fields, added.value.order, schemas));
    }
    return Ok(changed);
  }

  // copy: the names of an enum are rebuilt from its ordinals.
  method CopyMetadata(m: Meta) returns (c: Meta)
    ensures WellFormed(m) ==> c == m
    ensures m.body.Fields? ==> c == m
  {
    if m.body.Fields? {
      return m;
    }
    var nameToOrd: map<Name, int32> := map[];
    var ords := m.body.ordToName.Keys;
    while ords != {}
      invariant ords <= m.body.ordToName.Keys
      invariant WellFormed(m) ==>
        nameToOrd == map n | n in m.body.nameToOrd && m.body.nameToOrd[n] !in ords :: m.body.nameToOrd[n]
      decreases ords
    {
      var ord :| ord in ords;
      ords := ords - {ord};
      nameToOrd := nameToOrd[m.body.ordToName[ord] := ord];
    }
    assert WellFormed(m) ==> nameToOrd == m.body.nameToOrd;
    return m.(body := Enum(nameToOrd, m.body.ordToName));
  }

  // ----------------------------------------------------------------- the cache

  // One put into the cache: the new contents and whether it succeeded.
  ghost function Put(cache: map<int32, Meta>, m: Meta): (map<int32, Meta>, bool)
    requires CacheWellFormed(cache)
  {
    if m.typeId !in cache then (cache[m.typeId := m], true)
    else
      match MergeMeta(cache[m.typeId], m)
      case Conflict => (cache, false)
      case Unchanged => (cache, true)
      case Changed(merged) => (cache[m.typeId := merged], true)
  }

  ghost predicate CacheWellFormed(cache: map<int32, Meta>) {
    forall id :: id in cache ==> cache[id].typeId == id && WellFormed(cache[id])
  }

  // Every entry of the earlier cache is still there, extended at most.
  ghost predicate CacheGrows(earlier: map<int32, Meta>, later: map<int32, Meta>) {
    forall id :: id in earlier ==> id in later && Grows(earlier[id], later[id])
  }

  // A put keeps the cache well-formed, takes nothing away, and if it succeeds the entry holds every
  // field, schema id and enum name that was put.  It holds the field ids and field lists that were put
  // as well exactly if the entry so far did not disagree.
  lemma PutOutcome(cache: map<int32, Meta>, m: Meta)
    requires CacheWellFormed(cache) && (m.typeId !in cache ==> WellFormed(m))
    ensures var (after, ok) := Put(cache, m);
      && CacheWellFormed(after) && CacheGrows(cache, after)
      && (ok ==> m.typeId in after && Holds(after[m.typeId], m))
      && (ok ==> (HoldsAll(after[m.typeId], m) <==> (m.typeId in cache ==> Agrees(cache[m.typeId], m))))
      && (!ok ==> after == cache)
      && (forall id :: id != m.typeId ==> (id in after <==> id in cache) && (id in after ==> after[id] == cache[id]))
  {
    hide WellFormed, Grows, Holds, Agrees, MergeMeta;
    forall id | id in cache ensures Grows(cache[id], cache[id]) {
      GrowsReflexive(cache[id]);
    }
    if m.typeId in cache {
      EntryOutcome(cache[m.typeId], m);
      if MergeMeta(cache[m.typeId], m).Changed? {
        MergeAgrees(cache[m.typeId], m);
      }
    } else {
      HoldsReflexive(m);
    }
  }

  lemma GrowsReflexive(m: Meta)
    ensures Grows(m, m)
  {
  }

  lemma HoldsReflexive(m: Meta)
    requires WellFormed(m)
    ensures HoldsAll(m, m)
  {
    SelfMergeable(m);
  }

  lemma EntryOutcome(prev: Meta, m: Meta)
    requires WellFormed(prev)
    ensures match MergeMeta(prev, m)
      case Conflict => true
      case Unchanged => Holds(prev, m)
      case Changed(merged) =>
        merged.typeId == prev.typeId && WellFormed(merged) && Grows(prev, merged) && Holds(merged, m)
  {
    MergeOutcome(prev, m);
  }

  class BinaryMetadataCache {
    var metaData: map<int32, BinaryMetadata>

    ghost function View(): map<int32, Meta>
      reads this, metaData.Values
    {
      map id | id in metaData :: metaData[id].meta
    }

    ghost predicate Valid()
      reads this, metaData.Values
    {
      CacheWellFormed(View())
    }

    constructor ()
      ensures Valid() && View() == map[]
    {
      metaData := map[];
    }

    method GetMetadata(typeId: int32) returns (m: BinaryMetadata?)
      requires Valid()
      ensures m == null <==> typeId !in View()
      ensures m != null ==> fresh(m) && m.meta == View()[typeId]
    {
      if typeId !in metaData {
        return null;
      }
      assert WellFormed(View()[typeId]);
      var copy := CopyMetadata(metaData[typeId].meta);
      m := new BinaryMetadata(copy);
    }

    method GetSchema(typeId: int32, schemaId: int32) returns (schema: Option<seq<int32>>)
      requires Valid()
      ensures schema == SchemaOf(View(), typeId, schemaId)
    {
      if typeId !in metaData {
        return None;
      }
      var m := metaData[typeId].meta;
      if m.body.Enum? || schemaId !in m.body.schemas {
        return None;
      }
      return Some(m.body.schemas[schemaId]);
    }

    // The record handed in becomes the entry, after the entry so far has been merged into it.
    method PutMetadata(meta: BinaryMetadata, prevOrder: seq<Name>, moreOrder: seq<Name>) returns (ok: bool)
      requires Valid()
      requires meta.meta.typeId !in metaData ==> WellFormed(meta.meta)
      requires meta.meta.typeId in metaData ==>
        Orders(metaData[meta.meta.typeId].meta, meta.meta, prevOrder, moreOrder)
      modifies this, meta
      ensures Valid()
      ensures (View(), ok) == Put(old(View()), old(meta.meta))
    {
      hide WellFormed, MergeMeta, Grows, Holds, MergeInOrder;
      ghost var before, m := View(), meta.meta;
      var typeId := meta.meta.typeId;
      var prev := if typeId in metaData then metaData[typeId] else null;
      if prev != null {
        assert before[typeId] == prev.meta;
        MergeOrderIrrelevant(prev.meta, m, prevOrder, moreOrder);
      }
      PutOutcome(before, m);
      SelfEntry(before, m);
      var r := MergeMetadata(prev, meta, prevOrder, moreOrder);
      if r.Err? {
        assert View() == before;
        return false;
      }
      if r.value {
        metaData := metaData[typeId := meta];
        assert View() == Put(before, m).0;
      } else {
        assert View() == before;
      }
      return true;
    }
  }

  // The field list behind a schema id after a put: the one that came first.
  lemma PutSchemas(cache: map<int32, Meta>, m: Meta, id: int32)
    requires CacheWellFormed(cache) && Put(cache, m).1
    ensures SchemaOf(Put(cache, m).0, m.typeId, id) ==
      if SchemaOf(cache, m.typeId, id).Some? then SchemaOf(cache, m.typeId, id)
      else if m.body.Fields? && id in m.body.schemas then Some(m.body.schemas[id])
      else None
  {
    hide Agrees;
    if m.typeId in cache {
      MergeOutcome(cache[m.typeId], m);
      if m.body.Fields? && MergeMeta(cache[m.typeId], m).Changed? {
        FirstWins(cache[m.typeId], m);
      }
    }
  }

  function SchemaOf(cache: map<int32, Meta>, typeId: int32, schemaId: int32): Option<seq<int32>> {
    if typeId !in cache || cache[typeId].body.Enum? || schemaId !in cache[typeId].body.schemas then None
    else Some(cache[typeId].body.schemas[schemaId])
  }

  // A record that is already the entry of its type merges with itself without change.
  lemma SelfEntry(cache: map<int32, Meta>, m: Meta)
    requires CacheWellFormed(cache)
    ensures m.typeId in cache && cache[m.typeId] == m ==> Put(cache, m) == (cache, true)
  {
    if m.typeId in cache && cache[m.typeId] == m {
      MergeOutcome(m, m);
      SelfMergeable(m);
    }
  }
}
