// Type metadata and its merge, as values.  A Go map is iterated in an unspecified order; where the
// source ranges over one, the order is a parameter.
module Metadata {
  import opened Wrappers
  import opened Bytes
  import opened IterationOrder

  type Name = seq<byte>

  datatype FieldMeta = FieldMeta(typeId: int32, fieldId: int32)

  datatype Body =
    | Fields(fields: map<Name, FieldMeta>, order: seq<Name>, schemas: map<int32, seq<int32>>)
    | Enum(nameToOrd: map<Name, int32>, ordToName: map<int32, Name>)

  datatype Meta = Meta(typeId: int32, typeName: Name, affKeyName: Name, body: Body)

  // The two sides of an enum mirror each other.
  predicate Mirror(nameToOrd: map<Name, int32>, ordToName: map<int32, Name>) {
    && (forall n :: n in nameToOrd ==> nameToOrd[n] in ordToName && ordToName[nameToOrd[n]] == n)
    && (forall o :: o in ordToName ==> ordToName[o] in nameToOrd && nameToOrd[ordToName[o]] == o)
  }

  ghost predicate WellFormed(m: Meta) {
    match m.body
    case Fields(fields, order, _) => forall f :: f in order <==> f in fields
    case Enum(nameToOrd, ordToName) => Mirror(nameToOrd, ordToName)
  }

  // ------------------------------------------------------------ merge of enums

  datatype Names = Names(nameToOrd: map<Name, int32>, ordToName: map<int32, Name>) {
    function Put(name: Name, ord: int32): Names {
      Names(nameToOrd[name := ord], ordToName[ord := name])
    }

    predicate Clashes(name: Name, ord: int32) {
      || (ord in ordToName && ordToName[ord] != name)
      || (name in nameToOrd && nameToOrd[name] != ord)
    }
  }

  // The names of the old metadata, taken in the given order.
  function OldNames(prev: map<Name, int32>, order: seq<Name>): Names
    requires forall n :: n in order ==> n in prev
  {
    if order == [] then Names(map[], map[])
    else
      var last := order[|order| - 1];
      OldNames(prev, order[..|order| - 1]).Put(last, prev[last])
  }

  // Adds the new names one by one; None is a conflict.
  function AddNames(acc: Names, more: map<Name, int32>, order: seq<Name>): Option<Names>
    requires forall n :: n in order ==> n in more
    decreases |order|
  {
    if order == [] then Some(acc)
    else if acc.Clashes(order[0], more[order[0]]) then None
    else AddNames(acc.Put(order[0], more[order[0]]), more, order[1..])
  }

  function MergeNames(prev: map<Name, int32>, more: map<Name, int32>, oldOrder: seq<Name>, newOrder: seq<Name>):
    Option<Names>
    requires forall n :: n in oldOrder ==> n in prev
    requires forall n :: n in newOrder ==> n in more
  {
    AddNames(OldNames(prev, oldOrder), more, newOrder)
  }

  // No name has two ordinals and no ordinal two names.
  predicate Compatible(prev: map<Name, int32>, more: map<Name, int32>) {
    && (forall n :: n in prev && n in more ==> prev[n] == more[n])
    && (forall m, n :: m in prev && n in more && prev[m] == more[n] ==> m == n)
    && OneToOne(more)
  }

  predicate OneToOne(names: map<Name, int32>) {
    forall m, n :: m in names && n in names && names[m] == names[n] ==> m == n
  }

  function Inverse(names: map<Name, int32>): (r: map<int32, Name>)
    requires OneToOne(names)
    ensures Mirror(names, r)
  {
    map n | n in names :: names[n] := n
  }

  lemma MirrorUnique(names: map<Name, int32>, a: map<int32, Name>, b: map<int32, Name>)
    requires Mirror(names, a) && Mirror(names, b)
    ensures a == b
  {
    forall o ensures o in a <==> o in b {
      if o in a {
        assert names[a[o]] in b;
      }
      if o in b {
        assert names[b[o]] in a;
      }
    }
    forall o | o in a ensures a[o] == b[o] {
      assert b[names[a[o]]] == a[o];
    }
  }

  lemma {:induction false} OldNamesMirror(prev: map<Name, int32>, order: seq<Name>)
    requires OneToOne(prev) && forall n :: n in order ==> n in prev
    ensures var s := OldNames(prev, order);
      && Mirror(s.nameToOrd, s.ordToName)
      && (forall n :: n in s.nameToOrd <==> n in order)
      && (forall n :: n in order ==> s.nameToOrd[n] == prev[n])
  {
    if order != [] {
      OldNamesMirror(prev, order[..|order| - 1]);
      assert order == order[..|order| - 1] + [order[|order| - 1]];
    }
  }

  // Outcome of adding names to a mirrored state: a conflict exactly if something is incompatible,
  // and otherwise the union with its mirror.
  lemma {:induction false} AddNamesOutcome(acc: Names, more: map<Name, int32>, order: seq<Name>)
    requires Mirror(acc.nameToOrd, acc.ordToName)
    requires forall n :: n in order ==> n in more
    ensures var part := map n | n in order :: more[n];
      var r := AddNames(acc, more, order);
      && (r.Some? <==> Compatible(acc.nameToOrd, part))
      && (r.Some? ==> r.value.nameToOrd == acc.nameToOrd + part)
      && (r.Some? ==> Mirror(r.value.nameToOrd, r.value.ordToName))
    decreases |order|
  {
    var part := map n | n in order :: more[n];
    if order == [] {
    } else {
      hide Mirror, Compatible;
      var name, ord := order[0], more[order[0]];
      var rest := map n | n in order[1..] :: more[n];
      PartSplit(more, order);
      if acc.Clashes(name, ord) {
        ClashIncompatible(acc, part, name);
      } else {
        var next := acc.Put(name, ord);
        NamesPutMirror(acc, name, ord);
        AddNamesOutcome(next, more, order[1..]);
        CompatibleStep(acc.nameToOrd, acc.ordToName, rest, name, ord);
        PutUnion(acc.nameToOrd, rest, name, ord);
      }
    }
  }

  lemma PartSplit(more: map<Name, int32>, order: seq<Name>)
    requires order != [] && forall n :: n in order ==> n in more
    ensures (map n | n in order :: more[n]) == (map n | n in order[1..] :: more[n])[order[0] := more[order[0]]]
  {
    assert order == [order[0]] + order[1..];
  }

  lemma PutUnion(names: map<Name, int32>, rest: map<Name, int32>, name: Name, ord: int32)
    requires name in rest ==> rest[name] == ord
    ensures names[name := ord] + rest == names + rest[name := ord]
  {
  }

  lemma ClashIncompatible(acc: Names, part: map<Name, int32>, name: Name)
    requires Mirror(acc.nameToOrd, acc.ordToName)
    requires name in part && acc.Clashes(name, part[name])
    ensures !Compatible(acc.nameToOrd, part)
  {
    if part[name] in acc.ordToName && acc.ordToName[part[name]] != name {
      var other := acc.ordToName[part[name]];
      assert other in acc.nameToOrd && acc.nameToOrd[other] == part[name];
    }
  }

  lemma NamesPutMirror(acc: Names, name: Name, ord: int32)
    requires Mirror(acc.nameToOrd, acc.ordToName) && !acc.Clashes(name, ord)
    ensures var next := acc.Put(name, ord); Mirror(next.nameToOrd, next.ordToName)
  {
  }

  lemma CompatibleStep(names: map<Name, int32>, ords: map<int32, Name>, rest: map<Name, int32>, name: Name, ord: int32)
    requires Mirror(names, ords) && !Names(names, ords).Clashes(name, ord)
    requires name in rest ==> rest[name] == ord
    ensures Compatible(names[name := ord], rest) <==> Compatible(names, rest[name := ord])
  {
    var a, part := names[name := ord], rest[name := ord];
    if Compatible(a, rest) {
      forall m, n | m in names && n in part && names[m] == part[n] ensures m == n {
        assert a[m] == names[m];
      }
      forall m, n | m in part && n in part && part[m] == part[n] ensures m == n {
        assert a[name] == ord;
      }
      assert Compatible(names, part);
    }
    if Compatible(names, part) {
      forall m, n | m in a && n in rest && a[m] == rest[n] ensures m == n {
        assert part[name] == ord && part[n] == rest[n];
      }
      forall m, n | m in rest && n in rest && rest[m] == rest[n] ensures m == n {
        assert part[m] == part[n];
      }
      forall n | n in a && n in rest ensures a[n] == rest[n] {
        assert part[n] == rest[n];
      }
      assert Compatible(a, rest);
    }
  }

  // Whatever orders the two maps are iterated in, merging succeeds exactly if the enums are
  // compatible, and then gives the union.  This rests on the old enum being one-to-one.
  lemma MergeNamesOutcome(prev: map<Name, int32>, more: map<Name, int32>, oldOrder: seq<Name>, newOrder: seq<Name>)
    requires OneToOne(prev) && IsOrderOf(oldOrder, prev.Keys) && IsOrderOf(newOrder, more.Keys)
    ensures var r := MergeNames(prev, more, oldOrder, newOrder);
      && (r.Some? <==> Compatible(prev, more))
      && (r.Some? ==> r.value.nameToOrd == prev + more && Mirror(r.value.nameToOrd, r.value.ordToName))
  {
    OldNamesMirror(prev, oldOrder);
    assert OldNames(prev, oldOrder).nameToOrd == prev;
    AddNamesOutcome(OldNames(prev, oldOrder), more, newOrder);
    assert (map n | n in newOrder :: more[n]) == more;
  }

  lemma OldNamesSnoc(prev: map<Name, int32>, init: seq<Name>, last: Name)
    requires (forall n :: n in init ==> n in prev) && last in prev
    ensures OldNames(prev, init + [last]) == OldNames(prev, init).Put(last, prev[last])
  {
    assert (init + [last])[..|init|] == init;
  }

  lemma OrderTwoLast(rest: seq<Name>, keys: set<Name>, m: Name, n: Name)
    requires m in keys && n in keys && m != n && IsOrderOf(rest, keys - {m, n})
    ensures IsOrderOf(rest + [m] + [n], keys)
  {
    var order := rest + [m] + [n];
    assert forall k :: k in order <==> k in rest || k == m || k == n;
    assert forall i :: 0 <= i < |rest| ==> rest[i] in keys - {m, n};
  }

  // In an enum that is not one-to-one, of two names of one ordinal the one ranged over last decides
  // whether the other may be put again.
  lemma MergeNamesOrderMatters(prev: map<Name, int32>, rest: seq<Name>, m: Name, n: Name)
    requires m in prev && n in prev && m != n && prev[m] == prev[n]
    requires IsOrderOf(rest, prev.Keys - {m, n})
    ensures IsOrderOf(rest + [m] + [n], prev.Keys) && IsOrderOf(rest + [n] + [m], prev.Keys)
    ensures MergeNames(prev, map[m := prev[m]], rest + [m] + [n], [m]).None?
    ensures MergeNames(prev, map[m := prev[m]], rest + [n] + [m], [m]).Some?
  {
    hide OldNames;
    assert forall k :: k in rest ==> k in prev.Keys - {m, n};
    OrderTwoLast(rest, prev.Keys, m, n);
    OrderTwoLast(rest, prev.Keys, n, m);
    OldNamesSnoc(prev, rest, m);
    OldNamesSnoc(prev, rest + [m], n);
    OldNamesSnoc(prev, rest, n);
    OldNamesSnoc(prev, rest + [n], m);
    var again := map[m := prev[m]];
    var mn, nm := OldNames(prev, rest + [m] + [n]), OldNames(prev, rest + [n] + [m]);
    assert mn.ordToName[prev[m]] == n && nm.ordToName[prev[m]] == m && nm.nameToOrd[m] == prev[m];
    assert [m][1..] == [];
    assert AddNames(nm, again, [m]) == AddNames(nm.Put(m, prev[m]), again, []);
  }

  // Whatever is merged, all iteration orders lead to the same outcome.
  ghost predicate OrderIndependent(prev: map<Name, int32>) {
    forall more, o, p, o', p' | Iterates(prev, more, o, p) && Iterates(prev, more, o', p') ::
      MergeNames(prev, more, o, p) == MergeNames(prev, more, o', p')
  }

  ghost predicate Iterates(prev: map<Name, int32>, more: map<Name, int32>, oldOrder: seq<Name>, newOrder: seq<Name>) {
    IsOrderOf(oldOrder, prev.Keys) && IsOrderOf(newOrder, more.Keys)
  }

  // The outcome of a merge is independent of the iteration orders exactly if the old enum is
  // one-to-one.
  lemma OrderIndependentExact(prev: map<Name, int32>)
    ensures OrderIndependent(prev) <==> OneToOne(prev)
  {
    hide MergeNames;
    if OneToOne(prev) {
      forall more, o, p, o', p' | Iterates(prev, more, o, p) && Iterates(prev, more, o', p')
        ensures MergeNames(prev, more, o, p) == MergeNames(prev, more, o', p')
      {
        SameOutcome(prev, more, o, p, o', p');
      }
    } else {
      var m, n :| m in prev && n in prev && prev[m] == prev[n] && m != n;
      SharedOrdinalMatters(prev, m, n);
    }
  }

  lemma SharedOrdinalMatters(prev: map<Name, int32>, m: Name, n: Name)
    requires m in prev && n in prev && m != n && prev[m] == prev[n]
    ensures !OrderIndependent(prev)
  {
    hide MergeNames, IsOrderOf;
    var rest := AnOrder(prev.Keys - {m, n});
    MergeNamesOrderMatters(prev, rest, m, n);
    var more := map[m := prev[m]];
    OneKeyOrder(m, more.Keys);
    assert Iterates(prev, more, rest + [m] + [n], [m]) && Iterates(prev, more, rest + [n] + [m], [m]);
  }

  lemma OneKeyOrder(m: Name, keys: set<Name>)
    requires keys == {m}
    ensures IsOrderOf([m], keys)
  {
  }

  lemma SameOutcome(prev: map<Name, int32>, more: map<Name, int32>, o: seq<Name>, p: seq<Name>, o': seq<Name>, p': seq<Name>)
    requires OneToOne(prev) && Iterates(prev, more, o, p) && Iterates(prev, more, o', p')
    ensures MergeNames(prev, more, o, p) == MergeNames(prev, more, o', p')
  {
    hide MergeNames, OneToOne, Mirror, Compatible;
    MergeNamesOutcome(prev, more, o, p);
    MergeNamesOutcome(prev, more, o', p');
    var r, r' := MergeNames(prev, more, o, p), MergeNames(prev, more, o', p');
    if r.Some? {
      MirrorUnique(r.value.nameToOrd, r.value.ordToName, r'.value.ordToName);
    }
  }

  // -------------------------------------------------------- merge of objects

  // A Go map yields the zero value for a missing key.
  function FieldOf(fields: map<Name, FieldMeta>, name: Name): FieldMeta {
    if name in fields then fields[name] else FieldMeta(0, 0)
  }

  datatype Added = Added(fields: map<Name, FieldMeta>, order: seq<Name>, changed: bool)

  // Appends the fields that prev lacks; None is a field with another type.
  function AddFields(prev: map<Name, FieldMeta>, acc: Added, more: map<Name, FieldMeta>, order: seq<Name>): Option<Added>
    decreases |order|
  {
    if order == [] then Some(acc)
    else
      var f := order[0];
      if f in prev && prev[f].typeId != FieldOf(more, f).typeId then None
      else if f in prev then AddFields(prev, acc, more, order[1..])
      else AddFields(prev, Added(acc.fields[f := FieldOf(more, f)], acc.order + [f], true), more, order[1..])
  }

  function KnownFields(body: Body): Added
    requires body.Fields?
  {
    Added(map f | f in body.order :: FieldOf(body.fields, f), body.order, false)
  }

  datatype Merge = Unchanged | Changed(meta: Meta) | Conflict

  function MergeFields(prev: Meta, m: Meta): Merge
    requires prev.body.Fields? && m.body.Fields?
  {
    match AddFields(prev.body.fields, KnownFields(prev.body), m.body.fields, m.body.order)
    case None => Conflict
    case Some(added) =>
      if added.changed || !(m.body.schemas.Keys <= prev.body.schemas.Keys) then
        // Schemas that are already there win.
        Changed(m.(body := Fields(added.fields, added.order, m.body.schemas + prev.body.schemas)))
      else Unchanged
  }

  function MergeEnum(prev: Meta, m: Meta, merged: Option<Names>): Merge
    requires prev.body.Enum? && m.body.Enum?
  {
    if m.body.nameToOrd == map[] then Unchanged
    else if merged.None? then Conflict
    else if |merged.value.nameToOrd| > |prev.body.nameToOrd| then
      // The source builds this record without an affinity key.
      Changed(Meta(m.typeId, m.typeName, [], Enum(merged.value.nameToOrd, merged.value.ordToName)))
    else Unchanged
  }

  function Combine(prev: Meta, m: Meta, merged: Option<Names>): Merge {
    if prev.typeId != m.typeId || prev.typeName != m.typeName then Conflict
    else if prev.body.Enum? != m.body.Enum? || prev.affKeyName != m.affKeyName then Conflict
    else if m.body.Enum? then MergeEnum(prev, m, merged)
    else MergeFields(prev, m)
  }

  // Iteration orders of the name maps of two enums; other metadata needs none.
  ghost predicate Orders(prev: Meta, m: Meta, prevOrder: seq<Name>, moreOrder: seq<Name>) {
    && (prev.body.Enum? ==> IsOrderOf(prevOrder, prev.body.nameToOrd.Keys))
    && (m.body.Enum? ==> IsOrderOf(moreOrder, m.body.nameToOrd.Keys))
  }

  // mergeMetadata with the iteration orders it happens to use.
  function MergeInOrder(prev: Meta, m: Meta, prevOrder: seq<Name>, moreOrder: seq<Name>): Merge
    requires Orders(prev, m, prevOrder, moreOrder)
  {
    Combine(prev, m,
      if prev.body.Enum? && m.body.Enum?
      then MergeNames(prev.body.nameToOrd, m.body.nameToOrd, prevOrder, moreOrder) else None)
  }

  // What the enum merge amounts to.
  ghost function Union(prev: Meta, m: Meta): Option<Names>
    requires WellFormed(prev)
  {
    if prev.body.Enum? && m.body.Enum? && Compatible(prev.body.nameToOrd, m.body.nameToOrd) then
      UnionOneToOne(prev.body.nameToOrd, m.body.nameToOrd);
      var names := prev.body.nameToOrd + m.body.nameToOrd;
      Some(Names(names, Inverse(names)))
    else None
  }

  lemma UnionOneToOne(prev: map<Name, int32>, more: map<Name, int32>)
    requires OneToOne(prev) && Compatible(prev, more)
    ensures OneToOne(prev + more)
  {
  }

  // The merge as a function of its arguments alone.
  ghost function MergeMeta(prev: Meta, m: Meta): Merge
    requires WellFormed(prev)
  {
    Combine(prev, m, Union(prev, m))
  }

  // Success, failure and result of a merge do not depend on the iteration orders.
  lemma MergeOrderIrrelevant(prev: Meta, m: Meta, prevOrder: seq<Name>, moreOrder: seq<Name>)
    requires WellFormed(prev) && Orders(prev, m, prevOrder, moreOrder)
    ensures MergeInOrder(prev, m, prevOrder, moreOrder) == MergeMeta(prev, m)
  {
    if prev.body.Enum? && m.body.Enum? {
      MergeNamesOutcome(prev.body.nameToOrd, m.body.nameToOrd, prevOrder, moreOrder);
      var r := MergeNames(prev.body.nameToOrd, m.body.nameToOrd, prevOrder, moreOrder);
      if r.Some? {
        UnionOneToOne(prev.body.nameToOrd, m.body.nameToOrd);
        MirrorUnique(r.value.nameToOrd, r.value.ordToName, Inverse(r.value.nameToOrd));
      }
    }
  }

  // ---------------------------------------------------------- what merges keep

  // later has everything of earlier, unaltered, with the field order extended at its end.  Only the
  // affinity key of an enum may be lost.
  ghost predicate Grows(earlier: Meta, later: Meta) {
    && earlier.typeId == later.typeId && earlier.typeName == later.typeName
    && earlier.body.Enum? == later.body.Enum?
    && (earlier.body.Fields? ==>
      && earlier.affKeyName == later.affKeyName
      && earlier.body.order <= later.body.order
      && (forall f :: f in earlier.body.fields ==>
           f in later.body.fields && later.body.fields[f] == earlier.body.fields[f])
      && (forall s :: s in earlier.body.schemas ==>
           s in later.body.schemas && later.body.schemas[s] == earlier.body.schemas[s]))
    && (earlier.body.Enum? ==>
      && (later.affKeyName == earlier.affKeyName || later.affKeyName == [])
      && (forall n :: n in earlier.body.nameToOrd ==>
           n in later.body.nameToOrd && later.body.nameToOrd[n] == earlier.body.nameToOrd[n])
      && (forall o :: o in earlier.body.ordToName ==>
           o in later.body.ordToName && later.body.ordToName[o] == earlier.body.ordToName[o]))
  }

  // entry holds every field (with its type), schema id and enum name that m declares.
  ghost predicate Holds(entry: Meta, m: Meta) {
    && entry.typeId == m.typeId && entry.typeName == m.typeName
    && entry.body.Enum? == m.body.Enum?
    && (m.body.Fields? ==>
      && (forall f :: f in m.body.order ==>
           f in entry.body.fields && f in entry.body.order
           && entry.body.fields[f].typeId == FieldOf(m.body.fields, f).typeId)
      && m.body.schemas.Keys <= entry.body.schemas.Keys)
    && (m.body.Enum? ==>
      forall n :: n in m.body.nameToOrd ==> n in entry.body.nameToOrd && entry.body.nameToOrd[n] == m.body.nameToOrd[n])
  }

  // No field and no schema id stands for one thing in the entry and for another in m.
  ghost predicate Agrees(entry: Meta, m: Meta) {
    entry.body.Fields? && m.body.Fields? ==>
      && (forall f :: f in m.body.order && f in entry.body.fields ==> entry.body.fields[f] == FieldOf(m.body.fields, f))
      && (forall id :: id in m.body.schemas && id in entry.body.schemas ==>
           entry.body.schemas[id] == m.body.schemas[id])
  }

  // entry holds every field, field list and enum name that m declares, as m declares it.
  ghost predicate HoldsAll(entry: Meta, m: Meta) {
    Holds(entry, m) && Agrees(entry, m)
  }

  // An entry that has once taken a record over, or not, stays with that.
  lemma AgreesGrows(m: Meta, earlier: Meta, later: Meta)
    requires Holds(earlier, m) && Grows(earlier, later)
    ensures Agrees(later, m) <==> Agrees(earlier, m)
  {
    if m.body.Fields? {
      assert forall f :: f in m.body.order ==> later.body.fields[f] == earlier.body.fields[f];
      assert forall id :: id in m.body.schemas ==> later.body.schemas[id] == earlier.body.schemas[id];
    }
  }

  lemma GrowsTransitive(a: Meta, b: Meta, c: Meta)
    requires Grows(a, b) && Grows(b, c)
    ensures Grows(a, c)
  {
  }

  lemma HoldsGrows(m: Meta, earlier: Meta, later: Meta)
    requires Holds(earlier, m) && Grows(earlier, later)
    ensures Holds(later, m)
  {
  }

  function FreshOrder(prev: map<Name, FieldMeta>, order: seq<Name>): seq<Name> {
    if order == [] then []
    else if order[0] in prev then FreshOrder(prev, order[1..])
    else [order[0]] + FreshOrder(prev, order[1..])
  }

  lemma {:induction false} FreshOrderElements(prev: map<Name, FieldMeta>, order: seq<Name>)
    ensures forall f :: f in FreshOrder(prev, order) <==> f in order && f !in prev
  {
    if order != [] {
      FreshOrderElements(prev, order[1..]);
      assert order == [order[0]] + order[1..];
    }
  }

  function Fresh(prev: map<Name, FieldMeta>, more: map<Name, FieldMeta>, order: seq<Name>): map<Name, FieldMeta> {
    map f | f in order && f !in prev :: FieldOf(more, f)
  }

  predicate Retyped(prev: map<Name, FieldMeta>, more: map<Name, FieldMeta>, order: seq<Name>) {
    exists f :: f in order && f in prev && prev[f].typeId != FieldOf(more, f).typeId
  }

  // Adding fails exactly if a field comes with another type; otherwise it appends exactly the
  // fields that were missing, in their order.
  lemma {:induction false} AddFieldsOutcome(prev: map<Name, FieldMeta>, acc: Added, more: map<Name, FieldMeta>, order: seq<Name>)
    ensures AddFields(prev, acc, more, order) ==
      if Retyped(prev, more, order) then None
      else Some(Added(acc.fields + Fresh(prev, more, order), acc.order + FreshOrder(prev, order),
                      acc.changed || FreshOrder(prev, order) != []))
    decreases |order|
  {
    if order == [] {
      assert acc.fields + Fresh(prev, more, order) == acc.fields;
      assert acc.order + FreshOrder(prev, order) == acc.order;
    } else {
      hide Fresh, Retyped;
      var f, rest := order[0], order[1..];
      assert order == [f] + rest;
      RetypedStep(prev, more, f, rest);
      if f in prev {
        AddFieldsOutcome(prev, acc, more, rest);
        FreshSkip(prev, more, f, rest);
      } else {
        AddFieldsOutcome(prev, Added(acc.fields[f := FieldOf(more, f)], acc.order + [f], true), more, rest);
        FreshStep(acc.fields, prev, more, f, rest);
        assert acc.order + [f] + FreshOrder(prev, rest) == acc.order + FreshOrder(prev, order);
      }
    }
  }

  lemma RetypedStep(prev: map<Name, FieldMeta>, more: map<Name, FieldMeta>, f: Name, rest: seq<Name>)
    ensures Retyped(prev, more, [f] + rest)
      <==> (f in prev && prev[f].typeId != FieldOf(more, f).typeId) || Retyped(prev, more, rest)
  {
    if f in prev && prev[f].typeId != FieldOf(more, f).typeId {
      assert f in [f] + rest;
    } else if Retyped(prev, more, rest) {
      var g :| g in rest && g in prev && prev[g].typeId != FieldOf(more, g).typeId;
      assert g in [f] + rest;
    }
  }

  lemma FreshSkip(prev: map<Name, FieldMeta>, more: map<Name, FieldMeta>, f: Name, rest: seq<Name>)
    requires f in prev
    ensures Fresh(prev, more, [f] + rest) == Fresh(prev, more, rest)
  {
  }

  lemma FreshStep(fields: map<Name, FieldMeta>, prev: map<Name, FieldMeta>, more: map<Name, FieldMeta>, f: Name, rest: seq<Name>)
    requires f !in prev
    ensures fields[f := FieldOf(more, f)] + Fresh(prev, more, rest) == fields + Fresh(prev, more, [f] + rest)
  {
  }

  lemma KnownFieldsSame(body: Body)
    requires body.Fields? && forall f :: f in body.order <==> f in body.fields
    ensures KnownFields(body).fields == body.fields
  {
  }

  lemma MergeFieldsOutcome(prev: Meta, m: Meta)
    requires prev.body.Fields? && m.body.Fields? && WellFormed(prev)
    requires prev.typeId == m.typeId && prev.typeName == m.typeName && prev.affKeyName == m.affKeyName
    ensures match MergeFields(prev, m)
      case Conflict =>
        exists f :: f in m.body.order && f in prev.body.fields && prev.body.fields[f].typeId != FieldOf(m.body.fields, f).typeId
      case Unchanged => Holds(prev, m)
      case Changed(merged) => WellFormed(merged) && Grows(prev, merged) && Holds(merged, m) && !Holds(prev, m)
  {
    KnownFieldsSame(prev.body);
    AddFieldsOutcome(prev.body.fields, KnownFields(prev.body), m.body.fields, m.body.order);
    var added := FreshOrder(prev.body.fields, m.body.order);
    FreshOrderElements(prev.body.fields, m.body.order);
    assert added != [] ==> added[0] in added;
  }

  lemma SubmapSize(prev: map<Name, int32>, more: map<Name, int32>)
    requires forall n :: n in prev && n in more ==> prev[n] == more[n]
    ensures |prev + more| > |prev| <==> !(more.Keys <= prev.Keys)
    ensures more.Keys <= prev.Keys ==> prev + more == prev
  {
    var union := prev + more;
    assert union.Keys == prev.Keys + more.Keys;
    assert |union| == |union.Keys| && |prev| == |prev.Keys|;
    if more.Keys <= prev.Keys {
      assert union.Keys == prev.Keys;
    } else {
      var n :| n in more.Keys && n !in prev.Keys;
      ProperSubsetSize(prev.Keys, union.Keys, n);
    }
  }

  lemma ProperSubsetSize(a: set<Name>, b: set<Name>, x: Name)
    requires a <= b && x in b && x !in a
    ensures |a| < |b|
  {
    var rest := b - a;
    assert x in rest;
    assert b == a + rest && a !! rest;
    assert |b| == |a| + |rest|;
  }

  lemma MergeEnumOutcome(prev: Meta, m: Meta)
    requires prev.body.Enum? && m.body.Enum? && WellFormed(prev)
    requires prev.typeId == m.typeId && prev.typeName == m.typeName && prev.affKeyName == m.affKeyName
    ensures match MergeEnum(prev, m, Union(prev, m))
      case Conflict => !Compatible(prev.body.nameToOrd, m.body.nameToOrd)
      case Unchanged => Holds(prev, m)
      case Changed(merged) => WellFormed(merged) && Grows(prev, merged) && Holds(merged, m) && !Holds(prev, m)
  {
    hide Compatible, Mirror, Union, Grows, Holds;
    UnionSome(prev, m);
    if Compatible(prev.body.nameToOrd, m.body.nameToOrd) {
      UnionKeeps(prev, m);
      var names := Union(prev, m).value;
      var merged := Meta(m.typeId, m.typeName, [], Enum(names.nameToOrd, names.ordToName));
      EnumGrows(prev, merged);
      EnumHolds(prev, m);
      EnumHolds(merged, m);
      if m.body.nameToOrd == map[] {
        assert m.body.nameToOrd.Keys <= prev.body.nameToOrd.Keys;
      }
    } else if m.body.nameToOrd == map[] {
      EnumHolds(prev, m);
    }
  }

  lemma UnionSome(prev: Meta, m: Meta)
    requires prev.body.Enum? && m.body.Enum? && WellFormed(prev)
    ensures Union(prev, m).Some? <==> Compatible(prev.body.nameToOrd, m.body.nameToOrd)
  {
  }

  lemma EnumGrows(prev: Meta, later: Meta)
    requires prev.body.Enum? && later.body.Enum? && prev.typeId == later.typeId && prev.typeName == later.typeName
    requires later.affKeyName == []
    requires forall n :: n in prev.body.nameToOrd ==>
      n in later.body.nameToOrd && later.body.nameToOrd[n] == prev.body.nameToOrd[n]
    requires forall o :: o in prev.body.ordToName ==>
      o in later.body.ordToName && later.body.ordToName[o] == prev.body.ordToName[o]
    ensures Grows(prev, later)
  {
  }

  lemma EnumHolds(entry: Meta, m: Meta)
    requires entry.body.Enum? && m.body.Enum? && entry.typeId == m.typeId && entry.typeName == m.typeName
    ensures Holds(entry, m) <==>
      forall n :: n in m.body.nameToOrd ==> n in entry.body.nameToOrd && entry.body.nameToOrd[n] == m.body.nameToOrd[n]
  {
  }

  lemma UnionKeeps(prev: Meta, m: Meta)
    requires prev.body.Enum? && m.body.Enum? && WellFormed(prev)
    requires Compatible(prev.body.nameToOrd, m.body.nameToOrd)
    ensures var merged := Union(prev, m).value;
      && Mirror(merged.nameToOrd, merged.ordToName)
      && merged.nameToOrd == prev.body.nameToOrd + m.body.nameToOrd
      && (forall n :: n in prev.body.nameToOrd ==> merged.nameToOrd[n] == prev.body.nameToOrd[n])
      && (forall o :: o in prev.body.ordToName ==> o in merged.ordToName && merged.ordToName[o] == prev.body.ordToName[o])
      && (|merged.nameToOrd| > |prev.body.nameToOrd| <==> !(m.body.nameToOrd.Keys <= prev.body.nameToOrd.Keys))
  {
    hide Compatible, Mirror;
    var p, q := prev.body.nameToOrd, m.body.nameToOrd;
    assert (forall n :: n in p && n in q ==> p[n] == q[n]) by {
      CompatibleAgrees(p, q);
    }
    SubmapSize(p, q);
    WellFormedOneToOne(prev);
    UnionOneToOne(p, q);
    InverseKeeps(p, prev.body.ordToName, p + q);
  }

  lemma CompatibleAgrees(p: map<Name, int32>, q: map<Name, int32>)
    requires Compatible(p, q)
    ensures forall n :: n in p && n in q ==> p[n] == q[n]
  {
  }

  lemma WellFormedOneToOne(m: Meta)
    requires m.body.Enum? && WellFormed(m)
    ensures OneToOne(m.body.nameToOrd)
  {
  }

  lemma InverseKeeps(names: map<Name, int32>, ords: map<int32, Name>, more: map<Name, int32>)
    requires Mirror(names, ords) && OneToOne(more)
    requires forall n :: n in names ==> n in more && more[n] == names[n]
    ensures forall o :: o in ords ==> o in Inverse(more) && Inverse(more)[o] == ords[o]
  {
    forall o | o in ords ensures o in Inverse(more) && Inverse(more)[o] == ords[o] {
      assert more[ords[o]] == o;
    }
  }

  predicate SameType(prev: Meta, m: Meta) {
    && prev.typeId == m.typeId && prev.typeName == m.typeName
    && prev.body.Enum? == m.body.Enum? && prev.affKeyName == m.affKeyName
  }

  // No field changes its type and no enum entry clashes.
  ghost predicate Mergeable(prev: Meta, m: Meta) {
    && SameType(prev, m)
    && (m.body.Fields? ==>
      forall f :: f in m.body.order && f in prev.body.fields ==>
        prev.body.fields[f].typeId == FieldOf(m.body.fields, f).typeId)
    && (m.body.Enum? ==> Compatible(prev.body.nameToOrd, m.body.nameToOrd))
  }

  // A merge fails exactly if the two disagree, reports no change exactly if the old metadata has
  // everything already, and otherwise extends the old metadata by the new.
  lemma MergeOutcome(prev: Meta, m: Meta)
    requires WellFormed(prev)
    ensures match MergeMeta(prev, m)
      case Conflict => !Mergeable(prev, m)
      case Unchanged => Mergeable(prev, m) && Holds(prev, m)
      case Changed(merged) =>
        Mergeable(prev, m) && WellFormed(merged) && Grows(prev, merged) && Holds(merged, m) && !Holds(prev, m)
  {
    if SameType(prev, m) {
      if m.body.Enum? {
        MergeEnumOutcome(prev, m);
        if m.body.nameToOrd == map[] {
          assert Compatible(prev.body.nameToOrd, map[]);
        }
      } else {
        MergeFieldsOutcome(prev, m);
        KnownFieldsSame(prev.body);
        AddFieldsOutcome(prev.body.fields, KnownFields(prev.body), m.body.fields, m.body.order);
        FreshOrderElements(prev.body.fields, m.body.order);
      }
    }
  }

  // What comes first wins: a field or a schema id of the old metadata keeps its meaning.
  lemma FirstWins(prev: Meta, m: Meta)
    requires WellFormed(prev) && MergeMeta(prev, m).Changed? && m.body.Fields?
    ensures var merged := MergeMeta(prev, m).meta;
      && merged.body.Fields? && prev.body.Fields?
      && (forall f :: f in merged.body.fields <==> f in prev.body.fields || f in m.body.order)
      && (forall f :: f in merged.body.fields ==>
           merged.body.fields[f] == if f in prev.body.fields then prev.body.fields[f] else FieldOf(m.body.fields, f))
      && merged.body.schemas == m.body.schemas + prev.body.schemas
  {
    KnownFieldsSame(prev.body);
    AddFieldsOutcome(prev.body.fields, KnownFields(prev.body), m.body.fields, m.body.order);
  }

  // So a record is taken over as it is exactly if the old metadata agrees with it.
  lemma MergeAgrees(prev: Meta, m: Meta)
    requires WellFormed(prev) && MergeMeta(prev, m).Changed?
    ensures Agrees(MergeMeta(prev, m).meta, m) <==> Agrees(prev, m)
  {
    hide WellFormed, MergeMeta;
    if m.body.Fields? {
      FirstWins(prev, m);
    }
  }

  // Merging records that agree with another leads to one that agrees with it.
  lemma MergedAgrees(prev: Meta, m: Meta, other: Meta)
    requires WellFormed(prev) && WellFormed(m) && MergeMeta(prev, m).Changed?
    requires Agrees(prev, other) && Agrees(m, other)
    ensures Agrees(MergeMeta(prev, m).meta, other)
  {
    if m.body.Fields? {
      FirstWins(prev, m);
    }
  }

  // Merging the merged record again changes nothing, and neither does merging the input again,
  // except for an enum with an affinity key, which the merge has dropped.
  lemma MergeIdempotent(prev: Meta, m: Meta)
    requires WellFormed(prev) && MergeMeta(prev, m).Changed?
    ensures var merged := MergeMeta(prev, m).meta;
      && WellFormed(merged) && MergeMeta(merged, merged) == Unchanged
      && MergeMeta(merged, m) == if m.body.Enum? && m.affKeyName != [] then Conflict else Unchanged
  {
    MergeOutcome(prev, m);
    var merged := MergeMeta(prev, m).meta;
    if m.body.Fields? || m.affKeyName == [] {
      HoldsMergeable(merged, m);
    }
    MergeOutcome(merged, m);
    MergeOutcome(merged, merged);
    SelfMergeable(merged);
  }

  lemma SelfMergeable(m: Meta)
    requires WellFormed(m)
    ensures Mergeable(m, m) && Holds(m, m)
  {
  }

  // What an entry holds it can take again.
  lemma HoldsMergeable(entry: Meta, m: Meta)
    requires WellFormed(entry) && Holds(entry, m) && entry.affKeyName == m.affKeyName
    ensures Mergeable(entry, m)
  {
    if m.body.Enum? {
      forall a, b | a in entry.body.nameToOrd && b in m.body.nameToOrd && entry.body.nameToOrd[a] == m.body.nameToOrd[b]
        ensures a == b
      {
        assert entry.body.nameToOrd[b] == m.body.nameToOrd[b];
      }
    }
  }

  // The affinity key survives a merge exactly if the type is no enum or has none: a grown enum is
  // rebuilt without it, and putting the same enum again then fails.
  lemma AffinityKeyKept(prev: Meta, m: Meta)
    requires WellFormed(prev) && MergeMeta(prev, m).Changed?
    ensures var merged := MergeMeta(prev, m).meta;
      && (merged.affKeyName == prev.affKeyName <==> prev.body.Fields? || prev.affKeyName == [])
      && (merged.affKeyName != prev.affKeyName ==>
            WellFormed(merged) && MergeMeta(merged, m) == Conflict && MergeMeta(prev, merged) == Conflict)
  {
    MergeOutcome(prev, m);
  }

  lemma AffinityKeyLost()
    ensures var prev := Meta(1, [65], [75], Enum(map[], map[]));
      var m := Meta(1, [65], [75], Enum(map[[66] := 0], map[0 := [66]]));
      WellFormed(prev) && MergeMeta(prev, m).Changed? && MergeMeta(prev, m).meta.affKeyName == []
  {
    var prev := Meta(1, [65], [75], Enum(map[], map[]));
    var m := Meta(1, [65], [75], Enum(map[[66] := 0], map[0 := [66]]));
    assert Compatible(prev.body.nameToOrd, m.body.nameToOrd);
    SubmapSize(prev.body.nameToOrd, m.body.nameToOrd);
    assert [66] in m.body.nameToOrd;
  }

  lemma {:induction false} FreshOrderConcat(prev: map<Name, FieldMeta>, a: seq<Name>, b: seq<Name>)
    ensures FreshOrder(prev, a + b) == FreshOrder(prev, a) + FreshOrder(prev, b)
  {
    if a == [] {
      assert [] + b == b;
    } else {
      FreshOrderConcat(prev, a[1..], b);
      assert (a + b)[1..] == a[1..] + b;
      assert (a + b)[0] == a[0];
    }
  }

  lemma {:induction false} FreshOrderOfKnown(prev: map<Name, FieldMeta>, order: seq<Name>)
    requires forall f :: f in order ==> f in prev
    ensures FreshOrder(prev, order) == []
  {
    if order != [] {
      assert order == [order[0]] + order[1..];
      FreshOrderOfKnown(prev, order[1..]);
    }
  }

  // What is fresh to more fields is fresh to fewer.
  lemma {:induction false} FreshOrderThrough(prev: map<Name, FieldMeta>, cur: map<Name, FieldMeta>, order: seq<Name>)
    requires prev.Keys <= cur.Keys
    ensures FreshOrder(cur, FreshOrder(prev, order)) == FreshOrder(cur, order)
  {
    if order != [] {
      FreshOrderThrough(prev, cur, order[1..]);
    }
  }

  // A merge made over old metadata catches up: merging its outcome into metadata that has grown
  // since then gives what merging the input there would, but for the affinity key that it may have lost.
  lemma MergeCatchUp(prev: Meta, cur: Meta, m: Meta)
    requires WellFormed(prev) && WellFormed(cur) && Grows(prev, cur) && MergeMeta(prev, m).Changed?
    ensures var merged := MergeMeta(prev, m).meta;
      MergeMeta(cur, merged) == MergeMeta(cur, m.(affKeyName := merged.affKeyName))
  {
    var merged := MergeMeta(prev, m).meta;
    if merged.affKeyName == cur.affKeyName {
      if m.body.Fields? {
        CatchUpFields(prev, cur, m);
      } else {
        CatchUpEnum(prev, cur, m);
      }
    }
  }

  lemma CatchUpFields(prev: Meta, cur: Meta, m: Meta)
    requires prev.body.Fields? && m.body.Fields? && WellFormed(prev) && WellFormed(cur) && Grows(prev, cur)
    requires MergeFields(prev, m).Changed?
    ensures var merged := MergeFields(prev, m).meta; MergeFields(cur, merged) == MergeFields(cur, m)
  {
    hide Fresh, FreshOrder, Retyped;
    var p, c, known := prev.body.fields, cur.body.fields, KnownFields(cur.body);
    var merged := MergeFields(prev, m).meta;
    KnownFieldsSame(prev.body);
    KnownFieldsSame(cur.body);
    AddFieldsOutcome(p, KnownFields(prev.body), m.body.fields, m.body.order);
    AddFieldsOutcome(c, known, m.body.fields, m.body.order);
    AddFieldsOutcome(c, known, merged.body.fields, merged.body.order);
    FreshOrderLater(p, c, prev.body.order, m.body.order);
    FreshLater(p, c, m.body.fields, m.body.order, prev.body.order, merged.body.order);
    SchemasLater(prev.body.schemas, cur.body.schemas, m.body.schemas);
  }

  lemma FreshOrderLater(prev: map<Name, FieldMeta>, cur: map<Name, FieldMeta>, known: seq<Name>, order: seq<Name>)
    requires prev.Keys <= cur.Keys && forall f :: f in known ==> f in prev
    ensures FreshOrder(cur, known + FreshOrder(prev, order)) == FreshOrder(cur, order)
  {
    FreshOrderConcat(cur, known, FreshOrder(prev, order));
    FreshOrderOfKnown(cur, known);
    FreshOrderThrough(prev, cur, order);
  }

  lemma FreshLater(prev: map<Name, FieldMeta>, cur: map<Name, FieldMeta>, more: map<Name, FieldMeta>, order: seq<Name>,
                   known: seq<Name>, merged: seq<Name>)
    requires forall f :: f in prev ==> f in cur && cur[f] == prev[f]
    requires !Retyped(prev, more, order)
    requires (forall f :: f in known <==> f in prev) && merged == known + FreshOrder(prev, order)
    ensures Fresh(cur, prev + Fresh(prev, more, order), merged) == Fresh(cur, more, order)
    ensures Retyped(cur, prev + Fresh(prev, more, order), merged) <==> Retyped(cur, more, order)
  {
    hide Retyped, FreshOrder;
    FreshOrderElements(prev, order);
    var fields := prev + Fresh(prev, more, order);
    forall f ensures f in merged <==> f in prev || f in order {}
    RetypedLater(prev, cur, more, order, fields, merged);
  }

  lemma RetypedLater(prev: map<Name, FieldMeta>, cur: map<Name, FieldMeta>, more: map<Name, FieldMeta>, order: seq<Name>,
                     fields: map<Name, FieldMeta>, merged: seq<Name>)
    requires forall f :: f in prev ==> f in cur && f in fields && cur[f] == fields[f] == prev[f]
    requires !Retyped(prev, more, order)
    requires forall f :: f in merged <==> f in prev || f in order
    requires forall f :: f in order && f !in prev ==> FieldOf(fields, f) == FieldOf(more, f)
    ensures Retyped(cur, fields, merged) <==> Retyped(cur, more, order)
  {
    if Retyped(cur, fields, merged) {
      var f :| f in merged && f in cur && cur[f].typeId != FieldOf(fields, f).typeId;
      assert f in order && f !in prev;
    }
    if Retyped(cur, more, order) {
      var f :| f in order && f in cur && cur[f].typeId != FieldOf(more, f).typeId;
      assert f in merged && f !in prev;
    }
  }

  lemma SchemasLater(prev: map<int32, seq<int32>>, cur: map<int32, seq<int32>>, more: map<int32, seq<int32>>)
    requires forall id :: id in prev ==> id in cur && cur[id] == prev[id]
    ensures (more + prev) + cur == more + cur
    ensures (more + prev).Keys <= cur.Keys <==> more.Keys <= cur.Keys
  {
    assert (more + prev).Keys == more.Keys + prev.Keys;
  }

  lemma CatchUpEnum(prev: Meta, cur: Meta, m: Meta)
    requires prev.body.Enum? && m.body.Enum? && WellFormed(prev) && WellFormed(cur) && Grows(prev, cur)
    requires MergeMeta(prev, m).Changed? && MergeMeta(prev, m).meta.affKeyName == cur.affKeyName
    ensures var merged := MergeMeta(prev, m).meta;
      MergeMeta(cur, merged) == MergeMeta(cur, m.(affKeyName := merged.affKeyName))
  {
    hide Union, WellFormed, Grows;
    var merged := MergeMeta(prev, m).meta;
    GrowsNames(prev, cur);
    UnionLater(prev, cur, m, merged);
    assert merged.body.nameToOrd != map[];
    SameUnion(cur, m.(affKeyName := merged.affKeyName), m);
  }

  lemma GrowsNames(prev: Meta, cur: Meta)
    requires Grows(prev, cur) && prev.body.Enum?
    ensures cur.body.Enum? && cur.typeId == prev.typeId && cur.typeName == prev.typeName
    ensures forall n :: n in prev.body.nameToOrd ==>
      n in cur.body.nameToOrd && cur.body.nameToOrd[n] == prev.body.nameToOrd[n]
  {
  }

  lemma SameUnion(prev: Meta, a: Meta, b: Meta)
    requires WellFormed(prev) && a.body == b.body
    ensures Union(prev, a) == Union(prev, b)
  {
  }

  lemma UnionLater(prev: Meta, cur: Meta, m: Meta, merged: Meta)
    requires prev.body.Enum? && cur.body.Enum? && m.body.Enum? && merged.body.Enum?
    requires WellFormed(prev) && WellFormed(cur) && Union(prev, m).Some?
    requires merged.body.nameToOrd == Union(prev, m).value.nameToOrd
    requires forall n :: n in prev.body.nameToOrd ==>
      n in cur.body.nameToOrd && cur.body.nameToOrd[n] == prev.body.nameToOrd[n]
    ensures Union(cur, merged) == Union(cur, m)
  {
    hide Compatible, Mirror, OneToOne;
    var p, c, q := prev.body.nameToOrd, cur.body.nameToOrd, m.body.nameToOrd;
    WellFormedOneToOne(cur);
    CompatibleLater(p, c, q);
    if Compatible(c, q) {
      CompatibleAgrees(c, q);
      assert c + (p + q) == c + q;
    }
  }

  lemma CompatibleLater(prev: map<Name, int32>, cur: map<Name, int32>, more: map<Name, int32>)
    requires OneToOne(cur) && Compatible(prev, more) && forall n :: n in prev ==> n in cur && cur[n] == prev[n]
    ensures Compatible(cur, prev + more) <==> Compatible(cur, more)
  {
    var u := prev + more;
    UnionOneToOne(prev, more);
    if Compatible(cur, u) {
      forall m, n | m in cur && n in more && cur[m] == more[n] ensures m == n {
        assert u[n] == more[n];
      }
      forall n | n in cur && n in more ensures cur[n] == more[n] {
        assert u[n] == more[n];
      }
    }
    if Compatible(cur, more) {
      forall m, n | m in cur && n in u && cur[m] == u[n] ensures m == n {
        assert n in more || (n in prev && u[n] == cur[n]);
      }
    }
  }

  // The registry merges before it sends and the cache merges the outcome once more: over the same
  // old metadata the second merge gives what the first one did.
  lemma MergeTwice(prev: Meta, m: Meta)
    requires WellFormed(prev) && MergeMeta(prev, m).Changed? && prev.affKeyName == MergeMeta(prev, m).meta.affKeyName
    ensures var merged := MergeMeta(prev, m).meta; MergeMeta(prev, merged) == Changed(merged)
  {
    var merged := MergeMeta(prev, m).meta;
    MergeCatchUp(prev, prev, m);
    assert m.(affKeyName := merged.affKeyName) == m;
  }
}
