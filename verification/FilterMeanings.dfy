// What the filters of cluster.go accept, said of the nodes and their attribute values themselves.
module FilterMeanings {
  import opened Values
  import opened Filters

  // ---------------------------------------------------------- attribute values

  predicate IsFloat(v: Value) {
    v.Scalar? && (v.prim.PFloat? || v.prim.PDouble?)
  }

  // One more than the largest fraction and the largest exponent of a bit pattern.
  function Fractions(p: Prim): nat {
    if p.PFloat? then 0x80_0000 else 0x10_0000_0000_0000
  }

  function Exponents(p: Prim): nat {
    if p.PFloat? then 0x100 else 0x800
  }

  predicate IsNaN(v: Value)
    requires IsFloat(v)
  {
    v.v / Fractions(v.prim) % Exponents(v.prim) == Exponents(v.prim) - 1 && v.v % Fractions(v.prim) != 0
  }

  // All bits but the sign are zero.
  predicate IsZero(v: Value)
    requires IsFloat(v)
  {
    v.v % (Fractions(v.prim) * Exponents(v.prim)) == 0
  }

  // A NaN is the same as nothing, the two zeros are the same, and otherwise the very same value is.
  predicate SameValue(a: Value, b: Value) {
    if IsFloat(a) && IsFloat(b)
    then !IsNaN(a) && !IsNaN(b) && (a == b || (a.prim == b.prim && IsZero(a) && IsZero(b)))
    else a == b
  }

  // Bit patterns of their width.
  predicate InRange(v: Value) {
    IsFloat(v) ==> 0 <= v.v < 2 * Fractions(v.prim) * Exponents(v.prim)
  }

  ghost predicate AllInRange(attributes: map<Name, Value>) {
    forall name :: name in attributes ==> InRange(attributes[name])
  }

  lemma PatternParts(v: Value)
    requires IsFloat(v) && InRange(v)
    ensures var sign := Fractions(v.prim) * Exponents(v.prim);
      var infinity := Fractions(v.prim) * (Exponents(v.prim) - 1);
      && (IsNaN(v) <==> (v.v > infinity && v.v < sign) || v.v > sign + infinity)
      && (IsZero(v) <==> v.v == 0 || v.v == sign)
  {
  }

  // Go's equality, for every two values.
  lemma EqualityMeaning(a: Value, b: Value)
    requires InRange(a) && InRange(b)
    ensures GoEqual(a, b) <==> SameValue(a, b)
  {
    hide IsNaN, IsZero;
    if IsFloat(a) {
      PatternParts(a);
    }
    if IsFloat(b) {
      PatternParts(b);
    }
  }

  lemma AllSame(a: map<Name, Value>, b: map<Name, Value>)
    requires AllInRange(a) && AllInRange(b)
    ensures forall name :: name in a && name in b ==> (GoEqual(a[name], b[name]) <==> SameValue(a[name], b[name]))
  {
    hide GoEqual, SameValue, InRange;
    forall name | name in a && name in b {
      EqualityMeaning(a[name], b[name]);
    }
  }

  // Of values that are no floats each is only the same as itself.
  lemma OtherEquality(a: Value, b: Value)
    requires !IsFloat(a) || !IsFloat(b)
    ensures GoEqual(a, b) <==> a == b
  {
  }

  // ---------------------------------------------------------- attribute filters

  // An attribute filter accepts a node exactly if every attribute is there with the same value.
  lemma AttributesAccept(attributes: map<Name, Value>, n: Node)
    requires AllInRange(attributes) && AllInRange(n.attributes)
    ensures Test(Attributes(attributes), n) <==>
      forall name :: name in attributes ==> name in n.attributes && SameValue(attributes[name], n.attributes[name])
  {
    hide GoEqual, SameValue, InRange;
    AllSame(attributes, n.attributes);
  }

  ghost predicate NoFloats(attributes: map<Name, Value>) {
    forall name :: name in attributes ==> !IsFloat(attributes[name])
  }

  // Without floats: with that very value.
  lemma PlainAttributesAccept(attributes: map<Name, Value>, n: Node)
    requires NoFloats(attributes)
    ensures Test(Attributes(attributes), n) <==>
      forall name :: name in attributes ==> name in n.attributes && n.attributes[name] == attributes[name]
  {
    hide GoEqual, IsFloat;
    forall name | name in attributes && name in n.attributes
      ensures GoEqual(attributes[name], n.attributes[name]) <==> attributes[name] == n.attributes[name]
    {
      OtherEquality(attributes[name], n.attributes[name]);
    }
  }

  // Two attribute filters contradict each other exactly if a shared name has different values, and
  // otherwise merge into one with the attributes of both.
  lemma AttributesMerge(a: map<Name, Value>, b: map<Name, Value>)
    requires AllInRange(a) && AllInRange(b)
    ensures MergeFilter(Attributes(a), Attributes(b)) ==
      if exists name :: name in a && name in b && !SameValue(a[name], b[name]) then Contradiction
      else Merged(Attributes(a + b))
  {
    hide GoEqual, SameValue, InRange;
    AllSame(a, b);
  }

  lemma PlainAttributesMerge(a: map<Name, Value>, b: map<Name, Value>)
    requires NoFloats(a)
    ensures MergeFilter(Attributes(a), Attributes(b)) ==
      if exists name :: name in a && name in b && a[name] != b[name] then Contradiction
      else Merged(Attributes(a + b))
  {
    hide GoEqual, IsFloat;
    forall name | name in a && name in b ensures GoEqual(a[name], b[name]) <==> a[name] == b[name] {
      OtherEquality(a[name], b[name]);
    }
  }

  // --------------------------------------------------------------- every filter

  // What it takes to be kept by a filter that tests.
  predicate Accepts(f: Filter, n: Node)
    requires !f.Basic?
  {
    match f
    case NodeIds(ids) => n.id in ids
    case NodeType(isForClients) => if isForClients then n.isClient else !n.isClient
    case Predicate(accepts) => accepts(n)
    case Attributes(attributes) =>
      forall name :: name in attributes ==> name in n.attributes && SameValue(attributes[name], n.attributes[name])
  }

  // A filter that tests keeps exactly the nodes that it accepts, each as often as it is there.
  lemma KeptExactly(f: Filter, nodes: seq<Node>, n: Node)
    requires !f.Basic? && AllInRange(n.attributes) && (f.Attributes? ==> AllInRange(f.attributes))
    ensures Apply(f, nodes).Ok?
    ensures multiset(Apply(f, nodes).value)[n] == if Accepts(f, n) then multiset(nodes)[n] else 0
  {
    hide Test, Accepts;
    assert Test(f, n) <==> Accepts(f, n) by { TestMeaning(f, n); }
    SelectCounts(m => Test(f, m), nodes, n);
  }

  lemma TestMeaning(f: Filter, n: Node)
    requires !f.Basic? && AllInRange(n.attributes) && (f.Attributes? ==> AllInRange(f.attributes))
    ensures Test(f, n) <==> Accepts(f, n)
  {
    hide SameValue, InRange;
    if f.Attributes? {
      AttributesAccept(f.attributes, n);
    }
  }

  lemma {:induction false} SelectCounts(test: Node -> bool, nodes: seq<Node>, n: Node)
    ensures multiset(Select(test, nodes))[n] == if test(n) then multiset(nodes)[n] else 0
  {
    if nodes != [] {
      SelectCounts(test, nodes[1..], n);
      assert nodes == [nodes[0]] + nodes[1..];
    }
  }
}
