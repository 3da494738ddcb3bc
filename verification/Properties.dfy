/** Merging of node properties and of whole property maps. */
module Properties {
  import opened Wrappers

  datatype Property =
    | IncrementOnlyUint(u: nat)
    | ImmutableUint(u: nat)
    | DecrementOnlyUint(u: nat)
    | DecrementOnlyInt(i: int)
    | IncrementOnlyInt(i: int)
    | ImmutableInt(i: int)
    | ImmutableStr(s: string)

  // The protobuf wrapper may be empty.
  type NodeProperty = Option<Property>

  type PropertyMap = map<string, NodeProperty>

  function Max(a: int, b: int): int {
    if a < b then b else a
  }

  function Min(a: int, b: int): int {
    if b < a then b else a
  }

  // Different variants do not merge: the left one stays.
  function MergeProperty(p: Property, q: Property): Property {
    match (p, q)
    case (IncrementOnlyUint(a), IncrementOnlyUint(b)) => IncrementOnlyUint(Max(a, b))
    case (DecrementOnlyUint(a), DecrementOnlyUint(b)) => DecrementOnlyUint(Min(a, b))
    case (DecrementOnlyInt(a), DecrementOnlyInt(b)) => DecrementOnlyInt(Min(a, b))
    case (IncrementOnlyInt(a), IncrementOnlyInt(b)) => IncrementOnlyInt(Max(a, b))
    case _ => p
  }

  function MergeNodeProperty(p: NodeProperty, q: NodeProperty): NodeProperty {
    if p.Some? && q.Some? then Some(MergeProperty(p.value, q.value)) else p
  }

  function MergeProperties(a: PropertyMap, b: PropertyMap): PropertyMap {
    map k | k in a.Keys + b.Keys ::
      if k in a && k in b then MergeNodeProperty(a[k], b[k]) else if k in a then a[k] else b[k]
  }

  lemma MergePropertiesStep(a: PropertyMap, b: PropertyMap, k: string, p: NodeProperty)
    requires k !in b
    ensures MergeProperties(a, b[k := p]) == MergeProperties(a, b)[k := if k in a then MergeNodeProperty(a[k], p) else p]
  {
  }

  // The in-place loop over the other map, in whatever order its hash map has.
  method MergeInto(self: PropertyMap, other: PropertyMap) returns (merged: PropertyMap)
    ensures merged == MergeProperties(self, other)
  {
    merged := self;
    var rest := other.Keys;
    while rest != {}
      invariant rest <= other.Keys
      invariant merged == MergeProperties(self, other - rest)
      decreases rest
    {
      var name :| name in rest;
      assert other - (rest - {name}) == (other - rest)[name := other[name]];
      MergePropertiesStep(self, other - rest, name, other[name]);
      if name in merged {
        merged := merged[name := MergeNodeProperty(merged[name], other[name])];
      } else {
        merged := merged[name := other[name]];
      }
      rest := rest - {name};
    }
    assert other - {} == other;
  }

  // ---------------------------------------------------------------- laws

  predicate SameVariant(p: Property, q: Property) {
    match (p, q)
    case (IncrementOnlyUint(_), IncrementOnlyUint(_)) => true
    case (ImmutableUint(_), ImmutableUint(_)) => true
    case (DecrementOnlyUint(_), DecrementOnlyUint(_)) => true
    case (DecrementOnlyInt(_), DecrementOnlyInt(_)) => true
    case (IncrementOnlyInt(_), IncrementOnlyInt(_)) => true
    case (ImmutableInt(_), ImmutableInt(_)) => true
    case (ImmutableStr(_), ImmutableStr(_)) => true
    case _ => false
  }

  predicate Immutable(p: Property) {
    p.ImmutableUint? || p.ImmutableInt? || p.ImmutableStr?
  }

  // What a merge makes of two values of one variant, and of two variants.
  lemma MergedValue(p: Property, q: Property)
    ensures var r := MergeProperty(p, q);
            && (r == p || r == q) && SameVariant(r, p)
            && (p.IncrementOnlyUint? && q.IncrementOnlyUint? ==> p.u <= r.u && q.u <= r.u)
            && (p.IncrementOnlyInt? && q.IncrementOnlyInt? ==> p.i <= r.i && q.i <= r.i)
            && (p.DecrementOnlyUint? && q.DecrementOnlyUint? ==> r.u <= p.u && r.u <= q.u)
            && (p.DecrementOnlyInt? && q.DecrementOnlyInt? ==> r.i <= p.i && r.i <= q.i)
            && (Immutable(p) || !SameVariant(p, q) ==> r == p)
  {
  }

  predicate SameNodeVariant(p: NodeProperty, q: NodeProperty) {
    (p.None? && q.None?) || (p.Some? && q.Some? && SameVariant(p.value, q.value))
  }

  // A merge with `q` would change `p`.
  predicate Moves(p: NodeProperty, q: NodeProperty) {
    && p.Some? && q.Some?
    && match (p.value, q.value)
       case (IncrementOnlyUint(a), IncrementOnlyUint(b)) => a < b
       case (DecrementOnlyUint(a), DecrementOnlyUint(b)) => b < a
       case (DecrementOnlyInt(a), DecrementOnlyInt(b)) => b < a
       case (IncrementOnlyInt(a), IncrementOnlyInt(b)) => a < b
       case _ => false
  }

  // Merging is associative at a triple exactly when its first two have one variant, or its
  // last does not move its first (or its first is empty, which nothing moves).
  lemma MergeAssociativeIff(p: NodeProperty, q: NodeProperty, r: NodeProperty)
    ensures MergeNodeProperty(MergeNodeProperty(p, q), r) == MergeNodeProperty(p, MergeNodeProperty(q, r))
            <==> SameNodeVariant(p, q) || !Moves(p, r)
  {
    if p.Some? && q.Some? && r.Some? {
      if SameVariant(p.value, q.value) {
        match p.value
        case IncrementOnlyUint(_) =>
        case ImmutableUint(_) =>
        case DecrementOnlyUint(_) =>
        case DecrementOnlyInt(_) =>
        case IncrementOnlyInt(_) =>
        case ImmutableInt(_) =>
        case ImmutableStr(_) =>
      } else {
        assert MergeProperty(p.value, MergeProperty(q.value, r.value)) == p.value;
      }
    }
  }

  // And commutative at a pair exactly when it is one value twice, or one mutable variant.
  lemma MergeCommutativeIff(p: Property, q: Property)
    ensures MergeProperty(p, q) == MergeProperty(q, p) <==> p == q || (SameVariant(p, q) && !Immutable(p))
  {
    match p
    case IncrementOnlyUint(_) =>
    case ImmutableUint(_) =>
    case DecrementOnlyUint(_) =>
    case DecrementOnlyInt(_) =>
    case IncrementOnlyInt(_) =>
    case ImmutableInt(_) =>
    case ImmutableStr(_) =>
  }

  // Without any side condition, merging the same map again changes nothing.
  lemma MergeIdempotent(a: PropertyMap, b: PropertyMap)
    ensures MergeProperties(MergeProperties(a, b), b) == MergeProperties(a, b)
    ensures MergeProperties(a, a) == a
  {
    forall k | k in a
      ensures MergeNodeProperty(a[k], a[k]) == a[k]
    {
    }
    forall k | k in MergeProperties(a, b)
      ensures MergeProperties(MergeProperties(a, b), b)[k] == MergeProperties(a, b)[k]
    {
    }
  }

  predicate SameVariants(a: PropertyMap, b: PropertyMap) {
    forall k | k in a && k in b :: SameNodeVariant(a[k], b[k])
  }

  lemma MergeMapsAssociative(a: PropertyMap, b: PropertyMap, c: PropertyMap)
    requires SameVariants(a, b) && SameVariants(a, c) && SameVariants(b, c)
    ensures MergeProperties(MergeProperties(a, b), c) == MergeProperties(a, MergeProperties(b, c))
  {
    var left := MergeProperties(MergeProperties(a, b), c);
    var right := MergeProperties(a, MergeProperties(b, c));
    assert left.Keys == right.Keys;
    forall k | k in left
      ensures left[k] == right[k]
    {
      if k in a && k in b && k in c {
        MergeAssociativeIff(a[k], b[k], c[k]);
      }
    }
  }

  // ---------------------------------------------------------------- agreeing contributions

  // One variant, and one value if it is immutable.
  predicate Agree(p: NodeProperty, q: NodeProperty) {
    SameNodeVariant(p, q) && (p.Some? && Immutable(p.value) ==> p == q)
  }

  predicate AgreeMaps(a: PropertyMap, b: PropertyMap) {
    forall k | k in a && k in b :: Agree(a[k], b[k])
  }

  lemma AgreeingMerge(p: NodeProperty, q: NodeProperty, r: NodeProperty)
    requires Agree(p, q) && Agree(p, r) && Agree(q, r)
    ensures MergeNodeProperty(p, q) == MergeNodeProperty(q, p)
    ensures MergeNodeProperty(MergeNodeProperty(p, q), r) == MergeNodeProperty(MergeNodeProperty(p, r), q)
    ensures Agree(MergeNodeProperty(p, q), r)
  {
    if p.Some? {
      match p.value
      case IncrementOnlyUint(_) =>
      case ImmutableUint(_) =>
      case DecrementOnlyUint(_) =>
      case DecrementOnlyInt(_) =>
      case IncrementOnlyInt(_) =>
      case ImmutableInt(_) =>
      case ImmutableStr(_) =>
    }
  }

  lemma AgreeingMapsCommute(a: PropertyMap, b: PropertyMap)
    requires AgreeMaps(a, b)
    ensures MergeProperties(a, b) == MergeProperties(b, a)
  {
    forall k | k in a && k in b
      ensures MergeNodeProperty(a[k], b[k]) == MergeNodeProperty(b[k], a[k])
    {
      AgreeingMerge(a[k], b[k], b[k]);
    }
  }

  lemma AgreeingMapsSwap(a: PropertyMap, b: PropertyMap, c: PropertyMap)
    requires AgreeMaps(a, b) && AgreeMaps(a, c) && AgreeMaps(b, c)
    ensures MergeProperties(MergeProperties(a, b), c) == MergeProperties(MergeProperties(a, c), b)
  {
    var left, right := MergeProperties(MergeProperties(a, b), c), MergeProperties(MergeProperties(a, c), b);
    assert left.Keys == right.Keys;
    forall k | k in b && k in c
      ensures left[k] == right[k]
    {
      if k in a {
        AgreeingMerge(a[k], b[k], c[k]);
      } else {
        AgreeingMerge(b[k], c[k], c[k]);
      }
    }
  }

  lemma AgreeingMapsStayAgreeing(a: PropertyMap, b: PropertyMap, c: PropertyMap)
    requires AgreeMaps(a, b) && AgreeMaps(a, c) && AgreeMaps(b, c)
    ensures AgreeMaps(MergeProperties(a, b), c)
  {
    forall k | k in MergeProperties(a, b) && k in c
      ensures Agree(MergeProperties(a, b)[k], c[k])
    {
      if k in a && k in b {
        AgreeingMerge(a[k], b[k], c[k]);
      }
    }
  }
}
