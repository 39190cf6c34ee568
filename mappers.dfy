/** The dispatch stores (IMapper): TypeMapper keyed on runtime types, with an
    optional base-type walk, and ValueMapper keyed on exact values of one value type;
    plus MapperFactory, which picks between them. The stores are generic in the item
    they map to (IMappedItem in the source). */
module Mappers {
  import opened Base
  import opened Types

  /** LookupStrategyEnum */
  datatype LookupStrategy = ConcreteOnly | InheritChain

  /** An IMapper. ValueMapper<T> remembers T (elementType) because Find checks it;
      TypeMapper<T> never uses its T, so the model drops it. */
  datatype Mapper<I> =
    | TypeMapper(types: map<TypeId, I>, strategy: LookupStrategy)
    | ValueMapper(elementType: TypeId, values: map<Value, I>)

  /** The items a store holds. */
  function Items<I(==)>(m: Mapper<I>): set<I> {
    match m
    case TypeMapper(types, _) => types.Values
    case ValueMapper(_, values) => values.Values
  }

  // ---------------------------------------------------------------- TypeMapper

  /** TypeMapper.Find(Type): the entry of t itself, otherwise (InheritChain only) the
      entry found by searching again from t's base type; None once a type without a
      base type is reached. */
  function TypeFind<I(==)>(h: Hierarchy, types: map<TypeId, I>, strategy: LookupStrategy, t: TypeId): (r: Option<I>)
    ensures r.Some? ==> r.value in types.Values
    decreases t
  {
    if t in types then Some(types[t])
    else if strategy == ConcreteOnly || t !in h.base then None
    else TypeFind(h, types, strategy, h.base[t])
  }

  /** A registered type is found directly, under either strategy. */
  lemma FindRegisteredType<I>(h: Hierarchy, types: map<TypeId, I>, strategy: LookupStrategy, t: TypeId)
    requires t in types
    ensures TypeFind(h, types, strategy, t) == Some(types[t])
  {
  }

  /** ConcreteOnly performs exactly one lookup: an unregistered type is not found,
      whatever its ancestors. */
  lemma ConcreteOnlyFind<I>(h: Hierarchy, types: map<TypeId, I>, t: TypeId)
    ensures TypeFind(h, types, ConcreteOnly, t) == if t in types then Some(types[t]) else None
  {
  }

  /** InheritChain resolves t to the entry of the most specific registered type on its
      base-type chain: nothing is found exactly when no type on the chain is registered,
      and the type found is a descendant-or-self of every other registered ancestor. */
  lemma {:induction false} InheritChainFindsNearestAncestor<I>(h: Hierarchy, types: map<TypeId, I>, t: TypeId)
    ensures TypeFind(h, types, InheritChain, t).None? <==> forall a :: IsAncestorOrSelf(h, a, t) ==> a !in types
    ensures TypeFind(h, types, InheritChain, t).Some? ==>
              exists a :: IsAncestorOrSelf(h, a, t) && a in types && TypeFind(h, types, InheritChain, t) == Some(types[a]) &&
                          forall b :: IsAncestorOrSelf(h, b, t) && b in types ==> IsAncestorOrSelf(h, b, a)
    decreases t
  {
    if t in types {
      assert IsAncestorOrSelf(h, t, t);
      forall b | IsAncestorOrSelf(h, b, t) && b in types ensures IsAncestorOrSelf(h, b, t) { }
    } else if t !in h.base {
      forall a | IsAncestorOrSelf(h, a, t) ensures a !in types {
        assert Chain(h, t) == [t];
      }
    } else {
      var p := h.base[t];
      InheritChainFindsNearestAncestor(h, types, p);
      assert Chain(h, t) == [t] + Chain(h, p);
      assert forall a :: IsAncestorOrSelf(h, a, t) <==> a == t || IsAncestorOrSelf(h, a, p);
    }
  }

  /** Adding a type key k changes no InheritChain lookup whose base-type chain avoids k,
      and no ConcreteOnly lookup of another type. */
  lemma {:induction false} TypeFindUnaffectedByAdd<I>(h: Hierarchy, types: map<TypeId, I>, strategy: LookupStrategy,
                                                     k: TypeId, item: I, t: TypeId)
    requires !IsAncestorOrSelf(h, k, t) || (strategy == ConcreteOnly && k != t)
    ensures TypeFind(h, types[k := item], strategy, t) == TypeFind(h, types, strategy, t)
    decreases t
  {
    if t !in types && strategy == InheritChain && t in h.base {
      assert Chain(h, t) == [t] + Chain(h, h.base[t]);
      TypeFindUnaffectedByAdd(h, types, strategy, k, item, h.base[t]);
    }
  }

  // ---------------------------------------------------------- IMapper.Find

  /** IMapper.Find(object). TypeMapper: the lookup of the value's runtime type.
      ValueMapper: the entry of an equal value, after checking that the value is
      exactly of type T. Calling GetType() on null fails in both. */
  function FindValue<I(==)>(h: Hierarchy, m: Mapper<I>, v: Value): (r: Result<Option<I>>)
    ensures r.Ok? && r.value.Some? ==> r.value.value in Items(m)
    ensures r.Err? <==> v.Null? || (m.ValueMapper? && v.ty != m.elementType)
    ensures r.Err? ==> r.error == (if v.Null? then NullReference else TypeMismatch)
  {
    match m
    case TypeMapper(types, strategy) =>
      if v.Null? then Err(NullReference) else Ok(TypeFind(h, types, strategy, v.ty))
    case ValueMapper(elementType, values) =>
      if v.Null? then Err(NullReference)
      else if v.ty != elementType then Err(TypeMismatch)
      else if v in values then Ok(Some(values[v]))
      else Ok(None)
  }

  /** IMapper.Find(Type). ValueMapper always answers null. */
  function FindType<I(==)>(h: Hierarchy, m: Mapper<I>, t: TypeId): (r: Option<I>)
    ensures r.Some? ==> r.value in Items(m)
    ensures m.ValueMapper? ==> r.None?
  {
    match m
    case TypeMapper(types, strategy) => TypeFind(h, types, strategy, t)
    case ValueMapper(_, _) => None
  }

  /** On a TypeMapper, finding an object is finding its runtime type. */
  lemma TypeMapperFindObjectIsFindType<I>(h: Hierarchy, m: Mapper<I>, v: Value)
    requires m.TypeMapper? && v.Obj?
    ensures FindValue(h, m, v) == Ok(FindType(h, m, v.ty))
  {
  }

  /** ValueMapper.Find(object) on a value of type T: the item registered for that value,
      or None when the value is unregistered. */
  lemma ValueMapperFindExact<I>(h: Hierarchy, m: Mapper<I>, v: Value)
    requires m.ValueMapper? && v.Obj? && v.ty == m.elementType
    ensures FindValue(h, m, v) == Ok(if v in m.values then Some(m.values[v]) else None)
  {
  }

  // ------------------------------------------------------------ IMapper.Add

  /** Dictionary.Add of a fresh key adds exactly one item to the values. */
  lemma FreshKeyValues<K, V>(m: map<K, V>, k: K, v: V)
    requires k !in m
    ensures m[k := v].Values == m.Values + {v}
  {
    forall x | x in m.Values ensures x in m[k := v].Values {
      var j :| j in m && m[j] == x;
      assert m[k := v][j] == x;
    }
    assert m[k := v][k] == v;
  }

  /** IMapper.Add<TKey>(item). TypeMapper: Dictionary.Add under typeof(TKey), which
      fails on a key already present. ValueMapper: always fails. */
  function AddType<I(==)>(m: Mapper<I>, key: TypeId, item: I): (r: Result<Mapper<I>>)
    ensures r.Ok? <==> m.TypeMapper? && key !in m.types
    ensures r.Ok? ==> r.value == m.(types := m.types[key := item])
    ensures r.Ok? ==> Items(r.value) == Items(m) + {item}
    ensures r.Err? ==> r.error == if m.ValueMapper? then TypeKeyOnValueStore else DuplicateKey
  {
    match m
    case TypeMapper(types, strategy) =>
      if key in types then Err(DuplicateKey)
      else FreshKeyValues(types, key, item); Ok(TypeMapper(types[key := item], strategy))
    case ValueMapper(_, _) => Err(TypeKeyOnValueStore)
  }

  /** IMapper.Add(value, item). TypeMapper: Dictionary.Add under value.GetType().
      ValueMapper: Dictionary.Add under (T)value, which fails for null, for a value of
      another type, and for a value already present. */
  function AddValue<I(==)>(m: Mapper<I>, v: Value, item: I): (r: Result<Mapper<I>>)
    ensures m.TypeMapper? ==> r == (if v.Null? then Err(NullReference) else AddType(m, v.ty, item))
    ensures m.ValueMapper? ==> (r.Ok? <==> v.Obj? && v.ty == m.elementType && v !in m.values)
    ensures m.ValueMapper? && r.Ok? ==> r.value == m.(values := m.values[v := item])
    ensures r.Ok? ==> Items(r.value) == Items(m) + {item}
  {
    match m
    case TypeMapper(types, strategy) =>
      if v.Null? then Err(NullReference)
      else if v.ty in types then Err(DuplicateKey)
      else Ok(TypeMapper(types[v.ty := item], strategy))
    case ValueMapper(elementType, values) =>
      if v.Null? then Err(NullReference)
      else if v.ty != elementType then Err(InvalidCast)
      else if v in values then Err(DuplicateKey)
      else FreshKeyValues(values, v, item); Ok(ValueMapper(elementType, values[v := item]))
  }

  /** After a successful Add, the new key is found with the new item, by type for a
      TypeMapper and by value for a ValueMapper. */
  lemma AddThenFind<I>(h: Hierarchy, m: Mapper<I>, v: Value, item: I)
    requires AddValue(m, v, item).Ok?
    ensures FindValue(h, AddValue(m, v, item).value, v) == Ok(Some(item))
  {
  }

  /** A failed Add leaves the store as it was: the model returns no new store, and
      every failure is one of the three the source raises. */
  lemma AddFailures<I>(m: Mapper<I>, v: Value, item: I)
    requires AddValue(m, v, item).Err?
    ensures AddValue(m, v, item).error == DuplicateKey ==> v.Obj? && (m.TypeMapper? ==> v.ty in m.types) && (m.ValueMapper? ==> v in m.values)
    ensures AddValue(m, v, item).error in {DuplicateKey, NullReference, InvalidCast}
  {
  }

  // ------------------------------------------------------------- MapperFactory

  /** MapperFactory.GetMapper<T>(lookupStrategy): an empty ValueMapper<T> for a value
      type (enums included; the strategy is not passed on), otherwise an empty
      TypeMapper with exactly the requested strategy. */
  function GetMapper<I(==)>(h: Hierarchy, t: TypeId, strategy: LookupStrategy := ConcreteOnly): (m: Mapper<I>)
    ensures m.ValueMapper? <==> IsValueType(h, t)
    ensures m.ValueMapper? ==> m.elementType == t
    ensures m.TypeMapper? ==> m.strategy == strategy
    ensures Items(m) == {}
    ensures forall v :: FindValue(h, m, v).Ok? ==> FindValue(h, m, v).value.None?
  {
    if IsValueType(h, t) then ValueMapper(t, map[]) else TypeMapper(map[], strategy)
  }

  /** The strategy argument is ignored for value types. */
  lemma StrategyIgnoredForValueTypes<I>(h: Hierarchy, t: TypeId)
    requires IsValueType(h, t)
    ensures GetMapper<I>(h, t, ConcreteOnly) == GetMapper<I>(h, t, InheritChain)
  {
  }
}
