/** The runtime facilities the message map takes from .NET reflection, replaced by
    explicit data: type identities, the base-type relation, value-type-ness, default
    instances, tagged runtime values and the resource string catalog. */
module Types {
  import opened Base

  /** A runtime type. Types are numbered so that a base type always has a smaller
      number than the types deriving from it (a topological order of the hierarchy). */
  type TypeId = nat

  /** System.Object: the root of the hierarchy; it has no base type. */
  const Object: TypeId := 0

  /** A runtime value: null, or an object tagged with its exact runtime type.
      The payload stands for the object's state (an integer, an enum member, ...). */
  datatype Value = Null | Obj(ty: TypeId, payload: int)

  /** The reflective facts the source asks of a type.
      base:       Type.BaseType, absent for a type without a base type
      valueTypes: the types for which Type.IsValueType holds (structs and enums)
      defaults:   the payload of Activator.CreateInstance(t), for the types that have a
                  parameterless constructor */
  datatype TypeSystem = TypeSystem(base: map<TypeId, TypeId>, valueTypes: set<TypeId>, defaults: map<TypeId, int>)

  /** A finite, acyclic hierarchy rooted at System.Object, which is a reference type.
      Every value type has a default instance (Activator.CreateInstance always succeeds
      on a struct or an enum). */
  ghost predicate WellFormed(ts: TypeSystem) {
    && (forall t :: t in ts.base ==> ts.base[t] < t)
    && Object !in ts.valueTypes
    && ts.valueTypes <= ts.defaults.Keys
  }

  type Hierarchy = ts: TypeSystem | WellFormed(ts) witness TypeSystem(map[], {}, map[])

  /** The environment a query runs in: the type hierarchy and the resource catalog
      (ResourceManager.GetString, with the catalog fixed for the duration of a query). */
  datatype Env = Env(types: Hierarchy, catalog: map<string, string>)

  /** Type.IsValueType */
  predicate IsValueType(h: Hierarchy, t: TypeId) {
    t in h.valueTypes
  }

  /** object.GetType(): the runtime type of a value; null has none. */
  function GetType(v: Value): (r: Result<TypeId>)
    ensures r.Ok? <==> v.Obj?
    ensures r.Ok? ==> r.value == v.ty
  {
    if v.Null? then Err(NullReference) else Ok(v.ty)
  }

  /** Activator.CreateInstance(t): a default instance of exactly type t, or a failure
      when t has no parameterless constructor. */
  function CreateInstance(h: Hierarchy, t: TypeId): (r: Result<Value>)
    ensures r.Ok? <==> t in h.defaults
    ensures r.Ok? ==> r.value.Obj? && r.value.ty == t
    ensures r.Err? ==> r.error == MissingDefaultConstructor
  {
    if t in h.defaults then Ok(Obj(t, h.defaults[t])) else Err(MissingDefaultConstructor)
  }

  /** ResourceManager.GetString(key): the template, or None (null) for a key the
      catalog does not hold. */
  function GetString(catalog: map<string, string>, key: string): (r: Option<string>)
    ensures r.Some? <==> key in catalog
    ensures r.Some? ==> r.value == catalog[key]
  {
    if key in catalog then Some(catalog[key]) else None
  }

  /** The base-type chain of t: t itself, its base type, that type's base type, and so
      on up to a type without a base type. */
  function Chain(h: Hierarchy, t: TypeId): (c: seq<TypeId>)
    ensures |c| > 0 && c[0] == t
    decreases t
  {
    if t in h.base then [t] + Chain(h, h.base[t]) else [t]
  }

  /** a is t or one of its ancestors. */
  predicate IsAncestorOrSelf(h: Hierarchy, a: TypeId, t: TypeId) {
    a in Chain(h, t)
  }

  /** The cast (T)instance on an instance of exactly type t: into System.Object it
      always succeeds; into a value type T (an unboxing) only when t is T; into any
      other reference type T when T is t or one of its ancestors. */
  predicate CastSucceeds(h: Hierarchy, t: TypeId, target: TypeId) {
    if target == Object then true
    else if IsValueType(h, target) then t == target
    else IsAncestorOrSelf(h, target, t)
  }

  /** Every type in the chain of t is t or has t as a proper descendant, and the
      chain is a path of base-type steps that ends at a type without a base type. */
  lemma {:induction false} ChainIsBasePath(h: Hierarchy, t: TypeId)
    ensures forall i :: 0 <= i < |Chain(h, t)| ==> Chain(h, t)[i] <= t
    ensures forall i :: 0 <= i < |Chain(h, t)| - 1 ==> Chain(h, t)[i] in h.base && Chain(h, t)[i + 1] == h.base[Chain(h, t)[i]]
    ensures Chain(h, t)[|Chain(h, t)| - 1] !in h.base
    decreases t
  {
    if t in h.base {
      ChainIsBasePath(h, h.base[t]);
      var c, rest := Chain(h, t), Chain(h, h.base[t]);
      assert c == [t] + rest;
      forall i | 0 <= i < |c| - 1 ensures c[i] in h.base && c[i + 1] == h.base[c[i]] {
        if i > 0 {
          assert c[i] == rest[i - 1] && c[i + 1] == rest[i];
        }
      }
    }
  }

  /** The ancestor relation is transitive: the chain of an ancestor of t lies inside
      the chain of t. */
  lemma {:induction false} AncestorTransitive(h: Hierarchy, a: TypeId, b: TypeId, t: TypeId)
    requires IsAncestorOrSelf(h, a, t) && IsAncestorOrSelf(h, b, a)
    ensures IsAncestorOrSelf(h, b, t)
    decreases t
  {
    if a != t {
      assert t in h.base;
      assert a in Chain(h, h.base[t]);
      AncestorTransitive(h, a, b, h.base[t]);
    }
  }
}
