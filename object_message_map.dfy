/** ObjectMessageMap: the entry point. It holds the root selector, created by the first
    Configure<T> and discarded by Clear, and hands both kinds of query to it. */
module ObjectMessageMap {
  import opened Base
  import opened Types
  import opened Mappers
  import opened Objects
  import SelectorMapper
  import Resolution

  /** The root: a selector for System.Object (the source's SelectorMapper<dynamic>)
      with an InheritChain store, no type name, no default and no sub-value accessor. */
  predicate IsRoot(g: Graph, r: Ref) {
    && r in g.objects
    && g.objects[r].Selector?
    && g.objects[r].ty == Object
    && g.objects[r].typeName == TypeName(None, None)
    && g.objects[r].mapper.TypeMapper? && g.objects[r].mapper.strategy == InheritChain
    && g.objects[r].defaultItem.None?
    && g.objects[r].subAccessor.None?
  }

  class ObjectMessageMap {
    /** The heap the configuration objects live on. */
    const heap: Heap
    /** MainMapper; None is null. */
    var mainMapper: Option<Ref>

    ghost predicate Valid()
      reads this, heap
    {
      heap.graph.Valid() && (mainMapper.Some? ==> IsRoot(heap.graph, mainMapper.value))
    }

    /** A map with no root, over an empty heap. */
    constructor(types: Hierarchy)
      ensures Valid() && fresh(heap)
      ensures mainMapper.None? && heap.types == types && heap.graph == Graph(map[], 0)
    {
      heap := new Heap(types);
      mainMapper := None;
    }

    /** Configure<T>(configure): creates the root if there is none, then
        Configure<T>(configure, InheritChain) on it: a new InheritChain selector for t
        (type-name key "") under key t. The result is that selector, which the configure
        action receives. A second Configure of the same t fails on the duplicate key. */
    method Configure(t: TypeId) returns (res: Result<Ref>)
      requires Valid()
      modifies this, heap
      ensures Valid() && mainMapper.Some?
      ensures old(mainMapper).Some? ==> mainMapper == old(mainMapper)
      ensures old(mainMapper).None? ==> mainMapper == Some(old(heap.graph.next)) && res.Ok?
      ensures var g0 := if old(mainMapper).Some? then old(heap.graph)
                        else old(heap.graph).Extend(SelectorMapper.NewNode(heap.types, Object, InheritChain, TypeName(None, None), None));
              var root, child := mainMapper.value, g0.next;
              var added := AddType(g0.objects[root].mapper, t, child);
              var extended := g0.Extend(SelectorMapper.NewNode(heap.types, t, InheritChain, TypeName(Some(""), None), None));
              && root in g0.objects
              && (added.Err? ==> res == Err(added.error) && heap.graph == extended)
              && (added.Ok? ==> res == Ok(child) && heap.graph == extended.Set(root, g0.objects[root].(mapper := added.value)))
    {
      if mainMapper.None? {
        var root := SelectorMapper.New(heap, Object, InheritChain);
        mainMapper := Some(root);
      }
      res := SelectorMapper.Configure(heap, mainMapper.value, t, InheritChain);
    }

    /** Clear(): the root is discarded; the next Configure starts a new one. */
    method Clear()
      requires Valid()
      modifies this
      ensures Valid() && mainMapper.None?
    {
      mainMapper := None;
    }

    /** GetMessage(object): the root's answer; calling it with no root fails. */
    function GetMessage(catalog: map<string, string>, obj: Value): (r: Result<Option<string>>)
      reads this, heap
      requires Valid()
      ensures mainMapper.None? ==> r == Err(NullReference)
      ensures mainMapper.Some? ==> r == Resolution.GetMessage(Env(heap.types, catalog), heap.graph, mainMapper.value, obj)
    {
      if mainMapper.None? then Err(NullReference)
      else Resolution.GetMessage(Env(heap.types, catalog), heap.graph, mainMapper.value, obj)
    }

    /** GetMessage(Type): the root's answer; calling it with no root fails. */
    function GetMessageForType(catalog: map<string, string>, t: TypeId): (r: Result<Option<string>>)
      reads this, heap
      requires Valid()
      ensures mainMapper.None? ==> r == Err(NullReference)
      ensures mainMapper.Some? ==> r == Resolution.GetMessageForType(Env(heap.types, catalog), heap.graph, mainMapper.value, t)
    {
      if mainMapper.None? then Err(NullReference)
      else Resolution.GetMessageForType(Env(heap.types, catalog), heap.graph, mainMapper.value, t)
    }

    /** The configured types coexist under the root: an object is answered by the
        configuration of the most specific type on its base-type chain that was
        configured, and gets "" when no type on its chain was. A type query for t is
        answered in the same way from t's base-type chain. */
    lemma QueryReachesNearestConfiguredType(catalog: map<string, string>, obj: Value, t: TypeId)
      requires Valid() && mainMapper.Some? && obj.Obj?
      ensures var g := heap.graph;
              var types := g.objects[mainMapper.value].mapper.types;
              && ((exists a :: IsAncestorOrSelf(heap.types, a, obj.ty) && a in types) ==>
                    exists a :: && IsAncestorOrSelf(heap.types, a, obj.ty) && a in types
                                && (forall b :: IsAncestorOrSelf(heap.types, b, obj.ty) && b in types ==> IsAncestorOrSelf(heap.types, b, a))
                                && types[a] in g.objects
                                && GetMessage(catalog, obj) == Resolution.GetMessage(Env(heap.types, catalog), g, types[a], obj))
              && ((forall a :: IsAncestorOrSelf(heap.types, a, obj.ty) ==> a !in types) ==> GetMessage(catalog, obj) == Ok(Some("")))
      ensures var g := heap.graph;
              var types := g.objects[mainMapper.value].mapper.types;
              && ((exists a :: IsAncestorOrSelf(heap.types, a, t) && a in types) ==>
                    exists a :: && IsAncestorOrSelf(heap.types, a, t) && a in types
                                && (forall b :: IsAncestorOrSelf(heap.types, b, t) && b in types ==> IsAncestorOrSelf(heap.types, b, a))
                                && types[a] in g.objects
                                && GetMessageForType(catalog, t) == Resolution.GetMessageForType(Env(heap.types, catalog), g, types[a], t))
              && ((forall a :: IsAncestorOrSelf(heap.types, a, t) ==> a !in types) ==> GetMessageForType(catalog, t) == Ok(Some("")))
    {
      var env := Env(heap.types, catalog);
      Resolution.InheritChainAnswersNearestAncestor(env, heap.graph, mainMapper.value, obj);
      Resolution.OtherTypesUseMapping(env, heap.graph, mainMapper.value, t);
      Resolution.InheritChainAnswersNearestAncestorForType(env, heap.graph, mainMapper.value, t);
    }
  }

  /** Configure<T> twice with the same T: the first call succeeds on the new root, the
      second fails on the duplicate key; nothing merges the two configurations. */
  method ConfigureTwice(types: Hierarchy, t: TypeId) returns (first: Result<Ref>, second: Result<Ref>)
    ensures first.Ok? && second == Err(DuplicateKey)
  {
    var omm := new ObjectMessageMap(types);
    first := omm.Configure(t);
    second := omm.Configure(t);
  }

  /** After Clear, queries fail as before the first Configure, and a Configure of the
      same type succeeds again on a new, empty root. */
  method ClearThenConfigure(types: Hierarchy, catalog: map<string, string>, t: TypeId, obj: Value)
    returns (afterClear: Result<Option<string>>, again: Result<Ref>)
    ensures afterClear == Err(NullReference) && again.Ok?
  {
    var omm := new ObjectMessageMap(types);
    var _ := omm.Configure(t);
    omm.Clear();
    afterClear := omm.GetMessage(catalog, obj);
    again := omm.Configure(t);
  }
}
