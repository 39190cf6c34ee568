/** The configuration objects a message map is built from, and the heap they live on.
    The source links configuration objects by reference and updates them in place
    (a store entry is added, a default is replaced, a guard or a format value is
    appended). The model keeps them in an arena: a reference is a number, the heap maps
    numbers to nodes, and every in-place update replaces one node. */
module Objects {
  import opened Base
  import opened Types
  import opened Mappers

  /** A reference to a configuration object (an IMappedItem). */
  type Ref = nat

  /** A user lambda Func<T, string>; None is a null string. */
  type Accessor = Value -> Option<string>
  /** A user lambda Func<T, bool>. */
  type Condition = Value -> bool
  /** A user lambda Func<T, TSub> that selects a sub-object. */
  type Extractor = Value -> Value

  /** Where a message processor takes its template from. */
  datatype MessageSource =
    | ResourceKey(key: string)            // MessageProcessor(string resourceKey)
    | MessageAccessor(accessor: Accessor) // MessageProcessor(Func<T, string> msgAccessor)

  /** MessageProcessor<ty>: the template source, the WithValue accessors in order, and
      the type argument T, which GetMessage(Type) casts its default instance to. */
  datatype Processor = Processor(source: MessageSource, dataItems: seq<Accessor>, ty: TypeId)

  /** The TypeNameResourceKey and TypeNameAccessor properties of a MappedItem. */
  datatype TypeName = TypeName(resourceKey: Option<string>, accessor: Option<Accessor>)

  /** ConditionalItem: a guard and the object it selects. */
  datatype ConditionalItem = ConditionalItem(conditionTest: Condition, item: Ref)

  /** A configuration object.
      Leaf:        a MessageProcessor.
      Selector:    a SelectorMapper<ty>; with subAccessor present it is a
                   SelectorMapperSub<_, ty>, which first derives a sub-object.
      Conditional: a SelectorConditional<ty>. */
  datatype Node =
    | Leaf(processor: Processor)
    | Selector(ty: TypeId, typeName: TypeName, mapper: Mapper<Ref>, defaultItem: Option<Ref>,
               subAccessor: Option<Extractor>)
    | Conditional(ty: TypeId, typeName: TypeName, items: seq<ConditionalItem>, defaultItem: Option<Ref>)

  /** The node with its DefaultItem replaced by d; its store, guards, type and type
      name are kept. */
  function WithDefault(n: Node, d: Option<Ref>): (r: Node)
    requires !n.Leaf?
    ensures r.Selector? == n.Selector? && r.Conditional? == n.Conditional?
    ensures r.ty == n.ty && r.typeName == n.typeName && r.defaultItem == d
    ensures n.Selector? ==> r.mapper == n.mapper && r.subAccessor == n.subAccessor
    ensures n.Conditional? ==> r.items == n.items
  {
    match n
    case Selector(ty, typeName, mapper, _, subAccessor) => Selector(ty, typeName, mapper, d, subAccessor)
    case Conditional(ty, typeName, items, _) => Conditional(ty, typeName, items, d)
  }

  /** Setting the default twice: the later value wins. */
  lemma LatestDefaultWins(n: Node, first: Option<Ref>, second: Option<Ref>)
    requires !n.Leaf?
    ensures WithDefault(WithDefault(n, first), second) == WithDefault(n, second)
  {
  }

  function OptionSet(o: Option<Ref>): set<Ref> {
    if o.Some? then {o.value} else {}
  }

  /** The objects a node refers to. */
  ghost function Children(n: Node): set<Ref> {
    match n
    case Leaf(_) => {}
    case Selector(_, _, mapper, defaultItem, _) => Items(mapper) + OptionSet(defaultItem)
    case Conditional(_, _, items, defaultItem) =>
      (set i | 0 <= i < |items| :: items[i].item) + OptionSet(defaultItem)
  }

  /** The heap of configuration objects: every reference below next is allocated, and
      an object only refers to objects allocated after it. The second fact holds
      because every object the source links in is created just before it is linked;
      it makes the configuration a finite acyclic graph, so every query terminates. */
  datatype Graph = Graph(objects: map<Ref, Node>, next: Ref) {
    ghost predicate Valid() {
      && (forall r: Ref :: r in objects <==> r < next)
      && (forall r, c :: r in objects && c in Children(objects[r]) ==> r < c < next)
    }

    /** The heap after `new`: n stored under the next free reference. */
    function Extend(n: Node): Graph {
      Graph(objects[next := n], next + 1)
    }

    /** The heap after object r is updated in place to n. */
    function Set(r: Ref, n: Node): Graph {
      this.(objects := objects[r := n])
    }
  }

  /** The managed heap holding the configuration objects of one message map, with the
      fixed type system their stores consult. */
  class Heap {
    const types: Hierarchy
    var graph: Graph

    constructor(types: Hierarchy)
      ensures this.types == types && graph == Graph(map[], 0)
      ensures graph.Valid()
    {
      this.types := types;
      graph := Graph(map[], 0);
    }

    /** `new` of a configuration object: the next free reference, holding an object that
        refers to nothing yet. */
    method Alloc(n: Node) returns (r: Ref)
      requires graph.Valid() && Children(n) == {}
      modifies this
      ensures graph.Valid()
      ensures r == old(graph.next) && r !in old(graph.objects)
      ensures graph == old(graph).Extend(n)
    {
      r := graph.next;
      graph := graph.Extend(n);
    }

    /** An in-place update of object r; whatever it now refers to was allocated after it. */
    method Update(r: Ref, n: Node)
      requires graph.Valid() && r in graph.objects
      requires forall c :: c in Children(n) ==> r < c < graph.next
      modifies this
      ensures graph.Valid()
      ensures graph == old(graph).Set(r, n)
    {
      graph := graph.Set(r, n);
    }
  }
}
