/** A configuration from the test suite, written out as the objects the chain calls
    build: Configure<object> { For<BaseObject>().Configure { For<Object1>()
    .When(v > 100).UseMessage("OVER_LIMIT").When(v < 1).UseMessage("UNDER_LIMIT")
    .Default().UseMessage("JUST_RIGHT") }; Default().UseMessage(obj => obj.ToString()) },
    and the answers it gives. The other entries of that configuration (the Exception
    and Enum roots, the For<> calls for other types) are keyed by types off the
    base-type chain of Object1 and are not written out. A second, smaller configuration
    shows a type query that ends in a failed cast. */
module Scenarios {
  import opened Base
  import opened Types
  import opened Mappers
  import opened Objects
  import MappedItem
  import SelectorMapper
  import SelectorConditional
  import Resolution

  const BaseObject: TypeId := 1
  const Object1: TypeId := 2

  /** Object1 derives from BaseObject, which derives from System.Object. */
  const Hier: Hierarchy := TypeSystem(map[BaseObject := Object, Object1 := BaseObject], {}, map[BaseObject := 0, Object1 := 0])

  const Catalog: map<string, string> := map["OVER_LIMIT" := "Over", "UNDER_LIMIT" := "Under", "JUST_RIGHT" := "Just right"]

  const Over: Condition := (v: Value) => v.Obj? && v.payload > 100
  const Under: Condition := (v: Value) => v.Obj? && v.payload < 1

  /** obj => obj.ToString(); the text stands for the test type's name. */
  const ToText: Accessor := (v: Value) => Some("Object1")

  /** 0: the root; 1: the Configure<object> selector; 2: the For<BaseObject> selector;
      3: the Object1 conditional; 4-6: its three processors; 7: the default of the
      Configure<object> selector. */
  const Config: Graph := Graph(map[
    0 := Selector(Object, TypeName(None, None), TypeMapper(map[Object := 1], InheritChain), None, None),
    1 := Selector(Object, TypeName(Some(""), None), TypeMapper(map[BaseObject := 2], InheritChain), Some(7), None),
    2 := Selector(BaseObject, TypeName(None, None), TypeMapper(map[Object1 := 3], InheritChain), None, None),
    3 := Conditional(Object1, TypeName(None, None), [ConditionalItem(Over, 4), ConditionalItem(Under, 5)], Some(6)),
    4 := Leaf(Processor(ResourceKey("OVER_LIMIT"), [], Object1)),
    5 := Leaf(Processor(ResourceKey("UNDER_LIMIT"), [], Object1)),
    6 := Leaf(Processor(ResourceKey("JUST_RIGHT"), [], Object1)),
    7 := Leaf(Processor(MessageAccessor(ToText), [], Object))], 8)

  lemma ConfigValid()
    ensures Config.Valid()
  {
    var items := Config.objects[3].items;
    assert (set i | 0 <= i < |items| :: items[i].item) == {4, 5} by {
      assert items[0].item == 4 && items[1].item == 5;
    }
  }

  /** The path every Object1 query takes: root, Configure<object>, For<BaseObject>, to
      the conditional. */
  lemma ReachesConditional(v: Value)
    requires v.Obj? && v.ty == Object1
    ensures Config.Valid()
    ensures Resolution.GetMessage(Env(Hier, Catalog), Config, 0, v) == Resolution.GetMessage(Env(Hier, Catalog), Config, 3, v)
  {
    ConfigValid();
    var env := Env(Hier, Catalog);
    assert TypeFind(Hier, map[Object := 1], InheritChain, Object1) == Some(1);
    Resolution.SelectorMatchedChildAnswers(env, Config, 0, v, 1);
    assert TypeFind(Hier, map[BaseObject := 2], InheritChain, Object1) == Some(2);
    Resolution.SelectorMatchedChildAnswers(env, Config, 1, v, 2);
    Resolution.SelectorMatchedChildAnswers(env, Config, 2, v, 3);
  }

  /** An Object1 over the limit gets OVER_LIMIT, one in range gets the default, and a
      query for the type Object1 gets "" (a conditional ends a type query). */
  lemma Object1Messages()
    ensures Config.Valid()
    ensures Resolution.GetMessage(Env(Hier, Catalog), Config, 0, Obj(Object1, 101)) == Ok(Some("Over"))
    ensures Resolution.GetMessage(Env(Hier, Catalog), Config, 0, Obj(Object1, 0)) == Ok(Some("Under"))
    ensures Resolution.GetMessage(Env(Hier, Catalog), Config, 0, Obj(Object1, 50)) == Ok(Some("Just right"))
    ensures Resolution.GetMessageForType(Env(Hier, Catalog), Config, 0, Object1) == Ok(Some(""))
  {
    ConfigValid();
    ReachesConditional(Obj(Object1, 101));
    ReachesConditional(Obj(Object1, 0));
    ReachesConditional(Obj(Object1, 50));
    var env := Env(Hier, Catalog);
    assert Resolution.GetMessage(env, Config, 4, Obj(Object1, 101)) == Ok(Some("Over"));
    var items := Config.objects[3].items;
    assert items[1..][0] == ConditionalItem(Under, 5);
    assert SelectorConditional.FirstMatch(items, Obj(Object1, 0)) == Some(1);
    assert Resolution.GetMessage(env, Config, 5, Obj(Object1, 0)) == Ok(Some("Under"));
    assert Resolution.GetMessage(env, Config, 6, Obj(Object1, 50)) == Ok(Some("Just right"));
    assert TypeFind(Hier, map[Object := 1], InheritChain, Object1) == Some(1);
    assert TypeFind(Hier, map[BaseObject := 2], InheritChain, Object1) == Some(2);
    assert MappedItem.GetCurrentMessageProcessor(TypeName(None, None), Object1).None?;
    assert Resolution.GetMessageForType(env, Config, 3, Object1) == Ok(Some(""));
    assert Resolution.GetMessageForType(env, Config, 2, Object1) == Ok(Some(""));
    assert Resolution.GetMessageForType(env, Config, 1, Object1) == Ok(Some(""));
  }

  // ------------------------------------------- a type query into a value-type default

  const ValueType: TypeId := 3
  const Int: TypeId := 4
  const Foo: TypeId := 5

  /** System.Int32 is a value type deriving from System.ValueType; Foo is a class. */
  const CastHier: Hierarchy := TypeSystem(map[ValueType := Object, Int := ValueType, Foo := Object], {Int}, map[Int := 0, Foo := 0])

  /** f => f.X: the integer field of a Foo. */
  const FooX: Extractor := (v: Value) => if v.Obj? then Obj(Int, v.payload) else Null

  /** Configure<object>(cfg => cfg.For<Foo>().Configure<int>(f => f.X, c =>
      c.Default().UseMessage(i => "x"))). 0: the root; 1: the Configure<object>
      selector; 2: the For<Foo> selector; 3: the int sub-value selector under key Foo;
      4: its default, a processor for int. */
  const CastConfig: Graph := Graph(map[
    0 := Selector(Object, TypeName(None, None), TypeMapper(map[Object := 1], InheritChain), None, None),
    1 := Selector(Object, TypeName(Some(""), None), TypeMapper(map[Foo := 2], InheritChain), None, None),
    2 := Selector(Foo, TypeName(None, None), TypeMapper(map[Foo := 3], InheritChain), None, None),
    3 := Selector(Int, TypeName(None, None), ValueMapper(Int, map[]), Some(4), Some(FooX)),
    4 := Leaf(Processor(MessageAccessor((i: Value) => Some("x")), [], Int))], 5)

  lemma CastConfigValid()
    ensures CastConfig.Valid()
  {
  }

  /** A Foo object gets "x": its field X is dispatched on and reaches the int default. */
  lemma FooObjectGetsDefault()
    ensures CastConfig.Valid()
    ensures Resolution.GetMessage(Env(CastHier, map[]), CastConfig, 0, Obj(Foo, 7)) == Ok(Some("x"))
  {
    CastConfigValid();
    var env := Env(CastHier, map[]);
    assert SelectorMapper.FindItem(CastHier, CastConfig.objects[3], Obj(Int, 7)) == Ok(Some(4));
    assert Resolution.SelectorGetMessageFromMapping(env, CastConfig, 3, Obj(Int, 7)) == Ok(Some("x"));
    assert CastConfig.objects[3].subAccessor.value(Obj(Foo, 7)) == Obj(Int, 7);
    Resolution.SubDispatchesOnDerivedValue(env, CastConfig, 3, Obj(Foo, 7));
    assert TypeFind(CastHier, map[Object := 1], InheritChain, Foo) == Some(1);
    Resolution.SelectorMatchedChildAnswers(env, CastConfig, 0, Obj(Foo, 7), 1);
    Resolution.SelectorMatchedChildAnswers(env, CastConfig, 1, Obj(Foo, 7), 2);
    Resolution.SelectorMatchedChildAnswers(env, CastConfig, 2, Obj(Foo, 7), 3);
  }

  /** A query for the type Foo reaches the same processor, which applies its accessor to
      a default Foo cast to int; that cast fails. */
  lemma FooTypeQueryCastFails()
    ensures CastConfig.Valid()
    ensures Resolution.GetMessageForType(Env(CastHier, map[]), CastConfig, 0, Foo) == Err(InvalidCast)
  {
    CastConfigValid();
    var env := Env(CastHier, map[]);
    assert !CastSucceeds(CastHier, Foo, Int);
    assert Resolution.GetMessageForType(env, CastConfig, 4, Foo) == Err(InvalidCast);
    assert Resolution.GetMessageForType(env, CastConfig, 3, Foo) == Err(InvalidCast);
    assert Resolution.GetMessageForType(env, CastConfig, 2, Foo) == Err(InvalidCast);
    assert TypeFind(CastHier, map[Object := 1], InheritChain, Foo) == Some(1);
    assert Resolution.GetMessageForType(env, CastConfig, 1, Foo) == Err(InvalidCast);
  }
}
