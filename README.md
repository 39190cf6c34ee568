# ObjectMessageMapper message resolution, in Dafny

ObjectMessageMapper maps runtime objects and type descriptors to user-facing
messages. An application configures the map through a fluent chain:

- `Configure<T>` for a root type;
- `For<TSub>()` or `For(value)` to dispatch on a runtime type or an exact value;
- `When(condition)` for ordered guards;
- `Default()` for a fallback;
- `UseMessage(key or accessor)` for a leaf;
- `WithValue(accessor)` for positional `{n}` arguments.

The chain builds a tree of configuration objects. A query `GetMessage(obj)` or
`GetMessage(typeof(X))` walks that tree. At each step the query goes to a selected
child, falls back to a default, or stops with the empty message `""`.

This project models that core:

- **Dispatch stores** (`Mappers`):
  - TypeMapper, with the ConcreteOnly and InheritChain lookups;
  - ValueMapper, an exact-value store.
  - MapperFactory picks between them.
- **Composite nodes** (`SelectorMapper`, `SelectorConditional`): SelectorMapper is a type or value switch with a default, and SelectorMapperSub is SelectorMapper with a sub-value accessor. SelectorConditional is a first-match guard list with a default.
- **Type-name shortcut** (`MappedItem`).
- **Leaf message processor** (`MessageProcessor`), with the subset of composite formatting it relies on (`CompositeFormat`).
- **Query** over the configuration graph (`Resolution`).
- **Fluent relayers** that build the graph (`Relayers`).
- **Static entry point** (`ObjectMessageMap`).

### How the model represents the runtime

**Configuration objects.** The source links these by reference and updates them in
place. Here they live on an arena heap: `Objects.Graph` maps references (`nat`) to
nodes, and the class `Objects.Heap` holds the current graph.

- Every in-place update in the source is one heap operation, each stated by its effect on the graph:
  - `Dictionary.Add` into a store;
  - the `DefaultItem` setter;
  - `Items.Add` of a guard;
  - `DataItems.Add` of a format value.
- Allocation is `Heap.Alloc`.
- `Graph.Valid` requires that an object only refers to objects allocated after it. Every object the source links in is created just before it is linked, so this holds for every configuration. It also makes every query terminate.

**Reflection.** This becomes data (`Types`):

- Each type has an optional base type, numbered below it.
- A value type is marked as such.
- A type has a default instance payload when it has a parameterless constructor; every value type has one.
- A cast `(T)x` on an object of exact type `t` succeeds into `object`, into a value type `T` only when `t` is `T`, and into any other `T` on the base-type chain of `t` (`Types.CastSucceeds`). Each message processor records its `T`.
- Runtime values are `Null` or `Obj(type, payload)`.

**Messages.** A message is an `Option<string>`, where `None` is the null string a
missing catalog key produces. Every exception the source raises on a query or a
configuration step over the inputs the model can express is an explicit `Result`
error, listed in `Base.Error`; a null `Type` argument is not among those inputs
(see "## Left out").

**User lambdas.** Keys, accessors, conditions and sub-value extractors are total
Dafny functions.

**The `configure` action.** The source passes each new configuration object to the
user's action. Here the methods return that object's reference instead, and the
caller continues the chain with it.

**Scenarios.** `Scenarios` writes out one configuration from the test suite as a
concrete graph and proves the messages its assertions expect. A second, smaller
configuration shows a type query that fails on the cast into a processor's `T`.

## Model

| member | source | states |
|---|---|---|
| Types.GetType | ObjectMessageMapper/Core/Mappers/TypeMapper.cs:71-74 | a non-null value has its tagged runtime type; GetType on null is a NullReference error |
| Types.CreateInstance | src/ObjectMessageMapper/Core/MessageProcessor.cs:104-112 | Activator.CreateInstance succeeds exactly for types with a default constructor, yields an object of exactly that type, and otherwise fails with MissingDefaultConstructor |
| Types.GetString | src/ObjectMessageMapper/Resources/ResourceProxy.cs:64-67 | the catalog string for a present key, null (None) exactly for a missing key |
| Types.Chain | ObjectMessageMapper/Core/Mappers/TypeMapper.cs:81-93 | the base-type chain starts at the type itself |
| Types.ChainIsBasePath | ObjectMessageMapper/Core/Mappers/TypeMapper.cs:89-92 | the chain is a path of BaseType steps ending at a type with no base type, every element an ancestor-or-self of the start |
| Types.AncestorTransitive | ObjectMessageMapper/Core/Mappers/TypeMapper.cs:89-92 | an ancestor of an ancestor of t is an ancestor of t |
| Mappers.TypeFind | ObjectMessageMapper/Core/Mappers/TypeMapper.cs:81-93 | a found item is one of the items the store holds |
| Mappers.FindRegisteredType | ObjectMessageMapper/Core/Mappers/TypeMapper.cs:84-87 | a registered type is found directly under either strategy |
| Mappers.ConcreteOnlyFind | ObjectMessageMapper/Core/Mappers/TypeMapper.cs:89-90 | ConcreteOnly returns the type's own entry or nothing, no ancestor consulted |
| Mappers.InheritChainFindsNearestAncestor | ObjectMessageMapper/Core/Mappers/TypeMapper.cs:89-92 | InheritChain finds nothing iff no ancestor-or-self is registered; otherwise it finds the entry of a registered ancestor that every other registered ancestor is an ancestor of (the most specific one) |
| Mappers.TypeFindUnaffectedByAdd | ObjectMessageMapper/Core/Mappers/TypeMapper.cs:50-53 | adding key k changes no InheritChain lookup whose chain avoids k and no ConcreteOnly lookup of another type |
| Mappers.FindValue | ObjectMessageMapper/Core/Mappers/ValueMapper.cs:71-82 | Find(object) fails exactly on null (NullReference) and on a value store probed with a value not exactly of type T (TypeMismatch); a found item is in the store |
| Mappers.TypeMapperFindObjectIsFindType | ObjectMessageMapper/Core/Mappers/TypeMapper.cs:71-74 | on a TypeMapper, Find(object) is Find of the object's runtime type |
| Mappers.ValueMapperFindExact | ObjectMessageMapper/Core/Mappers/ValueMapper.cs:77-82 | a value of type T finds the item registered for an equal value, and null when none is |
| Mappers.FindType | ObjectMessageMapper/Core/Mappers/ValueMapper.cs:88-91 | a value store's Find(Type) is always null; a found item is in the store |
| Mappers.AddType | ObjectMessageMapper/Core/Mappers/TypeMapper.cs:50-53 | Add<TKey> succeeds iff the store is a TypeMapper without the key, then maps the key to the item and grows the items by exactly it; on a value store it fails with TypeKeyOnValueStore, on a present key with DuplicateKey |
| Mappers.AddValue | ObjectMessageMapper/Core/Mappers/ValueMapper.cs:49-52 | TypeMapper.Add(value) is Add under the value's runtime type (null fails); ValueMapper.Add succeeds iff the value is of type T and new, then maps it and grows the items by exactly the new item |
| Mappers.AddThenFind | ObjectMessageMapper/Core/Mappers/TypeMapper.cs:60-63 | after a successful Add(value), Find of that value returns the new item |
| Mappers.AddFailures | ObjectMessageMapper/Core/Mappers/ValueMapper.cs:49-52 | a failed Add(value) is a duplicate only when the key is present, and is one of DuplicateKey, NullReference, InvalidCast |
| Mappers.GetMapper | ObjectMessageMapper/Core/Mappers/MapperFactory.cs:39-54 | a value type gets an empty ValueMapper of that type, any other type an empty TypeMapper with exactly the requested strategy (ConcreteOnly by default); an empty store finds nothing |
| Mappers.StrategyIgnoredForValueTypes | ObjectMessageMapper/Core/Mappers/MapperFactory.cs:48-51 | for a value type the strategy argument makes no difference |
| CompositeFormat.Format | src/ObjectMessageMapper/Core/MessageProcessor.cs:91-94 | string.Format fails only with FormatError |
| CompositeFormat.FormatRendered | src/ObjectMessageMapper/Core/MessageProcessor.cs:91-94 | formatting the text of a sequence of literals and `{n}` placeholders equals the reference filling: each literal stands for itself, placeholder n for argument n |
| CompositeFormat.FillSucceedsIff | src/ObjectMessageMapper/Core/MessageProcessor.cs:91-94 | the filling succeeds iff every placeholder index has an argument; otherwise FormatError |
| CompositeFormat.FormatWithoutBraces | src/ObjectMessageMapper/Core/MessageProcessor.cs:91-94 | a template without braces is returned verbatim |
| CompositeFormat.DecimalRoundTrip | src/ObjectMessageMapper/Core/MessageProcessor.cs:91-94 | the decimal text of a placeholder index reads back as that index |
| CompositeFormat.FormatTwoPlaceholders | src/ObjectMessageMapper/Core/MessageProcessor.cs:91-94 | a concrete two-argument template is filled in argument order |
| MessageProcessor.GetMessage | src/ObjectMessageMapper/Core/MessageProcessor.cs:85-97 | without values the template (accessor result or catalog string) is returned verbatim; with values a null template fails with NullFormat and otherwise the template is formatted with the values; errors only with values |
| MessageProcessor.GetMessageForType | src/ObjectMessageMapper/Core/MessageProcessor.cs:104-112 | a key processor returns the raw catalog string; an accessor processor applies the accessor to a default instance of exactly the queried type; it fails with MissingDefaultConstructor when that type has no default constructor, and otherwise with InvalidCast exactly when the instance does not cast to the processor's T |
| MessageProcessor.WithValue | src/ObjectMessageMapper/Core/MessageProcessor.cs:69-73 | appends exactly one accessor to the processor in place and returns the same processor |
| MessageProcessor.AddValueAppendsArgument | src/ObjectMessageMapper/Core/MessageProcessor.cs:69-73 | the appended accessor supplies the last format argument; earlier arguments keep their positions |
| MessageProcessor.GetMessageFillsPlaceholders | src/ObjectMessageMapper/Core/MessageProcessor.cs:91-94 | with values, `{i}` is replaced by the i-th value; the message exists iff every placeholder index is below the number of values |
| MessageProcessor.PlainTemplateIsVerbatim | src/ObjectMessageMapper/Core/MessageProcessor.cs:85-97 | a template without braces comes back unchanged, with or without values |
| MessageProcessor.TypeQueryIgnoresValues | src/ObjectMessageMapper/Core/MessageProcessor.cs:104-112 | a type query does not depend on the WithValue values |
| MappedItem.GetCurrentMessageProcessor | src/ObjectMessageMapper/Core/MappedItem.cs:52-63 | a type-name processor exists iff there is an accessor or a key that is not null, empty or made only of white-space characters (`IsNullOrWhiteSpace` over `IsWhiteSpace`); the accessor wins; it has no values and its T is the node's own type |
| MappedItem.AccessorTakesPrecedence | src/ObjectMessageMapper/Core/MappedItem.cs:54-61 | with an accessor the key is irrelevant |
| MappedItem.BlankKeysAreNoTypeName | src/ObjectMessageMapper/Core/MappedItem.cs:58-61 | examples of `IsNullOrWhiteSpace`: null, empty and white-space keys give no type name; a key with other characters does |
| Objects.WithDefault | src/ObjectMessageMapper/Core/SelectorMapper.cs:203-206 | replacing DefaultItem keeps the store, guards, type and type name |
| Objects.LatestDefaultWins | src/ObjectMessageMapper/Core/Relayers/SelectorRelayDefault.cs:52-57 | of two successive defaults the later one stands |
| Objects.Heap.Alloc | src/ObjectMessageMapper/Core/SelectorMapper.cs:155-157 | `new` stores the object under a fresh reference and changes nothing else |
| Objects.Heap.Update | src/ObjectMessageMapper/Core/SelectorMapper.cs:203-206 | an in-place update replaces exactly one object |
| SelectorMapper.NewNode | src/ObjectMessageMapper/Core/SelectorMapper.cs:46-49 | a new selector has the factory's store for its type and strategy, no default, the given type name and sub-value accessor |
| SelectorMapper.New | src/ObjectMessageMapper/Core/SelectorMapper.cs:46-49 | the constructor allocates such a selector, ConcreteOnly by default |
| SelectorMapper.FindItem | src/ObjectMessageMapper/Core/SelectorMapper.cs:219-228 | the store's match if any, otherwise the default (possibly none); store errors propagate |
| SelectorMapper.FindItemForType | src/ObjectMessageMapper/Core/SelectorMapper.cs:237-246 | the store's match for the type if any, otherwise the default |
| SelectorMapper.DefaultOnlyWhenUnmatched | src/ObjectMessageMapper/Core/SelectorMapper.cs:219-228 | the default has no influence on a value the store matches |
| SelectorMapper.Configure | src/ObjectMessageMapper/Core/SelectorMapper.cs:153-166 | allocates one new selector with the given strategy and type name and adds it under key TSub; a refused key leaves the parent unchanged and returns the store's error |
| SelectorMapper.SetDefaultMappedItem | src/ObjectMessageMapper/Core/SelectorMapper.cs:203-206 | replaces the default only |
| SelectorMapper.ConfigureDefault | src/ObjectMessageMapper/Core/SelectorMapper.cs:175-181 | a new selector becomes the default; the store is untouched |
| SelectorMapper.ConfigureDefaultSub | src/ObjectMessageMapper/Core/SelectorMapper.cs:190-197 | a new sub-value selector becomes the default; the store is untouched |
| SelectorConditional.NewNode | ObjectMessageMapper/Core/SelectorConditional.cs:45-48 | a new conditional has no guards and no default |
| SelectorConditional.New | ObjectMessageMapper/Core/SelectorConditional.cs:45-48 | the constructor allocates such a conditional |
| SelectorConditional.FirstMatch | ObjectMessageMapper/Core/SelectorConditional.cs:125-133 | the position of a guard that holds with no earlier guard holding; none iff no guard holds |
| SelectorConditional.FindItem | ObjectMessageMapper/Core/SelectorConditional.cs:125-133 | the first holding guard's object, otherwise the default |
| SelectorConditional.AppendKeepsEarlierMatches | ObjectMessageMapper/Core/SelectorConditional.cs:106-113 | appending a guard keeps every earlier match and is consulted last |
| SelectorConditional.AddConditionItem | ObjectMessageMapper/Core/SelectorConditional.cs:106-113 | appends one guard at the end; guards and default otherwise unchanged |
| SelectorConditional.SetDefaultItem | ObjectMessageMapper/Core/SelectorConditional.cs:40-40 | replaces the default only |
| Resolution.GetMessage | src/ObjectMessageMapper/Core/MappedItem.cs:71-74 | an object query on a composite goes straight to the mapping; it can fail only with NullReference, TypeMismatch, NullFormat or FormatError |
| Resolution.SelectorGetMessageFromMapping | src/ObjectMessageMapper/Core/SelectorMapper.cs:117-125 | object queries on a selector fail only with the object-query errors |
| Resolution.SubGetMessageFromMapping | src/ObjectMessageMapper/Core/SelectorMapperSub.cs:39-48 | a sub-value selector dispatches on the derived value |
| Resolution.ConditionalGetMessageFromMapping | ObjectMessageMapper/Core/SelectorConditional.cs:73-81 | object queries on a conditional fail only with the object-query errors |
| Resolution.GetMessageForType | src/ObjectMessageMapper/Core/MappedItem.cs:81-92 | a type query fails only with MissingDefaultConstructor or InvalidCast, the two failures of applying an accessor to a default instance |
| Resolution.SelectorGetMessageFromMappingForType | src/ObjectMessageMapper/Core/SelectorMapper.cs:132-140 | type queries on a selector fail only with MissingDefaultConstructor or InvalidCast |
| Resolution.SelectorMatchedChildAnswers | src/ObjectMessageMapper/Core/SelectorMapper.cs:119-123 | the mapping hands the value it dispatched on to the matched child, whose answer is final even when "", and the default is not consulted; on a plain selector that value is the queried object |
| Resolution.SelectorUnmatchedUsesDefault | src/ObjectMessageMapper/Core/SelectorMapper.cs:117-125 | an unmatched value goes to the default with the same value, or gets "" without one |
| Resolution.SelectorMatchedChildAnswersForType | src/ObjectMessageMapper/Core/SelectorMapper.cs:132-140 | a type the store holds hands the type query, for the same type, to its item; a sub-value accessor plays no part |
| Resolution.SelectorUnmatchedUsesDefaultForType | src/ObjectMessageMapper/Core/SelectorMapper.cs:132-140 | a type the store does not hold (any type, on a value store) goes to the default, or gets "" without one |
| Resolution.SubDispatchesOnDerivedValue | src/ObjectMessageMapper/Core/SelectorMapperSub.cs:39-48 | the sub-value selector's answer is its mapping's answer for the derived value, which the selected child receives |
| Resolution.ConditionalFirstMatchAnswers | ObjectMessageMapper/Core/SelectorConditional.cs:73-81 | the first holding guard's object answers for the same object; with none, the default, or "" without one |
| Resolution.TypeNameAnswersOwnType | src/ObjectMessageMapper/Core/MappedItem.cs:81-92 | a type query for the node's own type with a type name is the type-name processor's answer, and can fail only with MissingDefaultConstructor: the cast to the node's own type always succeeds |
| Resolution.OtherTypesUseMapping | src/ObjectMessageMapper/Core/MappedItem.cs:81-92 | any other type query (including subtypes) goes to the mapping; on a conditional that is always "" |
| Resolution.QueriesDependOnlyOnLaterObjects | src/ObjectMessageMapper/Core/SelectorMapper.cs:117-140 | a query from r reads only objects allocated from r on: graphs agreeing there give the same answers |
| Resolution.AllocationKeepsMessages | src/ObjectMessageMapper/Core/SelectorMapper.cs:155-166 | allocating objects (including the one a failed Add leaves unreferenced) changes no answer |
| Resolution.AddedKeyKeepsOtherMessages | src/ObjectMessageMapper/Core/SelectorMapper.cs:153-166 | adding a key to a type selector changes no answer for an object whose chain (InheritChain) or type (ConcreteOnly) does not meet the key |
| Resolution.InheritChainAnswersNearestAncestor | src/ObjectMessageMapper/Core/SelectorMapper.cs:117-125 | an InheritChain selector hands an object to the entry of its most specific registered ancestor-or-self, else to the default or "" |
| Resolution.InheritChainAnswersNearestAncestorForType | src/ObjectMessageMapper/Core/SelectorMapper.cs:132-140 | an InheritChain selector hands a type query for t to the entry of the most specific registered ancestor-or-self of t, else to the default or "" |
| Relayers.SelectorRelayFor.AddKey | ObjectMessageMapper/Core/Relayers/SelectorRelayFor.cs:171-181 | a value relay adds under its value, a type relay under its type |
| Relayers.SelectorRelayFor.SecondRegistrationFails | ObjectMessageMapper/Core/Relayers/SelectorRelayFor.cs:171-181 | registering the same key twice fails with DuplicateKey, and the first item is the one found |
| Relayers.SelectorRelayFor.AddToSelectorMap | ObjectMessageMapper/Core/Relayers/SelectorRelayFor.cs:171-181 | the item is added to the parent's store under the key; a refusal leaves the heap unchanged |
| Relayers.SelectorRelayFor.UseMessage | ObjectMessageMapper/Core/Relayers/SelectorRelayFor.cs:97-116 | a new processor for the key or accessor is added under the key |
| Relayers.SelectorRelayFor.When | ObjectMessageMapper/Core/Relayers/SelectorRelayFor.cs:66-75 | a new conditional carrying the relay's type name is added under the key; the result is the relay of its first guard |
| Relayers.SelectorRelayFor.Default | ObjectMessageMapper/Core/Relayers/SelectorRelayFor.cs:83-88 | a new ConcreteOnly selector for T is added under key T; the result is the default relay of that child, not of the parent |
| Relayers.SelectorRelayFor.Configure | ObjectMessageMapper/Core/Relayers/SelectorRelayFor.cs:158-161 | a new InheritChain selector with the type name is added under key T |
| Relayers.SelectorRelayFor.ConfigureSub | ObjectMessageMapper/Core/Relayers/SelectorRelayFor.cs:127-152 | an InheritChain selector under T in the parent, then a ConcreteOnly sub-value selector under T inside it; for a value type T the second Add fails and the first stays |
| Relayers.For | src/ObjectMessageMapper/Core/SelectorMapper.cs:60-86 | `For<TSub>()`, `For<TSub>(key)` and `For<TSub>(accessor)` give a relay on the same selector for TSub that carries the given type name and registers under key TSub |
| Relayers.ForValue | src/ObjectMessageMapper/Core/SelectorMapper.cs:93-96 | `For(value)` gives a relay whose T is the selector's own type and that registers under the value |
| Relayers.NewProcessor | src/ObjectMessageMapper/Core/MessageProcessor.cs:45-55 | a new processor records its source and T, has no values and no children, and answers every object query with its template as it is |
| Relayers.SelectorRelayDefault.UseMessage | src/ObjectMessageMapper/Core/Relayers/SelectorRelayDefault.cs:52-74 | a new processor becomes the default and is returned; the store is untouched |
| Relayers.SelectorRelayDefault.Configure | src/ObjectMessageMapper/Core/Relayers/SelectorRelayDefault.cs:102-105 | a new selector for the node's type becomes the default |
| Relayers.SelectorRelayDefault.ConfigureSub | src/ObjectMessageMapper/Core/Relayers/SelectorRelayDefault.cs:88-91 | a new sub-value selector becomes the default |
| Relayers.ConditionalRelayWhen.UseMessage | src/ObjectMessageMapper/Core/Relayers/ConditionalRelayWhen.cs:51-69 | appends the guard (condition, new processor); returns the relay bound to the same conditional and that processor; the default is unchanged |
| Relayers.ConditionalRelayWhen.Configure | src/ObjectMessageMapper/Core/Relayers/ConditionalRelayWhen.cs:75-80 | appends one guard whose target is a new ConcreteOnly selector |
| Relayers.ConditionalRelayWhen.ConfigureSub | src/ObjectMessageMapper/Core/Relayers/ConditionalRelayWhen.cs:88-93 | appends one guard whose target is a new sub-value selector |
| Relayers.ConditionalRelayDefault.UseMessage | ObjectMessageMapper/Core/Relayers/ConditionalRelayDefault.cs:50-67 | a new processor becomes the default; the guards are unchanged |
| Relayers.ConditionalRelayDefault.Configure | ObjectMessageMapper/Core/Relayers/ConditionalRelayDefault.cs:73-78 | a new selector becomes the default |
| Relayers.ConditionalRelayDefault.ConfigureSub | ObjectMessageMapper/Core/Relayers/ConditionalRelayDefault.cs:86-91 | a new sub-value selector becomes the default |
| Relayers.ConditionalRelayMessage.WithValue | ObjectMessageMapper/Core/Relayers/ConditionalRelayMessage.cs:54-58 | appends one accessor to the bound processor and returns the same relay |
| Relayers.ConditionalRelayMessage.When | ObjectMessageMapper/Core/Relayers/ConditionalRelayMessage.cs:66-69 | the next guard's relay is on the same conditional |
| Relayers.ConditionalRelayMessage.Default | ObjectMessageMapper/Core/Relayers/ConditionalRelayMessage.cs:76-79 | the default relay is on the same conditional |
| ObjectMessageMap.ObjectMessageMap.constructor | src/ObjectMessageMapper/ObjectMessageMap.cs:47-47 | starts with no root |
| ObjectMessageMap.ObjectMessageMap.Configure | src/ObjectMessageMapper/ObjectMessageMap.cs:66-80 | the first call creates the InheritChain root and always succeeds, later calls reuse it; the new InheritChain selector for T is added under T in the root, or the duplicate key is reported |
| ObjectMessageMap.ObjectMessageMap.Clear | src/ObjectMessageMapper/ObjectMessageMap.cs:87-93 | discards the root |
| ObjectMessageMap.ObjectMessageMap.GetMessage | src/ObjectMessageMapper/ObjectMessageMap.cs:100-103 | delegates unchanged to the root; without a root it is a NullReference error |
| ObjectMessageMap.ObjectMessageMap.GetMessageForType | src/ObjectMessageMapper/ObjectMessageMap.cs:110-113 | delegates unchanged to the root; without a root it is a NullReference error |
| ObjectMessageMap.ObjectMessageMap.QueryReachesNearestConfiguredType | src/ObjectMessageMapper/ObjectMessageMap.cs:66-80 | configured roots coexist: an object goes to the configuration of its most specific configured ancestor-or-self type, and gets "" when none is configured; a type query for t goes likewise by the base-type chain of t |
| ObjectMessageMap.ConfigureTwice | src/ObjectMessageMapper/ObjectMessageMap.cs:79-79 | a second Configure of the same type fails with DuplicateKey |
| ObjectMessageMap.ClearThenConfigure | src/ObjectMessageMapper/ObjectMessageMap.cs:87-93 | after Clear, queries fail and the same type can be configured again |
| Scenarios.ConfigValid | src/ObjectMessageMapper.Tests/SingleConfigurationTests.cs:116-162 | the written-out configuration, including the `Configure<object>` default, is a valid graph |
| Scenarios.ReachesConditional | src/ObjectMessageMapper.Tests/SingleConfigurationTests.cs:121-126 | an Object1 query passes through the two InheritChain selectors to the Object1 conditional |
| Scenarios.Object1Messages | src/ObjectMessageMapper.Tests/SingleConfigurationTests.cs:389-401 | Object1 values over, under and inside the limits get OVER_LIMIT, UNDER_LIMIT and the JUST_RIGHT default; the type query gets "" |
| Scenarios.FooObjectGetsDefault | src/ObjectMessageMapper/Core/SelectorMapperSub.cs:39-48 | in `For<Foo>().Configure<int>(f => f.X, c => c.Default().UseMessage(i => "x"))`, a Foo object reaches the int default through its field and gets "x" |
| Scenarios.FooTypeQueryCastFails | src/ObjectMessageMapper/Core/MessageProcessor.cs:104-112 | in the same configuration, a query for the type Foo reaches the int processor and fails with InvalidCast, since a default Foo does not cast to int |

## Left out

- The locks and the double-checked root initialisation in `ObjectMessageMap` and `ResourceProxy` are concurrency only. The model is sequential.
- `SetResourceManager` and the set-once setter of `ResourceProxy` are left out. The catalog is a parameter of each query, and it stays fixed for the duration of the query.
- Reflection (`GetType`, `BaseType`, `IsValueType`, `Activator.CreateInstance`) is replaced by the data in `Types.TypeSystem`. `dynamic` dispatch does not appear: every value carries its runtime type.
- The `(T)` casts of an object query are not checked: in `MessageProcessor.cs:87` and `:93`, `SelectorMapperSub.cs:41` and `SelectorConditional.cs:75`. The static types of the chain lambdas and the store lookups route only objects of `T` or a subtype to a node for `T`. The cast in a type query (`MessageProcessor.cs:108`) is modelled by `Types.CastSucceeds`.
- Types.CastSucceeds: interfaces, `Nullable<T>` and the unboxing of an enum to its underlying type are not modelled. A type's ancestry is its base-class chain.
- The generic constraint `where TSub : T` on `For<TSub>` is not enforced. The compiler checks it, and no behaviour depends on it.
- Exceptions thrown inside user lambdas, and `ToString` on payloads, are left out. Lambdas are total functions.
- CompositeFormat.Format: only the subset `{digits}`, `{{` and `}}` of the .NET composite format grammar is modelled. Alignment, format specifiers such as `{0:d}`, and spaces inside a placeholder are reported as FormatError rather than interpreted. Culture-specific formatting is left out.
- The user `configure` action runs between a node's creation and the next chain call. Here the methods return the new node, and the caller continues with it. A configure action that throws is not modelled.
- Mappers.AddType and Mappers.AddValue return a new store rather than updating a dictionary in place. The in-place update is `Objects.Heap.Update` of the owning node.
- Heap methods that link an object require that it was allocated after its parent. This holds for every call the relayers make, because each links an object it has just created.
- Null dictionary keys are not modelled: a `Value` key is never .NET null, and a null value is rejected before any key is formed.
- A null `Type` argument to `GetMessage(Type)` is not modelled: `TypeId` has no null. The source throws ArgumentNullException from `Dictionary.ContainsKey` (`TypeMapper.cs:84`), reached through `ObjectMessageMap.cs:110-113`, `MappedItem.cs:83` and `SelectorMapper.cs:134`, and no `Base.Error` constructor stands for it.
- Constructing a relayer changes neither the node nor the processor. Relayers are immutable values here, so this holds by construction.
- `Find` never modifies a store. Stores and queries are pure functions here, so this holds by construction.

### Where the description and the code differ

The model follows the code in each of these:

- A second `Configure<T>` with the same `T` fails with a duplicate key. Nothing merges the two configurations.
- A missing catalog key produces a null message, not an error.
- `For<T>().Configure<TSub>(…)` on a value type `T` fails only at the second insertion. The first selector stays in the parent's store.
