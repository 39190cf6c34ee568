/** MessageProcessor: the leaf of a configuration. It produces a message from a catalog
    key or an accessor, formatted with the WithValue values when there are any. */
module MessageProcessor {
  import opened Base
  import opened Types
  import opened CompositeFormat
  import opened Objects

  /** The template: the accessor's result on the object when the processor was built
      from an accessor, otherwise the catalog string for its key (None when the catalog
      has no such key). */
  function Template(env: Env, p: Processor, obj: Value): Option<string> {
    match p.source
    case ResourceKey(key) => GetString(env.catalog, key)
    case MessageAccessor(accessor) => accessor(obj)
  }

  /** string.Format prints a null argument as the empty string. */
  function ArgText(s: Option<string>): string {
    if s.Some? then s.value else ""
  }

  /** The WithValue accessors applied to the object, in registration order. */
  function Args(items: seq<Accessor>, obj: Value): seq<string> {
    seq(|items|, i requires 0 <= i < |items| => ArgText(items[i](obj)))
  }

  function LiftFormat(r: Result<string>): Result<Option<string>> {
    match r
    case Ok(s) => Ok(Some(s))
    case Err(e) => Err(e)
  }

  /** MessageProcessor.GetMessage(object). */
  function GetMessage(env: Env, p: Processor, obj: Value): (r: Result<Option<string>>)
    ensures p.dataItems == [] ==> r == Ok(Template(env, p, obj))
    ensures p.dataItems != [] && Template(env, p, obj).None? ==> r == Err(NullFormat)
    ensures p.dataItems != [] && Template(env, p, obj).Some? ==>
              r == LiftFormat(Format(Template(env, p, obj).value, Args(p.dataItems, obj)))
    ensures r.Err? ==> p.dataItems != [] && r.error in {NullFormat, FormatError}
  {
    var message := Template(env, p, obj);
    if |p.dataItems| == 0 then Ok(message)
    else if message.None? then Err(NullFormat)
    else LiftFormat(Format(message.value, Args(p.dataItems, obj)))
  }

  /** MessageProcessor.GetMessage(Type): the accessor applied to a default instance of
      the queried type, cast to the processor's T, or the raw catalog string; the
      WithValue values are never used. */
  function GetMessageForType(env: Env, p: Processor, t: TypeId): (r: Result<Option<string>>)
    ensures r.Err? <==> p.source.MessageAccessor? && !(t in env.types.defaults && CastSucceeds(env.types, t, p.ty))
    ensures r.Err? && t !in env.types.defaults ==> r.error == MissingDefaultConstructor
    ensures r.Err? && t in env.types.defaults ==> r.error == InvalidCast
    ensures p.source.ResourceKey? ==> r == Ok(GetString(env.catalog, p.source.key))
    ensures p.source.MessageAccessor? && r.Ok? ==> r.value == p.source.accessor(Obj(t, env.types.defaults[t]))
  {
    match p.source
    case MessageAccessor(accessor) =>
      (match CreateInstance(env.types, t)
       case Ok(instance) => if CastSucceeds(env.types, t, p.ty) then Ok(accessor(instance)) else Err(InvalidCast)
       case Err(e) => Err(e))
    case ResourceKey(key) => Ok(GetString(env.catalog, key))
  }

  /** The WithValue step on a processor value: one more accessor at the end. */
  function AddValue(p: Processor, valueAccessor: Accessor): Processor {
    Processor(p.source, p.dataItems + [valueAccessor], p.ty)
  }

  /** WithValue(valueAccessor): appends one accessor to processor r in place and returns
      the same processor. */
  method WithValue(heap: Heap, r: Ref, valueAccessor: Accessor) returns (same: Ref)
    requires heap.graph.Valid() && r in heap.graph.objects && heap.graph.objects[r].Leaf?
    modifies heap
    ensures heap.graph.Valid() && same == r
    ensures heap.graph == old(heap.graph).Set(r, Leaf(AddValue(old(heap.graph.objects[r].processor), valueAccessor)))
  {
    var p := heap.graph.objects[r].processor;
    heap.Update(r, Leaf(AddValue(p, valueAccessor)));
    same := r;
  }

  // ---------------------------------------------------------------- properties

  /** A value added by WithValue becomes the last format argument; the earlier ones keep
      their positions. */
  lemma AddValueAppendsArgument(p: Processor, valueAccessor: Accessor, obj: Value)
    ensures Args(AddValue(p, valueAccessor).dataItems, obj) == Args(p.dataItems, obj) + [ArgText(valueAccessor(obj))]
  {
    var a, b := Args(AddValue(p, valueAccessor).dataItems, obj), Args(p.dataItems, obj) + [ArgText(valueAccessor(obj))];
    assert |a| == |b|;
    forall i | 0 <= i < |a| ensures a[i] == b[i] {
      if i < |p.dataItems| {
        assert AddValue(p, valueAccessor).dataItems[i] == p.dataItems[i];
      }
    }
  }

  /** With values, placeholder i of the template is replaced by the i-th value: the
      message is the reference filling of the template's pieces. */
  lemma GetMessageFillsPlaceholders(env: Env, p: Processor, obj: Value, pieces: seq<Piece>)
    requires p.dataItems != [] && Template(env, p, obj) == Some(Render(pieces))
    ensures GetMessage(env, p, obj) == LiftFormat(Fill(pieces, Args(p.dataItems, obj)))
    ensures GetMessage(env, p, obj).Ok? <==>
              forall k :: 0 <= k < |pieces| && pieces[k].Placeholder? ==> pieces[k].index < |p.dataItems|
  {
    FormatRendered(pieces, Args(p.dataItems, obj));
    FillSucceedsIff(pieces, Args(p.dataItems, obj));
  }

  /** A template without braces comes back unchanged, with or without values. */
  lemma PlainTemplateIsVerbatim(env: Env, p: Processor, obj: Value)
    requires Template(env, p, obj).Some?
    requires forall i :: 0 <= i < |Template(env, p, obj).value| ==>
               Template(env, p, obj).value[i] != '{' && Template(env, p, obj).value[i] != '}'
    ensures GetMessage(env, p, obj) == Ok(Template(env, p, obj))
  {
    FormatWithoutBraces(Template(env, p, obj).value, Args(p.dataItems, obj));
  }

  /** A type query does not depend on the WithValue values. */
  lemma TypeQueryIgnoresValues(env: Env, p: Processor, items: seq<Accessor>, t: TypeId)
    ensures GetMessageForType(env, p.(dataItems := items), t) == GetMessageForType(env, p, t)
  {
  }
}
