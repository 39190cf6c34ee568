/** MappedItem: what selector and conditional nodes share, the type name used by a
    type query on the node's own type. */
module MappedItem {
  import opened Base
  import opened Types
  import opened Objects

  /** char.IsWhiteSpace: the Unicode space separators, line and paragraph separators,
      and the control characters U+0009 to U+000D, U+0085. */
  predicate IsWhiteSpace(c: char) {
    || c == ' ' || ('\t' <= c <= '\r') || c == '\U{0085}' || c == '\U{00A0}' || c == '\U{1680}'
    || ('\U{2000}' <= c <= '\U{200A}') || c == '\U{2028}' || c == '\U{2029}' || c == '\U{202F}'
    || c == '\U{205F}' || c == '\U{3000}'
  }

  /** string.IsNullOrWhiteSpace */
  predicate IsNullOrWhiteSpace(s: Option<string>) {
    s.None? || forall i :: 0 <= i < |s.value| ==> IsWhiteSpace(s.value[i])
  }

  /** GetCurrentMessageProcessor: a processor built from the type-name accessor when
      there is one, otherwise from the type-name key unless that key is null, empty or
      white space only; None when the node has no type name. The processor's type
      argument is the node's own type ty. */
  function GetCurrentMessageProcessor(tn: TypeName, ty: TypeId): (r: Option<Processor>)
    ensures r.Some? <==> tn.accessor.Some? || !IsNullOrWhiteSpace(tn.resourceKey)
    ensures r.Some? ==> r.value.dataItems == [] && r.value.ty == ty
    ensures tn.accessor.Some? ==> r == Some(Processor(MessageAccessor(tn.accessor.value), [], ty))
    ensures tn.accessor.None? && r.Some? ==> r.value.source == ResourceKey(tn.resourceKey.value)
  {
    if tn.accessor.Some? then Some(Processor(MessageAccessor(tn.accessor.value), [], ty))
    else if !IsNullOrWhiteSpace(tn.resourceKey) then Some(Processor(ResourceKey(tn.resourceKey.value), [], ty))
    else None
  }

  /** The accessor wins over the key, whatever the key is. */
  lemma AccessorTakesPrecedence(key: Option<string>, accessor: Accessor, ty: TypeId)
    ensures GetCurrentMessageProcessor(TypeName(key, Some(accessor)), ty) ==
            GetCurrentMessageProcessor(TypeName(None, Some(accessor)), ty)
  {
  }

  /** The key Configure passes by default, "", and a blank key mean "no type name". */
  lemma BlankKeysAreNoTypeName(ty: TypeId)
    ensures GetCurrentMessageProcessor(TypeName(Some(""), None), ty).None?
    ensures GetCurrentMessageProcessor(TypeName(Some(" \t\r\n"), None), ty).None?
    ensures GetCurrentMessageProcessor(TypeName(None, None), ty).None?
    ensures GetCurrentMessageProcessor(TypeName(Some(" Name "), None), ty) == Some(Processor(ResourceKey(" Name "), [], ty))
  {
    assert !IsWhiteSpace(" Name "[1]);
  }
}
