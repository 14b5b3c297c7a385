/**
  Model of the kind classifiers and the embedded slice/map search of
  package `refl`. Each takes what Go passes as an `interface{}`; only its
  dynamic type matters, so the input is `Option<Type>` with `None` for nil.
*/
module Classifiers {
  import opened Wrappers
  import opened Types
  import opened Values
  import opened Indirection

  /** Whether the value is a slice, array or map, possibly behind pointers. */
  function IsSliceOrMap(i: Option<Type>): (r: bool)
    ensures i.None? ==> !r
  {
    if i.None? then false
    else IsSliceMapOrArrayKind(DeepIndirect(i.value))
  }

  /**
    The pointer-stripping loop that Go's `IsStruct` writes out itself; it reaches a
    struct exactly when `DeepIndirect` does.
  */
  predicate StructBehindPointers(t: Type)
    ensures StructBehindPointers(t) <==> DeepIndirect(t).Struct?
  {
    if t.Ptr? then StructBehindPointers(t.elem) else t.Struct?
  }

  /** Whether the value is a struct, possibly behind pointers. */
  function IsStruct(i: Option<Type>): (r: bool)
    ensures i.None? ==> !r
  {
    if i.None? then false else StructBehindPointers(i.value)
  }

  lemma IsStructIsDeepIndirectStruct(i: Option<Type>)
    ensures IsStruct(i) <==> i.Some? && DeepIndirect(i.value).Struct?
  {
  }

  /** No value is classified both as a struct and as a slice or map. */
  lemma ClassifiersExclusive(i: Option<Type>)
    ensures !(IsStruct(i) && IsSliceOrMap(i))
  {
    IsStructIsDeepIndirectStruct(i);
  }

  /**
    Through any number of pointers both classifiers see the pointee's
    kind. Every type has this shape, by the decomposition `DeepIndirect`
    guarantees.
  */
  lemma ClassifiersBehindPointers(u: Type, n: nat)
    requires !u.Ptr?
    ensures IsSliceOrMap(Some(AddPtrs(u, n))) <==> IsSliceMapOrArrayKind(u)
    ensures IsStruct(Some(AddPtrs(u, n))) <==> u.Struct?
  {
    DeepIndirectInvertsAddPtrs(u, n);
    IsStructIsDeepIndirectStruct(Some(AddPtrs(u, n)));
  }

  /**
    The dynamic type of `reflect.Zero(t).Interface()`: the zero value of an
    interface type converts to a nil interface, any other zero value keeps
    `t` as its dynamic type.
  */
  function ZeroInterface(t: Type): (r: Option<Type>)
    ensures r.None? <==> Zero(t) == InterfaceValue(None)
    ensures r.Some? ==> r.value == t && HasType(Zero(t), r.value)
  {
    ZeroHasType(t);
    if t.Interface? then None else Some(t)
  }

  function OptionSize(i: Option<Type>): nat
  {
    if i.Some? then Size(i.value) else 0
  }

  /**
    Searches the embedded fields of a struct (behind any pointers) in
    declaration order, depth first, for one whose type is a slice, array or
    map (behind any pointers), and returns that field's declared type.
  */
  function FindEmbeddedSliceOrMap(i: Option<Type>): (r: Option<Type>)
    ensures i.None? ==> r.None?
    ensures i.Some? && !DeepIndirect(i.value).Struct? ==> r.None?
    ensures r.Some? ==> IsSliceOrMap(Some(r.value))
    decreases OptionSize(i), 1
  {
    if i.None? then None
    else
      var t := DeepIndirect(i.value);
      if !t.Struct? then None
      else FindInFields(t.fields)
  }

  /** The loop over the fields of `FindEmbeddedSliceOrMap`. */
  function FindInFields(fs: seq<Field>): (r: Option<Type>)
    ensures r.Some? ==> IsSliceOrMap(Some(r.value))
    decreases FieldsSize(fs), 2
  {
    if |fs| == 0 then None
    else
      var f := fs[0];
      if f.anonymous then
        var v := ZeroInterface(f.typ);
        if IsSliceOrMap(v) then Some(f.typ)
        else
          var found := FindEmbeddedSliceOrMap(v);
          if found.Some? then found else FindInFields(fs[1..])
      else FindInFields(fs[1..])
  }
}
