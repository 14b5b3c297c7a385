/**
  Model of `IsZero`: a structural test of whether a reflected value is the
  zero value of its type. Arrays and structs are zero when every element or
  field is; nil-able kinds are zero exactly when nil and are never followed;
  floats and complex numbers compare raw bit patterns with 0, so negative
  zero is not zero. An invalid value makes the Go code panic, which here is
  the precondition `NoInvalid`.
*/
module ZeroCheck {
  import opened Wrappers
  import opened Types
  import opened Values

  predicate IsZero(v: Value)
    requires NoInvalid(v)
    ensures v.ArrayValue? ==>
      (IsZero(v) <==> forall j | 0 <= j < |v.elems| :: IsZero(v.elems[j]))
    ensures v.StructValue? ==>
      (IsZero(v) <==> forall j | 0 <= j < |v.fieldValues| :: IsZero(v.fieldValues[j]))
    decreases v
  {
    match v
    case BoolValue(b) => !b
    case IntValue(i) => i == 0
    case UintValue(u) => u == 0
    case FloatValue(bits) => bits == 0
    case ComplexValue(re, im) => re == 0 && im == 0
    case ArrayValue(vs) => AllZeroFrom(vs, 0)
    case ChanValue(isNil) => isNil
    case FuncValue(isNil) => isNil
    case InterfaceValue(d) => d.None?
    case MapValue(m) => m.NilEntries?
    case PtrValue(p) => p.None?
    case SliceValue(s) => s.NilItems?
    case StringValue(s) => |s| == 0
    case StructValue(vs) => AllZeroFrom(vs, 0)
    case UnsafePointerValue(isNil) => isNil
  }

  /**
    The element loop: scan from index `i`, stopping at the first non-zero
    element. It accepts exactly when every remaining element is zero.
  */
  predicate AllZeroFrom(vs: seq<Value>, i: nat)
    requires i <= |vs|
    requires forall j | 0 <= j < |vs| :: NoInvalid(vs[j])
    ensures AllZeroFrom(vs, i) <==> forall j | i <= j < |vs| :: IsZero(vs[j])
    decreases vs, |vs| - i
  {
    if i == |vs| then true
    else if !IsZero(vs[i]) then false
    else AllZeroFrom(vs, i + 1)
  }

  /**
    Nil-able kinds are zero iff nil: what a non-nil pointer, interface,
    slice or map refers to is never examined, so a pointer to a zero value
    and an empty but non-nil slice or map are not zero.
  */
  lemma NilableZeroIffNil(v: Value)
    requires v.ChanValue? || v.FuncValue? || v.InterfaceValue? || v.MapValue?
          || v.PtrValue? || v.SliceValue? || v.UnsafePointerValue?
    ensures v.PtrValue? ==> (IsZero(v) <==> v.target.None?)
    ensures v.InterfaceValue? ==> (IsZero(v) <==> v.dynamic.None?)
    ensures v.SliceValue? ==> (IsZero(v) <==> v.items.NilItems?)
    ensures v.MapValue? ==> (IsZero(v) <==> v.entries.NilEntries?)
    ensures (v.ChanValue? || v.FuncValue? || v.UnsafePointerValue?) ==> (IsZero(v) <==> v.isNil)
    ensures forall x :: !IsZero(PtrValue(Some(x)))
    ensures !IsZero(SliceValue(Items([]))) && !IsZero(MapValue(Entries([])))
  {
  }

  /** Only the all-zero bit pattern is a zero float: negative zero (sign bit set) is not. */
  lemma FloatZeroIsPositiveZero(bits: bv64, re: bv64, im: bv64)
    ensures IsZero(FloatValue(bits)) <==> bits == 0
    ensures !IsZero(FloatValue(0x8000_0000_0000_0000))
    ensures IsZero(ComplexValue(re, im)) <==> re == 0 && im == 0
    ensures !IsZero(ComplexValue(0x8000_0000_0000_0000, 0))
  {
  }

  /**
    `IsZero` reports exactly whether a value is the zero value of its type,
    as the doc comment of Go's `IsZero` promises.
  */
  lemma {:induction false} IsZeroIffZeroValue(v: Value, t: Type)
    requires HasType(v, t)
    ensures NoInvalid(v) && (IsZero(v) <==> v == Zero(t))
    decreases v
  {
    HasTypeNoInvalid(v, t);
    match v
    case ArrayValue(vs) =>
      var z := Zero(t);
      forall j | 0 <= j < |vs| ensures IsZero(vs[j]) <==> vs[j] == z.elems[j] {
        IsZeroIffZeroValue(vs[j], t.elem);
      }
      if IsZero(v) {
        assert vs == z.elems;
      }
    case StructValue(vs) =>
      var z := Zero(t);
      forall j | 0 <= j < |vs| ensures IsZero(vs[j]) <==> vs[j] == z.fieldValues[j] {
        IsZeroIffZeroValue(vs[j], t.fields[j].typ);
      }
      if IsZero(v) {
        assert vs == z.fieldValues;
      }
    case _ =>
  }

  /** The zero value of every type passes `IsZero`. */
  lemma ZeroValueIsZero(t: Type)
    ensures NoInvalid(Zero(t)) && IsZero(Zero(t))
  {
    ZeroHasType(t);
    IsZeroIffZeroValue(Zero(t), t);
  }
}
