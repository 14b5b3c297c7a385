/**
  An explicit model of the part of Go's `reflect.Value` that `IsZero`
  inspects. Nil-able kinds record whether they are nil; pointers,
  interfaces, slices and maps also carry what they refer to when they are
  not nil, so that the model can show those contents are never looked at.
  Floating-point payloads are opaque 64-bit patterns (a float32 is held as
  the pattern of its float64 widening, which is zero exactly when the
  32-bit pattern is).
*/
module Values {
  import opened Wrappers
  import opened Types

  datatype Value =
    | InvalidValue
    | BoolValue(b: bool)
    | IntValue(i: int)
    | UintValue(u: nat)
    | FloatValue(bits: bv64)
    | ComplexValue(re: bv64, im: bv64)
    | ArrayValue(elems: seq<Value>)
    | ChanValue(isNil: bool)
    | FuncValue(isNil: bool)
    | InterfaceValue(dynamic: Option<Value>)
    | MapValue(entries: Entries)
    | PtrValue(target: Option<Value>)
    | SliceValue(items: Items)
    | StringValue(s: string)
    | StructValue(fieldValues: seq<Value>)
    | UnsafePointerValue(isNil: bool)

  /** The backing elements of a slice, or nil. */
  datatype Items = NilItems | Items(elems: seq<Value>)

  /** The entries of a map, or nil. */
  datatype Entries = NilEntries | Entries(pairs: seq<Entry>)

  datatype Entry = Entry(key: Value, val: Value)

  /**
    No invalid value occurs where `IsZero` descends: at the top, or among
    the elements of an array or the fields of a struct, recursively.
  */
  predicate NoInvalid(v: Value)
  {
    match v
    case InvalidValue => false
    case ArrayValue(vs) => forall i | 0 <= i < |vs| :: NoInvalid(vs[i])
    case StructValue(vs) => forall i | 0 <= i < |vs| :: NoInvalid(vs[i])
    case _ => true
  }

  /** `v` is a value of type `t`. An interface holds any non-interface value. */
  predicate HasType(v: Value, t: Type)
  {
    match v
    case InvalidValue => false
    case BoolValue(_) => t.Bool?
    case IntValue(_) => t.Int?
    case UintValue(_) => t.Uint?
    case FloatValue(_) => t.Float?
    case ComplexValue(_, _) => t.Complex?
    case ArrayValue(vs) =>
      && t.Array?
      && |vs| == t.len
      && forall i | 0 <= i < |vs| :: HasType(vs[i], t.elem)
    case ChanValue(_) => t.Chan?
    case FuncValue(_) => t.Func?
    case InterfaceValue(d) =>
      && t.Interface?
      && (d.Some? ==> !d.value.InvalidValue? && !d.value.InterfaceValue?)
    case MapValue(m) =>
      && t.Map?
      && (m.Entries? ==>
            forall i | 0 <= i < |m.pairs| ::
              HasType(m.pairs[i].key, t.key) && HasType(m.pairs[i].val, t.val))
    case PtrValue(p) => t.Ptr? && (p.Some? ==> HasType(p.value, t.elem))
    case SliceValue(s) =>
      && t.Slice?
      && (s.Items? ==> forall i | 0 <= i < |s.elems| :: HasType(s.elems[i], t.elem))
    case StringValue(_) => t.String?
    case StructValue(vs) =>
      && t.Struct?
      && |vs| == |t.fields|
      && forall i | 0 <= i < |vs| :: HasType(vs[i], t.fields[i].typ)
    case UnsafePointerValue(_) => t.UnsafePointer?
  }

  /** The zero value of each type, as the Go language defines it. */
  function Zero(t: Type): Value
  {
    match t
    case Ptr(_) => PtrValue(None)
    case Slice(_) => SliceValue(NilItems)
    case Array(n, e) => ArrayValue(seq(n, _ => Zero(e)))
    case Map(_, _) => MapValue(NilEntries)
    case Struct(fs) => StructValue(seq(|fs|, i requires 0 <= i < |fs| => Zero(fs[i].typ)))
    case Interface => InterfaceValue(None)
    case Bool => BoolValue(false)
    case Int => IntValue(0)
    case Uint => UintValue(0)
    case Float => FloatValue(0)
    case Complex => ComplexValue(0, 0)
    case String => StringValue("")
    case Chan => ChanValue(true)
    case Func => FuncValue(true)
    case UnsafePointer => UnsafePointerValue(true)
  }

  /** Every well-typed value is free of invalid values. */
  lemma {:induction false} HasTypeNoInvalid(v: Value, t: Type)
    requires HasType(v, t)
    ensures NoInvalid(v)
    decreases v
  {
    match v
    case ArrayValue(vs) =>
      forall i | 0 <= i < |vs| ensures NoInvalid(vs[i]) {
        HasTypeNoInvalid(vs[i], t.elem);
      }
    case StructValue(vs) =>
      forall i | 0 <= i < |vs| ensures NoInvalid(vs[i]) {
        HasTypeNoInvalid(vs[i], t.fields[i].typ);
      }
    case _ =>
  }

  /** The zero value of a type is a value of that type. */
  lemma {:induction false} ZeroHasType(t: Type)
    ensures HasType(Zero(t), t)
    decreases t
  {
    match t
    case Array(n, e) =>
      forall i | 0 <= i < n ensures HasType(Zero(t).elems[i], e) {
        ZeroHasType(e);
      }
    case Struct(fs) =>
      forall i | 0 <= i < |fs| ensures HasType(Zero(t).fieldValues[i], fs[i].typ) {
        ZeroHasType(fs[i].typ);
      }
    case _ =>
  }
}
