/**
  An explicit model of the part of Go's `reflect.Type` that the classifiers
  in package `refl` inspect: the kind of a type and, for composite kinds,
  its element, key, value or field types.

  Declared type names are not modelled: every classifier looks only at
  kinds, so two declared types with the same structure are identified.
  The signed integer kinds (int, int8 … int64) share one case `Int`, the
  unsigned ones (uint, uint8 … uint64, uintptr) share `Uint`, float32 and
  float64 share `Float`, complex64 and complex128 share `Complex`.
  Being an inductive datatype, `Type` cannot express a recursive Go type
  such as `type P *P` or `type Node struct{ Next *Node }`.
*/
module Types {

  datatype Type =
    | Ptr(elem: Type)
    | Slice(elem: Type)
    | Array(len: nat, elem: Type)
    | Map(key: Type, val: Type)
    | Struct(fields: seq<Field>)
    | Interface
    | Bool
    | Int
    | Uint
    | Float
    | Complex
    | String
    | Chan
    | Func
    | UnsafePointer

  /** A struct field: its declared name, declared type and whether it is embedded. */
  datatype Field = Field(name: string, typ: Type, anonymous: bool)

  /** A measure on types that strictly shrinks from a struct to each of its fields. */
  function Size(t: Type): (n: nat)
    ensures n >= 1
  {
    match t
    case Ptr(e) => 1 + Size(e)
    case Slice(e) => 1 + Size(e)
    case Array(_, e) => 1 + Size(e)
    case Map(k, v) => 1 + Size(k) + Size(v)
    case Struct(fs) => 1 + FieldsSize(fs)
    case _ => 1
  }

  function FieldsSize(fs: seq<Field>): nat
  {
    if |fs| == 0 then 0 else Size(fs[0].typ) + FieldsSize(fs[1..])
  }

  /** The kinds the slice/map classifier accepts once pointers are stripped. */
  predicate IsSliceMapOrArrayKind(t: Type)
  {
    t.Slice? || t.Map? || t.Array?
  }
}
