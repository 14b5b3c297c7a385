# Kind classifiers and zero-value test of `refl`, modelled in Dafny

This project models the reflection helpers of the Go package `refl`
(swaggest/refl) that classify values by kind:

- `DeepIndirect` strips every pointer layer off a type.
- `IsSliceOrMap` and `IsStruct` classify a value by the kind left once pointers are stripped.
- `FindEmbeddedSliceOrMap` searches embedded (anonymous) struct fields, depth first and in
  declaration order, for one whose type is a slice, array or map.
- `IsZero` reports whether a reflected value is the zero value of its type.

Go's `reflect` package is replaced by explicit datatypes. `Types.Type` is a type descriptor:
pointer, slice, array, map, struct with ordered fields, interface, and the scalar kinds.
`Values.Value` is a reflected value. Its nil-able kinds record nil-ness. Pointers, interfaces, slices and maps
also carry what they refer to when not nil; chan, func and unsafe-pointer values carry
only nil-ness. Floats are opaque 64-bit patterns. There is also an `InvalidValue` case.
A Go `interface{}` argument is modelled as `Option<Type>`: `None` is `nil`, and otherwise
only the dynamic type is kept, because no classifier looks further.

Each operation has a partner it is proved against:

- `DeepIndirect` is the inverse of adding pointer layers (`AddPtrs`, `PtrDepth`).
- `IsStruct` has its own pointer loop, proved to agree with `DeepIndirect`.
- `FindEmbeddedSliceOrMap` equals "the first slice or map in the pre-order list of
  embedded field types" (`EmbeddedSearch.EmbeddedTypes`).
- `IsZero` is proved to hold exactly on the Go zero value of the value's type (`Values.Zero`),
  for every well-typed value (`Values.HasType`).

Files: `types.dfy` and `values.dfy` hold the data model. `ptr.dfy` models ptr.go.
`is.dfy`, `embedded.dfy` and `zero.dfy` model is.go. `examples.dfy` restates the test cases
of ptr_test.go and is_test.go over the model.

## Model

| member | source | states |
|---|---|---|
| Indirection.DeepIndirect | ptr.go:6-19 | The result is never a pointer. A non-pointer input comes back unchanged. Re-adding the input's pointer layers to the result rebuilds the input, so the result depends only on the pointer chain. Stripping never enlarges the type. |
| Indirection.DeepIndirectIdempotent | ptr.go:7-9 | Stripping pointers twice gives the same type as stripping once. |
| Indirection.DeepIndirectAddPtrs | ptr.go:7-9 | Wrapping a type in any number of extra pointers changes neither what `DeepIndirect` returns nor anything but the pointer count. |
| Indirection.DeepIndirectInvertsAddPtrs | ptr.go:7-18 | For a non-pointer type `u`, `DeepIndirect` of `u` under `n` pointers is `u`, and the chain has exactly `n` pointers. |
| Indirection.DeepIndirectPtr | ptr.go:7-8 | One added pointer layer does not change the result. |
| Classifiers.IsSliceOrMap | is.go:9-17 | `nil` is never classified as a slice or map. |
| Classifiers.IsStruct | is.go:20-31 | `nil` is never classified as a struct. |
| Classifiers.StructBehindPointers | is.go:25-30 | The pointer loop written inline in `IsStruct` reaches a struct exactly when `DeepIndirect` returns a struct. |
| Classifiers.IsStructIsDeepIndirectStruct | is.go:20-31 | `IsStruct` holds iff the input is not nil and its pointer-stripped type is a struct. |
| Classifiers.ClassifiersExclusive | is.go:14-30 | No input is classified both as a struct and as a slice or map. |
| Classifiers.ClassifiersBehindPointers | is.go:8-31 | Behind any number of pointers, `IsSliceOrMap` holds iff the pointee is a slice, map or array, and `IsStruct` holds iff it is a struct. |
| Classifiers.ZeroInterface | is.go:48 | Converting the zero value of a type to `interface{}` gives nil exactly when that zero value is a nil interface. Otherwise the dynamic type is `t` itself, which the zero value has. |
| Classifiers.FindEmbeddedSliceOrMap | is.go:34-60 | Returns nil for nil input and for input whose pointer-stripped type is not a struct. Any non-nil result is a slice, map or array, possibly behind pointers. |
| Classifiers.FindInFields | is.go:45-59 | Any type the field loop returns is a slice, map or array, possibly behind pointers. |
| EmbeddedSearch.FirstSliceOrMap | is.go:45-56 | The first-match search returns a member of the list that is a slice or map. It returns nil iff no member is one. |
| EmbeddedSearch.FirstSliceOrMapIsFirst | is.go:45-56 | The match returned sits at a position with no slice or map before it. |
| EmbeddedSearch.FindEmbeddedIsFirstEmbeddedSliceOrMap | is.go:34-60 | `FindEmbeddedSliceOrMap` returns exactly the first slice or map in the depth-first, declaration-order list of embedded field types. |
| EmbeddedSearch.FindInFieldsIsFirstEmbeddedSliceOrMap | is.go:45-59 | The field loop returns exactly the first slice or map in the embedded types reachable from those fields. |
| EmbeddedSearch.FoundTypeIsEmbedded | is.go:45-55 | A non-nil result is the declared type of an embedded field reached through embedded fields only. Nil is returned iff no such type is a slice or map. |
| EmbeddedSearch.FindInFieldsAppend | is.go:45-56 | Searching fields `a` then `b` gives `a`'s result if `a` yields one, direct or nested, and `b`'s otherwise. So a nested match under an earlier embedded field beats a direct match in a later one. |
| EmbeddedSearch.SkippedFields | is.go:47-49 | A named field, whatever its type, and an embedded interface field each yield nothing. |
| EmbeddedSearch.SkippedFieldIsTransparent | is.go:45-56 | Inserting a named field or an embedded interface field anywhere in a struct leaves the search result unchanged. |
| ZeroCheck.IsZero | is.go:62-107 | An array or struct is zero iff every element or field is; this holds vacuously when there are none. Its precondition excludes an invalid value, where the Go code panics. |
| ZeroCheck.AllZeroFrom | is.go:80-99 | The element loops of is.go:81-85 and is.go:93-97 stop at the first non-zero element, and accept iff every remaining element or field is zero. |
| ZeroCheck.NilableZeroIffNil | is.go:88-89 | Chan, func, interface, map, pointer, slice and unsafe-pointer values are zero iff nil. The content behind a non-nil one is never examined: a pointer to a zero value, or an empty non-nil slice or map, is not zero. |
| ZeroCheck.FloatZeroIsPositiveZero | is.go:74-79 | A float is zero iff its bit pattern is 0, so negative zero is not. A complex value is zero iff both parts' patterns are 0. |
| ZeroCheck.IsZeroIffZeroValue | is.go:62-107 | For every value of type `t`, `IsZero` holds iff the value is the Go zero value of `t`. Such a value never contains an invalid value, so it never panics. |
| ZeroCheck.ZeroValueIsZero | is.go:62-66 | The zero value of every type passes `IsZero`. |
| Examples.DeepIndirectCases | ptr_test.go:12-14 | Four pointer layers over a struct strip to a struct. |
| Examples.IsSliceOrMapCases | is_test.go:15-22 | The test's slice, map, pointer-to-struct and nil inputs are classified as the test expects. |
| Examples.IsStructCases | is_test.go:24-32 | The test's inputs are classified by `IsStruct` as the test expects. |
| Examples.FindEmbeddedCases | is_test.go:47-55 | A struct embedding a named map type reports that map type. |
| Examples.FindEmbeddedOrder | is.go:45-56 | A map nested in an earlier embedded struct wins over a later embedded slice. A named slice field is never reported. |
| Examples.IsZeroScalarCases | is_test.go:65-71 | Zero int, uint, float, complex, empty string, false and a nil slice are zero. |
| Examples.IsZeroArrayCases | is_test.go:73-74 | `[2]int{}` is zero and `[2]int{1}` is not. |
| Examples.IsZeroStructCases | is_test.go:58-77 | `MyStruct{}` is zero and `MyStruct{S: "s"}` is not. |

## Left out

- Declared type names are not modelled. Two declared types with the same structure are the same `Type` here. No classifier looks at names.
- Integer, float and complex widths are merged: one `Int` case stands for int…int64, one `Uint` for uint…uintptr, and so on. `IsZero` treats every width of a kind the same way. A float32 or complex64 is held as the 64-bit pattern of its widening, which is zero exactly when the narrow pattern is.
- Recursive Go types cannot be represented, since `Type` is an inductive datatype. This covers `type P *P`, `type S struct{ *S }`, `type Node struct{ Next *Node }` and `type Tree struct{ Kids []Tree }`. Go diverges on such types in only two cases. The first is the pointer-stripping loop on a pure pointer cycle: in `DeepIndirect` (ptr.go:7-9), in the copy of that loop inside `IsStruct` (is.go:26-28), and so in every classifier. The second is `FindEmbeddedSliceOrMap` when it enters a cycle of embedded fields before finding any match. On every other recursive type, each modelled function reads only a finite part of the type or value, and the model gives the same result on a finite truncation of it. That finite part is the pointer chain for `DeepIndirect` and the classifiers, the embedded fields up to the first match for `FindEmbeddedSliceOrMap`, and the value without following pointers for `IsZero`.
- Go's restrictions on which types may be embedded are not enforced. The model accepts any field type as embedded and computes what the Go code would compute.
- ZeroCheck.IsZero: requires that no invalid value sits on the array/struct spine, which is where the Go code panics. Go never nests an invalid value there, so this matches its reachable inputs. Because of the loop's early exit, the Go code would not panic on an invalid element after a non-zero one; the model does not represent that input.
- Float and complex arithmetic are left out; payloads are opaque bit patterns compared with 0.
- Chan, func and unsafe-pointer values carry only nil-ness. Their element types, signatures and addresses are not modelled, since `IsZero` only asks whether they are nil.
- Indirection.DeepIndirect: has no nil case, because `Type` has no nil. In Go, `DeepIndirect(nil)` panics when it calls `Kind()` on the nil type. The classifiers never reach that panic, because they check `i == nil` before calling it (is.go:10, is.go:21, is.go:35).
- The dead `if false` block in `DeepIndirect` never runs and has no counterpart.
- `reflect.Zero(t).Interface()` is modelled only through its dynamic type (`ZeroInterface`): nil for interface types, and `t` otherwise.
- The field walkers, `HasTaggedFields`, `Tagged`, `PopulateFieldsFromTags` and `GoType` are defined in package `refl` and exercised by tag_test.go, gotype_test.go and example_test.go. They are out of scope: this model covers is.go and ptr.go only.
- `As`, `IsScalar` and `NoEmptyFields` are defined in package `refl` and exercised by is_test.go:34-163. They are out of scope of this model of is.go and ptr.go. `As` also depends on Go method sets.
- The `encoding/json` assertions and the benchmarks in the tests exercise other code and are not modelled.
