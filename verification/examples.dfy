/**
  The cases exercised by the repository's tests, stated over the model.
  `new(T)` has type `*T`, so `new(***X)` is `AddPtrs(X, 4)`.
*/
module Examples {
  import opened Wrappers
  import opened Types
  import opened Values
  import opened Indirection
  import opened Classifiers
  import opened ZeroCheck

  lemma DeepIndirectCases(fs: seq<Field>)
    ensures DeepIndirect(AddPtrs(Struct(fs), 4)).Struct?
  {
    DeepIndirectInvertsAddPtrs(Struct(fs), 4);
  }

  lemma IsSliceOrMapCases(fs: seq<Field>)
    ensures IsSliceOrMap(Some(AddPtrs(Slice(Struct(fs)), 4)))
    ensures IsSliceOrMap(Some(AddPtrs(Map(String, Struct(fs)), 4)))
    ensures IsSliceOrMap(Some(Slice(Int)))
    ensures IsSliceOrMap(Some(Map(Int, Int)))
    ensures !IsSliceOrMap(Some(AddPtrs(Struct(fs), 4)))
    ensures !IsSliceOrMap(None)
  {
    ClassifiersBehindPointers(Slice(Struct(fs)), 4);
    ClassifiersBehindPointers(Map(String, Struct(fs)), 4);
    ClassifiersBehindPointers(Struct(fs), 4);
  }

  lemma IsStructCases(fs: seq<Field>)
    ensures !IsStruct(Some(AddPtrs(Slice(Struct(fs)), 4)))
    ensures !IsStruct(Some(AddPtrs(Map(String, Struct(fs)), 4)))
    ensures !IsStruct(Some(Slice(Int)))
    ensures !IsStruct(Some(Map(Int, Int)))
    ensures IsStruct(Some(AddPtrs(Struct(fs), 4)))
    ensures IsStruct(Some(Struct(fs)))
    ensures !IsStruct(None)
  {
    ClassifiersBehindPointers(Slice(Struct(fs)), 4);
    ClassifiersBehindPointers(Map(String, Struct(fs)), 4);
    ClassifiersBehindPointers(Struct(fs), 4);
  }

  /** `struct { Map }` with `type Map map[int]int` has the map embedded. */
  lemma FindEmbeddedCases()
    ensures FindEmbeddedSliceOrMap(Some(Struct([Field("Map", Map(Int, Int), true)])))
      == Some(Map(Int, Int))
  {
    assert [Field("Map", Map(Int, Int), true)][1..] == [];
  }

  /**
    A map nested under an earlier embedded struct wins over a slice embedded
    directly later; a named slice field is never reported.
  */
  lemma FindEmbeddedOrder()
    ensures FindEmbeddedSliceOrMap(Some(Struct([
        Field("Items", Slice(Int), false),
        Field("Inner", Struct([Field("Map", Map(Int, Int), true)]), true),
        Field("List", Slice(Int), true)
      ]))) == Some(Map(Int, Int))
    ensures FindEmbeddedSliceOrMap(Some(Struct([Field("Items", Slice(Int), false)]))) == None
  {
    var inner := [Field("Map", Map(Int, Int), true)];
    assert inner[1..] == [];
    var fs := [
      Field("Items", Slice(Int), false),
      Field("Inner", Struct(inner), true),
      Field("List", Slice(Int), true)
    ];
    assert fs[1..][0] == fs[1];
    assert FindInFields(fs[1..]) == Some(Map(Int, Int));
    assert [Field("Items", Slice(Int), false)][1..] == [];
  }

  lemma IsZeroScalarCases()
    ensures IsZero(IntValue(0)) && IsZero(UintValue(0))
    ensures IsZero(FloatValue(0)) && IsZero(ComplexValue(0, 0))
    ensures IsZero(StringValue("")) && IsZero(BoolValue(false))
    ensures IsZero(SliceValue(NilItems))
  {
  }

  lemma IsZeroArrayCases()
    ensures IsZero(ArrayValue([IntValue(0), IntValue(0)]))
    ensures !IsZero(ArrayValue([IntValue(1), IntValue(0)]))
  {
  }

  /** `MyStruct{}` is zero; `MyStruct{S: "s"}` is not. */
  lemma IsZeroStructCases()
    ensures IsZero(StructValue([StringValue(""), StructValue([IntValue(0)])]))
    ensures !IsZero(StructValue([StringValue("s"), StructValue([IntValue(0)])]))
  {
    var inner := StructValue([IntValue(0)]);
    assert IsZero(inner);
    var zero := StructValue([StringValue(""), inner]);
    var nonZero := StructValue([StringValue("s"), inner]);
    assert !IsZero(nonZero.fieldValues[0]);
  }
}
