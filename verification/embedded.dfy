/**
  A reference description of `FindEmbeddedSliceOrMap`: list the declared
  types of all embedded fields reachable through chains of embedded
  fields, depth first in declaration order, and take the first one that is
  a slice, array or map. Named fields never enter the list.
*/
module EmbeddedSearch {
  import opened Wrappers
  import opened Types
  import opened Indirection
  import opened Classifiers

  /** Pre-order list of the embedded field types reachable from `t`. */
  function EmbeddedTypes(t: Type): seq<Type>
    decreases Size(t), 1
  {
    var u := DeepIndirect(t);
    if u.Struct? then EmbeddedTypesOfFields(u.fields) else []
  }

  function EmbeddedTypesOfFields(fs: seq<Field>): seq<Type>
    decreases FieldsSize(fs), 2
  {
    if |fs| == 0 then []
    else
      (if fs[0].anonymous then [fs[0].typ] + EmbeddedTypes(fs[0].typ) else [])
      + EmbeddedTypesOfFields(fs[1..])
  }

  /** The first type in `ts` that is a slice, array or map behind any pointers. */
  function FirstSliceOrMap(ts: seq<Type>): (r: Option<Type>)
    ensures r.Some? ==> r.value in ts && IsSliceOrMap(Some(r.value))
    ensures r.None? <==> forall j | 0 <= j < |ts| :: !IsSliceOrMap(Some(ts[j]))
  {
    if |ts| == 0 then None
    else if IsSliceOrMap(Some(ts[0])) then Some(ts[0])
    else FirstSliceOrMap(ts[1..])
  }

  /** The match found has no match before it. */
  lemma {:induction false} FirstSliceOrMapIsFirst(ts: seq<Type>)
    requires FirstSliceOrMap(ts).Some?
    ensures exists k | 0 <= k < |ts| ::
              && ts[k] == FirstSliceOrMap(ts).value
              && forall j | 0 <= j < k :: !IsSliceOrMap(Some(ts[j]))
  {
    if IsSliceOrMap(Some(ts[0])) {
      assert ts[0] == FirstSliceOrMap(ts).value;
    } else {
      var tail := ts[1..];
      FirstSliceOrMapIsFirst(tail);
      var k :| 0 <= k < |tail| && tail[k] == FirstSliceOrMap(tail).value
        && forall j | 0 <= j < k :: !IsSliceOrMap(Some(tail[j]));
      assert ts[k + 1] == FirstSliceOrMap(ts).value;
      forall j | 0 <= j < k + 1 ensures !IsSliceOrMap(Some(ts[j])) {
        if j > 0 { assert ts[j] == tail[j - 1]; }
      }
    }
  }

  /** First match over a concatenation: the left part is searched first. */
  lemma {:induction false} FirstSliceOrMapAppend(a: seq<Type>, b: seq<Type>)
    ensures FirstSliceOrMap(a + b) ==
      if FirstSliceOrMap(a).Some? then FirstSliceOrMap(a) else FirstSliceOrMap(b)
  {
    if |a| > 0 {
      assert (a + b)[0] == a[0];
      assert (a + b)[1..] == a[1..] + b;
      FirstSliceOrMapAppend(a[1..], b);
    } else {
      assert a + b == b;
    }
  }

  /** `FindEmbeddedSliceOrMap` is the first slice or map among the embedded types. */
  lemma {:induction false} FindEmbeddedIsFirstEmbeddedSliceOrMap(t: Type)
    ensures FindEmbeddedSliceOrMap(Some(t)) == FirstSliceOrMap(EmbeddedTypes(t))
    decreases Size(t), 1
  {
    var u := DeepIndirect(t);
    if u.Struct? {
      FindInFieldsIsFirstEmbeddedSliceOrMap(u.fields);
    }
  }

  lemma {:induction false} FindInFieldsIsFirstEmbeddedSliceOrMap(fs: seq<Field>)
    ensures FindInFields(fs) == FirstSliceOrMap(EmbeddedTypesOfFields(fs))
    decreases FieldsSize(fs), 2
  {
    if |fs| > 0 {
      var f := fs[0];
      var rest := EmbeddedTypesOfFields(fs[1..]);
      FindInFieldsIsFirstEmbeddedSliceOrMap(fs[1..]);
      if f.anonymous {
        var own := [f.typ] + EmbeddedTypes(f.typ);
        assert EmbeddedTypesOfFields(fs) == own + rest;
        FindEmbeddedIsFirstEmbeddedSliceOrMap(f.typ);
        FirstSliceOrMapAppend(own, rest);
        FirstSliceOrMapAppend([f.typ], EmbeddedTypes(f.typ));
        assert [f.typ][1..] == [];
        if f.typ.Interface? {
          assert ZeroInterface(f.typ) == None;
          assert EmbeddedTypes(f.typ) == [];
        } else {
          assert ZeroInterface(f.typ) == Some(f.typ);
        }
      } else {
        assert EmbeddedTypesOfFields(fs) == [] + rest == rest;
      }
    }
  }

  /**
    A non-nil result is the declared type of an embedded field reached
    through embedded fields only, and it is a slice, array or map.
  */
  lemma FoundTypeIsEmbedded(t: Type)
    ensures FindEmbeddedSliceOrMap(Some(t)).Some? ==>
      FindEmbeddedSliceOrMap(Some(t)).value in EmbeddedTypes(t)
    ensures FindEmbeddedSliceOrMap(Some(t)).None? <==>
      forall j | 0 <= j < |EmbeddedTypes(t)| :: !IsSliceOrMap(Some(EmbeddedTypes(t)[j]))
  {
    FindEmbeddedIsFirstEmbeddedSliceOrMap(t);
  }

  /**
    Declaration order decides: whatever an earlier group of fields yields,
    directly or nested, wins over anything in a later group.
  */
  lemma {:induction false} FindInFieldsAppend(a: seq<Field>, b: seq<Field>)
    ensures FindInFields(a + b) ==
      if FindInFields(a).Some? then FindInFields(a) else FindInFields(b)
  {
    if |a| > 0 {
      assert (a + b)[0] == a[0];
      assert (a + b)[1..] == a[1..] + b;
      FindInFieldsAppend(a[1..], b);
    } else {
      assert a + b == b;
    }
  }

  /**
    Named fields never contribute, whatever their type, and neither does an
    embedded interface, whose zero value converts to nil.
  */
  lemma SkippedFields(f: Field)
    requires !f.anonymous || f.typ.Interface?
    ensures FindInFields([f]) == None
  {
    assert [f][1..] == [];
  }

  /** Removing a field that contributes nothing leaves the search result unchanged. */
  lemma SkippedFieldIsTransparent(before: seq<Field>, f: Field, after: seq<Field>)
    requires !f.anonymous || f.typ.Interface?
    ensures FindInFields(before + [f] + after) == FindInFields(before + after)
  {
    SkippedFields(f);
    FindInFieldsAppend(before + [f], after);
    FindInFieldsAppend(before, [f]);
    FindInFieldsAppend(before, after);
    assert before + [f] + after == (before + [f]) + after;
  }
}
