/**
  Model of `DeepIndirect`: follow `Elem()` while the type is a pointer and
  return the first non-pointer type reached.

  The Go function also holds a block guarded by the constant `false`; it never
  runs and has no counterpart here.
*/
module Indirection {
  import opened Types

  /** The number of pointer layers on top of `t`. */
  function PtrDepth(t: Type): nat
  {
    if t.Ptr? then 1 + PtrDepth(t.elem) else 0
  }

  /** `t` wrapped in `n` further pointer layers. */
  function AddPtrs(t: Type, n: nat): Type
  {
    if n == 0 then t else Ptr(AddPtrs(t, n - 1))
  }

  /**
    Strips every pointer layer. The result is never a pointer, leaves a
    non-pointer input unchanged, and re-adding as many pointer layers as
    the input had rebuilds the input: the result depends on nothing but
    the chain of pointers.
  */
  function DeepIndirect(t: Type): (r: Type)
    ensures !r.Ptr?
    ensures !t.Ptr? ==> r == t
    ensures AddPtrs(r, PtrDepth(t)) == t
    ensures Size(r) <= Size(t)
  {
    if t.Ptr? then DeepIndirect(t.elem) else t
  }

  /** Stripping twice is stripping once. */
  lemma DeepIndirectIdempotent(t: Type)
    ensures DeepIndirect(DeepIndirect(t)) == DeepIndirect(t)
  {
  }

  /** Any number of added pointer layers is stripped again, and counted. */
  lemma {:induction false} DeepIndirectAddPtrs(t: Type, n: nat)
    ensures DeepIndirect(AddPtrs(t, n)) == DeepIndirect(t)
    ensures PtrDepth(AddPtrs(t, n)) == PtrDepth(t) + n
    decreases n
  {
    if n > 0 {
      DeepIndirectAddPtrs(t, n - 1);
    }
  }

  /**
    `AddPtrs` and `DeepIndirect` are inverse on non-pointer types: every
    type is exactly one non-pointer type under some number of pointers.
  */
  lemma DeepIndirectInvertsAddPtrs(u: Type, n: nat)
    requires !u.Ptr?
    ensures DeepIndirect(AddPtrs(u, n)) == u
    ensures PtrDepth(AddPtrs(u, n)) == n
  {
    DeepIndirectAddPtrs(u, n);
  }

  /** One more pointer layer does not change the result. */
  lemma DeepIndirectPtr(t: Type)
    ensures DeepIndirect(Ptr(t)) == DeepIndirect(t)
  {
  }
}
