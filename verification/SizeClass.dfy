/** The size classes of the pooling allocator. */
module SizeClass {

  predicate IsPowerOfTwo(p: bv64) {
    p != 0 && p & (p - 1) == 0
  }

  /** The size class of a request: 32 at least, else the bits smeared downwards plus one. */
  function ClassOf(size: bv64): bv64 {
    if size <= 32 then 32
    else
      var a := size - 1;
      var b := a | (a >> 32);
      var c := b | (b >> 16);
      var d := c | (c >> 8);
      var e := d | (d >> 4);
      var f := e | (e >> 2);
      var g := f | (f >> 1);
      g + 1
  }

  /** The sizes the smearing is for, as long as the sum does not wrap around. */
  predicate Smeared(size: bv64) {
    32 < size <= 0x8000_0000_0000_0000
  }

  /** Half of p is too small. */
  predicate Tight(p: bv64, size: bv64) {
    p >> 1 < size
  }

  lemma {:induction false} SmearExceeds(size: bv64)
    requires Smeared(size)
    ensures size - 1 < ClassOf(size)
  {
  }

  lemma {:induction false} SmearCovers(size: bv64)
    requires Smeared(size)
    ensures size <= ClassOf(size)
  {
    SmearExceeds(size);
  }

  lemma {:induction false} SmearIsPower(size: bv64)
    requires Smeared(size)
    ensures IsPowerOfTwo(ClassOf(size))
  {
  }

  lemma {:induction false} SmearIsLarge(size: bv64)
    requires Smeared(size)
    ensures 32 <= ClassOf(size)
  {
  }

  lemma {:induction false} SmearIsTight(size: bv64)
    requires Smeared(size)
    ensures Tight(ClassOf(size), size)
  {
  }

  /** No power of two lies between a number and a power of two that is less than twice that number. */
  lemma {:induction false} PowersApart(p: bv64, size: bv64, q: bv64)
    requires IsPowerOfTwo(p) && IsPowerOfTwo(q) && Tight(p, size) && size <= q
    ensures p <= q
  {
  }

  lemma {:induction false} ClassIsEnough(size: bv64)
    requires Smeared(size)
    ensures IsPowerOfTwo(ClassOf(size)) && 32 <= ClassOf(size) && size <= ClassOf(size)
  {
    hide ClassOf, IsPowerOfTwo, Smeared;
    SmearCovers(size);
    SmearIsPower(size);
    SmearIsLarge(size);
  }

  lemma {:induction false} NoneSmaller(size: bv64, q: bv64)
    requires Smeared(size) && IsPowerOfTwo(q) && size <= q
    ensures ClassOf(size) <= q
  {
    hide ClassOf, IsPowerOfTwo, Smeared, Tight;
    SmearIsPower(size);
    SmearIsTight(size);
    PowersApart(ClassOf(size), size, q);
  }

  /** Up to the largest power of two in range the class is the least power of two that is at least 32 and at least
      the size. */
  lemma {:induction false} ClassIsLeast(size: bv64, q: bv64)
    requires size <= 0x8000_0000_0000_0000
    ensures IsPowerOfTwo(ClassOf(size)) && 32 <= ClassOf(size) && size <= ClassOf(size)
    ensures IsPowerOfTwo(q) && 32 <= q && size <= q ==> ClassOf(size) <= q
  {
    hide ClassOf, IsPowerOfTwo;
    if Smeared(size) {
      ClassIsEnough(size);
      if IsPowerOfTwo(q) && size <= q {
        NoneSmaller(size, q);
      }
    } else {
      SmallClass(size);
    }
  }

  lemma {:induction false} SmallClass(size: bv64)
    requires size <= 32
    ensures ClassOf(size) == 32 && IsPowerOfTwo(32)
  {
  }

  /** Beyond it the sum wraps around to zero. */
  lemma {:induction false} ClassWraps(size: bv64)
    requires 0x8000_0000_0000_0000 < size
    ensures ClassOf(size) == 0
  {
  }
}
