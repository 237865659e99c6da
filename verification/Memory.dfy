/** Bytes and little-endian numbers. */
module Memory {

  type Byte = n: nat | n < 256

  type U16 = n: nat | n < 65536

  type U32 = n: nat | n < 4294967296

  type U64 = n: nat | n < 18446744073709551616

  /** The unsigned number stored in `width` bytes at `offset`. */
  function Load(r: seq<Byte>, offset: nat, width: nat): nat
    requires offset + width <= |r|
    decreases width
  {
    if width == 0 then 0 else r[offset] + 256 * Load(r, offset + 1, width - 1)
  }

  function Pow256(width: nat): nat
    ensures Pow256(width) > 0
  {
    if width == 0 then 1 else 256 * Pow256(width - 1)
  }

  /** The bytes of a number. */
  function Store(n: nat, width: nat): (bytes: seq<Byte>)
    ensures |bytes| == width
  {
    if width == 0 then [] else [n % 256] + Store(n / 256, width - 1)
  }

  lemma {:induction false} LoadShift(a: seq<Byte>, b: seq<Byte>, offset: nat, width: nat)
    requires offset + width <= |b|
    ensures Load(a + b, |a| + offset, width) == Load(b, offset, width)
    decreases width
  {
    if width > 0 {
      LoadShift(a, b, offset + 1, width - 1);
    }
  }

  /** Loading what was stored gives it back, up to the width. */
  lemma {:induction false} LoadStore(n: nat, width: nat)
    requires n < Pow256(width)
    ensures Load(Store(n, width), 0, width) == n
  {
    if width > 0 {
      LoadStore(n / 256, width - 1);
      LoadShift([n % 256], Store(n / 256, width - 1), 0, width - 1);
    }
  }
}
