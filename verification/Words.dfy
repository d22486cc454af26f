/** Machine words as bounded integers: every place where the driver relies on a
    width, a shift or a mask writes it out with `/`, `%` and these bounds. */
module Words {
  const TWO_16: int := 0x1_0000
  const TWO_32: int := 0x1_0000_0000

  type u8 = x: int | 0 <= x < 0x100
  type u16 = x: int | 0 <= x < 0x1_0000
  type u32 = x: int | 0 <= x < 0x1_0000_0000

  function Min(x: int, y: int): int {
    if x < y then x else y
  }

  /** 32-bit unsigned addition. */
  function Add32(x: u32, y: int): u32
    requires 0 <= y < TWO_32
  {
    if x + y < TWO_32 then x + y else x + y - TWO_32
  }

  function Last<T>(s: seq<T>): T
    requires s != []
  {
    s[|s| - 1]
  }

  function Front<T>(s: seq<T>): seq<T>
    requires s != []
  {
    s[..|s| - 1]
  }

  lemma ProductAtLeast(w: int, k: int)
    requires w > 0 && k >= 1
    ensures w * k >= w
  {
    assert w * k == w * (k - 1) + w;
    assert w * (k - 1) >= 0;
  }

  /** Quotient and remainder are determined by where they add up. */
  lemma DivisionIsUnique(x: int, w: int, q: int, r: int)
    requires w > 0 && x == w * q + r && 0 <= r < w
    ensures x / w == q && x % w == r
  {
    var q', r' := x / w, x % w;
    assert x == w * q' + r';
    assert w * (q - q') == w * q - w * q' && w * (q' - q) == w * q' - w * q;
    if q - q' >= 1 {
      ProductAtLeast(w, q - q');
    } else if q' - q >= 1 {
      ProductAtLeast(w, q' - q);
    }
  }

  lemma MultipleHasNoRemainder(k: int, f: int)
    requires f > 0
    ensures f * k % f == 0
  {
    DivisionIsUnique(f * k, f, k, 0);
  }
}
