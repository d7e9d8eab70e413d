/** Machine integers and the option type shared by the other modules. */
module Prelude {

  const TWO_32: int := 0x1_0000_0000
  const TWO_64: int := 0x1_0000_0000_0000_0000

  type u32 = x: int | 0 <= x < 0x1_0000_0000
  type u64 = x: int | 0 <= x < 0x1_0000_0000_0000_0000

  datatype Option<+T> = None | Some(value: T)

  lemma {:induction false} ProductUp(w: nat, a: nat, b: nat)
    requires a <= b
    ensures a * w <= b * w
    decreases b
  {
    if a < b {
      ProductUp(w, a, b - 1);
    }
  }

  lemma QuotientIs(x: nat, w: nat, q: nat, r: nat)
    requires w > 0 && x == q * w + r && r < w
    ensures x / w == q && x % w == r
  {
    var p, s := x / w, x % w;
    assert x == p * w + s;
    if p < q {
      assert p * w + w <= q * w by { ProductUp(w, p + 1, q); }
    } else if q < p {
      assert q * w + w <= p * w by { ProductUp(w, q + 1, p); }
    }
  }
}
