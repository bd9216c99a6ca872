/** Powers of two. */
module Powers {
  function Pow2(h: nat): (p: nat)
    ensures p >= 1
  {
    if h == 0 then 1 else 2 * Pow2(h - 1)
  }

  lemma {:induction false} Pow2Add(a: nat, b: nat)
    ensures Pow2(a + b) == Pow2(a) * Pow2(b)
  {
    if a > 0 {
      Pow2Add(a - 1, b);
      assert Pow2(a) * Pow2(b) == 2 * (Pow2(a - 1) * Pow2(b));
    }
  }

  lemma {:induction false} Pow2Mono(a: nat, b: nat)
    requires a <= b
    ensures Pow2(a) <= Pow2(b)
  {
    if a < b {
      Pow2Mono(a, b - 1);
    }
  }

  lemma Pow2Twice(k: nat, v: nat)
    requires Pow2(k) == v
    ensures Pow2(2 * k) == v * v
  {
    Pow2Add(k, k);
  }

  lemma Pow2Of32(n: nat)
    requires n == 32
    ensures Pow2(n) == 0x1_0000_0000
  {
    var k := 4;
    assert Pow2(k) == 16;
    Pow2Twice(k, 16);
    Pow2Twice(2 * k, 0x100);
    Pow2Twice(4 * k, 0x1_0000);
  }

  lemma Pow2Of64(n: nat)
    requires n == 64
    ensures Pow2(n) == 0x1_0000_0000_0000_0000
  {
    var k := 32;
    Pow2Of32(k);
    Pow2Twice(k, 0x1_0000_0000);
  }
}
