/** The height arithmetic of the skip list and of block locators (src/chain.cpp:25-51, 72-85). */
module SkipHeight {
  import opened Powers

  function BitAnd(x: nat, y: nat): nat {
    if x == 0 || y == 0 then 0 else 2 * BitAnd(x / 2, y / 2) + if x % 2 == 1 && y % 2 == 1 then 1 else 0
  }

  /** `n & (n - 1)`; for 0 the other operand is -1, which keeps 0. */
  function InvertLowestOne(n: nat): nat {
    if n == 0 then 0 else BitAnd(n, n - 1)
  }

  /** The lowest set bit of a positive number, as a number. */
  function LowestOne(n: nat): (p: nat)
    requires n > 0
    ensures 1 <= p <= n
  {
    if n % 2 == 1 then 1 else 2 * LowestOne(n / 2)
  }

  lemma {:induction false} AndSelf(x: nat)
    ensures BitAnd(x, x) == x
  {
    if x > 0 {
      AndSelf(x / 2);
    }
  }

  /** The trick clears the lowest set bit and nothing else. */
  lemma {:induction false} ClearsLowestOne(n: nat)
    requires n > 0
    ensures InvertLowestOne(n) == n - LowestOne(n)
  {
    if n % 2 == 1 {
      AndSelf(n / 2);
      assert (n - 1) / 2 == n / 2;
    } else {
      ClearsLowestOne(n / 2);
      assert (n - 1) / 2 == n / 2 - 1;
    }
  }

  function GetSkipHeight(height: nat): nat {
    if height < 2 then 0
    else if height % 2 == 1 then InvertLowestOne(InvertLowestOne(height - 1)) + 1
    else InvertLowestOne(height)
  }

  /** A skip always goes back, and never below the genesis block. */
  lemma SkipGoesBack(height: nat)
    requires height > 0
    ensures GetSkipHeight(height) < height
  {
    if height >= 2 {
      if height % 2 == 1 {
        ClearsLowestOne(height - 1);
        var n := InvertLowestOne(height - 1);
        if n > 0 {
          ClearsLowestOne(n);
        }
      } else {
        ClearsLowestOne(height);
      }
    }
  }

  // ----- locators -----

  /** How far entry `i` of a locator lies behind the first: by single steps, then by doubling ones. */
  function Back(i: nat): nat {
    if i <= 10 then i else 9 + Pow2(i - 10)
  }

  function LocatorHeight(top: nat, i: nat): nat {
    if Back(i) < top then top - Back(i) else 0
  }

  function StepAt(i: nat): nat {
    if i < 10 then 1 else Pow2(i - 10)
  }

  lemma BackStep(i: nat)
    ensures Back(i + 1) == Back(i) + StepAt(i) && StepAt(i) >= 1
    ensures StepAt(i + 1) == if i + 1 > 10 then 2 * StepAt(i) else StepAt(i)
  {
  }

  /** Entries strictly descend until the genesis block. */
  lemma LocatorDescends(top: nat, i: nat)
    requires LocatorHeight(top, i) > 0
    ensures LocatorHeight(top, i + 1) < LocatorHeight(top, i)
  {
    BackStep(i);
  }

  /** With 2^k at least the height, entry 11 + k is the genesis block at the latest. */
  lemma LocatorIsShort(top: nat, k: nat)
    requires Pow2(k) >= top
    ensures LocatorHeight(top, 11 + k) == 0
  {
    assert Back(11 + k) == 9 + Pow2(k + 1);
  }
}
