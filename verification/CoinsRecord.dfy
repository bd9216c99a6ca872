/** The pruned transaction record `CCoins` (src/coins.h): metadata plus the outputs still unspent. */
module CoinsRecord {
  import opened Options
  import opened Slices

  type Script = seq<Byte>

  datatype TxOut = TxOut(nValue: int, scriptPubKey: Script) {
    predicate IsNull() { nValue == -1 }
  }

  const NULL_OUT := TxOut(-1, [])

  datatype Coins = Coins(fCoinBase: bool, vout: seq<TxOut>, nHeight: int, nVersion: int) {
    predicate IsPruned() { forall out | out in vout :: out.IsNull() }

    predicate IsAvailable(nPos: nat) { nPos < |vout| && !vout[nPos].IsNull() }

    /** No spent output is left at the end of `vout`. */
    predicate IsClean() { vout == [] || !vout[|vout| - 1].IsNull() }
  }

  const EMPTY_COINS := Coins(false, [], 0, 0)

  /** What a reader may rely on: a pruned record counts as no record. */
  function Live(c: Coins): Option<Coins> {
    if c.IsPruned() then None else Some(c)
  }

  function TrimNulls(vout: seq<TxOut>): (r: seq<TxOut>)
    ensures r <= vout
    ensures r == [] || !r[|r| - 1].IsNull()
    ensures forall i | |r| <= i < |vout| :: vout[i].IsNull()
  {
    if vout == [] || !vout[|vout| - 1].IsNull() then vout
    else
      var r := TrimNulls(vout[..|vout| - 1]);
      r
  }

  function Cleaned(c: Coins): (r: Coins)
    ensures r.IsClean()
    ensures r == c.(vout := r.vout)
    ensures forall n: nat :: r.IsAvailable(n) <==> c.IsAvailable(n)
    ensures forall n: nat | r.IsAvailable(n) :: c.IsAvailable(n) && r.vout[n] == c.vout[n]
    ensures r.IsPruned() <==> c.IsPruned()
    ensures r.IsPruned() <==> r.vout == []
  {
    var r := c.(vout := TrimNulls(c.vout));
    assert r.IsPruned() ==> r.vout == [] by { if r.vout != [] { assert r.vout[|r.vout| - 1] in r.vout; } }
    assert r.IsPruned() ==> c.IsPruned() by {
      if r.vout == [] {
        forall out | out in c.vout ensures out.IsNull() {
          var i :| 0 <= i < |c.vout| && c.vout[i] == out;
        }
      }
    }
    r
  }

  /** The pop-back loop of `CCoins::Cleanup`. */
  method Cleanup(c: Coins) returns (r: Coins)
    ensures r == Cleaned(c)
  {
    var vout := c.vout;
    while |vout| > 0 && vout[|vout| - 1].IsNull()
      invariant TrimNulls(vout) == TrimNulls(c.vout)
      decreases |vout|
    {
      vout := vout[..|vout| - 1];
    }
    r := c.(vout := vout);
  }

  /** `CCoins::Spend`: exactly output `nPos` stops being available, and only if it was. */
  function Spend(c: Coins, nPos: nat): (r: (Coins, bool))
    ensures r.1 <==> c.IsAvailable(nPos)
    ensures !r.1 ==> r.0 == c
    ensures r.1 ==> forall n: nat :: r.0.IsAvailable(n) <==> c.IsAvailable(n) && n != nPos
    ensures forall n: nat | r.0.IsAvailable(n) :: n < |c.vout| && r.0.vout[n] == c.vout[n]
    ensures r.1 ==> r.0.IsClean()
  {
    if !c.IsAvailable(nPos) then (c, false)
    else
      (Cleaned(c.(vout := c.vout[nPos := NULL_OUT])), true)
  }
}
