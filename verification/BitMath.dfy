/** Shifts and bits of unsigned numbers. */
module BitMath {
  import opened Common

  function Pow2(n: nat): (p: nat)
    ensures p > 0
  {
    if n == 0 then 1 else 2 * Pow2(n - 1)
  }

  /** v without its lower i bits */
  function Upper(v: nat, i: nat): nat {
    if i == 0 then v else Upper(v, i - 1) / 2
  }

  predicate BitOf(v: nat, i: nat) {
    Upper(v, i) % 2 == 1
  }

  lemma NextBit(v: nat, i: nat)
    ensures Upper(v, i) == 2 * Upper(v, i + 1) + Num(BitOf(v, i))
  {
  }

  lemma ShiftedOut(v: nat)
    ensures Upper(v, 16) == v / 0x1_0000
  {
    assert Upper(v, 2) == Upper(v, 0) / 4;
    assert Upper(v, 4) == Upper(v, 2) / 4;
    assert Upper(v, 6) == Upper(v, 4) / 4;
    assert Upper(v, 8) == Upper(v, 6) / 4;
    assert Upper(v, 10) == Upper(v, 8) / 4;
    assert Upper(v, 12) == Upper(v, 10) / 4;
    assert Upper(v, 14) == Upper(v, 12) / 4;
    assert Upper(v, 16) == Upper(v, 14) / 4;
  }
}
