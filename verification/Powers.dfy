/** Powers of natural numbers. */
module Powers {

  function Pow(b: nat, n: nat): nat {
    if n == 0 then 1 else b * Pow(b, n - 1)
  }

  lemma {:induction false} PowAdd(b: nat, m: nat, n: nat)
    ensures Pow(b, m + n) == Pow(b, m) * Pow(b, n)
  {
    if m > 0 {
      PowAdd(b, m - 1, n);
      calc {
        Pow(b, m + n);
        b * Pow(b, m - 1 + n);
        b * (Pow(b, m - 1) * Pow(b, n));
        (b * Pow(b, m - 1)) * Pow(b, n);
      }
    }
  }

  lemma {:induction false} PowPositive(b: nat, n: nat)
    requires b > 0
    ensures Pow(b, n) > 0
  {
    if n > 0 {
      PowPositive(b, n - 1);
    }
  }

  lemma Pow1(b: nat)
    ensures Pow(b, 1) == b
  {
    assert Pow(b, 0) == 1;
  }

  /** 2 to the 63 and 10 to the 19. */
  lemma LargePowers()
    ensures Pow(2, 63) == 0x8000_0000_0000_0000
    ensures Pow(10, 19) == 10_000_000_000_000_000_000
  {
    Pow1(2);
    PowAdd(2, 1, 1);
    PowAdd(2, 2, 1);
    PowAdd(2, 3, 3);
    PowAdd(2, 6, 1);
    PowAdd(2, 7, 7);
    PowAdd(2, 14, 1);
    PowAdd(2, 15, 15);
    PowAdd(2, 30, 1);
    PowAdd(2, 31, 31);
    PowAdd(2, 62, 1);
    Pow1(10);
    PowAdd(10, 1, 1);
    PowAdd(10, 2, 2);
    PowAdd(10, 4, 4);
    PowAdd(10, 8, 8);
    PowAdd(10, 16, 2);
    PowAdd(10, 18, 1);
  }
}
