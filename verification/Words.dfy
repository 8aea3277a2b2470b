/** Exclusive or of unsigned words, bit by bit, and the group laws the handshake rests on. */
module Words {
  function Xor(a: nat, b: nat): nat {
    if a == 0 && b == 0 then 0 else (a % 2 + b % 2) % 2 + 2 * Xor(a / 2, b / 2)
  }

  function Power2(k: nat): (p: nat)
    ensures p > 0
  {
    if k == 0 then 1 else 2 * Power2(k - 1)
  }

  lemma {:induction false} Power2Adds(j: nat, k: nat)
    ensures Power2(j + k) == Power2(j) * Power2(k)
  {
    if j > 0 {
      Power2Adds(j - 1, k);
    }
  }

  lemma {:induction false} XorCommutes(a: nat, b: nat)
    ensures Xor(a, b) == Xor(b, a)
  {
    if a != 0 || b != 0 {
      XorCommutes(a / 2, b / 2);
    }
  }

  /** Exclusive or works on the last bits and on the others separately. */
  lemma XorSplit(a: nat, i: nat, b: nat, j: nat)
    requires i < 2 && j < 2
    ensures Xor(2 * a + i, 2 * b + j) == 2 * Xor(a, b) + (i + j) % 2
  {
    assert (2 * a + i) / 2 == a && (2 * a + i) % 2 == i;
    assert (2 * b + j) / 2 == b && (2 * b + j) % 2 == j;
  }

  lemma BitsAssociate(p: nat, q: nat, r: nat)
    requires p < 2 && q < 2 && r < 2
    ensures ((p + q) % 2 + r) % 2 == (p + (q + r) % 2) % 2
  {
  }

  lemma {:induction false} XorAssociates(a: nat, b: nat, c: nat)
    ensures Xor(Xor(a, b), c) == Xor(a, Xor(b, c))
    decreases a + b + c
  {
    if a == 0 && b == 0 && c == 0 {
      assert Xor(0, 0) == 0;
    } else {
      XorAssociates(a / 2, b / 2, c / 2);
      XorAssociatesFrom(a / 2, a % 2, b / 2, b % 2, c / 2, c % 2);
    }
  }

  lemma XorAssociatesFrom(a: nat, i: nat, b: nat, j: nat, c: nat, k: nat)
    requires i < 2 && j < 2 && k < 2 && Xor(Xor(a, b), c) == Xor(a, Xor(b, c))
    ensures Xor(Xor(2 * a + i, 2 * b + j), 2 * c + k) == Xor(2 * a + i, Xor(2 * b + j, 2 * c + k))
  {
    hide Xor;
    XorSplit(a, i, b, j);
    XorSplit(b, j, c, k);
    XorSplit(Xor(a, b), (i + j) % 2, c, k);
    XorSplit(a, i, Xor(b, c), (j + k) % 2);
    BitsAssociate(i, j, k);
  }

  /** Bit k of a word. */
  function Bit(a: nat, k: nat): nat { if k == 0 then a % 2 else Bit(a / 2, k - 1) }

  lemma XorHalf(a: nat, b: nat)
    ensures Xor(a, b) / 2 == Xor(a / 2, b / 2) && Xor(a, b) % 2 == (a % 2 + b % 2) % 2
  {
  }

  /** Exclusive or is set in the bits in which the words differ, and in no others. */
  lemma {:induction false} XorBits(a: nat, b: nat, k: nat)
    ensures Bit(Xor(a, b), k) == if Bit(a, k) == Bit(b, k) then 0 else 1
    decreases k
  {
    hide Xor;
    XorHalf(a, b);
    if k > 0 {
      XorBits(a / 2, b / 2, k - 1);
    } else {
      assert a % 2 < 2 && b % 2 < 2;
    }
  }

  lemma {:induction false} XorSelf(a: nat)
    ensures Xor(a, a) == 0 && Xor(0, a) == a && Xor(a, 0) == a
  {
    if a != 0 {
      XorSelf(a / 2);
    }
  }

  lemma {:induction false} XorBound(a: nat, b: nat, k: nat)
    requires a < Power2(k) && b < Power2(k)
    ensures Xor(a, b) < Power2(k)
  {
    if k > 0 && (a != 0 || b != 0) {
      XorBound(a / 2, b / 2, k - 1);
    }
  }

  /** The same word twice cancels, from the left. */
  lemma XorCancels(a: nat, b: nat)
    ensures Xor(a, Xor(a, b)) == b
  {
    XorAssociates(a, a, b);
    XorSelf(a);
    XorSelf(b);
  }

  lemma XorMiddle(a: nat, b: nat, c: nat)
    ensures Xor(Xor(a, b), Xor(b, c)) == Xor(a, c)
  {
    XorAssociates(a, b, Xor(b, c));
    XorCancels(b, c);
  }

  lemma XorZero(a: nat, b: nat)
    ensures Xor(a, b) == 0 <==> a == b
  {
    XorCancels(a, b);
    XorSelf(a);
  }

  lemma HalfThenQuotient(a: nat, p: nat)
    requires p > 0
    ensures a / 2 / p == a / (2 * p)
  {
    var q := a / (2 * p);
    assert a == 2 * p * q + a % (2 * p);
    assert p * q <= a / 2 < p * q + p;
    QuotientIs(a / 2, p, q);
  }

  lemma QuotientIs(a: nat, p: nat, q: nat)
    requires p > 0 && p * q <= a < p * q + p
    ensures a / p == q
  {
    var d := a / p;
    assert a == p * d + a % p;
    assert d < q ==> p * (d + 1) <= p * q;
    assert d > q ==> p * (q + 1) <= p * d;
  }

  /** The result fits k bits exactly when the words agree above them. */
  lemma {:induction false} XorFits(a: nat, b: nat, k: nat)
    ensures Xor(a, b) < Power2(k) <==> a / Power2(k) == b / Power2(k)
    decreases k
  {
    if k == 0 {
      XorZero(a, b);
    } else {
      XorFits(a / 2, b / 2, k - 1);
      HalfThenQuotient(a, Power2(k - 1));
      HalfThenQuotient(b, Power2(k - 1));
      assert Xor(a, b) / 2 == Xor(a / 2, b / 2);
    }
  }
}
