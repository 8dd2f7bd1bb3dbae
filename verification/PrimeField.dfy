/** The ring Z/p for p = 2^255 - 19, as congruences between integers. */
module PrimeField {
  const P: int := 0x7fffffffffffffffffffffffffffffffffffffffffffffffffffffffffffffed

  /** a - b is a multiple of p, found out after a countdown from n. */
  ghost predicate MultipleAfter(n: nat, a: int, b: int)
    decreases n
  {
    if n > 0 then MultipleAfter(n - 1, a, b) else (a - b) % P == 0
  }

  /** a and b are the same element of Z/p.  CongIs says what this is.  The length of the countdown is
      left open, so that the verifier does not turn congruences into arithmetic by itself: every
      proof goes through the lemmas below. */
  ghost predicate Cong(a: int, b: int) {
    exists n: nat :: n > 1 && MultipleAfter(n, a, b)
  }

  lemma {:induction false} MultipleAfterIs(n: nat, a: int, b: int)
    ensures MultipleAfter(n, a, b) <==> (a - b) % P == 0
    decreases n
  {
    if n > 0 {
      MultipleAfterIs(n - 1, a, b);
    }
  }

  lemma CongIs(a: int, b: int)
    ensures Cong(a, b) <==> (a - b) % P == 0
  {
    MultipleAfterIs(2, a, b);
    if Cong(a, b) {
      var n: nat :| n > 1 && MultipleAfter(n, a, b);
      MultipleAfterIs(n, a, b);
    }
    assert MultipleAfter(2, a, b) ==> Cong(a, b);
  }

  lemma CongMod(a: int, b: int)
    ensures Cong(a, b) <==> a % P == b % P
  {
    CongIs(a, b);
  }

  lemma CongBy(a: int, b: int, k: int)
    requires a == b + P * k
    ensures Cong(a, b)
  {
    CongIs(a, b);
  }

  lemma Witness(a: int, b: int) returns (k: int)
    requires Cong(a, b)
    ensures a == b + P * k
  {
    CongIs(a, b);
    k := (a - b) / P;
  }

  lemma CongSym(a: int, b: int)
    requires Cong(a, b)
    ensures Cong(b, a)
  {
    var k := Witness(a, b);
    CongBy(b, a, -k);
  }

  lemma CongTrans(a: int, b: int, c: int)
    requires Cong(a, b) && Cong(b, c)
    ensures Cong(a, c)
  {
    var k := Witness(a, b);
    var l := Witness(b, c);
    CongBy(a, c, k + l);
  }

  lemma CongAdd(a: int, b: int, c: int, d: int)
    requires Cong(a, b) && Cong(c, d)
    ensures Cong(a + c, b + d) && Cong(a - c, b - d)
  {
    var k := Witness(a, b);
    var l := Witness(c, d);
    CongBy(a + c, b + d, k + l);
    CongBy(a - c, b - d, k - l);
  }

  lemma CongMul(a: int, b: int, c: int, d: int)
    requires Cong(a, b) && Cong(c, d)
    ensures Cong(a * c, b * d)
  {
    var k := Witness(a, b);
    var l := Witness(c, d);
    assert a * c == b * c + P * (k * c);
    assert b * c == b * d + P * (b * l);
    CongBy(a * c, b * d, k * c + b * l);
  }

  lemma CongScale(c: int, a: int, b: int)
    requires Cong(a, b)
    ensures Cong(c * a, c * b)
  {
    CongBy(c, c, 0);
    CongMul(c, c, a, b);
  }

  lemma ZeroNotUnit(e: int)
    requires e == 1 || e == -1
    ensures !Cong(0, e)
  {
    CongMod(0, e);
  }
}
