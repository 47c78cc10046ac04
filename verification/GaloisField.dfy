/** The field GF(256): its product is bilinear, and multiplying through the tables is that product. */
module GaloisField {
  import opened GaloisTables

  /** Addition and subtraction: exclusive or. */
  function Add(a: bv8, b: bv8): bv8 {
    a ^ b
  }

  lemma AddLaws(a: bv8, b: bv8, c: bv8)
    ensures Add(Add(a, b), c) == Add(a, Add(b, c))
    ensures Add(a, b) == Add(b, a)
    ensures Add(a, 0) == a && Add(a, a) == 0
  {
  }

  /** Regroups a sum of four. */
  lemma AddFour(a: bv8, b: bv8, c: bv8, d: bv8)
    ensures Add(Add(a, b), Add(c, d)) == Add(Add(a, c), Add(b, d))
  {
    AddLaws(a, b, Add(c, d));
    AddLaws(b, c, d);
    AddLaws(c, b, d);
    AddLaws(a, c, Add(b, d));
    hide Add;
  }

  // ---- Powers of x ----

  /** a * x^n */
  function TimesPower(a: bv8, n: nat): bv8
    decreases n
  {
    if n == 0 then a else TimesPower(Xtime(a), n - 1)
  }

  lemma XtimeAdds(a: bv8, b: bv8)
    ensures Xtime(Add(a, b)) == Add(Xtime(a), Xtime(b))
  {
    assert (a ^ b) & 0x80 == (a & 0x80) ^ (b & 0x80);
    assert (a ^ b) << 1 == (a << 1) ^ (b << 1);
    if a & 0x80 != 0 {
      if b & 0x80 != 0 {} else {}
    } else {
      if b & 0x80 != 0 {} else {}
    }
  }

  lemma TimesPowerUnfold(a: bv8, n: nat)
    ensures TimesPower(a, n) == if n == 0 then a else TimesPower(Xtime(a), n - 1)
  {
  }

  lemma {:induction false} TimesPowerAdds(a: bv8, b: bv8, n: nat)
    ensures TimesPower(Add(a, b), n) == Add(TimesPower(a, n), TimesPower(b, n))
    decreases n
  {
    hide *;
    TimesPowerUnfold(a, n);
    TimesPowerUnfold(b, n);
    TimesPowerUnfold(Add(a, b), n);
    if n > 0 {
      XtimeAdds(a, b);
      TimesPowerAdds(Xtime(a), Xtime(b), n - 1);
    }
  }

  lemma {:induction false} TimesPowerOfZero(n: nat)
    ensures TimesPower(0, n) == 0
  {
    assert Add(0, 0) == 0 && Add(TimesPower(0, n), TimesPower(0, n)) == 0 by {
      AddLaws(TimesPower(0, n), 0, 0);
    }
    hide *;
    TimesPowerAdds(0, 0, n);
  }

  lemma {:induction false} TimesPowerTwice(a: bv8, m: nat, n: nat)
    ensures TimesPower(TimesPower(a, m), n) == TimesPower(a, m + n)
    decreases m
  {
    hide Xtime;
    if m > 0 {
      TimesPowerTwice(Xtime(a), m - 1, n);
    }
  }

  lemma TimesPowersCommute(a: bv8, m: nat, n: nat)
    ensures TimesPower(TimesPower(a, m), n) == TimesPower(TimesPower(a, n), m)
  {
    hide *;
    TimesPowerTwice(a, m, n);
    TimesPowerTwice(a, n, m);
  }

  lemma {:induction false} ExpIsPower(k: nat)
    requires k <= 255
    ensures Exp(k) == TimesPower(1, k)
  {
    if k > 0 {
      ExpIsPower(k - 1);
      ExpStep(k - 1);
      hide Xtime, Exp;
      TimesPowerTwice(1, k - 1, 1);
      assert TimesPower(Exp(k - 1), 1) == Xtime(Exp(k - 1));
    }
  }

  lemma PowerPeriod(n: nat)
    ensures TimesPower(1, n + 255) == TimesPower(1, n)
  {
    ExpIsPower(255);
    assert Exp(255) == 1;
    hide *;
    TimesPowerTwice(1, 255, n);
  }

  // ---- The field product ----

  /** a * b: a is x to the power of its logarithm. */
  function Mul(a: bv8, b: bv8): bv8 {
    if a == 0 then 0 else TimesPower(b, Log(a))
  }

  /** Multiplying through the tables, as the encoder does, is the field product. */
  lemma TableProduct(c: bv8, g: nat)
    requires c != 0 && g < 256
    ensures Log(c) < 255 && Exp((g + Log(c)) % 255) == Mul(c, Exp(g))
  {
    hide Add, Xtime, TimesPower, Exp, Log;
    LogInverse(c);
    var e := Log(c);
    var s := g + e;
    ExpIsPower(g);
    ExpIsPower(s % 255);
    if s >= 255 { PowerPeriod(s - 255); }
    assert s % 255 == if s >= 255 then s - 255 else s;
    TimesPowerTwice(1, g, e);
  }

  lemma MulAddsRight(a: bv8, b: bv8, c: bv8)
    ensures Mul(a, Add(b, c)) == Add(Mul(a, b), Mul(a, c))
  {
    AddLaws(0, 0, 0);
    hide Add, Xtime, TimesPower, Log, Exp;
    if a != 0 {
      TimesPowerAdds(b, c, Log(a));
    }
  }

  lemma MulTimesPower(a: bv8, b: bv8, n: nat)
    ensures Mul(a, TimesPower(b, n)) == TimesPower(Mul(a, b), n)
  {
    hide Add, Xtime, TimesPower, Log, Exp;
    if a == 0 {
      TimesPowerOfZero(n);
    } else {
      TimesPowersCommute(b, n, Log(a));
    }
  }

  lemma MulCommutes(a: bv8, b: bv8)
    ensures Mul(a, b) == Mul(b, a)
  {
    if a == 0 || b == 0 {
      hide Add, Xtime, TimesPower, Log, Exp;
      TimesPowerOfZero(if a == 0 then Log(b) else Log(a));
    } else {
      LogInverse(a);
      LogInverse(b);
      ExpIsPower(Log(a));
      ExpIsPower(Log(b));
      hide Add, Xtime, TimesPower, Log, Exp;
      TimesPowersCommute(1, Log(a), Log(b));
    }
  }

  /** The product is bilinear with unit 1, and multiplying by 2 is Xtime: this is the multiplication of GF(256). */
  lemma MulIsFieldProduct(a: bv8, b: bv8, c: bv8)
    ensures Mul(Add(a, b), c) == Add(Mul(a, c), Mul(b, c))
    ensures Mul(1, a) == a && Mul(a, 1) == a
    ensures Mul(2, a) == Xtime(a)
    ensures Mul(a, 0) == 0 && Mul(0, a) == 0
  {
    assert Log(1) == 0 && Log(2) == 1;
    assert Mul(1, a) == a && Mul(2, a) == Xtime(a);
    hide Add, Xtime, TimesPower, Log, Exp;
    MulCommutes(a, 1);
    MulCommutes(a, 0);
    MulCommutes(Add(a, b), c);
    MulCommutes(a, c);
    MulCommutes(b, c);
    MulAddsRight(c, a, b);
  }
}
