/**
 Error correction (ISO/IEC 18004:2015, section 7.5): the shift register of the encoder is long division by the
 generator polynomial, so every block with its error-correction words is a codeword. Polynomials are listed with
 the highest power first.
 */
module ReedSolomon {
  import opened GaloisTables
  import opened GaloisField
  import opened VersionTable

  type Poly = seq<bv8>

  function Coef(p: Poly, i: int): bv8 {
    if 0 <= i < |p| then p[i] else 0
  }

  predicate IsGenerator(g: seq<nat>) {
    forall i :: 0 <= i < |g| ==> g[i] < 256
  }

  /** The monic polynomial whose further coefficients are given as exponents. */
  function Monic(g: seq<nat>): (p: Poly)
    requires IsGenerator(g)
    ensures |p| == |g| + 1 && p[0] == 1
  {
    [1] + seq(|g|, i requires 0 <= i < |g| => Exp(g[i]))
  }

  /** Coefficient i of q * p. */
  function ProductCoef(q: Poly, p: Poly, i: int): bv8 {
    if q == [] then 0
    else Add(ProductCoef(q[..|q| - 1], p, i), Mul(q[|q| - 1], Coef(p, i - (|q| - 1))))
  }

  function Product(q: Poly, p: Poly): (r: Poly)
    requires |p| > 0
  {
    seq(|q| + |p| - 1, i => ProductCoef(q, p, i))
  }

  lemma {:induction false} ProductCoefBeyond(q: Poly, p: Poly, i: int)
    requires |p| > 0 && i >= |q| + |p| - 1
    ensures ProductCoef(q, p, i) == 0
  {
    if q != [] {
      MulIsFieldProduct(q[|q| - 1], 0, 0);
      AddLaws(0, 0, 0);
      hide Add, Mul;
      ProductCoefBeyond(q[..|q| - 1], p, i);
    }
  }

  lemma ProductCoefAppend(q: Poly, c: bv8, p: Poly, i: int)
    ensures ProductCoef(q + [c], p, i) == Add(ProductCoef(q, p, i), Mul(c, Coef(p, i - |q|)))
  {
    hide Add, Mul;
    assert (q + [c])[..|q|] == q;
  }

  lemma NothingTaken(p: Poly, i: int)
    ensures ProductCoef([], p, i) == 0
  {
  }

  // ---- Long division ----

  /** After |q| rounds the register holds what is left of the data once q times the generator is taken away. */
  ghost predicate Divided(data: Poly, p: Poly, q: Poly, register: Poly) {
    && (forall i :: 0 <= i < |q| ==> Coef(data, i) == ProductCoef(q, p, i))
    && (forall i :: 0 <= i < |register| ==> register[i] == Add(Coef(data, |q| + i), ProductCoef(q, p, |q| + i)))
  }

  lemma NextQuotientCoef(data: Poly, p: Poly, q: Poly, c: bv8)
    requires |p| > 0 && p[0] == 1
    requires c == Add(Coef(data, |q|), ProductCoef(q, p, |q|))
    ensures Coef(data, |q|) == ProductCoef(q + [c], p, |q|)
  {
    hide Add, Mul, ProductCoef;
    var k := |q|;
    ProductCoefAppend(q, c, p, k);
    MulIsFieldProduct(c, 0, 0);
    AddLaws(Coef(data, k), ProductCoef(q, p, k), ProductCoef(q, p, k));
    AddLaws(Coef(data, k), 0, 0);
    AddLaws(ProductCoef(q, p, k), c, 0);
  }

  lemma NextRegisterCoef(data: Poly, p: Poly, q: Poly, c: bv8, i: nat, shifted: bv8)
    requires shifted == Add(Coef(data, |q| + 1 + i), ProductCoef(q, p, |q| + 1 + i))
    ensures Add(shifted, Mul(c, Coef(p, i + 1))) == Add(Coef(data, |q| + 1 + i), ProductCoef(q + [c], p, |q| + 1 + i))
  {
    hide Add, Mul, ProductCoef;
    var j := |q| + 1 + i;
    ProductCoefAppend(q, c, p, j);
    AddLaws(Coef(data, j), ProductCoef(q, p, j), Mul(c, Coef(p, i + 1)));
  }

  /** One round: shift, and take the leading coefficient times the generator away. */
  lemma Round(data: Poly, g: seq<nat>, q: Poly, r: Poly, s: Poly)
    requires IsGenerator(g) && |data| <= |r| && |g| < |r| && |s| == |r|
    requires Divided(data, Monic(g), q, r)
    requires forall i :: 0 <= i < |r| ==>
               s[i] == Add(if i + 1 < |r| then r[i + 1] else 0, if i < |g| then Mul(r[0], Exp(g[i])) else 0)
    ensures Divided(data, Monic(g), q + [r[0]], s)
  {
    hide Add, Mul, Exp, ProductCoef;
    var p, c, q', k := Monic(g), r[0], q + [r[0]], |q|;
    forall i | 0 <= i < |q'| ensures Coef(data, i) == ProductCoef(q', p, i) {
      if i < k {
        ProductCoefAppend(q, c, p, i);
        MulIsFieldProduct(c, 0, 0);
        AddLaws(ProductCoef(q, p, i), 0, 0);
      } else {
        NextQuotientCoef(data, p, q, c);
      }
    }
    forall i | 0 <= i < |s| ensures s[i] == Add(Coef(data, |q'| + i), ProductCoef(q', p, |q'| + i)) {
      var shifted := if i + 1 < |r| then r[i + 1] else 0;
      if i + 1 == |r| {
        ProductCoefBeyond(q, p, k + 1 + i);
        AddLaws(0, 0, 0);
      }
      NextRegisterCoef(data, p, q, c, i, shifted);
      MulIsFieldProduct(c, 0, 0);
    }
  }

  /** Data followed by error-correction words is a multiple of the generator. */
  ghost predicate IsCodeword(data: Poly, ec: Poly, p: Poly) {
    exists q: Poly :: |q| == |data| && |p| == |ec| + 1 && data + ec == Product(q, p)
  }

  lemma DividedIsCodeword(data: Poly, g: seq<nat>, q: Poly, r: Poly)
    requires IsGenerator(g) && |q| == |data| && |g| <= |r|
    requires Divided(data, Monic(g), q, r)
    ensures IsCodeword(data, r[..|g|], Monic(g))
  {
    hide Add, Mul, Exp, ProductCoef;
    var p, ec := Monic(g), r[..|g|];
    forall i | 0 <= i < |data| + |g| ensures (data + ec)[i] == ProductCoef(q, p, i) {
      if i >= |data| {
        AddLaws(0, ProductCoef(q, p, i), 0);
        AddLaws(ProductCoef(q, p, i), 0, 0);
        assert (data + ec)[i] == r[i - |data|];
      }
    }
    assert data + ec == Product(q, p);
  }

  /** The error-correction words of one block (qr.c computes them in a scratch register of 123 bytes). */
  method DivideBlock(data: Poly, g: seq<nat>) returns (ec: Poly)
    requires |data| <= MAX_BLOCK_DATA && |g| <= MAX_BLOCK_EC && IsGenerator(g)
    ensures |ec| == |g| && IsCodeword(data, ec, Monic(g))
  {
    hide Add, Mul, Exp, ProductCoef;
    var rswork := new bv8[MAX_BLOCK_DATA](_ => 0);
    for i := 0 to |data|
      invariant forall j :: 0 <= j < MAX_BLOCK_DATA ==> rswork[j] == if j < i then data[j] else 0
    {
      rswork[i] := data[i];
    }
    ghost var q: Poly := [];
    assert Divided(data, Monic(g), q, rswork[..]) by {
      forall i | 0 <= i < MAX_BLOCK_DATA
        ensures rswork[..][i] == Add(Coef(data, i), ProductCoef(q, Monic(g), i))
      {
        AddLaws(rswork[i], 0, 0);
        NothingTaken(Monic(g), i);
      }
    }
    for k := 0 to |data|
      invariant |q| == k && Divided(data, Monic(g), q, rswork[..])
    {
      ghost var r := rswork[..];
      var lead := rswork[0];
      ShiftLeft(rswork);
      if lead != 0 {
        SubtractMultiple(rswork, lead, g);
      }
      forall i | 0 <= i < |r|
        ensures rswork[i] == Add(if i + 1 < |r| then r[i + 1] else 0, if i < |g| then Mul(lead, Exp(g[i])) else 0)
      {
        AddLaws(if i + 1 < |r| then r[i + 1] else 0, 0, 0);
        MulIsFieldProduct(if i < |g| then Exp(g[i]) else 0, 0, 0);
      }
      Round(data, g, q, r, rswork[..]);
      q := q + [lead];
    }
    ec := rswork[..|g|];
    DividedIsCodeword(data, g, q, rswork[..]);
    assert rswork[..][..|g|] == ec;
  }

  method ShiftLeft(rswork: array<bv8>)
    requires rswork.Length > 0
    modifies rswork
    ensures forall i :: 0 <= i < rswork.Length ==>
              rswork[i] == if i + 1 < rswork.Length then old(rswork[i + 1]) else 0
  {
    for m := 0 to rswork.Length - 1
      invariant forall i :: 0 <= i < m ==> rswork[i] == old(rswork[i + 1])
      invariant forall i :: m <= i < rswork.Length ==> rswork[i] == old(rswork[i])
    {
      rswork[m] := rswork[m + 1];
    }
    rswork[rswork.Length - 1] := 0;
  }

  /** Multiplies the generator by a non-zero coefficient through the tables, and takes it away. */
  method SubtractMultiple(rswork: array<bv8>, lead: bv8, g: seq<nat>)
    requires lead != 0 && |g| <= rswork.Length && IsGenerator(g)
    modifies rswork
    ensures forall i :: 0 <= i < rswork.Length ==>
              rswork[i] == if i < |g| then Add(old(rswork[i]), Mul(lead, Exp(g[i]))) else old(rswork[i])
  {
    hide Add, Mul, Exp, Log;
    LogInverse(lead);
    var e := Log(lead);
    for m := 0 to |g|
      invariant forall i :: 0 <= i < rswork.Length ==>
        rswork[i] == if i < m then Add(old(rswork[i]), Mul(lead, Exp(g[i]))) else old(rswork[i])
    {
      TableProduct(lead, g[m]);
      rswork[m] := Add(rswork[m], Exp((g[m] + e) % 255));
    }
  }
}
