/**
 Multiplier operands of a QL_DSP4: stripping the extension the RTL wrote,
 assigning the operands to the 32- and 18-bit ports, and re-extending them.
 */
module Operand {
  import opened Bits

  const A_WIDTH: nat := 32
  const B_WIDTH: nat := 18
  const C_WIDTH: nat := 50
  const P_WIDTH: nat := 50
  const D_WIDTH: nat := 27

  /** A signal together with the signedness it is read with. */
  datatype Operand = Operand(sig: Sig, signed: bool) {
    function Value(e: Env): int {
      IVal(Eval(sig, e), signed)
    }
  }

  function StripZeros(s: Sig): (r: Sig)
    ensures |r| <= |s|
  {
    if |s| > 1 && s[|s| - 1] == Const(false) then StripZeros(s[..|s| - 1]) else s
  }

  function StripCopies(s: Sig): (r: Sig)
    ensures |r| <= |s|
  {
    if |s| > 1 && s[|s| - 2] == s[|s| - 1] then StripCopies(s[..|s| - 1]) else s
  }

  function Stripped(o: Operand): Operand {
    var s, n := o.sig, |o.sig|;
    if n < 2 then o
    else if s[n - 1] == Const(false) then Operand(StripZeros(s), false)
    else if s[n - 1].Const? then o
    else Operand(StripCopies(s), o.signed)
  }

  method StripExtension(sig: Sig, isSigned: bool) returns (r: Sig, signed: bool)
    ensures Operand(r, signed) == Stripped(Operand(sig, isSigned))
  {
    var n := |sig|;
    signed := isSigned;
    if n < 2 {
      return sig, signed;
    }
    if sig[n - 1] == Const(false) {
      var i := n - 1;
      assert sig[..n] == sig;
      while i > 0 && sig[i] == Const(false)
        invariant 0 <= i < n
        invariant StripZeros(sig[..i + 1]) == StripZeros(sig)
      {
        assert sig[..i + 1][..i] == sig[..i];
        i := i - 1;
      }
      return sig[..i + 1], false;
    }
    var top := sig[n - 1];
    if top.Const? {
      return sig, signed;
    }
    var i := n - 2;
    assert sig[..n] == sig;
    while i >= 0 && sig[i] == top
      invariant -1 <= i <= n - 2 && sig[i + 1] == top
      invariant StripCopies(sig[..i + 2]) == StripCopies(sig)
    {
      assert sig[..i + 2][..i + 1] == sig[..i + 1];
      i := i - 1;
    }
    if i + 2 < n {
      return sig[..i + 2], signed;
    }
    return sig, signed;
  }

  lemma {:induction false} StripZerosValue(s: Sig, e: Env)
    ensures UVal(Eval(StripZeros(s), e)) == UVal(Eval(s, e))
  {
    if |s| > 1 && s[|s| - 1] == Const(false) {
      var n := |s| - 1;
      assert Eval(s, e)[..n] == Eval(s[..n], e);
      StripZerosValue(s[..n], e);
    }
  }

  lemma {:induction false} StripCopiesValue(s: Sig, e: Env)
    ensures SVal(Eval(StripCopies(s), e)) == SVal(Eval(s, e))
  {
    if |s| > 1 && s[|s| - 2] == s[|s| - 1] {
      var n := |s| - 1;
      var v := Eval(s, e);
      assert v[..n] == Eval(s[..n], e);
      assert v[n] == v[..n][n - 1];
      StripCopiesValue(s[..n], e);
    }
  }

  /** The shape `dspv4_strip_extension` takes for a sign extension. */
  predicate RepeatedTop(s: Sig) {
    |s| >= 2 && s[|s| - 1].Wire? && s[|s| - 2] == s[|s| - 1]
  }

  lemma {:induction false} ZerosShape(s: Sig)
    ensures StripZeros(s) <= s && (s != [] ==> StripZeros(s) != [])
    ensures forall i :: |StripZeros(s)| <= i < |s| ==> s[i] == Const(false)
    ensures |StripZeros(s)| > 1 ==> StripZeros(s)[|StripZeros(s)| - 1] != Const(false)
  {
    if |s| > 1 && s[|s| - 1] == Const(false) { ZerosShape(s[..|s| - 1]); }
  }

  /** A prefix, all above it copies of its top bit, and no copy left under that. */
  lemma {:induction false} CopiesShape(s: Sig)
    ensures var r := StripCopies(s);
      && r <= s && (s != [] ==> r != []) && (forall i :: |r| <= i < |s| ==> s[i] == r[|r| - 1])
      && (|r| > 1 ==> r[|r| - 2] != r[|r| - 1])
  {
    if |s| > 1 && s[|s| - 2] == s[|s| - 1] { CopiesShape(s[..|s| - 1]); }
  }

  /** What is stripped is padding, and no padding is left. */
  lemma StripShape(o: Operand)
    ensures var r, s := Stripped(o).sig, o.sig;
      && r <= s && (s != [] ==> r != [])
      && (forall i :: |r| <= i < |s| ==> s[i] == s[|s| - 1] && s[i] != Const(true))
      && (|s| >= 2 && s[|s| - 1] == Const(false) ==> !Stripped(o).signed && (|r| == 1 || r[|r| - 1] != Const(false)))
      && (|s| < 2 || s[|s| - 1] != Const(false) ==> Stripped(o).signed == o.signed)
      && (|s| >= 2 && s[|s| - 1].Wire? ==> r[|r| - 1] == s[|s| - 1] && (|r| == 1 || r[|r| - 2] != r[|r| - 1]))
  {
    ZerosShape(o.sig);
    CopiesShape(o.sig);
  }

  /** Stripping changes how the operand is written, not what it is worth. */
  lemma StripKeepsValue(o: Operand, e: Env)
    requires o.signed || !RepeatedTop(o.sig)
    ensures Stripped(o).Value(e) == o.Value(e)
  {
    var s, n := o.sig, |o.sig|;
    if n >= 2 {
      if s[n - 1] == Const(false) {
        StripZerosValue(s, e);
        assert !Eval(s, e)[n - 1];
      } else if s[n - 1].Wire? {
        StripCopiesValue(s, e);
      }
    }
  }

  predicate Fits(width: int, signed: bool, port: int) {
    width <= if signed then port else port - 1
  }

  /** Fitting is needed and enough: a port reads every value of a width as it is, or it does not fit. */
  lemma FitsIff(width: nat, signed: bool, port: nat)
    requires width > 0 && port > 0
    ensures Fits(width, signed, port) <==>
      forall v: seq<bool> :: |v| == width ==> SVal(ExtendBits(v, port, signed)) == IVal(v, signed)
  {
    hide Pow2, UVal;
    if Fits(width, signed, port) {
      forall v: seq<bool> | |v| == width ensures SVal(ExtendBits(v, port, signed)) == IVal(v, signed) {
        WidenKeepsValue(v, port, signed);
      }
    } else {
      var v := Repeat(false, width)[port - 1 := true];
      SValRange(v[..port]);
      assert v[..port][port - 1];
    }
  }

  /** What reaches a multiplier port: the stripped operand, extended to the port. */
  function AtPort(o: Operand, port: nat): Sig {
    ExtendU0(Stripped(o).sig, port, Stripped(o).signed)
  }

  /** The signed multiplier reads the port as the operand's own value. */
  lemma PortExact(o: Operand, port: nat, e: Env)
    requires Fits(|o.sig|, o.signed, port)
    requires o.signed || !RepeatedTop(o.sig)
    ensures |AtPort(o, port)| == port
    ensures SVal(Eval(AtPort(o, port), e)) == o.Value(e)
  {
    hide UVal, Pow2, StripCopies, Eval;
    var p := Stripped(o);
    StripKeepsValue(o, e);
    EvalExtend(p.sig, port, p.signed, e);
    WidenKeepsValue(Eval(p.sig, e), port, p.signed);
  }

  lemma {:induction false} StripCopiesTop(s: Sig)
    requires |s| > 0
    ensures |StripCopies(s)| > 0 && StripCopies(s)[|StripCopies(s)| - 1] == s[|s| - 1]
  {
    if |s| > 1 && s[|s| - 2] == s[|s| - 1] { StripCopiesTop(s[..|s| - 1]); }
  }

  /**
   The strip does not look at the signedness before dropping copies of the top
   bit, so an unsigned `{x, x}` loses value. Among operands the capacity test
   accepts, that is the only way placement is wrong.
   */
  lemma PortExactIff(o: Operand, port: nat)
    requires Fits(|o.sig|, o.signed, port)
    ensures (forall e: Env :: SVal(Eval(AtPort(o, port), e)) == o.Value(e))
        <==> o.signed || !RepeatedTop(o.sig)
  {
    if o.signed || !RepeatedTop(o.sig) {
      forall e: Env ensures SVal(Eval(AtPort(o, port), e)) == o.Value(e) {
        PortExact(o, port, e);
      }
    } else {
      var e: Env := _ => true;
      var s, n, r := o.sig, |o.sig|, StripCopies(o.sig);
      StripCopiesTop(s);
      assert |r| <= n - 1;
      EvalExtend(r, port, false, e);
      WidenKeepsValue(Eval(r, e), port, false);
      Pow2Mono(|r|, n - 1);
      assert Eval(s, e)[n - 1];
      assert UVal(Eval(s, e)) >= Pow2(n - 1) > UVal(Eval(r, e));
      assert SVal(Eval(AtPort(o, port), e)) != o.Value(e);
    }
  }

  // ---- Operand assignment ---------------------------------------------------

  /** Which operand goes to the 32-bit port and which to the 18-bit one. */
  datatype Placed = Placed(a: Operand, b: Operand)

  predicate BothFit(a: Operand, b: Operand) {
    Fits(|a.sig|, a.signed, A_WIDTH) && Fits(|b.sig|, b.signed, B_WIDTH)
  }

  method PlaceOperands(ma: Operand, mb: Operand) returns (r: Option<Placed>)
    ensures r.None? <==> !BothFit(ma, mb) && !BothFit(mb, ma)
    ensures r.Some? ==> BothFit(r.value.a, r.value.b)
    ensures r.Some? ==> r.value == Placed(ma, mb) || r.value == Placed(mb, ma)
    ensures r.Some? && BothFit(ma, mb) && BothFit(mb, ma) ==> |r.value.a.sig| >= |r.value.b.sig|
    ensures BothFit(ma, mb) && |ma.sig| >= |mb.sig| ==> r == Some(Placed(ma, mb))
  {
    var direct := BothFit(ma, mb);
    var swapped := BothFit(mb, ma);
    if !direct && !swapped {
      return None;
    }
    var a, b := ma, mb;
    if !direct || (swapped && |mb.sig| > |ma.sig|) {
      a, b := b, a;
    }
    return Some(Placed(a, b));
  }

  lemma AbsProductBound(x: int, y: int, p: int, q: int)
    requires 0 <= x <= p && 0 <= y <= q
    ensures 0 <= x * y <= p * q
  {
    assert 0 <= x * y;
    assert 0 <= (p - x) * y;
    assert 0 <= p * (q - y);
  }

  lemma ProductBound(a: int, b: int, p: int, q: int)
    requires -p <= a <= p && -q <= b <= q
    ensures -(p * q) <= a * b <= p * q
  {
    var x, y := if a < 0 then -a else a, if b < 0 then -b else b;
    AbsProductBound(x, y, p, q);
    assert a * b == x * y || a * b == -(x * y);
  }

  /** The largest product of two operands of these widths. */
  function MaxProduct(a: nat, b: nat, signed: bool): int
    requires a > 0 && b > 0
  {
    if signed then Pow2(a - 1) * Pow2(b - 1) else (Pow2(a) - 1) * (Pow2(b) - 1)
  }

  /** The least one. */
  function MinProduct(a: nat, b: nat, signed: bool): int
    requires a > 0 && b > 0
  {
    if signed then Min(-(Pow2(a - 1) * (Pow2(b - 1) - 1)), -((Pow2(a - 1) - 1) * Pow2(b - 1))) else 0
  }

  lemma SignedProduct(x: int, y: int, p: int, q: int)
    requires -p <= x < p && -q <= y < q
    ensures Min(-(p * (q - 1)), -((p - 1) * q)) <= x * y <= p * q
  {
    ProductBound(x, y, p, q);
    if x <= 0 && 0 <= y {
      AbsProductBound(-x, y, p, q - 1);
      assert x * y == -(-x * y);
    } else if 0 <= x && y <= 0 {
      AbsProductBound(x, -y, p - 1, q);
      assert x * y == -(x * -y);
    } else {
      assert x * y >= 0;
      AbsProductBound(0, 0, p, q - 1);
    }
  }

  lemma ProductWithin(x: int, y: int, a: nat, b: nat, signed: bool)
    requires a > 0 && b > 0 && InRange(x, a, signed) && InRange(y, b, signed)
    ensures MinProduct(a, b, signed) <= x * y <= MaxProduct(a, b, signed)
  {
    hide Pow2;
    if signed {
      SignedProduct(x, y, Pow2(a - 1), Pow2(b - 1));
    } else {
      AbsProductBound(x, y, Pow2(a) - 1, Pow2(b) - 1);
    }
  }

  lemma LargestOperands(a: nat, b: nat, signed: bool) returns (x: int, y: int)
    requires a > 0 && b > 0
    ensures InRange(x, a, signed) && InRange(y, b, signed) && x * y == MaxProduct(a, b, signed)
  {
    hide Pow2;
    if signed {
      x, y := -Pow2(a - 1), -Pow2(b - 1);
      NegativeProduct(Pow2(a - 1), Pow2(b - 1));
    } else {
      x, y := Pow2(a) - 1, Pow2(b) - 1;
    }
  }

  lemma LeastOperands(a: nat, b: nat, signed: bool) returns (x: int, y: int)
    requires a > 0 && b > 0
    ensures InRange(x, a, signed) && InRange(y, b, signed) && x * y == MinProduct(a, b, signed)
  {
    hide Pow2;
    var p, q := if signed then Pow2(a - 1) else 1, if signed then Pow2(b - 1) else 1;
    if !signed {
      x, y := 0, 0;
    } else if -(p * (q - 1)) < -((p - 1) * q) {
      x, y := -p, q - 1;
      NegativeProduct(p, q - 1);
    } else {
      x, y := p - 1, -q;
      NegativeProduct(p - 1, q);
    }
  }

  lemma NegativeProduct(p: int, q: int)
    ensures -p * -q == p * q && -p * q == -(p * q) && p * -q == -(p * q)
  {
  }

  /** What the 32x18 signed multiplier computes, in 50 bits. */
  function Multiplier(a: seq<bool>, b: seq<bool>): seq<bool> {
    ToBits(SVal(a) * SVal(b), P_WIDTH)
  }

  /** 50 bits hold every product of a 32-bit and an 18-bit port. */
  lemma ProductFits(a: seq<bool>, b: seq<bool>)
    requires |a| == A_WIDTH && |b| == B_WIDTH
    ensures SVal(Multiplier(a, b)) == SVal(a) * SVal(b)
  {
    hide UVal, SVal, ToBits, Res;
    SValRange(a);
    SValRange(b);
    ProductBound(SVal(a), SVal(b), Pow2(31), Pow2(17));
    Pow2Add(31, 17);
    Pow2Mono(48, 49);
    ReadBackSigned(SVal(a) * SVal(b), P_WIDTH);
  }

  /**
   Whatever assignment was chosen, the DSP's product is the RTL's: as an
   integer, and in the `y` low bits the `$mul` cell keeps.
   */
  lemma PlacedProductExact(ma: Operand, mb: Operand, p: Placed, y: nat, e: Env)
    requires p == Placed(ma, mb) || p == Placed(mb, ma)
    requires BothFit(p.a, p.b) && y <= P_WIDTH
    requires ma.signed || !RepeatedTop(ma.sig)
    requires mb.signed || !RepeatedTop(mb.sig)
    ensures var P := Multiplier(Eval(AtPort(p.a, A_WIDTH), e), Eval(AtPort(p.b, B_WIDTH), e));
            SVal(P) == ma.Value(e) * mb.Value(e) && P[..y] == ToBits(ma.Value(e) * mb.Value(e), y)
  {
    hide UVal, SVal, Pow2, ToBits, StripZeros, StripCopies, Res, Eval;
    PortExact(p.a, A_WIDTH, e);
    PortExact(p.b, B_WIDTH, e);
    var a, b := Eval(AtPort(p.a, A_WIDTH), e), Eval(AtPort(p.b, B_WIDTH), e);
    assert SVal(a) * SVal(b) == ma.Value(e) * mb.Value(e);
    ProductFits(a, b);
    ToBitsLow(SVal(a) * SVal(b), y, P_WIDTH);
  }
}
