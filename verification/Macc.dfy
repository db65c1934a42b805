/** A multiply-accumulate against the signed DSPv2 that replaces it: operand re-encoding, size, accumulation. */
module Macc {
  import opened Bits
  import Operand

  /** Each size has its port widths, its output width and its accumulator. */
  datatype Size = Size(a: nat, b: nat, z: nat, acc: nat)

  const SMALL := Size(16, 9, 25, 32)
  const LARGE := Size(32, 18, 50, 64)

  datatype Ports = Ports(a: Sig, b: Sig, size: Size)

  // ---- Re-encoding ------------------------------------------------------------------------

  /** An unsigned operand as a signed one, unless it is already as wide as the result. */
  function Reencoded(s: Sig, signed: bool, z: nat): Sig
    requires |s| > 0
  {
    if !signed && s[|s| - 1] != Const(false) && |s| < z then s + [Const(false)] else s
  }

  /** One bit more exactly for an unsigned operand narrower than the result and not topped by a zero. */
  lemma ReencodedWidth(s: Sig, signed: bool, z: nat)
    requires |s| > 0
    ensures s <= Reencoded(s, signed, z)
    ensures signed || |s| >= z || s[|s| - 1] == Const(false) ==> |Reencoded(s, signed, z)| == |s|
    ensures !signed && |s| < z && s[|s| - 1] != Const(false) ==>
      |Reencoded(s, signed, z)| == |s| + 1 && Reencoded(s, signed, z)[|s|] == Const(false)
  {
  }

  /** Read as signed, the operand is what it was, as far as `z` bits can tell. */
  lemma ReencodeExact(s: Sig, signed: bool, z: nat, e: Env)
    requires |s| > 0
    ensures Cong(SVal(Eval(Reencoded(s, signed, z), e)), IVal(Eval(s, e), signed), Pow2(z))
    ensures !signed && (|s| < z || s[|s| - 1] == Const(false)) ==> SVal(Eval(Reencoded(s, signed, z), e)) == UVal(Eval(s, e))
  {
    hide Res, Pow2, UVal;
    var v := Eval(s, e);
    if !signed {
      if s[|s| - 1] == Const(false) {
        assert !v[|v| - 1];
      } else if |s| < z {
        EvalExtend(s, |s| + 1, false, e);
        assert Reencoded(s, signed, z) == ExtendU0(s, |s| + 1, false);
        WidenKeepsValue(v, |s| + 1, false);
      } else {
        IValCong(v, true);
        CongWeaken(IVal(v, true), UVal(v), z, |v|);
      }
    }
  }

  method AppendZero(s: Sig, signed: bool, z: nat) returns (r: Sig)
    requires s != []
    ensures r == Reencoded(s, signed, z)
  {
    r := s;
    if !signed {
      if s[|s| - 1] != Const(false) && |s| < z {
        r := s + [Const(false)];
      }
    }
  }

  /** The ports multiply to the RTL product, to `z` bits. */
  ghost predicate PortsExact(p: Ports, sigA: Sig, sigB: Sig, signed: bool, z: nat) {
    forall e: Env ::
      Cong(SVal(Eval(p.a, e)) * SVal(Eval(p.b, e)), IVal(Eval(sigA, e), signed) * IVal(Eval(sigB, e), signed), Pow2(z))
  }

  lemma PortsAreExact(a: Sig, b: Sig, signed: bool, z: nat, size: Size)
    requires a != [] && b != [] && |Reencoded(a, signed, z)| <= size.a && |Reencoded(b, signed, z)| <= size.b
    ensures var p := Ports(ExtendU0(Reencoded(a, signed, z), size.a, true), ExtendU0(Reencoded(b, signed, z), size.b, true), size);
      PortsExact(p, a, b, signed, z) && PortsExact(p, b, a, signed, z)
  {
    hide Res, Pow2, UVal, SVal, IVal, Eval, Reencoded, ExtendU0;
    var p := Ports(ExtendU0(Reencoded(a, signed, z), size.a, true), ExtendU0(Reencoded(b, signed, z), size.b, true), size);
    forall e: Env
      ensures Cong(SVal(Eval(p.a, e)) * SVal(Eval(p.b, e)), IVal(Eval(a, e), signed) * IVal(Eval(b, e), signed), Pow2(z))
      ensures Cong(SVal(Eval(p.a, e)) * SVal(Eval(p.b, e)), IVal(Eval(b, e), signed) * IVal(Eval(a, e), signed), Pow2(z))
    {
      ProductExact(a, b, signed, z, size.a, size.b, e);
      Commutes(IVal(Eval(a, e), signed), IVal(Eval(b, e), signed));
    }
  }

  /** The wider operand goes first, both are re-encoded, and the smallest size that takes them is used. */
  method CreateMacc(sigA: Sig, sigB: Sig, abSigned: bool, z: nat) returns (r: Option<Ports>)
    requires sigA != [] && sigB != []
    ensures r.Some? ==> r.value.size in {SMALL, LARGE} && z <= r.value.size.z
    ensures r.Some? ==> |r.value.a| == r.value.size.a && |r.value.b| == r.value.size.b
    ensures r.Some? ==> PortsExact(r.value, sigA, sigB, abSigned, z)
    ensures
      var (wide, narrow) := if |sigA| < |sigB| then (sigB, sigA) else (sigA, sigB);
      var (a, b) := (|Reencoded(wide, abSigned, z)|, |Reencoded(narrow, abSigned, z)|);
      && (r.None? <==> (a <= 2 && b <= 2 && z <= 4) || !(a <= 32 && b <= 18 && z <= 50))
      && (r.Some? ==> (r.value.size == SMALL <==> a <= 16 && b <= 9 && z <= 25))
      && (r.Some? ==> wide <= r.value.a && narrow <= r.value.b)
  {
    hide PortsExact, Reencoded;
    var a, b := sigA, sigB;
    if |a| < |b| {
      a, b := b, a;
    }
    ghost var a0, b0 := a, b;
    a := AppendZero(a, abSigned, z);
    b := AppendZero(b, abSigned, z);
    var size;
    if |a| <= 2 && |b| <= 2 && z <= 4 {
      return None;
    } else if |a| <= 16 && |b| <= 9 && z <= 25 {
      size := SMALL;
    } else if |a| <= 32 && |b| <= 18 && z <= 50 {
      size := LARGE;
    } else {
      return None;
    }
    PortsAreExact(a0, b0, abSigned, z, size);
    ReencodedWidth(a0, abSigned, z);
    ReencodedWidth(b0, abSigned, z);
    r := Some(Ports(ExtendU0(a, size.a, true), ExtendU0(b, size.b, true), size));
  }

  lemma Commutes(x: int, y: int)
    ensures x * y == y * x
  {
  }

  /** What the signed multiplier makes of the extended operands is the RTL product, to `z` bits. */
  lemma ProductExact(a: Sig, b: Sig, signed: bool, z: nat, aPort: nat, bPort: nat, e: Env)
    requires a != [] && b != [] && |Reencoded(a, signed, z)| <= aPort && |Reencoded(b, signed, z)| <= bPort
    ensures Cong(SVal(Eval(ExtendU0(Reencoded(a, signed, z), aPort, true), e)) * SVal(Eval(ExtendU0(Reencoded(b, signed, z), bPort, true), e)),
                 IVal(Eval(a, e), signed) * IVal(Eval(b, e), signed), Pow2(z))
  {
    hide Res, Pow2, UVal, SVal, Eval, Reencoded, ExtendU0, ExtendBits;
    var a', b' := Reencoded(a, signed, z), Reencoded(b, signed, z);
    PortKeeps(a', aPort, e);
    PortKeeps(b', bPort, e);
    ReencodeExact(a, signed, z, e);
    ReencodeExact(b, signed, z, e);
    CongMul(SVal(Eval(a', e)), IVal(Eval(a, e), signed), SVal(Eval(b', e)), IVal(Eval(b, e), signed), Pow2(z));
  }

  lemma PortKeeps(s: Sig, port: nat, e: Env)
    requires |s| <= port
    ensures SVal(Eval(ExtendU0(s, port, true), e)) == SVal(Eval(s, e))
  {
    hide Pow2, UVal, Eval, ExtendBits, SVal;
    EvalExtend(s, port, true, e);
    WidenKeepsValue(Eval(s, e), port, true);
  }

  // ---- Accumulation ------------------------------------------------------------------------------

  /** The matched adder and register: widths, signedness, and where the product sits on a `$sub`. */
  datatype Idiom = Idiom(
    aWidth: nat, bWidth: nat, mulSigned: bool,
    y: nat,                        // the $mul's Y, and the adder's operand
    addSigned: bool, sub: bool, mulFirst: bool,
    z: nat)                        // the adder's Y, and the register

  predicate WellFormed(m: Idiom) {
    m.aWidth > 0 && m.bWidth > 0 && m.y > 0
  }

  datatype Inputs = Inputs(a: seq<bool>, b: seq<bool>, clear: bool, load: bool)

  predicate Sized(m: Idiom, i: Inputs) {
    |i.a| == m.aWidth && |i.b| == m.bWidth
  }

  function Product(m: Idiom, i: Inputs): int {
    IVal(i.a, m.mulSigned) * IVal(i.b, m.mulSigned)
  }

  /** The product as the adder reads it. */
  function AddOperand(m: Idiom, product: int): int {
    IVal(ToBits(product, m.y), m.addSigned)
  }

  function RtlSum(m: Idiom, i: Inputs, q: seq<bool>): seq<bool> {
    var p, acc := AddOperand(m, Product(m, i)), IVal(q, m.addSigned);
    ToBits(if !m.sub then acc + p else if m.mulFirst then p - acc else acc - p, m.z)
  }

  function RtlNext(m: Idiom, i: Inputs, q: seq<bool>): seq<bool> {
    if i.clear then ToBits(0, m.z) else if i.load then RtlSum(m, i, q) else q
  }

  /** The DSP adds the product, or its negation, to the accumulator. */
  function DspSum(m: Idiom, size: Size, product: int, acc: int): int {
    Res(if m.sub then acc - product else acc + product, Pow2(size.acc))
  }

  function DspNext(m: Idiom, size: Size, product: int, i: Inputs, acc: int): int {
    if i.clear then 0 else if i.load then DspSum(m, size, product, acc) else acc
  }

  /** What the DSP is fed on each cycle: the re-encoded product. */
  type Products = seq<int>

  ghost predicate Fed(m: Idiom, ins: seq<Inputs>, ps: Products) {
    |ps| == |ins| && forall t :: 0 <= t < |ins| ==> Sized(m, ins[t]) && Cong(ps[t], Product(m, ins[t]), Pow2(m.z))
  }

  function RtlRun(m: Idiom, ins: seq<Inputs>, q: seq<bool>): seq<bool> {
    if ins == [] then q else RtlNext(m, ins[|ins| - 1], RtlRun(m, ins[..|ins| - 1], q))
  }

  function DspRun(m: Idiom, size: Size, ins: seq<Inputs>, ps: Products, acc: int): int
    requires |ps| == |ins|
  {
    if ins == [] then acc
    else
      var n := |ins| - 1;
      DspNext(m, size, ps[n], ins[n], DspRun(m, size, ins[..n], ps[..n], acc))
  }

  // ---- When the adder reads the whole product ---------------------------------------------------------

  /** The cut of the product does not matter: nothing above it is kept, or no product reaches it. */
  predicate KeepsProduct(m: Idiom)
    requires WellFormed(m)
  {
    || m.z <= m.y
    || (if m.mulSigned then
          if m.addSigned then m.aWidth + m.bWidth <= m.y else m.aWidth == 1 && m.bWidth == 1
        else InRange((Pow2(m.aWidth) - 1) * (Pow2(m.bWidth) - 1), m.y, m.addSigned))
  }

  /** `product - sum` is not what the DSP computes, except that one bit cannot tell. */
  predicate DirectionOk(m: Idiom) {
    m.sub && m.mulFirst ==> m.z <= 1
  }

  lemma OperandCong(m: Idiom, i: Inputs)
    requires WellFormed(m) && Sized(m, i) && KeepsProduct(m)
    ensures Cong(AddOperand(m, Product(m, i)), Product(m, i), Pow2(m.z))
  {
    hide Res, Pow2, UVal, SVal, ToBits;
    var p := Product(m, i);
    if m.z <= m.y {
      IValCong(ToBits(p, m.y), m.addSigned);
      ToBitsCong(p, m.y);
      CongWeaken(AddOperand(m, p), p, m.z, m.y);
    } else {
      ProductInRange(m, i);
      ReadBack(p, m.y, m.addSigned);
    }
  }

  lemma ProductInRange(m: Idiom, i: Inputs)
    requires WellFormed(m) && Sized(m, i) && KeepsProduct(m) && m.z > m.y
    ensures InRange(Product(m, i), m.y, m.addSigned)
  {
    hide UVal, SVal, Res;
    var a, b := m.aWidth, m.bWidth;
    IValRange(i.a, m.mulSigned);
    IValRange(i.b, m.mulSigned);
    if !m.mulSigned {
      Operand.AbsProductBound(IVal(i.a, false), IVal(i.b, false), Pow2(a) - 1, Pow2(b) - 1);
    } else if m.addSigned {
      Operand.ProductBound(IVal(i.a, true), IVal(i.b, true), Pow2(a - 1), Pow2(b - 1));
      Pow2Add(a - 1, b - 1);
      Pow2Mono(a + b - 2, m.y - 1);
    } else {
      assert Pow2(0) == 1;
      OneBit(IVal(i.a, true), IVal(i.b, true));
      Pow2Mono(1, m.y);
    }
  }

  lemma OneBit(x: int, y: int)
    requires -1 <= x < 1 && -1 <= y < 1
    ensures 0 <= x * y <= 1
  {
  }

  // ---- Every cycle ---------------------------------------------------------------------------------

  lemma NegatedCong(x: int, m: int)
    requires m == 1 || m == 2
    ensures Cong(x, -x, m)
  {
    hide Res;
    if m == 1 {
      CongShift(-x, 1, 2 * x);
    } else {
      CongShift(-x, 2, x);
    }
  }

  /** One sum: the register's bits are the low bits of the DSP's. */
  lemma SumAgrees(m: Idiom, size: Size, i: Inputs, product: int, q: seq<bool>, acc: int)
    requires WellFormed(m) && Sized(m, i) && KeepsProduct(m) && DirectionOk(m) && |q| == m.z <= size.acc
    requires Cong(product, Product(m, i), Pow2(m.z)) && Cong(acc, UVal(q), Pow2(m.z))
    ensures RtlSum(m, i, q) == ToBits(DspSum(m, size, product, acc), m.z)
  {
    hide Res, Pow2, UVal, ToBits, IVal;
    var M := Pow2(m.z);
    var p, v := AddOperand(m, Product(m, i)), IVal(q, m.addSigned);
    OperandCong(m, i);
    IValCong(q, m.addSigned);
    CongAdd(v, acc, p, product, M);
    var rtl := if !m.sub then v + p else if m.mulFirst then p - v else v - p;
    var dsp := if m.sub then acc - product else acc + product;
    if m.sub && m.mulFirst {
      ModulusSmall(m.z);
      NegatedCong(v - p, M);
    }
    assert Cong(rtl, dsp, M);
    CongRes(dsp, Pow2(size.acc));
    CongWeaken(Res(dsp, Pow2(size.acc)), dsp, m.z, size.acc);
    ToBitsOfCong(rtl, Res(dsp, Pow2(size.acc)), m.z);
  }

  lemma ModulusSmall(z: nat)
    requires z <= 1
    ensures Pow2(z) == 1 || Pow2(z) == 2
  {
    assert Pow2(0) == 1;
    assert Pow2(1) == 2 * Pow2(0);
  }

  /** Through any run: the register is the low bits of the accumulator, and so is the sum before it. */
  lemma {:induction false} RunAgrees(m: Idiom, size: Size, ins: seq<Inputs>, ps: Products, q: seq<bool>, acc: int)
    requires WellFormed(m) && KeepsProduct(m) && DirectionOk(m) && |q| == m.z <= size.acc
    requires Fed(m, ins, ps) && Cong(acc, UVal(q), Pow2(m.z))
    ensures |RtlRun(m, ins, q)| == m.z
    ensures RtlRun(m, ins, q) == ToBits(DspRun(m, size, ins, ps, acc), m.z)
    decreases |ins|
  {
    hide Res, Pow2, UVal, ToBits, RtlSum, DspSum, KeepsProduct;
    if ins == [] {
      ToBitsUVal(q, acc);
    } else {
      var n := |ins| - 1;
      RunAgrees(m, size, ins[..n], ps[..n], q, acc);
      var q', acc' := RtlRun(m, ins[..n], q), DspRun(m, size, ins[..n], ps[..n], acc);
      ToBitsCong(acc', m.z);
      SumAgrees(m, size, ins[n], ps[n], q', acc');
    }
  }

  // ---- When it does not agree ---------------------------------------------------------------------------

  lemma PowerOperand(n: nat, i: nat, signed: bool) returns (v: seq<bool>)
    requires i < n
    ensures |v| == n && IVal(v, signed) == if signed then -Pow2(i) else Pow2(i)
  {
    hide Res, ToBits, UVal;
    Pow2Mono(i, n - 1);
    if signed {
      v := ToBits(-Pow2(i), n);
      ReadBackSigned(-Pow2(i), n);
    } else {
      Pow2Mono(i + 1, n);
      v := ToBits(Pow2(i), n);
      ReadBackUnsigned(Pow2(i), n);
    }
  }

  /** Operands whose product is `2^k`. */
  lemma PowerProduct(m: Idiom, k: nat) returns (i: Inputs)
    requires WellFormed(m) && k <= m.aWidth + m.bWidth - 2
    ensures Sized(m, i) && !i.clear && i.load && Product(m, i) == Pow2(k)
  {
    hide Pow2, IVal;
    var j := if k < m.aWidth then k else m.aWidth - 1;
    var a := PowerOperand(m.aWidth, j, m.mulSigned);
    var b := PowerOperand(m.bWidth, k - j, m.mulSigned);
    i := Inputs(a, b, false, true);
    Pow2Add(j, k - j);
    assert -Pow2(j) * -Pow2(k - j) == Pow2(j) * Pow2(k - j);
  }

  lemma LargestProduct(m: Idiom) returns (i: Inputs)
    requires WellFormed(m) && !m.mulSigned
    ensures Sized(m, i) && !i.clear && i.load && Product(m, i) == (Pow2(m.aWidth) - 1) * (Pow2(m.bWidth) - 1)
  {
    hide Pow2, UVal, ToBits, Res;
    var a, b := ToBits(Pow2(m.aWidth) - 1, m.aWidth), ToBits(Pow2(m.bWidth) - 1, m.bWidth);
    ReadBackUnsigned(Pow2(m.aWidth) - 1, m.aWidth);
    ReadBackUnsigned(Pow2(m.bWidth) - 1, m.bWidth);
    i := Inputs(a, b, false, true);
  }

  /** A product of -1, which only two one-bit operands cannot have. */
  lemma MinusOne(m: Idiom) returns (i: Inputs)
    requires WellFormed(m) && m.mulSigned && (m.aWidth > 1 || m.bWidth > 1)
    ensures Sized(m, i) && !i.clear && i.load && Product(m, i) == -1
  {
    hide UVal, ToBits, Res;
    assert Pow2(0) == 1;
    var n := if m.aWidth > 1 then m.aWidth else m.bWidth;
    var one := ToBits(1, n);
    var minus := PowerOperand(if m.aWidth > 1 then m.bWidth else m.aWidth, 0, true);
    Pow2Mono(1, n - 1);
    ReadBackSigned(1, n);
    i := if m.aWidth > 1 then Inputs(one, minus, false, true) else Inputs(minus, one, false, true);
  }

  lemma ProductLost(m: Idiom) returns (i: Inputs)
    requires WellFormed(m) && !KeepsProduct(m)
    ensures Sized(m, i) && !i.clear && i.load && !Cong(AddOperand(m, Product(m, i)), Product(m, i), Pow2(m.z))
  {
    hide Res, UVal, SVal, ToBits, Pow2, InRange, KeepsProduct, Product, IVal, Cong;
    if m.mulSigned && !m.addSigned {
      MinusOneOut(m);
      i := MinusOne(m);
      CutShows(-1, m.y, false, m.z);
    } else {
      var top := if m.addSigned then m.y - 1 else m.y;
      LostRange(m, top);
      if top <= m.aWidth + m.bWidth - 2 {
        i := PowerProduct(m, top);
        PowerOut(m.y, m.addSigned, top);
        CutShows(Pow2(top), m.y, m.addSigned, m.z);
      } else {
        i := LargestProduct(m);
        CutShows(Product(m, i), m.y, m.addSigned, m.z);
      }
    }
  }

  lemma MinusOneOut(m: Idiom)
    requires WellFormed(m) && !KeepsProduct(m) && m.mulSigned && !m.addSigned
    ensures m.y < m.z && (m.aWidth > 1 || m.bWidth > 1) && m.y > 0
    ensures InRange(-1 + Pow2(m.y), m.y, false)
  {
    Pow2Mono(0, m.y);
  }

  lemma PowerOut(n: nat, signed: bool, top: nat)
    requires n > 0 && top == if signed then n - 1 else n
    ensures InRange(Pow2(top) - Pow2(n), n, signed)
  {
  }

  /** How far out of the cut's range the largest product is. */
  lemma LostRange(m: Idiom, top: nat)
    requires WellFormed(m) && !KeepsProduct(m) && (m.mulSigned ==> m.addSigned) && top == if m.addSigned then m.y - 1 else m.y
    ensures m.y < m.z && m.y > 0
    ensures top > m.aWidth + m.bWidth - 2 ==> !m.mulSigned
    ensures top > m.aWidth + m.bWidth - 2 ==>
      InRange((Pow2(m.aWidth) - 1) * (Pow2(m.bWidth) - 1) - Pow2(m.y), m.y, m.addSigned)
  {
    hide Pow2;
    var a, b := m.aWidth, m.bWidth;
    if top > a + b - 2 && !m.mulSigned {
      Pow2Add(a, b);
      Pow2Mono(a + b, top + 1);
      LargestBelow(Pow2(a), Pow2(b));
      Doubling(top);
      Doubling(m.y - 1);
    }
  }

  lemma LargestBelow(p: int, q: int)
    requires p >= 1 && q >= 1
    ensures 0 <= (p - 1) * (q - 1) < p * q
  {
    assert (p - 1) * (q - 1) == p * q - p - q + 1;
  }

  /** A `$mul` output narrower than the register, or `product - sum`: neither is checked, and exactly then is a cycle wrong. */
  lemma AgreesIff(m: Idiom, size: Size)
    requires WellFormed(m) && m.z <= size.acc
    ensures (forall i, q :: Sized(m, i) && |q| == m.z ==> RtlSum(m, i, q) == ToBits(DspSum(m, size, Product(m, i), UVal(q)), m.z))
      <==> KeepsProduct(m) && DirectionOk(m)
  {
    hide Res, UVal, ToBits, Pow2, RtlSum, DspSum;
    if KeepsProduct(m) && DirectionOk(m) {
      forall i, q | Sized(m, i) && |q| == m.z ensures RtlSum(m, i, q) == ToBits(DspSum(m, size, Product(m, i), UVal(q)), m.z) {
        SumAgrees(m, size, i, Product(m, i), q, UVal(q));
      }
    } else {
      var i, q := SumDiffers(m, size);
      assert Sized(m, i) && |q| == m.z;
    }
  }

  lemma SumDiffers(m: Idiom, size: Size) returns (i: Inputs, q: seq<bool>)
    requires WellFormed(m) && m.z <= size.acc && !(KeepsProduct(m) && DirectionOk(m))
    ensures Sized(m, i) && |q| == m.z && RtlSum(m, i, q) != ToBits(DspSum(m, size, Product(m, i), UVal(q)), m.z)
  {
    hide Res, UVal, Pow2, ToBits;
    if !DirectionOk(m) {
      i, q := WrongDirection(m);
    } else {
      i := ProductLost(m);
      q := ToBits(0, m.z);
      LostShows(m, i, q);
    }
    Distinguish(m, size, i, q);
  }

  /** The two sums as integers, before either is cut. */
  ghost predicate SumsDiffer(m: Idiom, i: Inputs, q: seq<bool>) {
    var p, v, x := AddOperand(m, Product(m, i)), IVal(q, m.addSigned), Product(m, i);
    !Cong(if !m.sub then v + p else if m.mulFirst then p - v else v - p, if m.sub then UVal(q) - x else UVal(q) + x, Pow2(m.z))
  }

  lemma Distinguish(m: Idiom, size: Size, i: Inputs, q: seq<bool>)
    requires m.z <= size.acc && |q| == m.z && SumsDiffer(m, i, q)
    ensures RtlSum(m, i, q) != ToBits(DspSum(m, size, Product(m, i), UVal(q)), m.z)
  {
    hide Res, UVal, Pow2, ToBits, IVal;
    var p, v, x := AddOperand(m, Product(m, i)), IVal(q, m.addSigned), Product(m, i);
    var rtl := if !m.sub then v + p else if m.mulFirst then p - v else v - p;
    var dsp := if m.sub then UVal(q) - x else UVal(q) + x;
    CongRes(dsp, Pow2(size.acc));
    CongWeaken(Res(dsp, Pow2(size.acc)), dsp, m.z, size.acc);
    ToBitsCong(rtl, m.z);
    ToBitsCong(Res(dsp, Pow2(size.acc)), m.z);
  }

  lemma LostShows(m: Idiom, i: Inputs, q: seq<bool>)
    requires WellFormed(m) && DirectionOk(m) && q == ToBits(0, m.z) && m.z > m.y
    requires !Cong(AddOperand(m, Product(m, i)), Product(m, i), Pow2(m.z))
    ensures SumsDiffer(m, i, q)
  {
    hide Res, UVal, ToBits, Pow2;
    var p, x := AddOperand(m, Product(m, i)), Product(m, i);
    Zero(m.z, true);
    Zero(m.z, false);
    if m.sub && Cong(-p, -x, Pow2(m.z)) {
      CongAdd(0, 0, -p, -x, Pow2(m.z));
      assert false;
    }
  }

  /** With no product and a sum of one, the signs show. */
  lemma WrongDirection(m: Idiom) returns (i: Inputs, q: seq<bool>)
    requires WellFormed(m) && !DirectionOk(m)
    ensures Sized(m, i) && |q| == m.z && SumsDiffer(m, i, q)
  {
    hide Res, UVal, ToBits;
    i := Inputs(ToBits(0, m.aWidth), ToBits(0, m.bWidth), false, true);
    q := ToBits(1, m.z);
    Pow2Mono(2, m.z);
    assert Pow2(1) == 2 && Pow2(2) == 4;
    ReadBackUnsigned(1, m.z);
    Pow2Mono(1, m.z - 1);
    ReadBackSigned(1, m.z);
    Zero(m.aWidth, m.mulSigned);
    Zero(m.bWidth, m.mulSigned);
    Zero(m.y, m.addSigned);
    OffByPower(1, 1, m.z);
  }
}
