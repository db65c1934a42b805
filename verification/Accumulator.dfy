/**
 Multiply-add and multiply-accumulate idioms against the DSP that replaces
 them. The RTL may cut the product and the first sum, pad them, and read them
 with another signedness; the DSP adds at 64 bits and shows the low 50 on P.
 */
module Accumulator {
  import opened Bits
  import opened Operand

  const ACC_WIDTH: nat := 64

  /** The ALU direction: add, other operand minus product, product minus other operand. */
  datatype Direction = AddProduct | SubProduct | ReverseSub

  /** One adder on C, one adder on the feedback, or both, the feedback on the first or the second. */
  datatype Shape = MultAddC | MultAcc | MultAccC(feedbackFirst: bool)

  /** The widths and signednesses of a matched idiom; each cell has one signedness for both operands. */
  datatype Idiom = Idiom(
    shape: Shape, dir: Direction,
    mulSigned: bool, addSigned: bool, accSigned: bool,
    aWidth: nat, bWidth: nat,      // the $mul operands
    kept: nat,                     // the $mul's Y
    opWidth: nat,                  // the first adder's product-side operand
    cWidth: nat,                   // the C operand
    keptSum: nat,                  // the first adder's Y
    accOpWidth: nat,               // the second adder's sum-side operand
    y: nat,                        // the last adder's Y
    read: nat)                     // the register on it, or again the Y

  datatype Inputs = Inputs(a: seq<bool>, b: seq<bool>, c: seq<bool>, reset: bool, enable: bool)

  predicate FeedbackFirst(m: Idiom) {
    m.shape == MultAcc || m.shape == MultAccC(true)
  }

  /** The width of the first adder's other operand. */
  function OtherWidth(m: Idiom): nat {
    if FeedbackFirst(m) then m.read else m.cWidth
  }

  predicate WellFormed(m: Idiom) {
    && m.aWidth > 0 && m.bWidth > 0 && 0 < m.cWidth <= C_WIDTH
    && 0 < m.kept <= m.opWidth && 0 < m.y <= m.read <= P_WIDTH
    && (if m.shape.MultAccC? then 0 < m.keptSum <= m.accOpWidth && m.dir == AddProduct else m.keptSum == m.y)
  }

  /** The cuts the guards refuse: of the product, and of the first sum. */
  predicate CutsOk(m: Idiom) {
    && (m.read <= m.kept || m.aWidth + m.bWidth <= m.kept)
    && (m.shape.MultAccC? ==> m.read <= m.keptSum || Max(m.opWidth, OtherWidth(m)) < m.keptSum)
  }

  predicate Sized(m: Idiom, i: Inputs) {
    |i.a| == m.aWidth && |i.b| == m.bWidth && |i.c| == m.cWidth
  }

  // ---- The RTL ---------------------------------------------------------------

  function Directed(d: Direction, product: int, other: int): int {
    match d
    case AddProduct => other + product
    case SubProduct => other - product
    case ReverseSub => product - other
  }

  function Product(m: Idiom, i: Inputs): int {
    IVal(i.a, m.mulSigned) * IVal(i.b, m.mulSigned)
  }

  /** A product as the first adder reads it: cut, padded with its own sign, read with the adder's signedness. */
  function ReadProduct(m: Idiom, product: int): int {
    IVal(ExtendBits(ToBits(product, m.kept), m.opWidth, m.mulSigned), m.addSigned)
  }

  /** A first sum as the second adder reads it. */
  function ReadSum(m: Idiom, sum: int): int {
    IVal(ExtendBits(ToBits(sum, m.keptSum), m.accOpWidth, m.addSigned), m.accSigned)
  }

  function Other(m: Idiom, i: Inputs, q: seq<bool>): seq<bool> {
    if FeedbackFirst(m) then q else i.c
  }

  /** The operand the second adder takes besides the first sum. */
  function Last(m: Idiom, i: Inputs, q: seq<bool>): seq<bool> {
    if FeedbackFirst(m) then i.c else q
  }

  /** The last adder's sum before its Y cuts it. */
  function RtlSum(m: Idiom, i: Inputs, q: seq<bool>): int {
    var first := Directed(m.dir, ReadProduct(m, Product(m, i)), IVal(Other(m, i, q), m.addSigned));
    if m.shape.MultAccC? then ReadSum(m, first) + IVal(Last(m, i, q), m.accSigned) else first
  }

  /** The signedness the register pads the last Y with. */
  function ResultSigned(m: Idiom): bool {
    if m.shape.MultAccC? then m.accSigned else m.addSigned
  }

  function RtlResult(m: Idiom, i: Inputs, q: seq<bool>): (r: seq<bool>)
    ensures |r| == m.read
  {
    ExtendBits(ToBits(RtlSum(m, i, q), m.y), m.read, ResultSigned(m))
  }

  function RtlNext(m: Idiom, i: Inputs, q: seq<bool>): seq<bool> {
    if i.reset then ToBits(0, m.read) else if i.enable then RtlResult(m, i, q) else q
  }

  // ---- The DSP ---------------------------------------------------------------

  function Word(x: int): int {
    Res(x, Pow2(ACC_WIDTH))
  }

  function Inverted(x: int): int {
    Pow2(ACC_WIDTH) - 1 - x
  }

  /** The ALU: bit 0 xor bit 1 of ALUMODE inverts Z, bit 1 inverts the sum W+X+Y and the carry in. */
  function Alu(mode: nat, wxy: int, z: int, cin: int): int {
    Word((if mode == 1 || mode == 2 then Inverted(z) else z)
         + (if mode >= 2 then Inverted(wxy) else wxy)
         + (if mode >= 2 then 1 - cin else cin))
  }

  function AluMode(d: Direction): nat {
    match d
    case AddProduct => 0
    case SubProduct => 3
    case ReverseSub => 1
  }

  /** The signedness of the adder that reads C. */
  function CSigned(m: Idiom): bool {
    if m.shape == MultAccC(true) then m.accSigned else m.addSigned
  }

  /** C reaches the ALU sign-extended from the 50-bit port. */
  function CWord(m: Idiom, i: Inputs): int {
    Word(SVal(ExtendBits(i.c, C_WIDTH, CSigned(m))))
  }

  /** The ALU's output from the inputs and the 64-bit accumulator. CIN is high for ALUMODE 1 only. */
  function DspResult(m: Idiom, i: Inputs, p: int): int {
    var product := Word(Product(m, i));
    var mode := AluMode(m.dir);
    Alu(mode,
        Word(product + if m.shape.MultAccC? then CWord(m, i) else 0),
        if m.shape == MultAddC then CWord(m, i) else p,
        if mode == 1 then 1 else 0)
  }

  function DspNext(m: Idiom, i: Inputs, p: int): int {
    if i.reset then 0 else if i.enable then DspResult(m, i, p) else p
  }

  /** P: the low 50 bits of the accumulator, or of the ALU when no register was absorbed. */
  function PortP(p: int): seq<bool> {
    ToBits(p, P_WIDTH)
  }

  /** Every ALU direction is what its name says, the reverse one thanks to its carry in. */
  lemma AluDirection(d: Direction, product: int, other: int)
    ensures Cong(Alu(AluMode(d), product, other, if AluMode(d) == 1 then 1 else 0),
                 Directed(d, product, other), Pow2(ACC_WIDTH))
  {
    hide Res, Pow2;
    var M := Pow2(ACC_WIDTH);
    CongShift(Directed(d, product, other), M, 1);
    CongRes(Directed(d, product, other), M);
    CongRes(Directed(d, product, other) + 1 * M, M);
  }

  // ---- Widths that hold their values -------------------------------------------

  /** `aWidth + bWidth` bits hold the product. */
  lemma FullProductFits(a: seq<bool>, b: seq<bool>, sgn: bool)
    requires |a| > 0 && |b| > 0
    ensures IVal(ToBits(IVal(a, sgn) * IVal(b, sgn), |a| + |b|), sgn) == IVal(a, sgn) * IVal(b, sgn)
  {
    hide Res, ToBits, UVal, SVal, Pow2;
    var x, y := IVal(a, sgn), IVal(b, sgn);
    if sgn {
      SValRange(a);
      SValRange(b);
      var p, q := Pow2(|a| - 1), Pow2(|b| - 1);
      ProductBound(x, y, p, q);
      Pow2Add(|a| - 1, |b| - 1);
      Pow2Mono(|a| + |b| - 2, |a| + |b| - 1);
      ReadBackSigned(x * y, |a| + |b|);
    } else {
      AbsProductBound(x, y, Pow2(|a|) - 1, Pow2(|b|) - 1);
      Pow2Add(|a|, |b|);
      assert (Pow2(|a|) - 1) * (Pow2(|b|) - 1) == Pow2(|a|) * Pow2(|b|) - Pow2(|a|) - Pow2(|b|) + 1;
      ReadBackUnsigned(x * y, |a| + |b|);
    }
  }

  /** A pattern whose value fits is read back whole at any wider width. */
  lemma WiderReadsSame(x: int, n: nat, k: nat, sgn: bool)
    requires n <= k && IVal(ToBits(x, n), sgn) == x
    ensures IVal(ToBits(x, k), sgn) == x
  {
    hide Res, ToBits, UVal, SVal, Pow2;
    var w := ExtendBits(ToBits(x, n), k, sgn);
    WidenKeepsValue(ToBits(x, n), k, sgn);
    IValCong(w, sgn);
  }

  lemma HalfRange(v: seq<bool>, n: nat)
    requires |v| <= n
    ensures -Pow2(n) <= 2 * SVal(v) < Pow2(n)
  {
    hide UVal;
    if v != [] {
      SValRange(v);
      Pow2Mono(|v|, n);
    }
  }

  /** A sum of two patterns fits one bit above the wider. */
  lemma FullSumFits(v: seq<bool>, w: seq<bool>, n: nat, sgn: bool)
    requires n > |v| && n > |w|
    ensures IVal(ToBits(IVal(v, sgn) + IVal(w, sgn), n), sgn) == IVal(v, sgn) + IVal(w, sgn)
  {
    hide Res, ToBits, UVal;
    Pow2Mono(|v|, n - 1);
    Pow2Mono(|w|, n - 1);
    if sgn {
      HalfRange(v, n - 1);
      HalfRange(w, n - 1);
      ReadBackSigned(IVal(v, sgn) + IVal(w, sgn), n);
    } else {
      ReadBackUnsigned(IVal(v, sgn) + IVal(w, sgn), n);
    }
  }

  // ---- What the DSP shows ------------------------------------------------------------

  /** What the idiom means, as an integer no width has cut. */
  function Ideal(m: Idiom, i: Inputs, q: seq<bool>): int {
    if m.shape.MultAccC? then Product(m, i) + IVal(Other(m, i, q), m.addSigned) + IVal(Last(m, i, q), m.accSigned)
    else Directed(m.dir, Product(m, i), IVal(Other(m, i, q), m.addSigned))
  }

  lemma WordCong(x: int, y: nat)
    requires y <= ACC_WIDTH
    ensures Cong(Word(x), x, Pow2(y))
  {
    hide Res, Pow2;
    CongRes(x, Pow2(ACC_WIDTH));
    CongWeaken(Word(x), x, y, ACC_WIDTH);
  }

  lemma CWordCong(m: Idiom, i: Inputs)
    requires WellFormed(m) && Sized(m, i)
    ensures Cong(CWord(m, i), IVal(i.c, CSigned(m)), Pow2(m.read))
  {
    hide Res, ToBits, UVal, SVal, IVal, Pow2;
    var v := ExtendBits(i.c, C_WIDTH, CSigned(m));
    WordCong(SVal(v), m.read);
    IValCong(v, true);
    assert SVal(v) == IVal(v, true) by { SignedReading(v); }
    ExtendCong(i.c, C_WIDTH, CSigned(m));
    CongWeaken(SVal(v), IVal(i.c, CSigned(m)), m.read, C_WIDTH);
  }

  lemma SignedReading(v: seq<bool>)
    ensures SVal(v) == IVal(v, true)
  {
  }

  /** An accumulator with the register's low bits keeps them through the ALU. */
  lemma DspResultCong(m: Idiom, i: Inputs, q: seq<bool>, p: int)
    requires WellFormed(m) && Sized(m, i) && |q| == m.read && Cong(p, UVal(q), Pow2(m.read))
    ensures Cong(DspResult(m, i, p), Ideal(m, i, q), Pow2(m.read))
  {
    hide Res, ToBits, UVal, SVal, IVal, Pow2, Alu;
    var M := Pow2(m.read);
    var prod, w := Word(Product(m, i)), CWord(m, i);
    var c, fb := IVal(i.c, CSigned(m)), IVal(q, if m.shape == MultAccC(false) then m.accSigned else m.addSigned);
    var wxy := Word(prod + if m.shape.MultAccC? then w else 0);
    var z := if m.shape == MultAddC then w else p;
    IValCong(q, m.addSigned);
    IValCong(q, m.accSigned);
    AluDirection(m.dir, wxy, z);
    CongWeaken(DspResult(m, i, p), Directed(m.dir, wxy, z), m.read, ACC_WIDTH);
    CWordCong(m, i);
    WordCong(Product(m, i), m.read);
    WordCong(prod + if m.shape.MultAccC? then w else 0, m.read);
    CongAdd(prod, Product(m, i), w, c, M);
    var wxy' := Product(m, i) + if m.shape.MultAccC? then c else 0;
    var z' := if m.shape == MultAddC then c else fb;
    assert Cong(wxy, wxy', M) && Cong(z, z', M);
    CongAdd(z, z', wxy, wxy', M);
    CongAdd(wxy, wxy', z, z', M);
  }

  /** One result, on an accumulator that holds the register. */
  ghost predicate Agrees(m: Idiom, i: Inputs, q: seq<bool>) {
    Cong(IVal(ToBits(RtlSum(m, i, q), m.y), ResultSigned(m)), Ideal(m, i, q), Pow2(m.read))
  }

  /** The low bits of P are the RTL's result. */
  lemma AgreesMeans(m: Idiom, i: Inputs, q: seq<bool>, p: int)
    requires WellFormed(m) && Sized(m, i) && |q| == m.read && PortP(p)[..m.read] == q
    ensures PortP(DspResult(m, i, p))[..m.read] == RtlResult(m, i, q) <==> Agrees(m, i, q)
  {
    hide Res, ToBits, UVal, SVal, IVal, Pow2, DspResult, RtlSum, Ideal;
    var r, v := RtlResult(m, i, q), ToBits(RtlSum(m, i, q), m.y);
    var x, d := Ideal(m, i, q), DspResult(m, i, p);
    ToBitsLow(p, m.read, P_WIDTH);
    ToBitsCong(p, m.read);
    DspResultCong(m, i, q, p);
    ToBitsLow(d, m.read, P_WIDTH);
    ToBitsOfCong(d, x, m.read);
    WidenKeepsValue(v, m.read, ResultSigned(m));
    IValCong(r, ResultSigned(m));
    assert r == ToBits(IVal(v, ResultSigned(m)), m.read);
    if r == ToBits(x, m.read) {
      ToBitsCong(IVal(v, ResultSigned(m)), m.read);
      ToBitsCong(x, m.read);
    }
    if Agrees(m, i, q) {
      ToBitsOfCong(IVal(v, ResultSigned(m)), x, m.read);
    }
  }

  // ---- When every result agrees ---------------------------------------------------------

  /** The first adder reads the product's low `y` bits: by one signedness, or where the two readings do not differ. */
  predicate ProductReadOk(m: Idiom)
    requires WellFormed(m)
  {
    || m.y <= m.kept || m.mulSigned == m.addSigned
    || (if m.mulSigned then m.y <= m.opWidth || (m.aWidth == 1 && m.bWidth == 1)
        else m.opWidth > m.kept || MaxProduct(m.aWidth, m.bWidth, false) < Pow2(m.kept - 1))
  }

  /** The second adder reads the first sum's, likewise. */
  predicate SumReadOk(m: Idiom)
    requires WellFormed(m) && m.shape.MultAccC?
  {
    || m.y <= m.keptSum || m.addSigned == m.accSigned
    || (m.addSigned && m.y <= m.accOpWidth)
    || (!m.addSigned && m.accOpWidth > m.keptSum)
    || (!m.addSigned && MaxProduct(m.aWidth, m.bWidth, m.mulSigned) + Pow2(OtherWidth(m)) <= Pow2(m.keptSum - 1))
  }

  function LeastOf(n: nat, signed: bool): int
    requires n > 0
  {
    if signed then -Pow2(n - 1) else 0
  }

  function LargestOf(n: nat, signed: bool): int
    requires n > 0
  {
    if signed then Pow2(n - 1) - 1 else Pow2(n) - 1
  }

  /** The least and the largest of the one sum there is, from the widths of its operands. */
  function LeastSum(m: Idiom): int
    requires WellFormed(m)
  {
    var lo, hi := MinProduct(m.aWidth, m.bWidth, m.mulSigned), MaxProduct(m.aWidth, m.bWidth, m.mulSigned);
    var o, u := LeastOf(OtherWidth(m), m.addSigned), LargestOf(OtherWidth(m), m.addSigned);
    match m.dir case AddProduct => lo + o case SubProduct => o - hi case ReverseSub => lo - u
  }

  function LargestSum(m: Idiom): int
    requires WellFormed(m)
  {
    var lo, hi := MinProduct(m.aWidth, m.bWidth, m.mulSigned), MaxProduct(m.aWidth, m.bWidth, m.mulSigned);
    var o, u := LeastOf(OtherWidth(m), m.addSigned), LargestOf(OtherWidth(m), m.addSigned);
    match m.dir case AddProduct => hi + u case SubProduct => u - lo case ReverseSub => hi - o
  }

  /** Nothing is read above the last Y, or the sum cannot leave the range its padding stands for. */
  predicate RangeOk(m: Idiom)
    requires WellFormed(m)
  {
    || m.read == m.y
    || (!m.shape.MultAccC? && InRange(LeastSum(m), m.y, m.addSigned) && InRange(LargestSum(m), m.y, m.addSigned))
  }

  /** Decided by the shape, the widths and the signednesses. */
  predicate Exact(m: Idiom)
    requires WellFormed(m)
  {
    ProductReadOk(m) && (m.shape.MultAccC? ==> SumReadOk(m)) && RangeOk(m)
  }

  lemma ValueInRange(v: seq<bool>, signed: bool)
    requires |v| > 0
    ensures InRange(IVal(v, signed), |v|, signed)
  {
    IValRange(v, signed);
  }

  lemma ProductInRange(m: Idiom, i: Inputs)
    requires WellFormed(m) && Sized(m, i)
    ensures MinProduct(m.aWidth, m.bWidth, m.mulSigned) <= Product(m, i) <= MaxProduct(m.aWidth, m.bWidth, m.mulSigned)
  {
    hide UVal, SVal, IVal, Pow2, MinProduct, MaxProduct;
    ValueInRange(i.a, m.mulSigned);
    ValueInRange(i.b, m.mulSigned);
    ProductWithin(IVal(i.a, m.mulSigned), IVal(i.b, m.mulSigned), m.aWidth, m.bWidth, m.mulSigned);
  }

  /** Reading a pattern keeps its bits, so its value up to that many. */
  lemma PaddedCong(x: int, n: nat, w: nat, signed: bool, readSigned: bool, t: nat)
    requires n <= w && t <= n
    ensures Cong(IVal(ExtendBits(ToBits(x, n), w, signed), readSigned), x, Pow2(t))
  {
    hide Res, ToBits, UVal, SVal, IVal, Pow2, ExtendBits;
    var v := ToBits(x, n);
    var e := ExtendBits(v, w, signed);
    WidenKeepsValue(v, w, signed);
    IValCong(e, signed);
    IValCong(e, readSigned);
    CongWeaken(IVal(e, readSigned), IVal(e, signed), n, w);
    IValCong(v, signed);
    ToBitsCong(x, n);
    CongWeaken(IVal(e, readSigned), x, t, n);
  }

  /** Padded by its own sign and read by the same, or zero-padded, a value that fits is read whole. */
  lemma PaddedExact(x: int, n: nat, w: nat, signed: bool, readSigned: bool)
    requires 0 < n <= w && IVal(ToBits(x, n), signed) == x
    requires readSigned == signed || (!signed && w > n)
    ensures IVal(ExtendBits(ToBits(x, n), w, signed), readSigned) == x
  {
    hide Res, ToBits, UVal, Pow2, ExtendBits;
    WidenKeepsValue(ToBits(x, n), w, signed);
  }

  /** Sign-padded and read unsigned, a value that fits keeps all bits of the padded width. */
  lemma PaddedAll(x: int, n: nat, w: nat, signed: bool, readSigned: bool)
    requires 0 < n <= w && IVal(ToBits(x, n), signed) == x
    ensures Cong(IVal(ExtendBits(ToBits(x, n), w, signed), readSigned), x, Pow2(w))
  {
    hide Res, ToBits, UVal, SVal, IVal, Pow2, ExtendBits;
    var e := ExtendBits(ToBits(x, n), w, signed);
    WidenKeepsValue(ToBits(x, n), w, signed);
    IValCong(e, signed);
    IValCong(e, readSigned);
  }

  /** A product that is not cut. */
  lemma ProductKept(m: Idiom, i: Inputs)
    requires WellFormed(m) && CutsOk(m) && Sized(m, i) && m.y > m.kept
    ensures m.aWidth + m.bWidth <= m.kept
    ensures IVal(ToBits(Product(m, i), m.kept), m.mulSigned) == Product(m, i)
  {
    hide Res, ToBits, UVal, SVal, IVal, Pow2;
    FullProductFits(i.a, i.b, m.mulSigned);
    WiderReadsSame(Product(m, i), m.aWidth + m.bWidth, m.kept, m.mulSigned);
  }

  /** Two one-bit signed operands only make 0 and 1. */
  lemma OneBitProduct(m: Idiom, i: Inputs)
    requires WellFormed(m) && Sized(m, i) && m.mulSigned && m.aWidth == 1 && m.bWidth == 1
    ensures 0 <= Product(m, i) <= 1
  {
    hide UVal, SVal, IVal;
    ProductInRange(m, i);
    assert Pow2(0) == 1;
  }

  lemma SmallBothWays(x: int, n: nat)
    requires n > 0 && 0 <= x < Pow2(n - 1)
    ensures IVal(ToBits(x, n), true) == x && IVal(ToBits(x, n), false) == x
  {
    hide Res, ToBits, UVal, SVal;
    ReadBackSigned(x, n);
    ReadBackUnsigned(x, n);
  }

  /** Under the condition the first adder reads the product up to the last Y; read above the operand it is the product itself. */
  lemma ProductRead(m: Idiom, i: Inputs)
    requires WellFormed(m) && CutsOk(m) && Sized(m, i) && ProductReadOk(m)
    ensures Cong(ReadProduct(m, Product(m, i)), Product(m, i), Pow2(m.y))
    ensures m.y > m.opWidth ==> ReadProduct(m, Product(m, i)) == Product(m, i)
  {
    hide Res, ToBits, UVal, SVal, IVal, Pow2, ExtendBits, MaxProduct;
    var p := Product(m, i);
    if m.y <= m.kept {
      PaddedCong(p, m.kept, m.opWidth, m.mulSigned, m.addSigned, m.y);
    } else {
      ProductKept(m, i);
      if m.mulSigned == m.addSigned || (!m.mulSigned && m.opWidth > m.kept) {
        PaddedExact(p, m.kept, m.opWidth, m.mulSigned, m.addSigned);
      } else if m.mulSigned && m.y <= m.opWidth {
        PaddedAll(p, m.kept, m.opWidth, m.mulSigned, m.addSigned);
        CongWeaken(ReadProduct(m, p), p, m.y, m.opWidth);
      } else {
        SmallProduct(m, i);
        SmallBothWays(p, m.kept);
        SmallPadded(p, m.kept, m.opWidth, m.mulSigned, m.addSigned);
      }
    }
  }

  lemma SmallProduct(m: Idiom, i: Inputs)
    requires WellFormed(m) && CutsOk(m) && Sized(m, i) && ProductReadOk(m) && m.y > m.kept
    requires m.mulSigned != m.addSigned && (m.mulSigned ==> m.y > m.opWidth) && (!m.mulSigned ==> m.opWidth == m.kept)
    ensures 0 <= Product(m, i) < Pow2(m.kept - 1)
  {
    hide UVal, SVal, IVal;
    if m.mulSigned {
      OneBitProduct(m, i);
      Pow2Mono(1, m.kept - 1);
      assert Pow2(0) == 1;
    } else {
      ProductInRange(m, i);
    }
  }

  /** A value whose top bit is clear is read the same with any padding. */
  lemma SmallPadded(x: int, n: nat, w: nat, signed: bool, readSigned: bool)
    requires 0 < n <= w && 0 <= x < Pow2(n - 1)
    ensures IVal(ExtendBits(ToBits(x, n), w, signed), readSigned) == x
  {
    hide Res, ToBits, UVal, SVal, IVal, Pow2, ExtendBits;
    SmallBothWays(x, n);
    var e := ExtendBits(ToBits(x, n), w, signed);
    WidenKeepsValue(ToBits(x, n), w, signed);
    IValCong(e, signed);
    Pow2Mono(n - 1, w - 1);
    SmallBothWays(x, w);
  }

  lemma ReadProductRange(m: Idiom, p: int)
    requires WellFormed(m)
    ensures InRange(ReadProduct(m, p), m.opWidth, m.addSigned)
  {
    hide Res, ToBits, UVal, SVal, IVal, Pow2;
    ValueInRange(ExtendBits(ToBits(p, m.kept), m.opWidth, m.mulSigned), m.addSigned);
  }

  /** A first sum that is not cut. */
  lemma SumKept(m: Idiom, p: int, v: seq<bool>)
    requires WellFormed(m) && m.shape.MultAccC? && CutsOk(m) && m.y > m.keptSum && |v| == OtherWidth(m)
    ensures Max(m.opWidth, OtherWidth(m)) < m.keptSum
    ensures var x := IVal(v, m.addSigned) + ReadProduct(m, p); IVal(ToBits(x, m.keptSum), m.addSigned) == x
  {
    hide Res, ToBits, UVal, SVal, IVal, Pow2;
    FullSumFits(v, ExtendBits(ToBits(p, m.kept), m.opWidth, m.mulSigned), m.keptSum, m.addSigned);
  }

  lemma SumRead(m: Idiom, i: Inputs, v: seq<bool>)
    requires WellFormed(m) && CutsOk(m) && Sized(m, i) && m.shape.MultAccC? && ProductReadOk(m) && SumReadOk(m)
    requires |v| == OtherWidth(m)
    ensures var o := IVal(v, m.addSigned);
      Cong(ReadSum(m, o + ReadProduct(m, Product(m, i))), Product(m, i) + o, Pow2(m.y))
  {
    hide Res, ToBits, UVal, SVal, IVal, Pow2, ExtendBits, ReadProduct, MaxProduct;
    var p, o := Product(m, i), IVal(v, m.addSigned);
    var x := o + ReadProduct(m, p);
    ProductRead(m, i);
    CongAdd(ReadProduct(m, p), p, o, o, Pow2(m.y));
    if m.y <= m.keptSum {
      PaddedCong(x, m.keptSum, m.accOpWidth, m.addSigned, m.accSigned, m.y);
    } else {
      SumKept(m, p, v);
      if m.addSigned == m.accSigned || (!m.addSigned && m.accOpWidth > m.keptSum) {
        PaddedExact(x, m.keptSum, m.accOpWidth, m.addSigned, m.accSigned);
      } else if m.addSigned {
        PaddedAll(x, m.keptSum, m.accOpWidth, m.addSigned, m.accSigned);
        CongWeaken(ReadSum(m, x), x, m.y, m.accOpWidth);
      } else {
        SmallSum(m, i, v);
        SmallPadded(x, m.keptSum, m.accOpWidth, m.addSigned, m.accSigned);
      }
    }
  }

  lemma SmallSum(m: Idiom, i: Inputs, v: seq<bool>)
    requires WellFormed(m) && CutsOk(m) && Sized(m, i) && m.shape.MultAccC? && ProductReadOk(m) && m.y > m.opWidth
    requires |v| == OtherWidth(m) && !m.addSigned && 0 < m.keptSum
    requires MaxProduct(m.aWidth, m.bWidth, m.mulSigned) + Pow2(OtherWidth(m)) <= Pow2(m.keptSum - 1)
    ensures 0 <= IVal(v, m.addSigned) + ReadProduct(m, Product(m, i)) < Pow2(m.keptSum - 1)
  {
    hide Res, ToBits, UVal, SVal, Pow2, ExtendBits, ReadProduct, MaxProduct, MinProduct;
    ProductRead(m, i);
    ProductInRange(m, i);
    ReadProductRange(m, Product(m, i));
    ValueInRange(v, m.addSigned);
  }

  /** The last sum has the low bits of the uncut value. */
  lemma LastSumCong(m: Idiom, i: Inputs, q: seq<bool>)
    requires WellFormed(m) && CutsOk(m) && Sized(m, i) && |q| == m.read && Exact(m)
    ensures Cong(RtlSum(m, i, q), Ideal(m, i, q), Pow2(m.y))
  {
    hide Res, ToBits, UVal, SVal, IVal, Pow2, ExtendBits, ReadProduct, ReadSum, ProductReadOk, SumReadOk, RangeOk, Product;
    var p, o := Product(m, i), IVal(Other(m, i, q), m.addSigned);
    ProductRead(m, i);
    if m.shape.MultAccC? {
      SumRead(m, i, Other(m, i, q));
      var l := IVal(Last(m, i, q), m.accSigned);
      CongAdd(ReadSum(m, o + ReadProduct(m, p)), p + o, l, l, Pow2(m.y));
    } else {
      CongAdd(o, o, ReadProduct(m, p), p, Pow2(m.y));
      CongAdd(ReadProduct(m, p), p, o, o, Pow2(m.y));
    }
  }

  /** And the one sum there is, where it is read above the Y, is in the range of it. */
  lemma SumInRange(m: Idiom, i: Inputs, q: seq<bool>)
    requires WellFormed(m) && Sized(m, i) && |q| == m.read && RangeOk(m) && m.read > m.y
    ensures InRange(Ideal(m, i, q), m.y, ResultSigned(m))
  {
    hide UVal, SVal, IVal, Pow2, MinProduct, MaxProduct;
    ProductInRange(m, i);
    ValueInRange(Other(m, i, q), m.addSigned);
    assert LeastSum(m) <= Ideal(m, i, q) <= LargestSum(m);
  }

  /** Under the condition every result agrees. */
  lemma ExactAgrees(m: Idiom, i: Inputs, q: seq<bool>)
    requires WellFormed(m) && CutsOk(m) && Sized(m, i) && |q| == m.read && Exact(m)
    ensures Agrees(m, i, q)
  {
    hide Res, ToBits, UVal, SVal, IVal, Pow2, RtlSum, Ideal, ProductReadOk, SumReadOk, RangeOk, InRange;
    var s, x, signed := RtlSum(m, i, q), Ideal(m, i, q), ResultSigned(m);
    LastSumCong(m, i, q);
    ToBitsOfCong(s, x, m.y);
    if m.read == m.y {
      IValCong(ToBits(s, m.y), signed);
      ToBitsCong(s, m.y);
    } else {
      RangeIs(m);
      SumInRange(m, i, q);
      ReadBack(x, m.y, signed);
    }
  }

  lemma RangeIs(m: Idiom)
    requires WellFormed(m) && Exact(m)
    ensures RangeOk(m)
  {
  }

  // ---- When some result does not ------------------------------------------------------------

  /** A value between zero and another of a range is in the range. */
  predicate Toward(x: int, far: int) {
    0 <= x <= far || far <= x <= 0
  }

  lemma TowardInRange(x: int, far: int, n: nat, signed: bool)
    requires n > 0 && InRange(far, n, signed) && Toward(x, far)
    ensures InRange(x, n, signed)
  {
  }

  /** The operands of one result: `x` times `z`, `o` on the first adder, and nothing on the second. */
  lemma MakeInputs(m: Idiom, x: int, z: int, o: int) returns (i: Inputs, q: seq<bool>)
    requires WellFormed(m) && InRange(x, m.aWidth, m.mulSigned) && InRange(z, m.bWidth, m.mulSigned)
    requires InRange(o, OtherWidth(m), m.addSigned)
    ensures Sized(m, i) && |q| == m.read && Product(m, i) == x * z
    ensures IVal(Other(m, i, q), m.addSigned) == o && IVal(Last(m, i, q), m.accSigned) == 0
  {
    hide Res, ToBits, UVal, SVal, IVal, Pow2, InRange;
    var w := ToBits(o, OtherWidth(m));
    var zero := ToBits(0, if FeedbackFirst(m) then m.cWidth else m.read);
    ReadBack(x, m.aWidth, m.mulSigned);
    ReadBack(z, m.bWidth, m.mulSigned);
    ReadBack(o, OtherWidth(m), m.addSigned);
    Zero(|zero|, m.accSigned);
    i := Inputs(ToBits(x, m.aWidth), ToBits(z, m.bWidth), if FeedbackFirst(m) then zero else w, false, true);
    q := if FeedbackFirst(m) then w else zero;
  }

  lemma AgreesLow(m: Idiom, i: Inputs, q: seq<bool>)
    requires WellFormed(m) && Sized(m, i) && |q| == m.read && Agrees(m, i, q)
    ensures Cong(RtlSum(m, i, q), Ideal(m, i, q), Pow2(m.y))
  {
    hide Res, ToBits, UVal, SVal, IVal, Pow2, RtlSum, Ideal;
    var v := ToBits(RtlSum(m, i, q), m.y);
    IValCong(v, ResultSigned(m));
    ToBitsCong(RtlSum(m, i, q), m.y);
    CongWeaken(IVal(v, ResultSigned(m)), Ideal(m, i, q), m.y, m.read);
  }

  /** Read off by one turn of `n` bits. */
  predicate OffBy(x: int, value: int, n: nat) {
    x == value + Pow2(n) || x == value - Pow2(n)
  }

  lemma OffShows(x: int, value: int, n: nat, t: nat)
    requires OffBy(x, value, n) && n < t
    ensures !Cong(x, value, Pow2(t))
  {
    hide Res, Pow2;
    OffByPower(value, n, t);
  }

  lemma MinusOneRead(n: nat, w: nat)
    requires 0 < n <= w
    ensures IVal(ExtendBits(ToBits(-1, n), w, true), false) == -1 + Pow2(w)
  {
    hide Res, ToBits, UVal, Pow2, ExtendBits;
    Pow2Mono(0, n - 1);
    assert Pow2(0) == 1 by { PowZero(); }
    ReadBackSigned(-1, n);
    WidenKeepsValue(ToBits(-1, n), w, true);
  }

  lemma PowZero()
    ensures Pow2(0) == 1 && Pow2(1) == 2
  {
  }

  lemma TopRead(x: int, n: nat, signed: bool)
    requires n > 0 && Pow2(n - 1) <= x < Pow2(n)
    ensures IVal(ExtendBits(ToBits(x, n), n, signed), true) == x - Pow2(n)
  {
    hide Res, ToBits, UVal;
    var v := ToBits(x, n);
    assert v[..n] == v;
    ReadBackUnsigned(x, n);
    TopBit(v);
  }

  /** Operands whose product the first adder misreads. */
  lemma ProductMisread(m: Idiom) returns (x: int, z: int, n: nat)
    requires WellFormed(m) && CutsOk(m) && !ProductReadOk(m)
    ensures InRange(x, m.aWidth, m.mulSigned) && InRange(z, m.bWidth, m.mulSigned)
    ensures n < m.y && n <= m.opWidth && OffBy(ReadProduct(m, x * z), x * z, n)
  {
    hide Res, ToBits, UVal, SVal, Pow2, ExtendBits, MaxProduct;
    if m.mulSigned {
      x, z := if m.aWidth > 1 then 1 else -1, if m.aWidth > 1 then -1 else 1;
      n := m.opWidth;
      UnitsInRange(m.aWidth);
      UnitsInRange(m.bWidth);
      MinusOneRead(m.kept, m.opWidth);
    } else {
      x, z := LargestOperands(m.aWidth, m.bWidth, false);
      n := m.kept;
      LargestBelow(m.aWidth, m.bWidth, m.kept);
      TopRead(x * z, m.kept, false);
    }
  }

  lemma UnitsInRange(n: nat)
    requires n > 0
    ensures InRange(-1, n, true) && (n > 1 ==> InRange(1, n, true))
  {
    Pow2Mono(0, n - 1);
    if n > 1 { Pow2Mono(1, n - 1); }
    PowZero();
  }

  lemma LargestBelow(a: nat, b: nat, n: nat)
    requires a > 0 && b > 0 && a + b <= n
    ensures MaxProduct(a, b, false) < Pow2(n)
  {
    Pow2Add(a, b);
    Pow2Mono(a + b, n);
    assert (Pow2(a) - 1) * (Pow2(b) - 1) == Pow2(a) * Pow2(b) - Pow2(a) - Pow2(b) + 1;
  }

  /** And operands whose first sum the second adder misreads. */
  lemma SumMisread(m: Idiom) returns (x: int, z: int, o: int, n: nat)
    requires WellFormed(m) && CutsOk(m) && m.shape.MultAccC? && ProductReadOk(m) && !SumReadOk(m)
    ensures InRange(x, m.aWidth, m.mulSigned) && InRange(z, m.bWidth, m.mulSigned) && InRange(o, OtherWidth(m), m.addSigned)
    ensures n < m.y && OffBy(ReadSum(m, o + ReadProduct(m, x * z)), x * z + o, n)
  {
    hide Res, ToBits, UVal, SVal, Pow2, ExtendBits, MaxProduct, ReadProduct, ProductReadOk, InRange;
    if m.addSigned {
      x, z, o, n := 0, 0, -1, m.accOpWidth;
      NoneInRange(m.aWidth, m.mulSigned);
      NoneInRange(m.bWidth, m.mulSigned);
      UnitsInRange(OtherWidth(m));
      NoProduct(m);
      MinusOneRead(m.keptSum, m.accOpWidth);
    } else {
      x, z := LargestOperands(m.aWidth, m.bWidth, m.mulSigned);
      o, n := LargestOf(OtherWidth(m), false), m.keptSum;
      LargestInRange(OtherWidth(m));
      var i, q := MakeInputs(m, x, z, o);
      ProductRead(m, i);
      SumKept(m, x * z, Other(m, i, q));
      var s := o + x * z;
      ValueInRange(ToBits(s, m.keptSum), false);
      BelowTop(s, m.keptSum);
      TopRead(s, m.keptSum, false);
    }
  }

  lemma BelowTop(s: int, n: nat)
    requires n > 0 && InRange(s, n, false)
    ensures s < Pow2(n)
  {
  }

  lemma NoneInRange(n: nat, signed: bool)
    requires n > 0
    ensures InRange(0, n, signed)
  {
  }

  lemma LargestInRange(n: nat)
    requires n > 0
    ensures InRange(LargestOf(n, false), n, false)
  {
  }

  lemma NoProduct(m: Idiom)
    requires WellFormed(m)
    ensures ReadProduct(m, 0) == 0
  {
    SmallPadded(0, m.kept, m.opWidth, m.mulSigned, m.addSigned);
  }

  lemma ProductLost(m: Idiom) returns (i: Inputs, q: seq<bool>)
    requires WellFormed(m) && CutsOk(m) && !ProductReadOk(m)
    ensures Sized(m, i) && |q| == m.read && !Agrees(m, i, q)
  {
    hide Res, ToBits, UVal, SVal, IVal, Pow2, ReadProduct, ReadSum, InRange, ProductReadOk, Agrees;
    var x, z, n := ProductMisread(m);
    NoneInRange(OtherWidth(m), m.addSigned);
    i, q := MakeInputs(m, x, z, 0);
    var p, r := x * z, ReadProduct(m, x * z);
    if Agrees(m, i, q) {
      AgreesLow(m, i, q);
      if m.shape.MultAccC? {
        var t := Min(m.y, m.keptSum);
        SumLow(m, r, t);
        CongWeaken(ReadSum(m, r), p, t, m.y);
        OffShows(r, p, n, t);
      } else {
        if m.dir == SubProduct { CongAdd(0, 0, -r, -p, Pow2(m.y)); }
        OffShows(r, p, n, m.y);
      }
      assert false;
    }
  }

  lemma SumLow(m: Idiom, x: int, t: nat)
    requires WellFormed(m) && m.shape.MultAccC? && t <= m.keptSum
    ensures Cong(ReadSum(m, x), x, Pow2(t))
  {
    hide Res, ToBits, UVal, SVal, IVal, Pow2, ExtendBits;
    PaddedCong(x, m.keptSum, m.accOpWidth, m.addSigned, m.accSigned, t);
  }

  lemma SumLost(m: Idiom) returns (i: Inputs, q: seq<bool>)
    requires WellFormed(m) && CutsOk(m) && m.shape.MultAccC? && ProductReadOk(m) && !SumReadOk(m)
    ensures Sized(m, i) && |q| == m.read && !Agrees(m, i, q)
  {
    hide Res, ToBits, UVal, SVal, IVal, Pow2, ReadProduct, ReadSum, InRange, ProductReadOk, SumReadOk, Agrees;
    var x, z, o, n := SumMisread(m);
    i, q := MakeInputs(m, x, z, o);
    if Agrees(m, i, q) {
      AgreesLow(m, i, q);
      OffShows(ReadSum(m, o + ReadProduct(m, x * z)), x * z + o, n, m.y);
      assert false;
    }
  }

  /** One turn out of the range of `n` bits, above or below. */
  predicate TurnOut(x: int, n: nat, signed: bool)
    requires n > 0
  {
    InRange(x - Pow2(n), n, signed) || InRange(x + Pow2(n), n, signed)
  }

  /** Whatever was cut to `y` bits, it is not read as a value one turn out. */
  lemma OutShows(sum: int, value: int, x: int, y: nat, read: nat, signed: bool)
    requires 0 < y < read && TurnOut(x, y, signed) && Cong(value, x, Pow2(read))
    ensures !Cong(IVal(ToBits(sum, y), signed), value, Pow2(read))
  {
    hide Res, ToBits, UVal, SVal, IVal, Pow2, InRange;
    var v := ToBits(sum, y);
    if Cong(IVal(v, signed), value, Pow2(read)) {
      IValCong(v, signed);
      ToBitsCong(sum, y);
      CongWeaken(IVal(v, signed), x, y, read);
      ToBitsOfCong(sum, x, y);
      CutShows(x, y, signed, read);
      assert false;
    }
  }

  lemma Reassociate(u: int, a: int, w: int, b: int)
    ensures (u * a) * (w * b) == (u * w) * (a * b)
  {
    assert (u * a) * (w * b) == u * (a * (w * b));
    assert a * (w * b) == w * (a * b);
    assert u * (w * (a * b)) == (u * w) * (a * b);
  }

  /** A product that passes `h` can be brought back to pass it by less than one step of `t`. */
  lemma BringBack(x: int, z: int, e: int, h: int, t: int) returns (x': int, z': int)
    requires (e == 1 || e == -1) && 0 < h <= t && e * (x * z) >= h
    ensures Toward(x', x) && Toward(z', z) && h <= e * (x' * z') < h + t
  {
    var a, b := if x < 0 then -x else x, if z < 0 then -z else z;
    var u, w := if x < 0 then -1 else 1, if z < 0 then -1 else 1;
    assert a * b >= h by { AbsProduct(x, z); }
    assert u * w == e by { SignOf(x, z, e); }
    var i, j := if b >= h then 1 else (h + b - 1) / b, if b >= h then h else b;
    if b < h {
      RoundUp(a, b, h);
    } else {
      assert a >= 1;
    }
    x', z' := u * i, w * j;
    Reassociate(u, i, w, j);
    assert e * (e * (i * j)) == i * j;
  }

  lemma AbsProduct(x: int, z: int)
    ensures var a, b := if x < 0 then -x else x, if z < 0 then -z else z;
      x * z <= a * b && -(x * z) <= a * b
  {
  }

  lemma SignOf(x: int, z: int, e: int)
    requires (e == 1 || e == -1) && e * (x * z) > 0
    ensures (if x < 0 then -1 else 1) * (if z < 0 then -1 else 1) == e
  {
    if x < 0 && z < 0 {
      AbsProductBound(-x, -z, -x, -z);
      assert x * z == -x * -z;
    } else if x >= 0 && z >= 0 {
      assert x * z >= 0;
    } else {
      assert x * z <= 0;
    }
  }

  lemma RoundUp(a: nat, b: nat, h: int)
    requires 0 < h && b < h && a * b >= h
    ensures b > 0 && 1 <= (h + b - 1) / b <= a && h <= ((h + b - 1) / b) * b < h + b
  {
    var i := (h + b - 1) / b;
    assert b > 0;
    assert i * b <= h + b - 1 < i * b + b;
    assert (i - 1) * b == i * b - b;
    if i > a {
      Grows(a, i - 1, b);
      assert false;
    }
    if i < 1 {
      Grows(i, 0, b);
      assert false;
    }
  }

  lemma Grows(x: int, y: int, b: nat)
    requires x <= y
    ensures x * b <= y * b
  {
    assert (y - x) * b >= 0;
  }

  /** The same for a product and an addend together. */
  lemma BringBackSum(x: int, z: int, e: int, o: int, f: int, h: int, t: int) returns (x': int, z': int, o': int)
    requires (e == 1 || e == -1) && (f == 1 || f == -1) && 0 < h <= t
    requires e * (x * z) + f * o >= h
    ensures Toward(x', x) && Toward(z', z) && Toward(o', o) && h <= e * (x' * z') + f * o' < h + t
  {
    if e * (x * z) >= h {
      x', z' := BringBack(x, z, e, h, t);
      o' := 0;
    } else if e * (x * z) >= 0 {
      x', z', o' := x, z, f * (h - e * (x * z));
    } else {
      x', z', o' := 0, 0, f * h;
    }
  }

  function SignOfProduct(d: Direction): int {
    if d == SubProduct then -1 else 1
  }

  function SignOfOther(d: Direction): int {
    if d == ReverseSub then -1 else 1
  }

  lemma DirectedIs(d: Direction, p: int, o: int)
    ensures Directed(d, p, o) == SignOfProduct(d) * p + SignOfOther(d) * o
    ensures -Directed(d, p, o) == -SignOfProduct(d) * p + -SignOfOther(d) * o
  {
  }

  /** Operands of the largest sum, or of the least. */
  lemma ExtremeOperands(m: Idiom, top: bool) returns (x: int, z: int, o: int)
    requires WellFormed(m)
    ensures InRange(x, m.aWidth, m.mulSigned) && InRange(z, m.bWidth, m.mulSigned) && InRange(o, OtherWidth(m), m.addSigned)
    ensures Directed(m.dir, x * z, o) == if top then LargestSum(m) else LeastSum(m)
  {
    hide Pow2, MaxProduct, MinProduct;
    if (m.dir == SubProduct) == top {
      x, z := LeastOperands(m.aWidth, m.bWidth, m.mulSigned);
    } else {
      x, z := LargestOperands(m.aWidth, m.bWidth, m.mulSigned);
    }
    o := if (m.dir == ReverseSub) == top then LeastOf(OtherWidth(m), m.addSigned) else LargestOf(OtherWidth(m), m.addSigned);
  }

  lemma TurnAbove(v: int, y: nat, signed: bool)
    requires y > 0 && LargestOf(y, signed) < v <= LargestOf(y, signed) + Pow2(y)
    ensures TurnOut(v, y, signed)
  {
  }

  lemma TurnBelow(v: int, y: nat, signed: bool)
    requires y > 0 && LeastOf(y, signed) - Pow2(y) <= v < LeastOf(y, signed)
    ensures TurnOut(v, y, signed)
  {
  }

  lemma HalfTurn(y: nat, signed: bool)
    requires y > 0
    ensures 0 <= LargestOf(y, signed) < Pow2(y) && -Pow2(y) < LeastOf(y, signed) <= 0
  {
  }

  /** A sum out of the range, so one that is out of it by less than a turn. */
  lemma OneTurnOut(m: Idiom, top: bool) returns (x: int, z: int, o: int)
    requires WellFormed(m)
    requires if top then LargestSum(m) > LargestOf(m.y, m.addSigned) else LeastSum(m) < LeastOf(m.y, m.addSigned)
    ensures InRange(x, m.aWidth, m.mulSigned) && InRange(z, m.bWidth, m.mulSigned) && InRange(o, OtherWidth(m), m.addSigned)
    ensures TurnOut(Directed(m.dir, x * z, o), m.y, m.addSigned)
  {
    hide Pow2, InRange, TurnOut, LargestSum, LeastSum, LargestOf, LeastOf, Directed;
    var s := if top then 1 else -1;
    var e, f := s * SignOfProduct(m.dir), s * SignOfOther(m.dir);
    var h := if top then LargestOf(m.y, m.addSigned) + 1 else 1 - LeastOf(m.y, m.addSigned);
    HalfTurn(m.y, m.addSigned);
    var x0, z0, o0 := ExtremeOperands(m, top);
    DirectedIs(m.dir, x0 * z0, o0);
    x, z, o := BringBackSum(x0, z0, e, o0, f, h, Pow2(m.y));
    TowardInRange(x, x0, m.aWidth, m.mulSigned);
    TowardInRange(z, z0, m.bWidth, m.mulSigned);
    TowardInRange(o, o0, OtherWidth(m), m.addSigned);
    var v := Directed(m.dir, x * z, o);
    DirectedIs(m.dir, x * z, o);
    if top {
      TurnAbove(v, m.y, m.addSigned);
    } else {
      TurnBelow(v, m.y, m.addSigned);
    }
  }

  /** Read above its Y, a sum one turn out of the range shows. */
  lemma RangeLost(m: Idiom) returns (i: Inputs, q: seq<bool>)
    requires WellFormed(m) && CutsOk(m) && !RangeOk(m)
    ensures Sized(m, i) && |q| == m.read && !Agrees(m, i, q)
  {
    hide Res, ToBits, UVal, SVal, IVal, Pow2, InRange, TurnOut, LeastSum, LargestSum;
    if m.shape.MultAccC? {
      i, q := FeedbackOut(m);
    } else {
      SumRange(m);
      var x, z, o := OneTurnOut(m, LargestSum(m) > LargestOf(m.y, m.addSigned));
      i, q := MakeInputs(m, x, z, o);
      OutShows(RtlSum(m, i, q), Ideal(m, i, q), Directed(m.dir, x * z, o), m.y, m.read, m.addSigned);
    }
  }

  /** Out of range above or below. */
  lemma SumRange(m: Idiom)
    requires WellFormed(m) && !(InRange(LeastSum(m), m.y, m.addSigned) && InRange(LargestSum(m), m.y, m.addSigned))
    ensures LargestSum(m) > LargestOf(m.y, m.addSigned) || LeastSum(m) < LeastOf(m.y, m.addSigned)
  {
    hide MaxProduct, MinProduct;
    ProductsAroundZero(m.aWidth, m.bWidth, m.mulSigned);
  }

  lemma ProductsAroundZero(a: nat, b: nat, signed: bool)
    requires a > 0 && b > 0
    ensures MinProduct(a, b, signed) <= 0 <= MaxProduct(a, b, signed)
  {
    hide Pow2, MaxProduct, MinProduct;
    NoneInRange(a, signed);
    NoneInRange(b, signed);
    ProductWithin(0, 0, a, b, signed);
  }

  /** Any register read above the last Y, fed back, is more than the padding stands for. */
  lemma FeedbackOut(m: Idiom) returns (i: Inputs, q: seq<bool>)
    requires WellFormed(m) && m.shape.MultAccC? && m.read > m.y
    ensures Sized(m, i) && |q| == m.read && !Agrees(m, i, q)
  {
    hide Res, ToBits, UVal, SVal, IVal, Pow2, InRange, TurnOut, RtlSum;
    var h := LargestOf(m.y, m.accSigned) + 1;
    q := ToBits(h, m.read);
    i := Inputs(ToBits(0, m.aWidth), ToBits(0, m.bWidth), ToBits(0, m.cWidth), false, true);
    Zero(m.aWidth, m.mulSigned);
    Zero(m.cWidth, m.addSigned);
    Zero(m.cWidth, m.accSigned);
    IValCong(q, m.addSigned);
    IValCong(q, m.accSigned);
    ToBitsCong(h, m.read);
    JustOut(m.y, m.accSigned);
    OutShows(RtlSum(m, i, q), Ideal(m, i, q), h, m.y, m.read, m.accSigned);
  }

  lemma JustOut(y: nat, signed: bool)
    requires y > 0
    ensures TurnOut(LargestOf(y, signed) + 1, y, signed)
  {
  }

  // ---- Both ways ---------------------------------------------------------------------------

  /** On every input, register and matching accumulator, the low bits of P are the RTL's result. */
  ghost predicate AlwaysAgrees(m: Idiom)
    requires WellFormed(m)
  {
    forall i, q, p :: Sized(m, i) && |q| == m.read && PortP(p)[..m.read] == q ==>
      PortP(DspResult(m, i, p))[..m.read] == RtlResult(m, i, q)
  }

  /**
   Of the idioms the cut guards let through, exactly these are right on every
   input: signednesses that do not disagree where the disagreement shows, and
   no register above the last adder's Y that the sum could leave the range of.
   */
  lemma AgreesIff(m: Idiom)
    requires WellFormed(m) && CutsOk(m)
    ensures AlwaysAgrees(m) <==> Exact(m)
  {
    hide Res, ToBits, UVal, SVal, IVal, Pow2, DspResult, RtlResult, Agrees, ProductReadOk, SumReadOk, RangeOk;
    if Exact(m) {
      forall i, q, p | Sized(m, i) && |q| == m.read && PortP(p)[..m.read] == q
        ensures PortP(DspResult(m, i, p))[..m.read] == RtlResult(m, i, q)
      {
        ExactAgrees(m, i, q);
        AgreesMeans(m, i, q, p);
      }
    } else {
      var i, q;
      if !ProductReadOk(m) {
        i, q := ProductLost(m);
      } else if m.shape.MultAccC? && !SumReadOk(m) {
        i, q := SumLost(m);
      } else {
        i, q := RangeLost(m);
      }
      var p := UVal(q);
      Holds(q, m.read);
      AgreesMeans(m, i, q, p);
    }
  }

  /** An accumulator that holds the register. */
  lemma Holds(q: seq<bool>, read: nat)
    requires |q| == read <= P_WIDTH
    ensures PortP(UVal(q))[..read] == q
  {
    hide Res, ToBits, UVal, Pow2;
    ToBitsLow(UVal(q), read, P_WIDTH);
    ToBitsUVal(q, UVal(q));
  }

  /** The two cuts `emit` checks; what is right of the idioms that pass is decided by `Exact`. */
  method CutsAllow(m: Idiom) returns (ok: bool)
    requires WellFormed(m)
    ensures ok ==> (AlwaysAgrees(m) <==> Exact(m))
    ensures !ok ==> m.kept < m.read || (m.shape.MultAccC? && m.keptSum < m.read)
    ensures ok <==> CutsOk(m)
  {
    hide AlwaysAgrees, Exact;
    var fullProduct := m.aWidth + m.bWidth;
    if m.kept < fullProduct && m.read > m.kept {
      return false;
    }
    if m.shape.MultAccC? {
      var fullSum := Max(m.opWidth, OtherWidth(m)) + 1;
      if m.keptSum < fullSum && m.read > m.keptSum {
        return false;
      }
    }
    AgreesIff(m);
    return true;
  }

  /** With one signedness throughout and no wider register, the guards are all there is to check. */
  lemma OneSignednessExact(m: Idiom)
    requires WellFormed(m) && m.mulSigned == m.addSigned == m.accSigned && m.read == m.y
    ensures Exact(m)
  {
  }

  /** A fed-back register has to be as wide as the last Y. */
  lemma FeedbackExactWidth(m: Idiom)
    requires WellFormed(m) && !m.shape.MultAddC? && Exact(m)
    ensures m.read == m.y
  {
    hide MaxProduct, MinProduct;
    if m.read > m.y {
      Pow2Mono(m.y, m.read - 1);
      ProductsAroundZero(m.aWidth, m.bWidth, m.mulSigned);
      Pow2Mono(0, m.y - 1);
      PowZero();
      if !m.addSigned { Doubling(m.read - 1); }
      assert false;
    }
  }

  // ---- Every run -------------------------------------------------------------------

  function RtlRun(m: Idiom, ins: seq<Inputs>, q0: seq<bool>): seq<bool> {
    if ins == [] then q0
    else RtlNext(m, ins[|ins| - 1], RtlRun(m, ins[..|ins| - 1], q0))
  }

  function DspRun(m: Idiom, ins: seq<Inputs>, p0: int): int {
    if ins == [] then p0
    else DspNext(m, ins[|ins| - 1], DspRun(m, ins[..|ins| - 1], p0))
  }

  /**
   On every cycle of every run the low bits of P are the RTL's register, and
   without a register they are the RTL's sum.
   */
  lemma {:induction false} LowBitsAgree(m: Idiom, ins: seq<Inputs>, q0: seq<bool>, p0: int)
    requires WellFormed(m) && CutsOk(m) && Exact(m)
    requires forall k :: 0 <= k < |ins| ==> Sized(m, ins[k])
    requires |q0| == m.read && PortP(p0)[..m.read] == q0
    ensures |RtlRun(m, ins, q0)| == m.read
    ensures PortP(DspRun(m, ins, p0))[..m.read] == RtlRun(m, ins, q0)
    ensures forall i: Inputs :: Sized(m, i) ==>
      PortP(DspResult(m, i, DspRun(m, ins, p0)))[..m.read] == RtlResult(m, i, RtlRun(m, ins, q0))
  {
    hide Res, ToBits, UVal, SVal, IVal, Pow2, DspResult, RtlResult, Exact;
    AgreesIff(m);
    var q, p := RtlRun(m, ins, q0), DspRun(m, ins, p0);
    if ins != [] {
      var n := |ins| - 1;
      LowBitsAgree(m, ins[..n], q0, p0);
      ToBitsLow(p, m.read, P_WIDTH);
    }
  }

  // ---- Instances ------------------------------------------------------------------------

  /** An unsigned idiom that passes both guards and reads a wrong fifth bit: 3 * 3 + 9 in a 4-bit Y under a 5-bit register. */
  lemma WideRegisterDiffers()
    ensures var m := Idiom(MultAddC, AddProduct, false, false, false, 2, 2, 4, 4, 4, 4, 4, 4, 5);
      WellFormed(m) && CutsOk(m) && !AlwaysAgrees(m)
  {
    hide AlwaysAgrees;
    var m := Idiom(MultAddC, AddProduct, false, false, false, 2, 2, 4, 4, 4, 4, 4, 4, 5);
    PowZero();
    assert Pow2(2) == 4 && Pow2(3) == 8 && Pow2(4) == 16;
    assert LargestSum(m) == 24;
    AgreesIff(m);
  }

  /** With a one-bit C the same register is right. */
  lemma NarrowAddendAgrees()
    ensures var m := Idiom(MultAddC, AddProduct, false, false, false, 2, 2, 4, 4, 1, 4, 4, 4, 5);
      WellFormed(m) && CutsOk(m) && AlwaysAgrees(m)
  {
    hide AlwaysAgrees;
    var m := Idiom(MultAddC, AddProduct, false, false, false, 2, 2, 4, 4, 1, 4, 4, 4, 5);
    PowZero();
    assert Pow2(2) == 4 && Pow2(3) == 8 && Pow2(4) == 16;
    assert LargestSum(m) == 10 && LeastSum(m) == 0;
    AgreesIff(m);
  }

  /** A signed 4x4 product in an unsigned 9-bit add: the DSP sign-extends where the RTL does not. */
  lemma MixedSignednessDiffers()
    ensures var m := Idiom(MultAddC, AddProduct, true, false, false, 4, 4, 8, 8, 9, 9, 9, 9, 9);
      WellFormed(m) && CutsOk(m) && !AlwaysAgrees(m)
  {
    hide AlwaysAgrees;
    var m := Idiom(MultAddC, AddProduct, true, false, false, 4, 4, 8, 8, 9, 9, 9, 9, 9);
    AgreesIff(m);
  }
}
