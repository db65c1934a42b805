/**
 Folding an adder in front of a multiply into the DSP's pre-adder, which
 computes D + X or D - X in 32 wrapping bits and, on the B path, hands only the
 low 18 of them to the multiplier.
 */
module Preadder {
  import opened Bits
  import opened Operand

  const AD_WIDTH: nat := 32

  /** An adder feeding a multiply operand. */
  datatype Adder = Adder(sub: bool, a: Operand, b: Operand, y: Sig)

  /** The D and Q of a register between the adder and the multiply. */
  datatype AdFlop = AdFlop(d: Sig, q: Sig)

  datatype Candidate = Candidate(adder: Adder, onA: bool, flop: Option<AdFlop>)

  /** A folded sum: AD reaches port A whole, or port B cut to 18 bits. */
  datatype Fold = Fold(candidate: Candidate, onAPath: bool, d: Operand, x: Operand, other: Operand)

  // ---- How wide a signed value is ------------------------------------------

  method SignedWidth(sig: Sig) returns (w: nat)
    ensures w == |StripCopies(sig)|
  {
    var n := |sig|;
    if n <= 1 {
      return n;
    }
    var i := n - 2;
    assert sig[..n] == sig;
    while i >= 0 && sig[i] == sig[n - 1]
      invariant -1 <= i <= n - 2 && sig[i + 1] == sig[n - 1]
      invariant StripCopies(sig[..i + 2]) == StripCopies(sig)
    {
      assert sig[..i + 2][..i + 1] == sig[..i + 1];
      i := i - 1;
    }
    return i + 2;
  }

  function SumWidth(p: Adder): nat {
    Max(|StripCopies(p.a.sig)|, |StripCopies(p.b.sig)|) + 1
  }

  method PreadderSumWidth(p: Adder) returns (w: nat)
    ensures w == SumWidth(p)
  {
    var wa := SignedWidth(p.a.sig);
    var wb := SignedWidth(p.b.sig);
    return Max(wa, wb) + 1;
  }

  lemma SignedWidthRange(s: Sig, e: Env)
    ensures var w := Max(|StripCopies(s)|, 1);
            -Pow2(w - 1) <= SVal(Eval(s, e)) < Pow2(w - 1)
  {
    StripCopiesValue(s, e);
    if |s| > 0 {
      StripCopiesTop(s);
      SValRange(Eval(StripCopies(s), e));
    }
  }

  function Combine(sub: bool, x: int, y: int): int {
    if sub then x - y else x + y
  }

  /** `SumWidth` bits hold the sum or difference of two signed operands. */
  lemma SumWidthHolds(p: Adder, e: Env)
    requires p.a.signed && p.b.signed
    ensures var v := Combine(p.sub, p.a.Value(e), p.b.Value(e));
            -Pow2(SumWidth(p) - 1) <= v < Pow2(SumWidth(p) - 1)
  {
    SignedWidthRange(p.a.sig, e);
    SignedWidthRange(p.b.sig, e);
    var n := SumWidth(p) - 1;
    if n == 0 {
      assert StripCopies(p.a.sig) == [] && StripCopies(p.b.sig) == [];
      StripCopiesValue(p.a.sig, e);
      StripCopiesValue(p.b.sig, e);
    } else {
      Pow2Mono(Max(|StripCopies(p.a.sig)|, 1) - 1, n - 1);
      Pow2Mono(Max(|StripCopies(p.b.sig)|, 1) - 1, n - 1);
      assert Pow2(n) == 2 * Pow2(n - 1);
    }
  }

  // ---- The guards ------------------------------------------------------------

  /** What the multiply reads the sum through: the adder's side of any register. */
  function SumPort(c: Candidate, ma: Operand, mb: Operand): Sig {
    if c.flop.Some? then c.flop.value.d else MulPort(c, ma, mb).sig
  }

  function MulPort(c: Candidate, ma: Operand, mb: Operand): Operand {
    if c.onA then ma else mb
  }

  /** The bits of `port` from `from` up are an extension of the bits below. */
  predicate PaddedFrom(port: Sig, from: nat, pad: Bit) {
    forall i :: from <= i < |port| ==> port[i] == pad
  }

  /** None of the reasons to leave the adder in fabric applies. */
  predicate Safe(c: Candidate, ma: Operand, mb: Operand, mulY: nat) {
    var p, port := c.adder, MulPort(c, ma, mb);
    && |p.y| >= SumWidth(p)
    && p.a.signed == port.signed && p.b.signed == port.signed
    && (c.flop.Some? ==> |port.sig| >= SumWidth(p))
    && (p.sub && !port.signed ==> mulY <= |p.y|)
    && PaddedFrom(SumPort(c, ma, mb), |p.y|, if port.signed then p.y[|p.y| - 1] else Const(false))
  }

  method CheckSafe(c: Candidate, ma: Operand, mb: Operand, mulY: nat) returns (ok: bool)
    ensures ok == Safe(c, ma, mb, mulY)
  {
    var p := c.adder;
    var port := if c.onA then ma else mb;
    var sumPort := if c.flop.Some? then c.flop.value.d else port.sig;
    var needed := PreadderSumWidth(p);
    if |p.y| < needed {
      return false;
    } else if p.a.signed != port.signed || p.b.signed != port.signed {
      return false;
    } else if c.flop.Some? && |port.sig| < needed {
      return false;
    } else if p.sub && !port.signed && mulY > |p.y| {
      return false;
    }
    var i := |p.y|;
    while i < |sumPort|
      invariant |p.y| <= i
      invariant forall j :: |p.y| <= j < i && j < |sumPort| ==>
        sumPort[j] == if port.signed then p.y[|p.y| - 1] else Const(false)
    {
      if sumPort[i] != if port.signed then p.y[|p.y| - 1] else Const(false) {
        return false;
      }
      i := i + 1;
    }
    return true;
  }

  // ---- Orientation and path ---------------------------------------------------

  predicate SidesFit(d: Operand, x: Operand, xPort: nat) {
    Fits(|d.sig|, d.signed, D_WIDTH) && Fits(|x.sig|, x.signed, xPort)
  }

  /** An order the hardware can compute: an addition either way, a subtraction as written. */
  predicate Ordered(p: Adder, d: Operand, x: Operand) {
    (d, x) == (p.a, p.b) || (!p.sub && (d, x) == (p.b, p.a))
  }

  /** Of the orders that fit, one that absorbs the most registers, and as written unless the other absorbs more. */
  ghost predicate BestOrder(p: Adder, xPort: nat, stages: (Sig, Sig) -> nat, d: Operand, x: Operand) {
    && Ordered(p, d, x) && SidesFit(d, x, xPort)
    && (forall d', x' :: Ordered(p, d', x') && SidesFit(d', x', xPort) ==> stages(d'.sig, x'.sig) <= stages(d.sig, x.sig))
    && (SidesFit(p.a, p.b, xPort) && stages(p.a.sig, p.b.sig) == stages(d.sig, x.sig) ==> (d, x) == (p.a, p.b))
  }

  /** An addition may swap its operands to fit, or to absorb more registers. */
  method Orient(p: Adder, xPort: nat, stages: (Sig, Sig) -> nat)
      returns (fits: bool, d: Operand, x: Operand)
    ensures Ordered(p, d, x)
    ensures fits <==> exists d', x' :: Ordered(p, d', x') && SidesFit(d', x', xPort)
    ensures fits ==> BestOrder(p, xPort, stages, d, x)
  {
    assert Ordered(p, p.a, p.b) && (!p.sub ==> Ordered(p, p.b, p.a));
    var writtenFits := SidesFit(p.a, p.b, xPort);
    var swappedFits := SidesFit(p.b, p.a, xPort);
    var swappedAbsorbsMore := stages(p.b.sig, p.a.sig) > stages(p.a.sig, p.b.sig);
    var swap := !p.sub && swappedFits && (!writtenFits || swappedAbsorbsMore);
    d := if swap then p.b else p.a;
    x := if swap then p.a else p.b;
    fits := if swap then swappedFits else writtenFits;
  }

  /** What the chosen fold is known to satisfy. */
  predicate Accepted(f: Fold, ma: Operand, mb: Operand, mulY: nat) {
    var c, p := f.candidate, f.candidate.adder;
    && Safe(c, ma, mb, mulY)
    && Ordered(p, f.d, f.x)
    && f.other == (if c.onA then mb else ma)
    && SidesFit(f.d, f.x, if f.onAPath then A_WIDTH else B_WIDTH)
    && SumWidth(p) <= (if f.onAPath then AD_WIDTH else B_WIDTH)
    && Fits(|f.other.sig|, f.other.signed, if f.onAPath then B_WIDTH else A_WIDTH)
  }

  function PathWidth(f: Fold): nat {
    if f.onAPath then A_WIDTH else B_WIDTH
  }

  /** The wider sum of those that can be folded, the one on A of two as wide, on the A path if it can be. */
  ghost predicate Preferred(onA: Option<Candidate>, onB: Option<Candidate>, r: Fold, ma: Operand, mb: Operand, mulY: nat) {
    forall f: Fold :: Accepted(f, ma, mb, mulY) && (Some(f.candidate) == onA || Some(f.candidate) == onB) ==>
      && SumWidth(f.candidate.adder) <= SumWidth(r.candidate.adder)
      && (SumWidth(f.candidate.adder) == SumWidth(r.candidate.adder) && f.candidate.onA ==> r.candidate.onA)
      && (f.candidate == r.candidate && f.onAPath ==> r.onAPath)
  }

  /** The path and orientation tried for one candidate, A path first. */
  method TryFold(c: Candidate, ma: Operand, mb: Operand, mulY: nat, hasMode: bool, stages: (Sig, Sig) -> nat)
      returns (r: Option<Fold>)
    ensures r.Some? ==> hasMode && r.value.candidate == c && Accepted(r.value, ma, mb, mulY)
    ensures r.None? && hasMode ==> forall f: Fold :: f.candidate == c ==> !Accepted(f, ma, mb, mulY)
    ensures r.Some? ==> BestOrder(c.adder, PathWidth(r.value), stages, r.value.d, r.value.x)
    ensures r.Some? && !r.value.onAPath ==> forall f: Fold :: f.candidate == c && f.onAPath ==> !Accepted(f, ma, mb, mulY)
  {
    var p := c.adder;
    var other := if c.onA then mb else ma;
    var safe := CheckSafe(c, ma, mb, mulY);
    if !safe || !hasMode {
      return None;
    }
    var sumWidth := PreadderSumWidth(p);
    if sumWidth <= AD_WIDTH && Fits(|other.sig|, other.signed, B_WIDTH) {
      var fits, d, x := Orient(p, A_WIDTH, stages);
      if fits {
        return Some(Fold(c, true, d, x, other));
      }
    }
    if sumWidth <= B_WIDTH && Fits(|other.sig|, other.signed, A_WIDTH) {
      var fits, d, x := Orient(p, B_WIDTH, stages);
      if fits {
        return Some(Fold(c, false, d, x, other));
      }
    }
    return None;
  }

  /** Both multiply operands may be sums; the wider is tried first. */
  method FoldPreadder(onA: Option<Candidate>, onB: Option<Candidate>, squaring: bool,
                      ma: Operand, mb: Operand, mulY: nat, hasMode: bool, stages: (Sig, Sig) -> nat)
      returns (r: Option<Fold>)
    requires onA.Some? ==> onA.value.onA
    requires onB.Some? ==> !onB.value.onA
    ensures r.Some? ==> !squaring && (Some(r.value.candidate) == onA || Some(r.value.candidate) == onB)
    ensures r.Some? ==> Accepted(r.value, ma, mb, mulY)
    ensures r.None? && hasMode && !squaring ==>
      forall c, f: Fold :: (Some(c) == onA || Some(c) == onB) && f.candidate == c ==> !Accepted(f, ma, mb, mulY)
    ensures r.Some? ==> Preferred(onA, onB, r.value, ma, mb, mulY)
    ensures r.Some? ==> BestOrder(r.value.candidate.adder, PathWidth(r.value), stages, r.value.d, r.value.x)
  {
    hide Safe, SidesFit, BestOrder, SumWidth;
    var candidates: seq<Candidate> := [];
    if !squaring {
      if onA.Some? { candidates := candidates + [onA.value]; }
      if onB.Some? { candidates := candidates + [onB.value]; }
    }
    if |candidates| == 2 {
      var w0 := PreadderSumWidth(candidates[0].adder);
      var w1 := PreadderSumWidth(candidates[1].adder);
      if w1 > w0 { candidates := [candidates[1], candidates[0]]; }
    }
    assert !squaring && onA.Some? ==> onA.value in candidates;
    assert !squaring && onB.Some? ==> onB.value in candidates;
    assert forall c :: c in candidates ==> Some(c) == onA || Some(c) == onB;
    assert |candidates| <= 2 && forall c :: !squaring && (Some(c) == onA || Some(c) == onB) ==> c in candidates;
    assert |candidates| == 2 ==> SumWidth(candidates[1].adder) <= SumWidth(candidates[0].adder);
    assert |candidates| == 2 && SumWidth(candidates[1].adder) == SumWidth(candidates[0].adder) ==> candidates[0].onA;
    for i := 0 to |candidates|
      invariant hasMode ==> forall f: Fold :: f.candidate in candidates[..i] ==> !Accepted(f, ma, mb, mulY)
    {
      r := TryFold(candidates[i], ma, mb, mulY, hasMode, stages);
      if r.Some? { return r; }
      assert candidates[..i + 1] == candidates[..i] + [candidates[i]];
    }
    assert candidates[..|candidates|] == candidates;
    return None;
  }

  // ---- What the RTL and the DSP compute -----------------------------------------

  /** The pattern's own facts: the port carries the sum in its low bits. */
  predicate Matched(c: Candidate, ma: Operand, mb: Operand) {
    var p, port := c.adder, SumPort(c, ma, mb);
    && |p.y| <= |port| && port[..|p.y|] == p.y
    && (c.flop.Some? ==>
        && |c.flop.value.d| == |c.flop.value.q| >= |MulPort(c, ma, mb).sig|
        && c.flop.value.q[..|MulPort(c, ma, mb).sig|] == MulPort(c, ma, mb).sig)
  }

  /** The adder's Y carries its wrapped sum. */
  predicate AdderHolds(p: Adder, e: Env) {
    Eval(p.y, e) == ToBits(Combine(p.sub, p.a.Value(e), p.b.Value(e)), |p.y|)
  }

  /** The part of the sum port the multiply takes: all of it, unless a register is in the way. */
  function RtlSum(c: Candidate, ma: Operand, mb: Operand, e: Env): seq<bool>
    requires Matched(c, ma, mb)
  {
    Eval(SumPort(c, ma, mb), e)[..|MulPort(c, ma, mb).sig|]
  }

  /** AD, and the part of it the multiplier port gets. */
  function DspSum(f: Fold, e: Env): seq<bool> {
    var xPort := if f.onAPath then A_WIDTH else B_WIDTH;
    var d, x := Eval(AtPort(f.d, D_WIDTH), e), Eval(AtPort(f.x, xPort), e);
    ToBits(Combine(f.candidate.adder.sub, SVal(d), SVal(x)), AD_WIDTH)[..xPort]
  }

  lemma ReadBackPrefix(v: int, v': seq<bool>, n: nat, k: nat)
    requires 0 < n <= k <= |v'| && -Pow2(n - 1) <= v < Pow2(n - 1)
    requires v' == ToBits(v, |v'|)
    ensures SVal(v'[..k]) == v
  {
    hide *;
    ToBitsLow(v, k, |v'|);
    Pow2Mono(n - 1, k - 1);
    ReadBackSigned(v, k);
  }

  /** A port that extends a sum by its sign holds the sum at the port's own width. */
  lemma SumPortHolds(c: Candidate, ma: Operand, mb: Operand, mulY: nat, v: int, e: Env)
    requires Safe(c, ma, mb, mulY) && Matched(c, ma, mb) && MulPort(c, ma, mb).signed
    requires Eval(c.adder.y, e) == ToBits(v, |c.adder.y|)
    requires -Pow2(SumWidth(c.adder) - 1) <= v < Pow2(SumWidth(c.adder) - 1)
    ensures var port := Eval(SumPort(c, ma, mb), e); port == ToBits(v, |port|)
  {
    hide Res, ToBits, UVal, Pow2, StripCopies, SVal;
    var y, s := c.adder.y, SumPort(c, ma, mb);
    assert s == ExtendU0(y, |s|, true);
    EvalExtend(y, |s|, true, e);
    hide ExtendU0, ExtendBits;
    var w := Eval(y, e);
    assert w[..|y|] == w;
    ReadBackPrefix(v, w, SumWidth(c.adder), |y|);
    WidenKeepsValue(w, |s|, true);
    IValCong(Eval(s, e), true);
  }

  /**
   For signed operands the fold is exact on both paths and in either operand
   order: the multiplier port reads the RTL's sum as an integer.
   */
  lemma PreadderExact(f: Fold, ma: Operand, mb: Operand, mulY: nat, e: Env)
    requires Accepted(f, ma, mb, mulY) && Matched(f.candidate, ma, mb)
    requires MulPort(f.candidate, ma, mb).signed
    requires AdderHolds(f.candidate.adder, e)
    ensures SVal(DspSum(f, e)) == SVal(RtlSum(f.candidate, ma, mb, e))
         == Combine(f.candidate.adder.sub, f.candidate.adder.a.Value(e), f.candidate.adder.b.Value(e))
  {
    hide Res, ToBits, SVal, UVal, Pow2, Eval, StripCopies, StripZeros, PaddedFrom;
    var c, p := f.candidate, f.candidate.adder;
    var v := Combine(p.sub, p.a.Value(e), p.b.Value(e));
    SumWidthHolds(p, e);
    SumPortHolds(c, ma, mb, mulY, v, e);
    ReadBackPrefix(v, Eval(SumPort(c, ma, mb), e), SumWidth(p), |MulPort(c, ma, mb).sig|);
    var xPort := if f.onAPath then A_WIDTH else B_WIDTH;
    PortExact(f.d, D_WIDTH, e);
    PortExact(f.x, xPort, e);
    ReadBackPrefix(v, ToBits(v, AD_WIDTH), SumWidth(p), xPort);
  }

  /** A register without enable, one cycle on: cleared by its reset, else the value it sampled. */
  function Registered(sampled: seq<bool>, reset: bool): seq<bool> {
    if reset then Repeat(false, |sampled|) else sampled
  }

  /**
   With a register after the adder, what the multiply reads of it one cycle on
   is what the AD bank then gives the multiplier port.
   */
  lemma RegisteredSumExact(f: Fold, ma: Operand, mb: Operand, mulY: nat, e: Env, reset: bool)
    requires Accepted(f, ma, mb, mulY) && Matched(f.candidate, ma, mb)
    requires f.candidate.flop.Some? && MulPort(f.candidate, ma, mb).signed
    requires AdderHolds(f.candidate.adder, e)
    ensures var q := Registered(Eval(f.candidate.flop.value.d, e), reset);
            SVal(q[..|MulPort(f.candidate, ma, mb).sig|]) == SVal(Registered(DspSum(f, e), reset))
  {
    hide Res, ToBits, Pow2, UVal;
    PreadderExact(f, ma, mb, mulY, e);
    if reset {
      var n, k := |MulPort(f.candidate, ma, mb).sig|, |DspSum(f, e)|;
      assert Registered(Eval(f.candidate.flop.value.d, e), reset)[..n] == [] + Repeat(false, n);
      assert Registered(DspSum(f, e), reset) == [] + Repeat(false, k);
      UValPad([], false, n);
      UValPad([], false, k);
    }
  }

  // ---- Unsigned operands -----------------------------------------------------------

  /** The bits of an unsigned operand under its constant zeros. */
  function Trimmed(s: Sig): (r: Sig)
    ensures |r| <= |s|
  {
    if s != [] && s[|s| - 1] == Const(false) then Trimmed(s[..|s| - 1]) else s
  }

  lemma {:induction false} TrimmedValue(s: Sig, e: Env)
    ensures UVal(Eval(Trimmed(s), e)) == UVal(Eval(s, e)) < Pow2(|Trimmed(s)|)
  {
    if s != [] && s[|s| - 1] == Const(false) {
      var n := |s| - 1;
      TrimmedValue(s[..n], e);
      assert Eval(s, e)[..n] == Eval(s[..n], e);
    }
  }

  /** The width test sees all of an unsigned operand: what it strips is zeros. */
  predicate PlainTop(s: Sig) {
    |s| >= 2 && s[|s| - 2] == s[|s| - 1] ==> s[|s| - 1] == Const(false)
  }

  lemma PlainTopRange(s: Sig, e: Env)
    requires PlainTop(s)
    ensures UVal(Eval(s, e)) < Pow2(|StripCopies(s)|)
  {
    if |s| >= 2 && s[|s| - 2] == s[|s| - 1] {
      StripCopiesValue(s, e);
      StripCopiesTop(s);
      assert !Eval(s, e)[|s| - 1];
    }
  }

  lemma {:induction false} TrimmedStripped(s: Sig)
    requires PlainTop(s)
    ensures |Trimmed(s)| <= |StripCopies(s)|
  {
    if s != [] && s[|s| - 1] == Const(false) {
      var t := s[..|s| - 1];
      if |s| >= 2 && s[|s| - 2] == Const(false) {
        TrimmedStripped(t);
      }
    }
  }

  /** The sum the RTL means, and what the two sides make of it. */
  function TrueSum(f: Fold, e: Env): int {
    Combine(f.candidate.adder.sub, f.d.Value(e), f.x.Value(e))
  }

  /** Both ports carry their operands, and the pre-adder wraps at 32 bits and is cut to the path. */
  lemma DspSumIs(f: Fold, ma: Operand, mb: Operand, mulY: nat, e: Env)
    requires Accepted(f, ma, mb, mulY) && !MulPort(f.candidate, ma, mb).signed
    requires PlainTop(f.d.sig) && PlainTop(f.x.sig)
    ensures DspSum(f, e) == ToBits(TrueSum(f, e), PathWidth(f))
    ensures 0 <= f.d.Value(e) < Pow2(PathWidth(f) - 1) && 0 <= f.x.Value(e) < Pow2(PathWidth(f) - 1)
  {
    hide Res, ToBits, UVal, Pow2, SVal, StripZeros, StripCopies;
    PortExact(f.d, D_WIDTH, e);
    PortExact(f.x, PathWidth(f), e);
    ToBitsLow(TrueSum(f, e), PathWidth(f), AD_WIDTH);
    PlainTopRange(f.d.sig, e);
    PlainTopRange(f.x.sig, e);
    Pow2Mono(|StripCopies(f.d.sig)|, PathWidth(f) - 1);
    Pow2Mono(|StripCopies(f.x.sig)|, PathWidth(f) - 1);
  }

  /** How many bits of the adder's Y the multiply takes. */
  function TakenBits(c: Candidate, ma: Operand, mb: Operand): nat {
    Min(|c.adder.y|, |MulPort(c, ma, mb).sig|)
  }

  /** The multiply reads the wrapped sum, zero-extended, in as many bits as it takes. */
  lemma RtlSumIs(f: Fold, ma: Operand, mb: Operand, mulY: nat, e: Env)
    requires Accepted(f, ma, mb, mulY) && Matched(f.candidate, ma, mb) && !MulPort(f.candidate, ma, mb).signed
    requires AdderHolds(f.candidate.adder, e)
    ensures UVal(RtlSum(f.candidate, ma, mb, e)) == Res(TrueSum(f, e), Pow2(TakenBits(f.candidate, ma, mb)))
  {
    hide Res, ToBits, UVal, Pow2, StripCopies;
    var c, p := f.candidate, f.candidate.adder;
    var s, n, y, v := SumPort(c, ma, mb), |MulPort(c, ma, mb).sig|, Eval(p.y, e), TrueSum(f, e);
    assert s == ExtendU0(p.y, |s|, false);
    EvalExtend(p.y, |s|, false, e);
    var r := Eval(s, e)[..n];
    if n <= |p.y| {
      assert Eval(p.y, e)[..n] == r by { assert s[..n] == p.y[..n]; }
      ToBitsLow(v, n, |p.y|);
    } else {
      assert r == Eval(ExtendU0(p.y, n, false), e);
      EvalExtend(p.y, n, false, e);
      WidenKeepsValue(y, n, false);
    }
  }

  /** One more bit of room than the width test asks for, unless one addend is nothing but zeros. */
  predicate RoomForSum(f: Fold) {
    var d, x := |Trimmed(f.d.sig)|, |Trimmed(f.x.sig)|;
    Max(d, x) < PathWidth(f) - 1 || d == 0 || x == 0
  }

  /** With the room, the multiplier port reads an unsigned addition as the RTL does. */
  lemma UnsignedAddExact(f: Fold, ma: Operand, mb: Operand, mulY: nat, e: Env)
    requires Accepted(f, ma, mb, mulY) && Matched(f.candidate, ma, mb) && !MulPort(f.candidate, ma, mb).signed
    requires !f.candidate.adder.sub && AdderHolds(f.candidate.adder, e)
    requires PlainTop(f.d.sig) && PlainTop(f.x.sig) && RoomForSum(f)
    ensures SVal(DspSum(f, e)) == UVal(RtlSum(f.candidate, ma, mb, e)) == TrueSum(f, e)
  {
    hide Res, ToBits, UVal, Pow2, SVal, StripCopies, Trimmed;
    SumStaysWhole(f, ma, mb, mulY, e);
    DspSumIs(f, ma, mb, mulY, e);
    SumFitsPath(f, e);
    ReadBackSigned(TrueSum(f, e), PathWidth(f));
  }

  lemma SumFitsPath(f: Fold, e: Env)
    requires RoomForSum(f) && !f.d.signed && !f.x.signed && !f.candidate.adder.sub
    requires f.d.Value(e) < Pow2(PathWidth(f) - 1) && f.x.Value(e) < Pow2(PathWidth(f) - 1)
    ensures 0 <= TrueSum(f, e) < Pow2(PathWidth(f) - 1)
  {
    hide UVal, Trimmed;
    TrimmedValue(f.d.sig, e);
    TrimmedValue(f.x.sig, e);
    var d, x := |Trimmed(f.d.sig)|, |Trimmed(f.x.sig)|;
    if Max(d, x) < PathWidth(f) - 1 {
      Pow2Mono(d, PathWidth(f) - 2);
      Pow2Mono(x, PathWidth(f) - 2);
      Doubling(PathWidth(f) - 2);
    }
  }

  /** The guards keep the RTL's own sum from wrapping. */
  lemma SumStaysWhole(f: Fold, ma: Operand, mb: Operand, mulY: nat, e: Env)
    requires Accepted(f, ma, mb, mulY) && Matched(f.candidate, ma, mb) && !MulPort(f.candidate, ma, mb).signed
    requires !f.candidate.adder.sub && AdderHolds(f.candidate.adder, e)
    requires PlainTop(f.d.sig) && PlainTop(f.x.sig)
    ensures UVal(RtlSum(f.candidate, ma, mb, e)) == TrueSum(f, e)
  {
    hide Res, ToBits, UVal, Pow2, StripCopies;
    RtlSumIs(f, ma, mb, mulY, e);
    PlainTopRange(f.d.sig, e);
    PlainTopRange(f.x.sig, e);
    var w, t := SumWidth(f.candidate.adder), TakenBits(f.candidate, ma, mb);
    Pow2Mono(|StripCopies(f.d.sig)|, w - 1);
    Pow2Mono(|StripCopies(f.x.sig)|, w - 1);
    Doubling(w - 1);
    Pow2Mono(w, t);
    ResSmall(TrueSum(f, e), Pow2(t));
  }

  // ---- Folds whose bits are free ----------------------------------------------------------

  /** Distinct wires. */
  predicate FreeWires(s: Sig) {
    (forall i :: 0 <= i < |s| ==> s[i].Wire?) && forall i, j :: 0 <= i < j < |s| ==> s[i] != s[j]
  }

  /** Distinct wires take any values. */
  lemma {:induction false} FreeValues(s: Sig, v: seq<bool>) returns (e: Env)
    requires FreeWires(s) && |v| == |s|
    ensures Eval(s, e) == v
  {
    if s == [] {
      e := _ => false;
    } else {
      var n := |s| - 1;
      var e0 := FreeValues(s[..n], v[..n]);
      e := (w: nat) => if w == s[n].id then v[n] else e0(w);
      forall i | 0 <= i < |s| ensures BitVal(s[i], e) == v[i] {
        if i < n { assert Eval(s[..n], e0)[i] == v[..n][i]; }
      }
    }
  }

  /** Nothing ties the addends' bits to each other, to constants other than top zeros, or to the sum's. */
  predicate FreeFold(f: Fold) {
    FreeWires(Trimmed(f.d.sig) + Trimmed(f.x.sig) + f.candidate.adder.y)
  }

  lemma FreePlain(f: Fold)
    requires FreeFold(f)
    ensures PlainTop(f.d.sig) && PlainTop(f.x.sig)
  {
    var d, x, y := Trimmed(f.d.sig), Trimmed(f.x.sig), f.candidate.adder.y;
    var all := d + x + y;
    assert forall i :: 0 <= i < |d| ==> all[i] == d[i];
    assert forall i :: 0 <= i < |x| ==> all[|d| + i] == x[i];
    assert FreeWires(d) && FreeWires(x);
  }

  /** Any two values for the addends, with the adder's Y as it has to be. */
  lemma FreeSum(f: Fold, ma: Operand, mb: Operand, mulY: nat, dv: int, xv: int) returns (e: Env)
    requires Accepted(f, ma, mb, mulY) && !MulPort(f.candidate, ma, mb).signed && FreeFold(f)
    requires 0 <= dv < Pow2(|Trimmed(f.d.sig)|) && 0 <= xv < Pow2(|Trimmed(f.x.sig)|)
    ensures f.d.Value(e) == dv && f.x.Value(e) == xv && AdderHolds(f.candidate.adder, e)
  {
    hide Res, ToBits, UVal, Pow2, Trimmed, FreeWires, Safe;
    var d, x, y := Trimmed(f.d.sig), Trimmed(f.x.sig), f.candidate.adder.y;
    var sum := ToBits(Combine(f.candidate.adder.sub, dv, xv), |y|);
    var vd, vx := ToBits(dv, |d|), ToBits(xv, |x|);
    e := FreeValues(d + x + y, vd + vx + sum);
    var v := Eval(d + x + y, e);
    assert v == Eval(d, e) + Eval(x, e) + Eval(y, e);
    assert v[..|d|] == vd && v[|d|..|d| + |x|] == vx && v[|d| + |x|..] == sum;
    assert v[..|d|] == Eval(d, e) && v[|d|..|d| + |x|] == Eval(x, e) && v[|d| + |x|..] == Eval(y, e);
    TrimmedValue(f.d.sig, e);
    TrimmedValue(f.x.sig, e);
    ReadBackUnsigned(dv, |d|);
    ReadBackUnsigned(xv, |x|);
    SignsOf(f, ma, mb, mulY);
  }

  lemma SignsOf(f: Fold, ma: Operand, mb: Operand, mulY: nat)
    requires Accepted(f, ma, mb, mulY)
    ensures f.d.signed == f.x.signed == MulPort(f.candidate, ma, mb).signed
  {
    hide StripCopies, PaddedFrom;
  }

  /**
   The width test is a signed bound. Of the unsigned additions the guards
   accept, with free bits, exactly those with one more bit of room reach the
   multiplier as the sum on every input.
   */
  lemma UnsignedAddExactIff(f: Fold, ma: Operand, mb: Operand, mulY: nat)
    requires Accepted(f, ma, mb, mulY) && Matched(f.candidate, ma, mb) && !MulPort(f.candidate, ma, mb).signed
    requires !f.candidate.adder.sub && FreeFold(f)
    ensures (forall e: Env :: AdderHolds(f.candidate.adder, e) ==> SVal(DspSum(f, e)) == UVal(RtlSum(f.candidate, ma, mb, e)))
      <==> RoomForSum(f)
  {
    hide Res, ToBits, UVal, Pow2, SVal, Accepted, Matched, AdderHolds, DspSum, RtlSum, FreeFold, Trimmed;
    FreePlain(f);
    if RoomForSum(f) {
      forall e: Env | AdderHolds(f.candidate.adder, e) ensures SVal(DspSum(f, e)) == UVal(RtlSum(f.candidate, ma, mb, e)) {
        UnsignedAddExact(f, ma, mb, mulY, e);
      }
    } else {
      var e := SumWraps(f, ma, mb, mulY);
      assert AdderHolds(f.candidate.adder, e);
    }
  }

  lemma SumWraps(f: Fold, ma: Operand, mb: Operand, mulY: nat) returns (e: Env)
    requires Accepted(f, ma, mb, mulY) && Matched(f.candidate, ma, mb) && !MulPort(f.candidate, ma, mb).signed
    requires !f.candidate.adder.sub && FreeFold(f) && !RoomForSum(f)
    ensures AdderHolds(f.candidate.adder, e) && SVal(DspSum(f, e)) != UVal(RtlSum(f.candidate, ma, mb, e))
  {
    hide Res, ToBits, UVal, Pow2, SVal, Matched, AdderHolds, DspSum, RtlSum, FreeFold, Trimmed, Safe, StripCopies;
    var d, x, room := |Trimmed(f.d.sig)|, |Trimmed(f.x.sig)|, PathWidth(f) - 1;
    Pow2Mono(1, d);
    Pow2Mono(1, x);
    assert Pow2(1) == 2 by { Doubling(0); UnitValues(); }
    e := FreeSum(f, ma, mb, mulY, if d >= x then Pow2(d) - 1 else 1, if d >= x then 1 else Pow2(x) - 1);
    FreePlain(f);
    SumStaysWhole(f, ma, mb, mulY, e);
    DspSumIs(f, ma, mb, mulY, e);
    Pow2Mono(room, Max(d, x));
    SValRange(DspSum(f, e));
  }

  function Wires(first: nat, n: nat): Sig {
    seq(n, i requires 0 <= i < n => Wire(first + i))
  }

  /** The unsigned 26- plus 31-bit sum the guards accept. */
  function WideUnsignedFold(): Fold {
    var a, b := Operand(Wires(0, 26), false), Operand(Wires(26, 31), false);
    Fold(Candidate(Adder(false, a, b, Wires(57, 32)), true, None), true, a, b, Operand(Wires(89, 8), false))
  }

  lemma TopBitOnly(v: seq<bool>)
    requires |v| == 32 && v[31] && forall i :: 0 <= i < 31 ==> !v[i]
    ensures UVal(v) == Pow2(31) && SVal(v) < 0 && v == ToBits(Pow2(31), 32)
  {
    hide Pow2, Res, ToBits;
    assert v[..31] == [] + Repeat(false, 31);
    UValPad([], false, 31);
    ToBitsUVal(v, Pow2(31));
  }

  /** One, and 2^31 - 1: their sum is the top bit of a 32-bit Y. */
  lemma WideUnsignedValues(f: Fold, e: Env)
    requires f == WideUnsignedFold() && forall w: nat :: e(w) == (w == 0 || 26 <= w < 57 || w == 88)
    ensures f.d.Value(e) == 1 && f.x.Value(e) == Pow2(31) - 1
    ensures var y := Eval(f.candidate.adder.y, e);
            |y| == 32 && y[31] && forall i :: 0 <= i < 31 ==> !y[i]
  {
    hide Pow2, Res, ToBits;
    assert Eval(f.d.sig, e) == [true] + Repeat(false, 25);
    UValPad([true], false, 25);
    assert Eval(f.x.sig, e) == [] + Repeat(true, 31);
    UValPad([], true, 31);
    assert Pow2(0) == 1 && UVal([true]) == 1 by { UnitValues(); }
  }

  lemma UnitValues()
    ensures Pow2(0) == 1 && UVal([]) == 0 && UVal([true]) == 1
  {
    assert [true][..0] == [];
  }

  /** The accepted unsigned fold whose sum reaches the multiplier as a negative number. */
  lemma UnsignedFoldWraps()
    ensures var f := WideUnsignedFold();
            var ma := Operand(f.candidate.adder.y, false);
            && Accepted(f, ma, f.other, 40) && Matched(f.candidate, ma, f.other)
            && exists e: Env :: AdderHolds(f.candidate.adder, e)
                 && SVal(DspSum(f, e)) < 0 < UVal(RtlSum(f.candidate, ma, f.other, e))
  {
    hide Pow2, Res, ToBits, UVal, SVal;
    var f := WideUnsignedFold();
    var p, ma := f.candidate.adder, Operand(f.candidate.adder.y, false);
    assert p.a.sig[24] != p.a.sig[25] && p.b.sig[29] != p.b.sig[30];
    assert Accepted(f, ma, f.other, 40);
    assert p.y[..32] == p.y;
    assert Matched(f.candidate, ma, f.other);
    var e: Env := w => w == 0 || 26 <= w < 57 || w == 88;
    var y := Eval(p.y, e);
    WideUnsignedValues(f, e);
    TopBitOnly(y);
    assert AdderHolds(p, e);
    PortExact(f.d, D_WIDTH, e);
    PortExact(f.x, A_WIDTH, e);
    assert y[..32] == y;
    assert RtlSum(f.candidate, ma, f.other, e) == y == DspSum(f, e);
  }

  // ---- Unsigned subtraction ---------------------------------------------------------------

  /** The bits the `$mul` keeps of the sum times some other operand. */
  ghost predicate SameProduct(f: Fold, ma: Operand, mb: Operand, mulY: nat, e: Env, o: int)
    requires Matched(f.candidate, ma, mb)
  {
    ToBits(SVal(DspSum(f, e)) * o, mulY) == ToBits(UVal(RtlSum(f.candidate, ma, mb, e)) * o, mulY)
  }

  lemma DifferenceIs(f: Fold, ma: Operand, mb: Operand, mulY: nat, e: Env)
    requires Accepted(f, ma, mb, mulY) && !MulPort(f.candidate, ma, mb).signed && f.candidate.adder.sub
    requires PlainTop(f.d.sig) && PlainTop(f.x.sig)
    ensures SVal(DspSum(f, e)) == TrueSum(f, e)
  {
    hide Res, ToBits, UVal, Pow2, SVal, StripCopies;
    DspSumIs(f, ma, mb, mulY, e);
    ReadBackSigned(TrueSum(f, e), PathWidth(f));
  }

  /**
   An unsigned subtraction goes negative in the DSP where the RTL wraps. The
   low bits the `$mul` keeps are the same as long as it keeps no more than the
   multiply takes of the difference.
   */
  lemma UnsignedSubtractExact(f: Fold, ma: Operand, mb: Operand, mulY: nat, e: Env, o: int)
    requires Accepted(f, ma, mb, mulY) && Matched(f.candidate, ma, mb) && !MulPort(f.candidate, ma, mb).signed
    requires f.candidate.adder.sub && AdderHolds(f.candidate.adder, e)
    requires PlainTop(f.d.sig) && PlainTop(f.x.sig)
    requires f.candidate.flop.None? || mulY <= |MulPort(f.candidate, ma, mb).sig|
    ensures SameProduct(f, ma, mb, mulY, e, o)
  {
    hide Res, ToBits, UVal, Pow2, SVal, StripCopies, DspSum, RtlSum, PaddedFrom;
    var v, t := TrueSum(f, e), TakenBits(f.candidate, ma, mb);
    DifferenceIs(f, ma, mb, mulY, e);
    RtlSumIs(f, ma, mb, mulY, e);
    CongRes(v, Pow2(t));
    CongWeaken(Res(v, Pow2(t)), v, mulY, t);
    CongScale(Res(v, Pow2(t)), v, o, Pow2(mulY));
    ToBitsOfCong(Res(v, Pow2(t)) * o, v * o, mulY);
  }

  /** The same one cycle on, behind a register: cleared on both sides, or the sampled difference. */
  lemma RegisteredSubtractExact(f: Fold, ma: Operand, mb: Operand, mulY: nat, e: Env, o: int, reset: bool)
    requires Accepted(f, ma, mb, mulY) && Matched(f.candidate, ma, mb) && !MulPort(f.candidate, ma, mb).signed
    requires f.candidate.flop.Some? && mulY <= |MulPort(f.candidate, ma, mb).sig|
    requires f.candidate.adder.sub && AdderHolds(f.candidate.adder, e)
    requires PlainTop(f.d.sig) && PlainTop(f.x.sig)
    ensures var q := Registered(Eval(f.candidate.flop.value.d, e), reset)[..|MulPort(f.candidate, ma, mb).sig|];
      ToBits(SVal(Registered(DspSum(f, e), reset)) * o, mulY) == ToBits(UVal(q) * o, mulY)
  {
    hide Res, ToBits, Pow2, UVal, DspSum;
    if reset {
      var n, k := |MulPort(f.candidate, ma, mb).sig|, |DspSum(f, e)|;
      assert Registered(Eval(f.candidate.flop.value.d, e), reset)[..n] == [] + Repeat(false, n);
      assert Registered(DspSum(f, e), reset) == [] + Repeat(false, k);
      UValPad([], false, n);
      UValPad([], false, k);
      assert UVal([]) == 0 by { UnitValues(); }
    } else {
      UnsignedSubtractExact(f, ma, mb, mulY, e, o);
    }
  }

  /**
   Behind a register the guards let the multiply take fewer bits of the
   difference than the `$mul` keeps, and the sign shows above them. With free
   bits that is the only way an accepted subtraction is wrong.
   */
  lemma UnsignedSubtractExactIff(f: Fold, ma: Operand, mb: Operand, mulY: nat)
    requires Accepted(f, ma, mb, mulY) && Matched(f.candidate, ma, mb) && !MulPort(f.candidate, ma, mb).signed
    requires f.candidate.adder.sub && FreeFold(f) && Trimmed(f.x.sig) != []
    ensures (forall e: Env, o :: AdderHolds(f.candidate.adder, e) ==> SameProduct(f, ma, mb, mulY, e, o))
      <==> (f.candidate.flop.None? || mulY <= |MulPort(f.candidate, ma, mb).sig|)
  {
    hide Accepted, Matched, AdderHolds, SameProduct, FreeFold, Trimmed;
    FreePlain(f);
    if f.candidate.flop.None? || mulY <= |MulPort(f.candidate, ma, mb).sig| {
      forall e: Env, o | AdderHolds(f.candidate.adder, e) ensures SameProduct(f, ma, mb, mulY, e, o) {
        UnsignedSubtractExact(f, ma, mb, mulY, e, o);
      }
    } else {
      var e := SignShows(f, ma, mb, mulY);
      assert AdderHolds(f.candidate.adder, e);
    }
  }

  /** 0 - 1. */
  lemma SignShows(f: Fold, ma: Operand, mb: Operand, mulY: nat) returns (e: Env)
    requires Accepted(f, ma, mb, mulY) && Matched(f.candidate, ma, mb) && !MulPort(f.candidate, ma, mb).signed
    requires f.candidate.adder.sub && FreeFold(f) && Trimmed(f.x.sig) != []
    requires f.candidate.flop.Some? && mulY > |MulPort(f.candidate, ma, mb).sig|
    ensures AdderHolds(f.candidate.adder, e) && !SameProduct(f, ma, mb, mulY, e, 1)
  {
    hide Res, ToBits, UVal, Pow2, SVal, StripCopies, DspSum, RtlSum, PaddedFrom, Trimmed, FreeFold, AdderHolds;
    Pow2Mono(1, |Trimmed(f.x.sig)|);
    assert Pow2(1) == 2 by { Doubling(0); UnitValues(); }
    e := FreeSum(f, ma, mb, mulY, 0, 1);
    FreePlain(f);
    DifferenceIs(f, ma, mb, mulY, e);
    RtlSumIs(f, ma, mb, mulY, e);
    var t := TakenBits(f.candidate, ma, mb);
    ResUnique(-1, Pow2(t), -1, Pow2(t) - 1);
    OffByPower(-1, t, mulY);
    ToBitsCong(-1, mulY);
    ToBitsCong(-1 + Pow2(t), mulY);
  }

  /** An accepted one: an 8-bit difference held in 20 bits, of which the multiply takes 10 for a 20-bit product. */
  function NarrowRegisteredFold(): Fold {
    var a, b := Operand(Wires(0, 8), false), Operand(Wires(8, 8), false);
    Fold(Candidate(Adder(true, a, b, Wires(16, 20)), true, Some(AdFlop(Wires(16, 20), Wires(36, 20)))), true, a, b,
         Operand(Wires(56, 8), false))
  }

  lemma RegisteredSubtractWraps()
    ensures var f := NarrowRegisteredFold();
      var ma := Operand(Wires(36, 10), false);
      && Accepted(f, ma, f.other, 20) && Matched(f.candidate, ma, f.other)
      && exists e: Env :: AdderHolds(f.candidate.adder, e) && !SameProduct(f, ma, f.other, 20, e, 1)
  {
    hide SameProduct, AdderHolds;
    var f := NarrowRegisteredFold();
    var ma := Operand(Wires(36, 10), false);
    assert f.d.sig[6] != f.d.sig[7] && f.x.sig[6] != f.x.sig[7];
    assert Accepted(f, ma, f.other, 20);
    assert Wires(36, 20)[..10] == Wires(36, 10) && Wires(16, 20)[..20] == Wires(16, 20);
    assert Matched(f.candidate, ma, f.other);
    assert Trimmed(f.d.sig) == f.d.sig && Trimmed(f.x.sig) == f.x.sig;
    assert f.d.sig + f.x.sig + f.candidate.adder.y == Wires(0, 36);
    var e := SignShows(f, ma, f.other, 20);
  }
}
