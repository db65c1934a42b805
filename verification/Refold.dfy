/**
 Undoing a constant coefficient that was split into a shift: `(x * c) << k`
 becomes `x * (c * 2^k)` again, so the product sits in the low bits of the adder
 that reads it.
 */
module Refold {
  import opened Bits
  import opened Operand
  import opened Netlist

  /** Which multiply and which adder operand, by how much, and where the constant is. */
  datatype Plan = Plan(mul: nat, alu: nat, aluOnA: bool, k: nat, constOnA: bool)

  function Port(c: Cell, onA: bool): Operand
    requires c.Mul? || c.AddSub?
  {
    if onA then c.a else c.b
  }

  function NewPort(c: Cell, onA: bool, changed: bool, s: Sig): Operand
    requires c.Mul? || c.AddSub?
  {
    if changed then Operand(s, Port(c, onA).signed) else Port(c, onA)
  }

  predicate AllZero(s: Sig) {
    forall b :: b in s ==> b == Const(false)
  }

  predicate FullyConst(s: Sig) {
    forall b :: b in s ==> b.Const?
  }

  function Signed(mul: Cell): bool
    requires mul.Mul?
  {
    mul.a.signed && mul.b.signed
  }

  /** The product sits `k` bits up in the operand, zeros beneath it and its own padding above. */
  predicate ShiftedIn(conns: Conns, op: Sig, y: Sig, k: nat, signed: bool) {
    var n, opm, ym := |y|, CanonSig(conns, op), CanonSig(conns, y);
    && 0 < n && k + n <= |op|
    && opm[k..k + n] == ym
    && AllZero(opm[..k])
    && forall i :: k + n <= i < |op| ==> opm[i] == if signed then ym[n - 1] else Const(false)
  }

  predicate InNet(net: Net, p: Plan) {
    && p.mul < |net.cells| && p.alu < |net.cells|
    && net.cells[p.mul].Mul? && net.cells[p.alu].AddSub?
  }

  predicate Applies(net: Net, p: Plan) {
    && InNet(net, p)
    && ShiftedIn(net.conns, Port(net.cells[p.alu], p.aluOnA).sig, net.cells[p.mul].y, p.k, Signed(net.cells[p.mul]))
    && FullyConst(CanonSig(net.conns, Port(net.cells[p.mul], p.constOnA).sig))
  }

  lemma SomeProduct(net: Net, p: Plan)
    requires Applies(net, p)
    ensures |net.cells[p.mul].y| > 0
  {
  }

  /** `c * 2^k`, as `k` zero bits under the constant. */
  function Widened(net: Net, p: Plan): Sig
    requires InNet(net, p)
  {
    Repeat(Const(false), p.k) + CanonSig(net.conns, Port(net.cells[p.mul], p.constOnA).sig)
  }

  function NewMul(net: Net, p: Plan, next: nat): Cell
    requires InNet(net, p)
  {
    var mul, c := net.cells[p.mul], Widened(net, p);
    Mul(NewPort(mul, true, p.constOnA, c), NewPort(mul, false, !p.constOnA, c), Fresh(next, |mul.y| + p.k))
  }

  /** The wider product, padded to the operand's width from its own sign bit. */
  function Fixed(net: Net, p: Plan, next: nat): Sig
    requires InNet(net, p) && |net.cells[p.mul].y| > 0
  {
    ExtendU0(Fresh(next, |net.cells[p.mul].y| + p.k), |Port(net.cells[p.alu], p.aluOnA).sig|, Signed(net.cells[p.mul]))
  }

  function NewAlu(net: Net, p: Plan, next: nat): Cell
    requires InNet(net, p) && |net.cells[p.mul].y| > 0
  {
    var alu, op := net.cells[p.alu], Fixed(net, p, next);
    AddSub(alu.sub, NewPort(alu, true, p.aluOnA, op), NewPort(alu, false, !p.aluOnA, op), alu.y, alu.keep)
  }

  function Refolded(net: Net, p: Plan, next: nat): Net
    requires InNet(net, p) && |net.cells[p.mul].y| > 0
  {
    var mul := net.cells[p.mul];
    Net(net.cells[p.mul := NewMul(net, p, next)][p.alu := NewAlu(net, p, next)],
        net.conns + Pairs(mul.y, Fresh(next, |mul.y| + p.k)[p.k..]),
        net.wires)
  }

  // ---- Arithmetic of the shift --------------------------------------------------

  lemma ShiftedValue(v: seq<bool>, k: nat, signed: bool)
    ensures IVal(Repeat(false, k) + v, signed) == Pow2(k) * IVal(v, signed)
  {
    hide Pow2, UVal;
    var z := Repeat(false, k);
    assert z == [] + Repeat(false, k);
    UValPad([], false, k);
    UValConcat(z, v);
    assert UVal([]) == 0 by { EmptyUVal(); }
    if v != [] {
      Pow2Add(k, |v|);
      assert (z + v)[|z + v| - 1] == v[|v| - 1];
      assert Pow2(k) * (UVal(v) - Pow2(|v|)) == Pow2(k) * UVal(v) - Pow2(k) * Pow2(|v|);
    } else {
      assert z + v == z;
      assert k > 0 ==> !(z + v)[k - 1];
      assert Pow2(k) * 0 == 0;
    }
  }

  /** The wide product is the narrow one with `k` zeros beneath it. */
  lemma ShiftedProduct(z: int, n: nat, k: nat)
    ensures ToBits(Pow2(k) * z, n + k) == Repeat(false, k) + ToBits(z, n)
  {
    hide Pow2, Res, ToBits, UVal;
    var v := ToBits(z, n);
    ShiftedValue(v, k, false);
    ToBitsCong(z, n);
    Pow2Add(k, n);
    ScaledCong(UVal(v), z, Pow2(k), Pow2(n));
    ToBitsUVal(Repeat(false, k) + v, Pow2(k) * z);
  }

  lemma ScaledCong(a: int, b: int, p: int, m: int)
    requires p > 0 && m > 0 && p * m > 0 && Cong(a, b, m)
    ensures Cong(p * a, p * b, p * m)
  {
    hide Res;
    var j := CongMultiple(a, b, m);
    assert p * (b + j * m) == p * b + j * (p * m);
    CongShift(p * b, p * m, j);
  }

  // ---- One rewrite --------------------------------------------------------------

  lemma ConstEval(conns: Conns, s: Sig, e: Env)
    requires ConnsHold(conns, e)
    ensures Eval(CanonSig(conns, s), e) == Eval(s, e)
  {
    hide Canon;
    forall i | 0 <= i < |s| ensures BitVal(CanonSig(conns, s)[i], e) == BitVal(s[i], e) {
      CanonValue(conns, s[i], e);
    }
  }

  /** The widened constant is worth 2^k times the old one. */
  lemma WidenedConst(net: Net, p: Plan, e: Env)
    requires Applies(net, p) && ConnsHold(net.conns, e)
    ensures var o := Port(net.cells[p.mul], p.constOnA);
            Operand(Widened(net, p), o.signed).Value(e) == Pow2(p.k) * o.Value(e)
  {
    hide Canon, CanonSig, ShiftedIn, FullyConst, IVal, Pow2;
    var o := Port(net.cells[p.mul], p.constOnA);
    ConstEval(net.conns, o.sig, e);
    assert Eval(Widened(net, p), e) == Repeat(false, p.k) + Eval(o.sig, e);
    ShiftedValue(Eval(o.sig, e), p.k, o.signed);
  }

  function ProductOf(c: Cell, e: Env): int
    requires c.Mul?
  {
    c.a.Value(e) * c.b.Value(e)
  }

  lemma WidenedProduct(net: Net, p: Plan, next: nat, e: Env)
    requires Applies(net, p) && ConnsHold(net.conns, e)
    ensures ProductOf(NewMul(net, p, next), e) == Pow2(p.k) * ProductOf(net.cells[p.mul], e)
  {
    hide Canon, CanonSig, ShiftedIn, FullyConst, IVal, Pow2, Widened, Eval;
    WidenedConst(net, p, e);
    var c, x := Port(net.cells[p.mul], p.constOnA).Value(e), Port(net.cells[p.mul], !p.constOnA).Value(e);
    assert (Pow2(p.k) * c) * x == Pow2(p.k) * (c * x);
    assert x * (Pow2(p.k) * c) == Pow2(p.k) * (x * c);
  }

  /** The new multiply holds and the old net is tied to its high bits: exactly the old multiply, shifted. */
  predicate Tied(net: Net, p: Plan, next: nat, e: Env)
    requires Applies(net, p)
  {
    Eval(Fresh(next, |net.cells[p.mul].y| + p.k), e) == Repeat(false, p.k) + Eval(net.cells[p.mul].y, e)
  }

  lemma FreshTied(net: Net, p: Plan, next: nat, e: Env)
    requires Applies(net, p) && ConnsHold(net.conns, e)
    ensures var n, wide := |net.cells[p.mul].y|, Fresh(next, |net.cells[p.mul].y| + p.k);
            && Eval(wide, e) == ToBits(ProductOf(NewMul(net, p, next), e), n + p.k)
            && ConnsHold(Pairs(net.cells[p.mul].y, wide[p.k..]), e)
            <==>
            && Eval(net.cells[p.mul].y, e) == ToBits(ProductOf(net.cells[p.mul], e), n)
            && Tied(net, p, next, e)
  {
    hide Canon, CanonSig, ShiftedIn, FullyConst, IVal, Pow2, Widened, Eval, ToBits, ProductOf;
    var y, n := net.cells[p.mul].y, |net.cells[p.mul].y|;
    var wide := Fresh(next, n + p.k);
    WidenedProduct(net, p, next, e);
    ShiftedProduct(ProductOf(net.cells[p.mul], e), n, p.k);
    PairsHold(y, wide[p.k..], e);
    EvalSlice(wide, p.k, e);
    var w, v := Eval(wide, e), Eval(y, e);
    assert w == w[..p.k] + w[p.k..];
    assert (Repeat(false, p.k) + v)[p.k..] == v;
    var t := ToBits(ProductOf(net.cells[p.mul], e), n);
    assert (Repeat(false, p.k) + t)[p.k..] == t;
  }

  lemma EvalSlice(s: Sig, k: nat, e: Env)
    requires k <= |s|
    ensures Eval(s[k..], e) == Eval(s, e)[k..]
  {
  }

  /** The adder reads what it read before, rebuilt padding included. */
  lemma OperandUnchanged(net: Net, p: Plan, next: nat, e: Env)
    requires Applies(net, p) && ConnsHold(net.conns, e) && Tied(net, p, next, e)
    ensures Eval(Fixed(net, p, next), e) == Eval(Port(net.cells[p.alu], p.aluOnA).sig, e)
  {
    hide Canon, Pow2, Widened;
    var y, n, k, conns := net.cells[p.mul].y, |net.cells[p.mul].y|, p.k, net.conns;
    var op, fixed, signed := Port(net.cells[p.alu], p.aluOnA).sig, Fixed(net, p, next), Signed(net.cells[p.mul]);
    var wide := Fresh(next, n + k);
    var opm, ym := CanonSig(conns, op), CanonSig(conns, y);
    assert |opm| == |op| && |ym| == n && opm[k..k + n] == ym;
    forall i | 0 <= i < |op| ensures BitVal(fixed[i], e) == BitVal(op[i], e) {
      CanonValue(conns, op[i], e);
      var j := if i < n + k then i else n + k - 1;
      assert Eval(wide, e)[j] == (Repeat(false, k) + Eval(y, e))[j];
      assert fixed[i] == if i < n + k || signed then wide[j] else Const(false);
      assert BitVal(opm[i], e) == BitVal(op[i], e);
      if i < k {
        assert opm[..k][i] == opm[i] && opm[i] in opm[..k];
        assert BitVal(fixed[i], e) == BitVal(op[i], e);
      } else if i < n + k {
        assert opm[i] == opm[k..k + n][i - k];
        assert ym[i - k] == Canon(conns, y[i - k]);
        CanonValue(conns, y[i - k], e);
        assert BitVal(fixed[i], e) == BitVal(op[i], e);
      } else {
        CanonValue(conns, y[n - 1], e);
        assert (Repeat(false, k) + Eval(y, e))[j] == BitVal(y[n - 1], e);
        assert BitVal(fixed[i], e) == BitVal(op[i], e);
      }
    }
  }

  /** A run of the rewritten net is a run of the old one, on every net. */
  lemma RefoldSound(net: Net, p: Plan, next: nat, run: Run, beh: Behaviour)
    requires Applies(net, p) && IsRun(Refolded(net, p, next), run, beh)
    ensures IsRun(net, run, beh)
  {
    hide Canon, CanonSig, ShiftedIn, FullyConst, IVal, Pow2, Widened, Eval, ToBits, ConnsHold, Pairs, Tied, Fixed, FlopNext;
    assert |net.cells[p.mul].y| > 0 by { SomeProduct(net, p); }
    var net' := Refolded(net, p, next);
    var mul, alu, alu' := net.cells[p.mul], net.cells[p.alu], net'.cells[p.alu];
    assert net'.cells[p.mul] == NewMul(net, p, next);
    assert NewMul(net, p, next) in net'.cells && alu' in net'.cells;
    forall t | 0 <= t < |run|
      ensures ConnsHold(net.conns, run[t])
      ensures Eval(mul.y, run[t]) == ToBits(ProductOf(mul, run[t]), |mul.y|)
      ensures alu.a.Value(run[t]) == alu'.a.Value(run[t]) && alu.b.Value(run[t]) == alu'.b.Value(run[t])
    {
      var e := run[t];
      ConnsSplit(net.conns, Pairs(mul.y, Fresh(next, |mul.y| + p.k)[p.k..]), e);
      FreshTied(net, p, next, e);
      OperandUnchanged(net, p, next, e);
    }
    forall c | c in net.cells
      ensures CellHolds(c, run, beh) && (|run| > 0 ==> PowersUp(c, net.wires.init, run[0]))
    {
      var i :| 0 <= i < |net.cells| && net.cells[i] == c;
      if i != p.mul && i != p.alu { assert net'.cells[i] == c && c in net'.cells; }
    }
  }

  /** The old values, with the fresh wires carrying the shifted product. */
  function Extended(net: Net, p: Plan, next: nat, e: Env): Env
    requires InNet(net, p)
  {
    var y := net.cells[p.mul].y;
    (w: nat) => if w < next || w >= next + p.k + |y| then e(w)
                else if w < next + p.k then false else BitVal(y[w - next - p.k], e)
  }

  lemma ExtendedOld(net: Net, p: Plan, next: nat, s: Sig, e: Env)
    requires InNet(net, p) && Older(s, next)
    ensures AgreeAt(s, e, Extended(net, p, next, e))
  {
  }

  lemma ExtendedTied(net: Net, p: Plan, next: nat, e: Env)
    requires Applies(net, p) && Older(net.cells[p.mul].y, next)
    ensures Tied(net, p, next, Extended(net, p, next, e))
  {
    hide Canon, ShiftedIn;
    ExtendedOld(net, p, next, net.cells[p.mul].y, e);
    AgreeEval(net.cells[p.mul].y, net.cells[p.mul].y, e, Extended(net, p, next, e));
  }

  lemma ExtendedConns(net: Net, p: Plan, next: nat, e: Env)
    requires InNet(net, p) && NetOlder(net, next) && ConnsHold(net.conns, e)
    ensures ConnsHold(net.conns, Extended(net, p, next, e))
  {
    forall q | q in net.conns ensures BitVal(q.0, Extended(net, p, next, e)) == BitVal(q.1, Extended(net, p, next, e)) {
      ExtendedOld(net, p, next, [q.0, q.1], e);
      assert q.0 in [q.0, q.1] && q.1 in [q.0, q.1];
    }
  }

  function ExtendedRun(net: Net, p: Plan, next: nat, run: Run): Run
    requires InNet(net, p)
  {
    seq(|run|, t requires 0 <= t < |run| => Extended(net, p, next, run[t]))
  }

  /** Old cells hold in the extended run as they did. */
  lemma ExtendedCell(net: Net, p: Plan, next: nat, run: Run, beh: Behaviour, c: Cell)
    requires InNet(net, p) && NetOlder(net, next) && IsRun(net, run, beh) && c in net.cells
    ensures CellHolds(c, ExtendedRun(net, p, next, run), beh)
    ensures |run| > 0 ==> PowersUp(c, net.wires.init, ExtendedRun(net, p, next, run)[0])
  {
    hide CellHolds, AllBits;
    var run' := ExtendedRun(net, p, next, run);
    forall t | 0 <= t < |run| ensures AgreeAt(AllBits(c), run[t], run'[t]) {
      ExtendedOld(net, p, next, AllBits(c), run[t]);
    }
    CellHoldsAgree(c, run, run', beh);
    if |run| > 0 && c.Flop? {
      FlopPorts(c);
      assert AgreeAt(AllBits(c), run[0], run'[0]);
    }
  }

  lemma MulPorts(c: Cell)
    requires c.Mul?
    ensures forall b :: b in c.y ==> b in AllBits(c)
  {
  }

  /** One cycle of the extended run: connections, the wider product, and the adder's operands. */
  lemma ExtendedCycle(net: Net, p: Plan, next: nat, run: Run, beh: Behaviour, t: nat)
    requires Applies(net, p) && NetOlder(net, next) && IsRun(net, run, beh) && t < |run| && |net.cells[p.mul].y| > 0
    ensures var run', net' := ExtendedRun(net, p, next, run), Refolded(net, p, next);
      var wide, alu, alu' := Fresh(next, |net.cells[p.mul].y| + p.k), net.cells[p.alu], net'.cells[p.alu];
      && ConnsHold(net'.conns, run'[t])
      && Eval(wide, run'[t]) == ToBits(ProductOf(NewMul(net, p, next), run'[t]), |wide|)
      && alu.a.Value(run'[t]) == alu'.a.Value(run'[t]) && alu.b.Value(run'[t]) == alu'.b.Value(run'[t])
  {
    hide Canon, CanonSig, ShiftedIn, FullyConst, IVal, Pow2, Widened, Eval, ToBits, ConnsHold, Pairs, Tied, Fixed, FlopNext,
      Extended, AllBits, NetOlder, CellHolds;
    var run' := ExtendedRun(net, p, next, run);
    var mul := net.cells[p.mul];
    var wide := Fresh(next, |mul.y| + p.k);
    assert mul in net.cells;
    ExtendedCell(net, p, next, run, beh, mul);
    MulHolds(mul, run', beh, t);
    ExtendedConns(net, p, next, run[t]);
    MulOlder(net, p, next);
    ExtendedTied(net, p, next, run[t]);
    FreshTied(net, p, next, run'[t]);
    ConnsSplit(net.conns, Pairs(mul.y, wide[p.k..]), run'[t]);
    OperandUnchanged(net, p, next, run'[t]);
  }

  lemma MulHolds(mul: Cell, run: Run, beh: Behaviour, t: nat)
    requires mul.Mul? && CellHolds(mul, run, beh) && t < |run|
    ensures Eval(mul.y, run[t]) == ToBits(ProductOf(mul, run[t]), |mul.y|)
  {
    hide ToBits, Eval, IVal;
  }

  /** Every run of the old net extends to one of the rewritten net, with all old wires as they were. */
  lemma RefoldComplete(net: Net, p: Plan, next: nat, run: Run, beh: Behaviour)
    requires Applies(net, p) && NetOlder(net, next) && IsRun(net, run, beh)
    ensures IsRun(Refolded(net, p, next), ExtendedRun(net, p, next, run), beh)
  {
    hide Canon, CanonSig, ShiftedIn, FullyConst, IVal, Pow2, Widened, Eval, ToBits, ConnsHold, Pairs, Tied, Fixed, FlopNext,
      Extended, AllBits, NetOlder;
    assert |net.cells[p.mul].y| > 0 by { SomeProduct(net, p); }
    var net', run' := Refolded(net, p, next), ExtendedRun(net, p, next, run);
    var mul, alu, alu' := net.cells[p.mul], net.cells[p.alu], Refolded(net, p, next).cells[p.alu];
    var wide := Fresh(next, |mul.y| + p.k);
    assert mul in net.cells && alu in net.cells;
    ExtendedCell(net, p, next, run, beh, alu);
    forall t | 0 <= t < |run'|
      ensures ConnsHold(net'.conns, run'[t])
      ensures Eval(wide, run'[t]) == ToBits(ProductOf(NewMul(net, p, next), run'[t]), |wide|)
      ensures alu.a.Value(run'[t]) == alu'.a.Value(run'[t]) && alu.b.Value(run'[t]) == alu'.b.Value(run'[t])
    {
      ExtendedCycle(net, p, next, run, beh, t);
    }
    forall c | c in net'.cells
      ensures CellHolds(c, run', beh) && (|run'| > 0 ==> PowersUp(c, net.wires.init, run'[0]))
    {
      var i :| 0 <= i < |net'.cells| && net'.cells[i] == c;
      if i != p.mul && i != p.alu {
        assert net.cells[i] == c && c in net.cells;
        ExtendedCell(net, p, next, run, beh, c);
      }
    }
  }

  lemma MulOlder(net: Net, p: Plan, next: nat)
    requires InNet(net, p) && NetOlder(net, next)
    ensures Older(net.cells[p.mul].y, next)
  {
    assert net.cells[p.mul] in net.cells;
    MulPorts(net.cells[p.mul]);
  }

  lemma NewMulOlder(net: Net, p: Plan, next: nat)
    requires InNet(net, p) && NetOlder(net, next)
    ensures Older(AllBits(NewMul(net, p, next)), next + |net.cells[p.mul].y| + p.k)
  {
    hide Canon, CanonSig;
    var mul := net.cells[p.mul];
    var c := Widened(net, p);
    assert mul in net.cells;
    FreshOlder(next, |mul.y| + p.k);
    assert Older(mul.a.sig, next) && Older(mul.b.sig, next) by {
      forall b | b in mul.a.sig || b in mul.b.sig ensures b in AllBits(mul) {
      }
    }
    CanonOlder(net.conns, Port(mul, p.constOnA).sig, next);
    assert Older(c, next);
  }

  lemma NewAluOlder(net: Net, p: Plan, next: nat)
    requires InNet(net, p) && |net.cells[p.mul].y| > 0 && NetOlder(net, next)
    ensures Older(AllBits(NewAlu(net, p, next)), next + |net.cells[p.mul].y| + p.k)
  {
    var alu, op := net.cells[p.alu], Fixed(net, p, next);
    assert alu in net.cells;
    FreshOlder(next, |net.cells[p.mul].y| + p.k);
    assert Older(op, next + |net.cells[p.mul].y| + p.k);
    assert Older(alu.a.sig, next) && Older(alu.b.sig, next) && Older(alu.y, next) by {
      forall b | b in alu.a.sig || b in alu.b.sig || b in alu.y ensures b in AllBits(alu) {
      }
    }
  }

  lemma PairsOlder(conns: Conns, s: Sig, s': Sig, next: nat)
    requires |s| == |s'| && Older(s, next) && Older(s', next)
    requires forall q :: q in conns ==> Older([q.0, q.1], next)
    ensures forall q :: q in conns + Pairs(s, s') ==> Older([q.0, q.1], next)
  {
    forall q | q in conns + Pairs(s, s') ensures Older([q.0, q.1], next) {
      if q !in conns {
        var i :| 0 <= i < |s| && Pairs(s, s')[i] == q;
        assert s[i] in s && s'[i] in s';
      }
    }
  }

  lemma CellsOlder(cells: seq<Cell>, i: nat, j: nat, c: Cell, d: Cell, next: nat)
    requires i < |cells| && j < |cells| && Older(AllBits(c), next) && Older(AllBits(d), next)
    requires forall x :: x in cells ==> Older(AllBits(x), next)
    ensures forall x :: x in cells[i := c][j := d] ==> Older(AllBits(x), next)
  {
    hide AllBits, Older;
    forall x | x in cells[i := c][j := d] ensures Older(AllBits(x), next) {
      var k :| 0 <= k < |cells| && cells[i := c][j := d][k] == x;
      if k != i && k != j { assert cells[k] in cells; }
    }
  }

  lemma RefoldOlder(net: Net, p: Plan, next: nat)
    requires Applies(net, p) && NetOlder(net, next)
    ensures NetOlder(Refolded(net, p, next), next + |net.cells[p.mul].y| + p.k)
  {
    assert |net.cells[p.mul].y| > 0 by { SomeProduct(net, p); }
    NewMulOlder(net, p, next);
    NewAluOlder(net, p, next);
    hide Canon, ShiftedIn, FullyConst, CanonSig, NewMul, NewAlu, AllBits, Older, Fresh, Pairs;
    var mul := net.cells[p.mul];
    var next' := next + |mul.y| + p.k;
    var wide := Fresh(next, |mul.y| + p.k);
    assert mul in net.cells;
    FreshOlder(next, |mul.y| + p.k);
    FreshSize(next, |mul.y| + p.k);
    NetOlderMono(net, next, next');
    PartsOlder(mul, wide, p.k, next');
    PairsOlder(net.conns, mul.y, wide[p.k..], next');
    CellsOlder(net.cells, p.mul, p.alu, NewMul(net, p, next), NewAlu(net, p, next), next');
  }

  lemma PartsOlder(mul: Cell, wide: Sig, k: nat, next: nat)
    requires mul.Mul? && k <= |wide| && Older(AllBits(mul), next) && Older(wide, next)
    ensures Older(mul.y, next) && Older(wide[k..], next)
  {
    forall b | b in mul.y ensures b in AllBits(mul) {
    }
    forall b | b in wide[k..] ensures b in wide {
    }
  }

  // ---- The pass -------------------------------------------------------------------

  /** Every run of `new_` is one of `old_`. */
  ghost predicate NothingAdded(old_: Net, new_: Net) {
    forall run, beh: Behaviour :: IsRun(new_, run, beh) ==> IsRun(old_, run, beh)
  }

  /** Every run of `old_` is one of `new_`, on the wires older than `next`. */
  ghost predicate NothingLost(old_: Net, new_: Net, next: nat) {
    forall run, beh: Behaviour :: IsRun(old_, run, beh) ==>
      exists run' :: IsRun(new_, run', beh) && AgreeBelow(run, run', next)
  }

  /** The same runs, looked at on the wires older than `next`. */
  ghost predicate SameOnOldWires(old_: Net, new_: Net, next: nat) {
    NothingAdded(old_, new_) && NothingLost(old_, new_, next)
  }

  lemma SameRefl(net: Net, next: nat)
    ensures SameOnOldWires(net, net, next)
  {
    hide IsRun;
    forall run, beh: Behaviour | IsRun(net, run, beh)
      ensures exists run' :: IsRun(net, run', beh) && AgreeBelow(run, run', next)
    {
      assert AgreeBelow(run, run, next);
    }
  }

  lemma LostTrans(a: Net, b: Net, c: Net, n: nat, n': nat)
    requires NothingLost(a, b, n) && NothingLost(b, c, n') && n <= n'
    ensures NothingLost(a, c, n)
  {
    hide IsRun, AgreeBelow;
    forall run, beh: Behaviour | IsRun(a, run, beh)
      ensures exists run' :: IsRun(c, run', beh) && AgreeBelow(run, run', n)
    {
      var run1 :| IsRun(b, run1, beh) && AgreeBelow(run, run1, n);
      var run2 :| IsRun(c, run2, beh) && AgreeBelow(run1, run2, n');
      AgreeBelowTrans(run, run1, run2, n, n');
    }
  }

  lemma AddedTrans(a: Net, b: Net, c: Net)
    requires NothingAdded(a, b) && NothingAdded(b, c)
    ensures NothingAdded(a, c)
  {
    hide IsRun;
  }

  lemma SameTrans(a: Net, b: Net, c: Net, n: nat, n': nat)
    requires SameOnOldWires(a, b, n) && SameOnOldWires(b, c, n') && n <= n'
    ensures SameOnOldWires(a, c, n)
  {
    hide NothingAdded, NothingLost;
    AddedTrans(a, b, c);
    LostTrans(a, b, c, n, n');
  }

  lemma RefoldSame(net: Net, p: Plan, next: nat)
    requires Applies(net, p) && NetOlder(net, next)
    ensures SameOnOldWires(net, Refolded(net, p, next), next)
  {
    hide IsRun, Applies, NetOlder, Refolded;
    assert |net.cells[p.mul].y| > 0 && InNet(net, p) by { SomeProduct(net, p); AppliesInNet(net, p); }
    var net' := Refolded(net, p, next);
    forall run, beh: Behaviour | IsRun(net', run, beh) ensures IsRun(net, run, beh) {
      RefoldSound(net, p, next, run, beh);
    }
    forall run, beh: Behaviour | IsRun(net, run, beh)
      ensures exists run' :: IsRun(net', run', beh) && AgreeBelow(run, run', next)
    {
      RefoldComplete(net, p, next, run, beh);
      assert AgreeBelow(run, ExtendedRun(net, p, next, run), next);
    }
  }

  lemma AppliesInNet(net: Net, p: Plan)
    requires Applies(net, p)
    ensures InNet(net, p)
  {
  }

  datatype PortName = PortA | PortB | OtherPort

  type Readers = map<Bit, (nat, PortName)>

  predicate ReadersOk(readers: Readers, n: nat) {
    forall b :: b in readers ==> readers[b].0 < n
  }

  method AddReaders(readers: Readers, s: Sig, i: nat, port: PortName, ghost n: nat) returns (r: Readers)
    requires i < n && ReadersOk(readers, n)
    ensures ReadersOk(r, n)
    ensures r == map b | b in readers.Keys + (set x | x in s) :: if b in s then (i, port) else readers[b]
  {
    r := readers;
    for j := 0 to |s|
      invariant ReadersOk(r, n)
      invariant r == map b | b in readers.Keys + (set x | x in s[..j]) :: if b in s[..j] then (i, port) else readers[b]
    {
      assert s[..j + 1] == s[..j] + [s[j]];
      r := r[s[j] := (i, port)];
    }
    assert s[..|s|] == s;
  }

  function PortSig(c: Cell, port: PortName): Sig {
    if c.Mul? || c.AddSub? then (if port.OtherPort? then [] else Port(c, port.PortA?).sig)
    else if port.OtherPort? then Inputs(c)
    else []
  }

  /** One reading port for every net that has any. */
  ghost predicate ReadersFound(cells: seq<Cell>, conns: Conns, readers: Readers, n: nat)
    requires n <= |cells|
  {
    && (forall b :: b in readers ==> readers[b].0 < n && b in CanonSig(conns, PortSig(cells[readers[b].0], readers[b].1)))
    && (forall i, port, b :: 0 <= i < n && b in CanonSig(conns, PortSig(cells[i], port)) ==> b in readers)
  }

  lemma NoneCanon(conns: Conns)
    ensures CanonSig(conns, []) == []
  {
  }

  method AddCell(readers: Readers, conns: Conns, c: Cell, i: nat, ghost n: nat) returns (r: Readers)
    requires i < n && ReadersOk(readers, n)
    ensures ReadersOk(r, n)
    ensures forall b :: b in readers ==> b in r
    ensures forall b :: b in r ==>
      (b in readers && r[b] == readers[b]) || (r[b].0 == i && b in CanonSig(conns, PortSig(c, r[b].1)))
    ensures forall port, b :: b in CanonSig(conns, PortSig(c, port)) ==> b in r
  {
    hide Canon, CanonSig, Inputs;
    assert CanonSig(conns, []) == [] by { NoneCanon(conns); }
    if c.Mul? || c.AddSub? {
      r := AddReaders(readers, CanonSig(conns, c.a.sig), i, PortA, n);
      r := AddReaders(r, CanonSig(conns, c.b.sig), i, PortB, n);
    } else {
      r := AddReaders(readers, CanonSig(conns, Inputs(c)), i, OtherPort, n);
    }
  }

  /** The last cell port seen reading each net. */
  method IndexReaders(m: Module) returns (readers: Readers)
    ensures ReadersOk(readers, |m.cells|)
    ensures ReadersFound(m.cells, m.conns, readers, |m.cells|)
  {
    hide Canon, CanonSig, PortSig;
    readers := map[];
    for i := 0 to |m.cells|
      invariant ReadersOk(readers, |m.cells|)
      invariant ReadersFound(m.cells, m.conns, readers, i)
    {
      readers := AddCell(readers, m.conns, m.cells[i], i, |m.cells|);
    }
  }

  predicate OccursAt(s: Sig, y: Sig, i: int) {
    0 <= i && i + |y| <= |s| && s[i..i + |y|] == y
  }

  /** Where the product first appears in the operand, or -1. */
  method FindShift(opm: Sig, y: Sig) returns (k: int)
    ensures k == -1 || OccursAt(opm, y, k)
    ensures forall i :: OccursAt(opm, y, i) ==> 0 <= k <= i
  {
    var i := 0;
    while i + |y| <= |opm|
      invariant 0 <= i
      invariant forall j :: OccursAt(opm, y, j) ==> i <= j
    {
      if opm[i..i + |y|] == y {
        return i;
      }
      i := i + 1;
    }
    return -1;
  }

  predicate Capacity(net: Net, p: Plan)
    requires InNet(net, p)
  {
    var c, o := Port(net.cells[p.mul], p.constOnA), Port(net.cells[p.mul], !p.constOnA);
    var wide := Operand(Repeat(Const(false), p.k) + c.sig, c.signed);
    BothFit(wide, o) || BothFit(o, wide)
  }

  /** The rewrite the guards look for: where the product first appears in its reader, the constant on B if both are. */
  ghost predicate Wanted(net: Net, users: multiset<Bit>, readers: Readers, p: Plan) {
    && InNet(net, p) && FirstShift(net, p.mul, p.alu, p.aluOnA, p.k)
    && (forall b :: b in net.cells[p.mul].y ==> users[Canon(net.conns, b)] <= 2)
    && ReaderIs(net, readers, p)
    && FullyConst(CanonSig(net.conns, Port(net.cells[p.mul], p.constOnA).sig))
    && (p.constOnA <==> !FullyConst(CanonSig(net.conns, net.cells[p.mul].b.sig)))
    && Capacity(net, p)
  }

  /** The operand that is widened is constant to the last bit, and A's only where B's is not. */
  lemma WantedConstant(net: Net, users: multiset<Bit>, readers: Readers, p: Plan)
    requires Wanted(net, users, readers, p)
    ensures forall b :: b in Port(net.cells[p.mul], p.constOnA).sig ==> Canon(net.conns, b).Const?
    ensures p.constOnA <==> exists b :: b in net.cells[p.mul].b.sig && Canon(net.conns, b).Wire?
  {
    hide Canon, FirstShift, Capacity;
    ConstantBits(net.conns, net.cells[p.mul].b.sig);
    ConstantBits(net.conns, Port(net.cells[p.mul], p.constOnA).sig);
  }

  lemma ConstantBits(conns: Conns, s: Sig)
    ensures FullyConst(CanonSig(conns, s)) <==> forall b :: b in s ==> Canon(conns, b).Const?
  {
    hide Canon;
    if FullyConst(CanonSig(conns, s)) {
      forall b | b in s ensures Canon(conns, b).Const? {
        var i :| 0 <= i < |s| && s[i] == b;
        assert CanonSig(conns, s)[i] in CanonSig(conns, s);
      }
    }
    if forall b :: b in s ==> Canon(conns, b).Const? {
      forall c | c in CanonSig(conns, s) ensures c.Const? {
        var i :| 0 <= i < |s| && CanonSig(conns, s)[i] == c;
        assert s[i] in s;
      }
    }
  }

  predicate ReaderIs(net: Net, readers: Readers, p: Plan)
    requires InNet(net, p)
  {
    |net.cells[p.mul].y| > 0 &&
    var first := Canon(net.conns, net.cells[p.mul].y[0]);
    first in readers && readers[first] == (p.alu, if p.aluOnA then PortA else PortB)
  }

  /** Where the shifted product sits in its reader's operand, if it is there as the guards want it. */
  method ShiftAt(m: Module, i: nat, alu: nat, onA: bool) returns (r: Option<nat>)
    requires i < |m.cells| && m.cells[i].Mul? && |m.cells[i].y| > 0 && alu < |m.cells| && m.cells[alu].AddSub?
    ensures r.Some? ==> FirstShift(m.View(), i, alu, onA, r.value)
    ensures r.None? ==> forall k: nat :: !FirstShift(m.View(), i, alu, onA, k)
  {
    hide Canon;
    var mul := m.cells[i];
    var y := CanonSig(m.conns, mul.y);
    var n := |y|;
    var op := Port(m.cells[alu], onA).sig;
    var opm := CanonSig(m.conns, op);
    var k := FindShift(opm, y);
    forall k': nat | FirstShift(m.View(), i, alu, onA, k') ensures k' == k {
      assert OccursAt(opm, y, k');
    }
    if k <= 0 || !AllZero(opm[..k]) {
      return None;
    }
    var pad := if Signed(mul) then y[n - 1] else Const(false);
    if exists j :: k + n <= j < |opm| && opm[j] != pad {
      return None;
    }
    return Some(k);
  }

  /** The product's first place in the operand, with the right bits below and above it. */
  ghost predicate FirstShift(net: Net, mul: nat, alu: nat, onA: bool, k: nat)
    requires mul < |net.cells| && net.cells[mul].Mul? && alu < |net.cells| && net.cells[alu].AddSub?
  {
    var op, y := Port(net.cells[alu], onA).sig, net.cells[mul].y;
    && k > 0 && ShiftedIn(net.conns, op, y, k, Signed(net.cells[mul]))
    && forall i :: OccursAt(CanonSig(net.conns, op), CanonSig(net.conns, y), i) ==> k <= i
  }

  /** Bit by bit: zeros, the product, and its padding, which repeats the top bit only if both factors are signed. */
  predicate ShiftBits(conns: Conns, op: Sig, mul: Cell, k: nat)
    requires mul.Mul?
  {
    var n := |mul.y|;
    && 0 < n && k + n <= |op|
    && forall i :: 0 <= i < |op| ==> Canon(conns, op[i]) == ShiftBit(conns, mul, k, i)
  }

  function ShiftBit(conns: Conns, mul: Cell, k: nat, i: nat): Bit
    requires mul.Mul? && |mul.y| > 0
  {
    var n := |mul.y|;
    if k <= i < k + n then Canon(conns, mul.y[i - k])
    else if i >= k + n && mul.a.signed && mul.b.signed then Canon(conns, mul.y[n - 1])
    else Const(false)
  }

  lemma ShiftedBits(conns: Conns, op: Sig, mul: Cell, k: nat)
    requires mul.Mul?
    ensures ShiftedIn(conns, op, mul.y, k, Signed(mul)) <==> ShiftBits(conns, op, mul, k)
  {
    hide Canon;
    var opm, ym, n := CanonSig(conns, op), CanonSig(conns, mul.y), |mul.y|;
    assert |opm| == |op| && |ym| == n;
    if ShiftedIn(conns, op, mul.y, k, Signed(mul)) {
      forall i | 0 <= i < |op| ensures Canon(conns, op[i]) == ShiftBit(conns, mul, k, i) {
        assert opm[i] == Canon(conns, op[i]);
        if i < k {
          assert opm[..k][i] == opm[i] && opm[i] in opm[..k];
        } else if i < k + n {
          assert opm[k..k + n][i - k] == opm[i];
        }
      }
    }
    if ShiftBits(conns, op, mul, k) {
      forall b | b in opm[..k] ensures b == Const(false) {
        var i :| 0 <= i < k && opm[..k][i] == b;
        assert opm[i] == Canon(conns, op[i]);
      }
      forall i | 0 <= i < n ensures opm[k..k + n][i] == ym[i] {
        assert opm[k + i] == Canon(conns, op[k + i]);
      }
    }
  }

  lemma ShiftUnique(net: Net, mul: nat, alu: nat, onA: bool, k: nat, k': nat)
    requires mul < |net.cells| && net.cells[mul].Mul? && alu < |net.cells| && net.cells[alu].AddSub?
    requires FirstShift(net, mul, alu, onA, k) && FirstShift(net, mul, alu, onA, k')
    ensures k == k'
  {
    hide Canon;
    var opm, y := CanonSig(net.conns, Port(net.cells[alu], onA).sig), CanonSig(net.conns, net.cells[mul].y);
    assert OccursAt(opm, y, k) && OccursAt(opm, y, k');
  }

  /** Every guard of the rewrite, for one multiply. The users and readers were counted before any rewriting. */
  method FindPlan(m: Module, i: nat, users: multiset<Bit>, readers: Readers) returns (r: Option<Plan>)
    requires i < |m.cells| && m.cells[i].Mul? && ReadersOk(readers, |m.cells|)
    ensures r.Some? ==> r.value.mul == i && Wanted(m.View(), users, readers, r.value)
    ensures r.None? ==> forall p: Plan :: p.mul == i ==> !Wanted(m.View(), users, readers, p)
  {
    hide Canon, CanonSig, ShiftedIn, FullyConst, OccursAt, Capacity;
    var mul := m.cells[i];
    if mul.y == [] || exists b :: b in mul.y && users[Canon(m.conns, b)] > 2 {
      return None;
    }
    var first := Canon(m.conns, mul.y[0]);
    if first !in readers || !m.cells[readers[first].0].AddSub? || readers[first].1.OtherPort? {
      return None;
    }
    var alu, onA := readers[first].0, readers[first].1.PortA?;
    var shift := ShiftAt(m, i, alu, onA);
    if shift.None? {
      return None;
    }
    var constOnA := !FullyConst(CanonSig(m.conns, mul.b.sig));
    forall p: Plan | p.mul == i && Wanted(m.View(), users, readers, p)
      ensures p == Plan(i, alu, onA, shift.value, constOnA) && (constOnA ==> FullyConst(CanonSig(m.conns, mul.a.sig)))
    {
      ShiftUnique(m.View(), i, alu, onA, p.k, shift.value);
    }
    if constOnA && !FullyConst(CanonSig(m.conns, mul.a.sig)) {
      return None;
    }
    var p := Plan(i, alu, onA, shift.value, constOnA);
    if !Capacity(m.View(), p) {
      return None;
    }
    return Some(p);
  }

  predicate AllMuls(cells: seq<Cell>, muls: seq<nat>) {
    forall j :: 0 <= j < |muls| ==> muls[j] < |cells| && cells[muls[j]].Mul?
  }

  /** No multiply of the net meets the guards. */
  ghost predicate NothingWanted(net: Net) {
    exists readers :: ReadersFound(net.cells, net.conns, readers, |net.cells|)
      && forall p: Plan :: !Wanted(net, Users(net), readers, p)
  }

  /** One multiply's turn: rewritten if some plan for it meets the guards as the net is then, left alone if none does. */
  ghost predicate Turn(net: Net, next: nat, users: multiset<Bit>, readers: Readers, k: nat, net': Net, next': nat) {
    || (exists p: Plan :: p.mul == k && Wanted(net, users, readers, p) && RewrittenBy(net, next, p, net', next'))
    || ((forall p: Plan :: p.mul == k ==> !Wanted(net, users, readers, p)) && net' == net && next' == next)
  }

  predicate RewrittenBy(net: Net, next: nat, p: Plan, net': Net, next': nat) {
    && InNet(net, p) && |net.cells[p.mul].y| > 0
    && net' == Refolded(net, p, next) && next' == next + |net.cells[p.mul].y| + p.k
  }

  /** The net and its next free wire, before the first turn and after each. */
  ghost predicate Turns(trace: seq<(Net, nat)>, users: multiset<Bit>, readers: Readers, muls: seq<nat>) {
    0 < |trace| <= |muls| + 1
    && forall j :: 0 < j < |trace| ==> Turn(trace[j - 1].0, trace[j - 1].1, users, readers, muls[j - 1], trace[j].0, trace[j].1)
  }

  /** All multiplies of the module before, each once. */
  predicate EachMul(cells: seq<Cell>, muls: seq<nat>) {
    && AllMuls(cells, muls) && (forall k :: 0 <= k < |cells| && cells[k].Mul? ==> k in muls)
    && forall i, j :: 0 <= i < j < |muls| ==> muls[i] != muls[j]
  }

  /** Every multiply has its turn, under the users and readers counted before the first. */
  ghost predicate AllTurns(start: Net, next: nat, net': Net, next': nat) {
    exists readers, muls, trace ::
      ReadersFound(start.cells, start.conns, readers, |start.cells|) && EachMul(start.cells, muls)
      && Turns(trace, Users(start), readers, muls) && |trace| == |muls| + 1
      && trace[0] == (start, next) && trace[|muls|] == (net', next')
  }

  method Rewrite(m: Module, p: Plan)
    requires Applies(m.View(), p) && NetOlder(m.View(), m.next)
    modifies m
    ensures NetOlder(m.View(), m.next) && old(m.next) <= m.next && |m.cells| == |old(m.cells)|
    ensures |old(m.cells)[p.mul].y| > 0 && m.View() == Refolded(old(m.View()), p, old(m.next))
    ensures RewrittenBy(old(m.View()), old(m.next), p, m.View(), m.next)
    ensures forall i :: 0 <= i < |m.cells| && old(m.cells)[i].Mul? ==> m.cells[i].Mul?
  {
    hide Canon, CanonSig, NetOlder, FullyConst, ShiftedIn;
    SomeProduct(m.View(), p);
    RefoldOlder(m.View(), p, m.next);
    var width := |m.cells[p.mul].y| + p.k;
    var after := Refolded(m.View(), p, m.next);
    m.cells, m.conns, m.next := after.cells, after.conns, m.next + width;
  }

  /** All multiplies, before any of them is rewritten. */
  method FindMuls(m: Module) returns (muls: seq<nat>)
    ensures EachMul(m.cells, muls)
  {
    muls := [];
    for i := 0 to |m.cells|
      invariant AllMuls(m.cells, muls) && (forall j :: 0 <= j < |muls| ==> muls[j] < i)
      invariant forall a, b :: 0 <= a < b < |muls| ==> muls[a] != muls[b]
      invariant forall k :: 0 <= k < i && m.cells[k].Mul? ==> k in muls
    {
      if m.cells[i].Mul? { muls := muls + [i]; }
    }
  }

  lemma NoneIsWanted(net: Net, readers: Readers, muls: seq<nat>)
    requires ReadersFound(net.cells, net.conns, readers, |net.cells|)
    requires forall k :: 0 <= k < |net.cells| && net.cells[k].Mul? ==> k in muls
    requires forall p: Plan :: p.mul in muls ==> !Wanted(net, Users(net), readers, p)
    ensures NothingWanted(net)
  {
    hide Wanted, ReadersFound, Users;
    forall p: Plan ensures !Wanted(net, Users(net), readers, p) {
      WantedIsMul(net, Users(net), readers, p);
    }
  }

  method RefoldShiftedCoefficients(m: Module) returns (refolded: nat)
    requires NetOlder(m.View(), m.next)
    modifies m
    ensures NetOlder(m.View(), m.next)
    ensures SameOnOldWires(old(m.View()), m.View(), old(m.next))
    ensures refolded == 0 ==> m.View() == old(m.View()) && NothingWanted(m.View())
    ensures AllTurns(old(m.View()), old(m.next), m.View(), m.next)
  {
    hide Canon, CanonSig, SameOnOldWires, NetOlder, Applies, Refolded, Wanted, ReadersFound, NothingWanted, Users, Turn, RewrittenBy;
    var users := Users(m.View());
    var readers := IndexReaders(m);
    var muls := FindMuls(m);
    ghost var start, next := m.View(), m.next;
    ghost var trace: seq<(Net, nat)> := [(start, next)];
    SameRefl(start, next);
    refolded := 0;
    for j := 0 to |muls|
      invariant |m.cells| == |start.cells|
      invariant AllMuls(m.cells, muls)
      invariant next <= m.next && NetOlder(m.View(), m.next)
      invariant SameOnOldWires(start, m.View(), next)
      invariant Turns(trace, users, readers, muls) && |trace| == j + 1
      invariant trace[0] == (start, next) && trace[j] == (m.View(), m.next)
      invariant refolded == 0 ==> m.View() == start
      invariant refolded == 0 ==> forall p: Plan :: p.mul in muls[..j] ==> !Wanted(start, users, readers, p)
    {
      assert muls[..j + 1] == muls[..j] + [muls[j]];
      var plan := FindPlan(m, muls[j], users, readers);
      if plan.Some? {
        var p := plan.value;
        ghost var net := m.View();
        ghost var at := m.next;
        WantedIsMul(net, users, readers, p);
        RefoldSame(net, p, at);
        Rewrite(m, p);
        SameTrans(start, net, m.View(), next, at);
        refolded := refolded + 1;
        assert Turn(net, at, users, readers, muls[j], m.View(), m.next) by { Turned(net, at, users, readers, p, m.View(), m.next); }
      } else {
        NotTurned(m.View(), m.next, users, readers, muls[j]);
      }
      trace := trace + [(m.View(), m.next)];
    }
    assert muls[..|muls|] == muls;
    if refolded == 0 {
      NoneIsWanted(start, readers, muls);
    }
  }

  lemma Turned(net: Net, next: nat, users: multiset<Bit>, readers: Readers, p: Plan, net': Net, next': nat)
    requires Wanted(net, users, readers, p) && RewrittenBy(net, next, p, net', next')
    ensures Turn(net, next, users, readers, p.mul, net', next')
  {
    hide Wanted, RewrittenBy;
  }

  lemma NotTurned(net: Net, next: nat, users: multiset<Bit>, readers: Readers, k: nat)
    requires forall p: Plan :: p.mul == k ==> !Wanted(net, users, readers, p)
    ensures Turn(net, next, users, readers, k, net, next)
  {
    hide Wanted, RewrittenBy;
  }

  lemma WantedIsMul(net: Net, users: multiset<Bit>, readers: Readers, p: Plan)
    ensures Wanted(net, users, readers, p) ==> p.mul < |net.cells| && net.cells[p.mul].Mul? && Applies(net, p)
  {
    hide Canon, CanonSig, ShiftedIn, FullyConst;
  }

  // ---- An instance -------------------------------------------------------------------------

  /** `x * 1`, shifted up by one in an addition. */
  function SplitCoefficient(): Net {
    Net([Mul(Operand([Wire(0)], false), Operand([Const(true)], false), [Wire(1)]),
         AddSub(false, Operand([Const(false), Wire(1)], false), Operand([Wire(2), Wire(3)], false), [Wire(4), Wire(5)], false)],
        [], Wires([Wire(4), Wire(5)], {}, map[]))
  }

  lemma SplitCoefficientBits()
    ensures AllBits(SplitCoefficient().cells[0]) == [Wire(0), Const(true), Wire(1)]
    ensures AllBits(SplitCoefficient().cells[1]) == [Const(false), Wire(1), Wire(2), Wire(3), Wire(4), Wire(5)]
  {
  }

  lemma SplitCoefficientUsers()
    ensures Users(SplitCoefficient())[Wire(1)] == 2
  {
    hide Users, AllBits;
    SplitCoefficientBits();
    TwoCells(SplitCoefficient(), Wire(1));
  }

  lemma SplitCoefficientShift()
    ensures FirstShift(SplitCoefficient(), 0, 1, true, 1)
  {
    hide Canon, CanonSig;
    var op, y := [Const(false), Wire(1)], [Wire(1)];
    NoConns(op);
    NoConns(y);
    assert op[1..2] == y && op[..1] == [Const(false)];
    assert !OccursAt(op, y, 0) by { assert op[0..1] == [Const(false)]; }
    assert ShiftedIn([], op, y, 1, false);
  }

  lemma SplitCoefficientReader(readers: Readers)
    requires ReadersFound(SplitCoefficient().cells, [], readers, 2)
    ensures Wire(1) in readers && readers[Wire(1)] == (1, PortA)
  {
    hide Canon, CanonSig;
    var net := SplitCoefficient();
    forall s: Sig ensures CanonSig([], s) == s { NoConns(s); }
    assert Wire(1) in PortSig(net.cells[1], PortA);
  }

  /** However the readers are indexed, its turn rewrites it. */
  lemma SplitCoefficientWanted(readers: Readers)
    requires ReadersFound(SplitCoefficient().cells, [], readers, 2)
    ensures Wanted(SplitCoefficient(), Users(SplitCoefficient()), readers, Plan(0, 1, true, 1, false))
  {
    hide Canon, CanonSig, Users, FirstShift;
    var net, p := SplitCoefficient(), Plan(0, 1, true, 1, false);
    SplitCoefficientUsers();
    forall s: Sig ensures CanonSig([], s) == s { NoConns(s); }
    forall b ensures Canon([], b) == b { NoConn(b); }
    SplitCoefficientShift();
    SplitCoefficientReader(readers);
    assert Wire(0) in [Wire(0)] && Wire(1) in [Wire(1)];
  }
}
