/**
 Duplicate accumulator loops: registers that add the same operand to themselves
 under the same controls are one register. Neither the adders nor the flops are
 syntactically equal; only induction over the run makes them so.
 */
module MergeAccumulators {
  import opened Bits
  import opened Operand
  import opened Netlist

  /** A flop and the adder that feeds it from its own Q. */
  datatype Loop = Loop(ff: nat, alu: nat)

  datatype Level = Level(net: Bit, activeHigh: bool)

  /** All that has to match: the next-state function with the loop's own Q left out, and the base case. */
  datatype Key = Key(
    sub: bool, feedbackOnA: bool,
    aWidth: nat, bWidth: nat, yWidth: nat, aSigned: bool, bSigned: bool, other: Sig,
    qWidth: nat, rising: bool, clk: Bit, en: Option<Level>,
    srst: Option<(Level, seq<bool>)>, init: seq<Option<bool>>)

  function Alu(net: Net, l: Loop): Cell
    requires l.alu < |net.cells|
  {
    net.cells[l.alu]
  }

  function Ff(net: Net, l: Loop): Cell
    requires l.ff < |net.cells|
  {
    net.cells[l.ff]
  }

  predicate InNet(net: Net, l: Loop) {
    && l.ff < |net.cells| && l.alu < |net.cells|
    && Ff(net, l).Flop? && Alu(net, l).AddSub?
  }

  function Feedback(net: Net, l: Loop, onA: bool): Operand
    requires InNet(net, l)
  {
    if onA then Alu(net, l).a else Alu(net, l).b
  }

  /** The whole of D is the sum and the whole of the chosen operand is Q. */
  predicate LoopOn(net: Net, l: Loop, onA: bool) {
    && InNet(net, l)
    && |Ff(net, l).d| > 0
    && CanonSig(net.conns, Alu(net, l).y) == CanonSig(net.conns, Ff(net, l).d)
    && CanonSig(net.conns, Feedback(net, l, onA).sig) == CanonSig(net.conns, Ff(net, l).q)
  }

  predicate IsLoop(net: Net, l: Loop) {
    LoopOn(net, l, true) || LoopOn(net, l, false)
  }

  function CanonControl(conns: Conns, c: Control): Level {
    Level(Canon(conns, c.net), c.activeHigh)
  }

  function FlopInit(net: Net, q: Sig): seq<Option<bool>> {
    seq(|q|, i requires 0 <= i < |q| =>
      if q[i].Wire? && q[i].id in net.wires.init then Some(net.wires.init[q[i].id]) else None)
  }

  function KeyOn(net: Net, l: Loop, onA: bool): Key
    requires InNet(net, l)
  {
    var alu, ff := Alu(net, l), Ff(net, l);
    Key(alu.sub, onA, |alu.a.sig|, |alu.b.sig|, |alu.y|, alu.a.signed, alu.b.signed,
        CanonSig(net.conns, Feedback(net, l, !onA).sig),
        |ff.q|, ff.rising, Canon(net.conns, ff.clk),
        if ff.en.Some? then Some(CanonControl(net.conns, ff.en.value)) else None,
        if ff.srst.Some? then Some((CanonControl(net.conns, ff.srst.value.control), ff.srst.value.value)) else None,
        FlopInit(net, ff.q))
  }

  /** The feedback is looked for on A first. */
  function KeyOf(net: Net, l: Loop): Key
    requires IsLoop(net, l)
  {
    KeyOn(net, l, LoopOn(net, l, true))
  }

  // ---- Loops written twice ----------------------------------------------------------

  predicate OneControl(conns: Conns, c: Control, c': Control) {
    OneNet(conns, [c.net], [c'.net]) && c.activeHigh == c'.activeHigh
  }

  predicate InitIs(net: Net, b: Bit, v: bool) {
    b.Wire? && b.id in net.wires.init && net.wires.init[b.id] == v
  }

  /** Adders of one shape, with the feedback on one side and the other operand on the same nets. */
  predicate SameStep(net: Net, l: Loop, l': Loop)
    requires InNet(net, l) && InNet(net, l')
  {
    var x, y := Alu(net, l), Alu(net, l');
    && x.sub == y.sub && x.a.signed == y.a.signed && x.b.signed == y.b.signed
    && |x.a.sig| == |y.a.sig| && |x.b.sig| == |y.b.sig| && |x.y| == |y.y|
    && (OneNet(net.conns, x.a.sig, Ff(net, l).q) <==> OneNet(net.conns, y.a.sig, Ff(net, l').q))
    && (if OneNet(net.conns, x.a.sig, Ff(net, l).q) then OneNet(net.conns, x.b.sig, y.b.sig) else OneNet(net.conns, x.a.sig, y.a.sig))
  }

  /** Registers under the same clock, enable and reset, with equal reset and power-up values. */
  predicate SameRegister(net: Net, f: Cell, g: Cell)
    requires f.Flop? && g.Flop?
  {
    && f.rising == g.rising && OneNet(net.conns, [f.clk], [g.clk])
    && (f.en.Some? <==> g.en.Some?) && (f.en.Some? ==> OneControl(net.conns, f.en.value, g.en.value))
    && (f.srst.Some? <==> g.srst.Some?)
    && (f.srst.Some? ==> OneControl(net.conns, f.srst.value.control, g.srst.value.control) && f.srst.value.value == g.srst.value.value)
    && |f.q| == |g.q|
    && forall i, v :: 0 <= i < |f.q| ==> (InitIs(net, f.q[i], v) <==> InitIs(net, g.q[i], v))
  }

  /** One accumulator, written twice. */
  predicate Duplicates(net: Net, l: Loop, l': Loop)
    requires InNet(net, l) && InNet(net, l')
  {
    SameStep(net, l, l') && SameRegister(net, Ff(net, l), Ff(net, l'))
  }

  lemma InitEqual(net: Net, q: Sig, q': Sig)
    requires |q| == |q'|
    ensures FlopInit(net, q) == FlopInit(net, q') <==>
      forall i, v :: 0 <= i < |q| ==> (InitIs(net, q[i], v) <==> InitIs(net, q'[i], v))
  {
    if forall i, v :: 0 <= i < |q| ==> (InitIs(net, q[i], v) <==> InitIs(net, q'[i], v)) {
      forall i | 0 <= i < |q| ensures FlopInit(net, q)[i] == FlopInit(net, q')[i] {
        assert InitIs(net, q[i], true) <==> InitIs(net, q'[i], true);
        assert InitIs(net, q[i], false) <==> InitIs(net, q'[i], false);
      }
    }
    if FlopInit(net, q) == FlopInit(net, q') {
      forall i, v | 0 <= i < |q| ensures InitIs(net, q[i], v) <==> InitIs(net, q'[i], v) {
        assert FlopInit(net, q)[i] == FlopInit(net, q')[i];
      }
    }
  }

  lemma ControlEqual(conns: Conns, c: Control, c': Control)
    ensures CanonControl(conns, c) == CanonControl(conns, c') <==> OneControl(conns, c, c')
  {
    hide Canon;
    assert [c.net][0] == c.net && [c'.net][0] == c'.net;
  }

  lemma ClockEqual(conns: Conns, b: Bit, b': Bit)
    ensures Canon(conns, b) == Canon(conns, b') <==> OneNet(conns, [b], [b'])
  {
    hide Canon;
    assert [b][0] == b && [b'][0] == b';
  }

  /** The key tells apart exactly the loops that are not the same accumulator. */
  lemma KeyExact(net: Net, l: Loop, l': Loop)
    requires IsLoop(net, l) && IsLoop(net, l')
    ensures KeyOf(net, l) == KeyOf(net, l') <==> Duplicates(net, l, l')
  {
    hide Canon, CanonSig, CanonControl, FlopInit, OneNet, OneControl, InitIs;
    var x, y, f, g := Alu(net, l), Alu(net, l'), Ff(net, l), Ff(net, l');
    var conns := net.conns;
    OneNetCanon(conns, x.a.sig, f.q);
    OneNetCanon(conns, y.a.sig, g.q);
    OneNetCanon(conns, x.a.sig, y.a.sig);
    OneNetCanon(conns, x.b.sig, y.b.sig);
    ClockEqual(conns, f.clk, g.clk);
    if f.en.Some? && g.en.Some? { ControlEqual(conns, f.en.value, g.en.value); }
    if f.srst.Some? && g.srst.Some? { ControlEqual(conns, f.srst.value.control, g.srst.value.control); }
    if |f.q| == |g.q| { InitEqual(net, f.q, g.q); }
  }

  predicate SoleReader(net: Net, y: Sig) {
    forall b :: b in y ==> Users(net)[Canon(net.conns, b)] <= 2
  }

  /** Neither cell of the loop is marked to stay. */
  predicate NotKept(net: Net, l: Loop)
    requires InNet(net, l)
  {
    !FlopBlocked(net, Ff(net, l)) && !Alu(net, l).keep
  }

  /** The guards a loop passes before it may be merged. */
  predicate Allowed(net: Net, l: Loop)
    requires InNet(net, l)
  {
    NotKept(net, l) && SoleReader(net, Alu(net, l).y) && Ff(net, l).srst.Some?
  }

  predicate Eligible(net: Net, l: Loop) {
    IsLoop(net, l) && Allowed(net, l)
  }

  // ---- The sum has no use outside its loop ---------------------------------------

  lemma InnerUses(net: Net, l: Loop, onA: bool, b: Bit)
    requires LoopOn(net, l, onA) && b in Alu(net, l).y
    ensures CanonBits(net.conns, Outputs(Alu(net, l)))[Canon(net.conns, b)] >= 1
    ensures CanonBits(net.conns, Ff(net, l).d)[Canon(net.conns, b)] >= 1
    ensures l.ff != l.alu
  {
    CountOf(net.conns, Alu(net, l).y, b);
  }

  /** No other cell, no other port of the loop, and no module output carries a bit of the sum. */
  lemma OnlyUses(net: Net, l: Loop, onA: bool, b: Bit, j: nat, b': Bit)
    requires LoopOn(net, l, onA) && SoleReader(net, Alu(net, l).y) && b in Alu(net, l).y
    requires Canon(net.conns, b') == Canon(net.conns, b)
    ensures b' !in net.wires.outputs
    ensures j < |net.cells| && b' in AllBits(net.cells[j]) ==> j == l.alu || j == l.ff
    ensures b' !in Inputs(Alu(net, l))
    ensures b' !in Ff(net, l).q
    ensures forall x :: x in Inputs(Ff(net, l))[|Ff(net, l).d|..] ==> x != b'
  {
    hide Canon, PortBits, CanonSig;
    var conns, c := net.conns, Canon(net.conns, b);
    var alu, ff := Alu(net, l), Ff(net, l);
    InnerUses(net, l, onA, b);
    CountSplit(conns, Inputs(alu), Outputs(alu));
    var rest := Inputs(ff)[|ff.d|..];
    assert Inputs(ff) == ff.d + rest;
    CountSplit(conns, Inputs(ff), ff.q);
    CountSplit(conns, ff.d, rest);
    PortBitsTwo(net.cells, conns, l.alu, l.ff, c);
    assert Users(net)[c] <= 2;
    if b' in net.wires.outputs { CountOf(conns, net.wires.outputs, b'); assert false; }
    if j < |net.cells| && b' in AllBits(net.cells[j]) && j != l.alu && j != l.ff {
      CountOf(conns, AllBits(net.cells[j]), b');
      PortBitsThree(net.cells, conns, l.alu, l.ff, j, c);
      assert false;
    }
    if b' in Inputs(alu) { CountOf(conns, Inputs(alu), b'); assert false; }
    if b' in ff.q { CountOf(conns, ff.q, b'); assert false; }
    if b' in rest { CountOf(conns, rest, b'); assert false; }
  }

  /** The bits of the sum are separate nets. */
  lemma SumBitsApart(net: Net, l: Loop, onA: bool, i: nat, k: nat)
    requires LoopOn(net, l, onA) && SoleReader(net, Alu(net, l).y)
    requires i < k < |Alu(net, l).y|
    ensures Canon(net.conns, Alu(net, l).y[i]) != Canon(net.conns, Alu(net, l).y[k])
  {
    hide Canon, PortBits, CanonSig;
    var conns, y, c := net.conns, Alu(net, l).y, Canon(net.conns, Alu(net, l).y[i]);
    if Canon(conns, y[k]) == c {
      assert y[i] in y;
      InnerUses(net, l, onA, y[i]);
      assert y == y[..k] + y[k..];
      CountSplit(conns, y[..k], y[k..]);
      assert y[..k][i] == y[i] && y[k..][0] == y[k];
      CountOf(conns, y[..k], y[i]);
      CountOf(conns, y[k..], y[k]);
      var alu, ff := Alu(net, l), Ff(net, l);
      CountSplit(conns, Inputs(alu), Outputs(alu));
      CountSplit(conns, Inputs(ff), ff.q);
      assert Inputs(ff) == ff.d + Inputs(ff)[|ff.d|..];
      CountSplit(conns, ff.d, Inputs(ff)[|ff.d|..]);
      PortBitsTwo(net.cells, conns, l.alu, l.ff, c);
      assert false;
    }
  }

  // ---- Lockstep ---------------------------------------------------------------------

  /** Two loops of the net with the same key. */
  predicate Twins(net: Net, k: Loop, d: Loop, onA: bool) {
    && LoopOn(net, k, onA) && LoopOn(net, d, onA)
    && KeyOn(net, k, onA) == KeyOn(net, d, onA)
    && Ff(net, k).srst.Some?
  }

  function QAt(net: Net, l: Loop, e: Env): seq<bool>
    requires InNet(net, l)
  {
    Eval(Ff(net, l).q, e)
  }

  function SumOf(c: Cell, e: Env): seq<bool>
    requires c.AddSub?
  {
    ToBits(if c.sub then c.a.Value(e) - c.b.Value(e) else c.a.Value(e) + c.b.Value(e), |c.y|)
  }

  /** With the registers equal, the two adders compute the same sum. */
  lemma TwinSums(net: Net, k: Loop, d: Loop, onA: bool, e: Env)
    requires Twins(net, k, d, onA) && ConnsHold(net.conns, e) && QAt(net, k, e) == QAt(net, d, e)
    ensures SumOf(Alu(net, k), e) == SumOf(Alu(net, d), e)
  {
    hide ToBits, Canon, Eval, CanonSig, IVal;
    CanonEqual(net.conns, Feedback(net, k, onA).sig, Ff(net, k).q, e);
    CanonEqual(net.conns, Feedback(net, d, onA).sig, Ff(net, d).q, e);
    CanonEqual(net.conns, Feedback(net, k, !onA).sig, Feedback(net, d, !onA).sig, e);
  }

  /** With the registers and D inputs equal, so are the next states. */
  lemma TwinSteps(net: Net, k: Loop, d: Loop, onA: bool, e0: Env, e1: Env, e0': Env, e1': Env)
    requires Twins(net, k, d, onA) && ConnsHold(net.conns, e0) && ConnsHold(net.conns, e1)
    requires QAt(net, k, e0) == QAt(net, d, e0')
    requires Eval(Ff(net, k).d, e0) == Eval(Ff(net, d).d, e0')
    requires AgreeAt(Inputs(Ff(net, d))[|Ff(net, d).d|..], e0, e0') && AgreeAt(Inputs(Ff(net, d))[|Ff(net, d).d|..], e1, e1')
    ensures FlopNext(Ff(net, k), e0, e1) == FlopNext(Ff(net, d), e0', e1')
  {
    hide Canon, Eval, CanonSig;
    var f, g := Ff(net, k), Ff(net, d);
    var rest := Inputs(g)[|g.d|..];
    assert g.clk == rest[0];
    assert g.en.Some? ==> g.en.value.net == rest[1];
    assert rest[|rest| - 1] == g.srst.value.control.net;
    CanonValue(net.conns, f.clk, e0);
    CanonValue(net.conns, f.clk, e1);
    CanonValue(net.conns, g.clk, e0);
    CanonValue(net.conns, g.clk, e1);
    CanonValue(net.conns, f.srst.value.control.net, e0);
    CanonValue(net.conns, g.srst.value.control.net, e0);
    if f.en.Some? {
      CanonValue(net.conns, f.en.value.net, e0);
      CanonValue(net.conns, g.en.value.net, e0);
    }
  }

  lemma AluHolds(net: Net, l: Loop, run: Run, beh: Behaviour, t: nat)
    requires InNet(net, l) && IsRun(net, run, beh) && t < |run|
    ensures Eval(Alu(net, l).y, run[t]) == SumOf(Alu(net, l), run[t])
  {
    hide ToBits, Eval, IVal;
    assert Alu(net, l) in net.cells;
  }

  lemma OneStep(net: Net, k: Loop, d: Loop, onA: bool, run: Run, beh: Behaviour, t: nat)
    requires Twins(net, k, d, onA) && IsRun(net, run, beh) && t + 1 < |run|
    requires QAt(net, k, run[t]) == QAt(net, d, run[t])
    ensures QAt(net, k, run[t + 1]) == QAt(net, d, run[t + 1])
  {
    hide ToBits, Canon, Eval, CanonSig, FlopNext, SumOf;
    TwinSums(net, k, d, onA, run[t]);
    AluHolds(net, k, run, beh, t);
    AluHolds(net, d, run, beh, t);
    CanonEqual(net.conns, Alu(net, k).y, Ff(net, k).d, run[t]);
    CanonEqual(net.conns, Alu(net, d).y, Ff(net, d).d, run[t]);
    TwinSteps(net, k, d, onA, run[t], run[t + 1], run[t], run[t + 1]);
    assert Ff(net, k) in net.cells && Ff(net, d) in net.cells;
  }

  /** Loops with one key that are ever equal stay equal for the rest of the run. */
  lemma {:induction false} Lockstep(net: Net, k: Loop, d: Loop, onA: bool, run: Run, beh: Behaviour, t0: nat, t: nat)
    requires Twins(net, k, d, onA) && IsRun(net, run, beh) && t0 <= t < |run|
    requires QAt(net, k, run[t0]) == QAt(net, d, run[t0])
    ensures QAt(net, k, run[t]) == QAt(net, d, run[t])
    decreases t - t0
  {
    if t0 < t {
      Lockstep(net, k, d, onA, run, beh, t0, t - 1);
      OneStep(net, k, d, onA, run, beh, t - 1);
    }
  }

  /** However they powered up, the first clock edge under the shared reset makes them equal for good. */
  lemma EqualFromReset(net: Net, k: Loop, d: Loop, onA: bool, run: Run, beh: Behaviour, t0: nat, t: nat)
    requires Twins(net, k, d, onA) && IsRun(net, run, beh) && t0 < t < |run|
    requires ClockEdge(Ff(net, k).clk, Ff(net, k).rising, run[t0], run[t0 + 1])
    requires Active(Ff(net, k).srst.value.control, run[t0])
    ensures QAt(net, k, run[t]) == QAt(net, d, run[t])
  {
    var f, g := Ff(net, k), Ff(net, d);
    CanonValue(net.conns, f.clk, run[t0]);
    CanonValue(net.conns, f.clk, run[t0 + 1]);
    CanonValue(net.conns, g.clk, run[t0]);
    CanonValue(net.conns, g.clk, run[t0 + 1]);
    CanonValue(net.conns, f.srst.value.control.net, run[t0]);
    CanonValue(net.conns, g.srst.value.control.net, run[t0]);
    assert f in net.cells && g in net.cells;
    Lockstep(net, k, d, onA, run, beh, t0 + 1, t);
  }

  /** With a full power-up value in the key they are equal from cycle 0. */
  lemma EqualFromPowerUp(net: Net, k: Loop, d: Loop, onA: bool, run: Run, beh: Behaviour, t: nat)
    requires Twins(net, k, d, onA) && IsRun(net, run, beh) && t < |run|
    requires forall i :: 0 <= i < |Ff(net, k).q| ==> FlopInit(net, Ff(net, k).q)[i].Some?
    ensures QAt(net, k, run[t]) == QAt(net, d, run[t])
  {
    var f, g := Ff(net, k), Ff(net, d);
    assert f in net.cells && g in net.cells;
    assert FlopInit(net, f.q) == FlopInit(net, g.q);
    forall i | 0 <= i < |f.q| ensures BitVal(f.q[i], run[0]) == BitVal(g.q[i], run[0]) {
      assert FlopInit(net, f.q)[i] == FlopInit(net, g.q)[i];
      assert f.q[i] in f.q && g.q[i] in g.q;
    }
    Lockstep(net, k, d, onA, run, beh, 0, t);
  }

  // ---- One fold -----------------------------------------------------------------------

  function Fold(net: Net, k: Loop, d: Loop): Net
    requires InNet(net, k) && InNet(net, d) && |Ff(net, k).q| == |Ff(net, d).q|
  {
    Net(net.cells[d.alu := Removed][d.ff := Removed],
        net.conns + Pairs(Ff(net, d).q, Ff(net, k).q), net.wires)
  }

  /** A run in which the two registers power up equal is a run of the folded net. */
  lemma FoldKeepsRun(net: Net, k: Loop, d: Loop, onA: bool, run: Run, beh: Behaviour)
    requires Twins(net, k, d, onA) && IsRun(net, run, beh)
    requires |run| > 0 ==> QAt(net, k, run[0]) == QAt(net, d, run[0])
    ensures IsRun(Fold(net, k, d), run, beh)
  {
    hide Canon, CellHolds, ConnsHold, Pairs;
    var net' := Fold(net, k, d);
    forall c | c in net'.cells ensures CellHolds(c, run, beh) && (c.Removed? || c in net.cells) {
      if !c.Removed? {
        var i :| 0 <= i < |net'.cells| && net'.cells[i] == c;
        assert net.cells[i] == c;
      } else {
        RemovedHolds(run, beh);
      }
    }
    forall t | 0 <= t < |run| ensures ConnsHold(net'.conns, run[t]) {
      Lockstep(net, k, d, onA, run, beh, 0, t);
      PairsHold(Ff(net, d).q, Ff(net, k).q, run[t]);
      ConnsSplit(net.conns, Pairs(Ff(net, d).q, Ff(net, k).q), run[t]);
    }
  }

  lemma RemovedHolds(run: Run, beh: Behaviour)
    ensures CellHolds(Removed, run, beh)
  {
  }

  /** The dead sum, put back with the value of the surviving one. */
  ghost function Restored(net: Net, k: Loop, d: Loop, e: Env): Env
    requires InNet(net, k) && InNet(net, d) && |Alu(net, k).y| == |Alu(net, d).y|
  {
    WithNets(net.conns, Alu(net, d).y, Eval(Alu(net, k).y, e), e)
  }

  lemma RestoredElsewhere(net: Net, k: Loop, d: Loop, s: Sig, e: Env)
    requires InNet(net, k) && InNet(net, d) && |Alu(net, k).y| == |Alu(net, d).y|
    requires forall b, x :: b in s && x in Alu(net, d).y ==> Canon(net.conns, b) != Canon(net.conns, x)
    ensures AgreeAt(s, e, Restored(net, k, d, e))
  {
    hide Canon;
    WithNetsElsewhere(net.conns, Alu(net, d).y, Eval(Alu(net, k).y, e), e, s);
  }

  /** No cell output is tied to a constant. */
  predicate DrivesWires(net: Net) {
    forall i, b :: 0 <= i < |net.cells| && b in Outputs(net.cells[i]) ==> Canon(net.conns, b).Wire?
  }

  lemma SumOnOwnNets(net: Net, d: Loop, onA: bool)
    requires LoopOn(net, d, onA) && SoleReader(net, Alu(net, d).y) && DrivesWires(net)
    ensures OwnNets(net.conns, Alu(net, d).y)
  {
    hide Canon, SoleReader, CanonSig;
    var y := Alu(net, d).y;
    forall i | 0 <= i < |y| ensures Canon(net.conns, y[i]).Wire? {
      assert y[i] in Outputs(net.cells[d.alu]);
    }
    forall i, j | 0 <= i < j < |y| ensures Canon(net.conns, y[i]) != Canon(net.conns, y[j]) {
      SumBitsApart(net, d, onA, i, j);
    }
  }

  /** Every bit of the dead sum's nets takes the surviving sum's bit. */
  lemma RestoredSum(net: Net, k: Loop, d: Loop, onA: bool, i: nat, b: Bit, e: Env)
    requires LoopOn(net, d, onA) && InNet(net, k) && |Alu(net, k).y| == |Alu(net, d).y|
    requires SoleReader(net, Alu(net, d).y) && DrivesWires(net)
    requires i < |Alu(net, d).y| && Canon(net.conns, b) == Canon(net.conns, Alu(net, d).y[i])
    ensures BitVal(b, Restored(net, k, d, e)) == BitVal(Alu(net, k).y[i], e)
  {
    hide Canon, SoleReader, CanonSig, OwnNets, DrivesWires;
    SumOnOwnNets(net, d, onA);
    WithNetsThere(net.conns, Alu(net, d).y, Eval(Alu(net, k).y, e), e, i, b);
  }

  lemma RestoredConns(net: Net, k: Loop, d: Loop, onA: bool, e: Env)
    requires LoopOn(net, d, onA) && InNet(net, k) && |Alu(net, k).y| == |Alu(net, d).y|
    requires SoleReader(net, Alu(net, d).y) && DrivesWires(net) && ConnsHold(net.conns, e)
    ensures ConnsHold(net.conns, Restored(net, k, d, e))
  {
    hide Canon, SoleReader, CanonSig, OwnNets, DrivesWires;
    SumOnOwnNets(net, d, onA);
    WithNetsConns(net.conns, Alu(net, d).y, Eval(Alu(net, k).y, e), e);
  }

  /** What a fold needs of the two loops. */
  ghost predicate Foldable(net: Net, k: Loop, d: Loop, onA: bool) {
    && Twins(net, k, d, onA) && DrivesWires(net) && k.ff != d.ff && k.alu != d.alu
    && SoleReader(net, Alu(net, d).y) && NotKept(net, d)
  }

  lemma FoldDefined(net: Net, k: Loop, d: Loop, onA: bool)
    requires Foldable(net, k, d, onA)
    ensures InNet(net, k) && InNet(net, d)
    ensures |Ff(net, k).q| == |Ff(net, d).q| && |Alu(net, k).y| == |Alu(net, d).y|
  {
  }

  ghost function RestoredRun(net: Net, k: Loop, d: Loop, run: Run): Run
    requires InNet(net, k) && InNet(net, d) && |Alu(net, k).y| == |Alu(net, d).y|
  {
    seq(|run|, t requires 0 <= t < |run| => Restored(net, k, d, run[t]))
  }

  /** Bits outside the dead sum's nets are untouched by putting it back. */
  lemma OutsideUntouched(net: Net, k: Loop, d: Loop, onA: bool, s: Sig, j: nat, e: Env)
    requires Foldable(net, k, d, onA)
    requires
      || (j < |net.cells| && j != d.alu && j != d.ff && s == AllBits(net.cells[j]))
      || s == Inputs(Alu(net, d)) || s == Ff(net, d).q
      || s == Inputs(Ff(net, d))[|Ff(net, d).d|..] || s == net.wires.outputs
    ensures AgreeAt(s, e, Restored(net, k, d, e))
  {
    hide Canon, SoleReader, AllBits, Inputs;
    forall b, x | b in s && x in Alu(net, d).y ensures Canon(net.conns, b) != Canon(net.conns, x) {
      if Canon(net.conns, b) == Canon(net.conns, x) {
        OnlyUses(net, d, onA, x, j, b);
        assert false;
      }
    }
    RestoredElsewhere(net, k, d, s, e);
  }

  lemma FoldedConns(net: Net, k: Loop, d: Loop, onA: bool, run: Run, beh: Behaviour, t: nat)
    requires Foldable(net, k, d, onA) && IsRun(Fold(net, k, d), run, beh) && t < |run|
    ensures ConnsHold(net.conns, run[t]) && QAt(net, k, run[t]) == QAt(net, d, run[t])
  {
    ConnsSplit(net.conns, Pairs(Ff(net, d).q, Ff(net, k).q), run[t]);
    PairsHold(Ff(net, d).q, Ff(net, k).q, run[t]);
  }

  lemma RestoredAlu(net: Net, k: Loop, d: Loop, onA: bool, run: Run, beh: Behaviour, t: nat)
    requires Foldable(net, k, d, onA) && IsRun(Fold(net, k, d), run, beh) && t < |run|
    ensures var e := Restored(net, k, d, run[t]);
            Eval(Alu(net, d).y, e) == SumOf(Alu(net, d), e) == Eval(Alu(net, k).y, run[t])
  {
    hide Canon, ToBits, SoleReader, IVal, CanonSig, Eval, Restored, IsRun;
    var alu, e := Alu(net, d), Restored(net, k, d, run[t]);
    FoldedConns(net, k, d, onA, run, beh, t);
    TwinSums(net, k, d, onA, run[t]);
    FoldedAlu(net, k, d, onA, run, beh, t);
    OutsideUntouched(net, k, d, onA, Inputs(alu), 0, run[t]);
    AgreeOperand(alu.a, Inputs(alu), run[t], e);
    AgreeOperand(alu.b, Inputs(alu), run[t], e);
    RestoredSig(net, k, d, onA, alu.y, run[t]);
  }

  lemma FoldedAlu(net: Net, k: Loop, d: Loop, onA: bool, run: Run, beh: Behaviour, t: nat)
    requires Foldable(net, k, d, onA) && IsRun(Fold(net, k, d), run, beh) && t < |run|
    ensures Eval(Alu(net, k).y, run[t]) == SumOf(Alu(net, k), run[t])
    ensures t + 1 < |run| ==> QAt(net, k, run[t + 1]) == FlopNext(Ff(net, k), run[t], run[t + 1])
  {
    hide Canon, ToBits, SoleReader, IVal, CanonSig, Eval, FlopNext;
    var cells := Fold(net, k, d).cells;
    assert cells[k.alu] == Alu(net, k) && cells[k.ff] == Ff(net, k);
    assert Alu(net, k) in cells && Ff(net, k) in cells;
  }

  lemma RestoredSig(net: Net, k: Loop, d: Loop, onA: bool, s: Sig, e: Env)
    requires Foldable(net, k, d, onA) && CanonSig(net.conns, s) == CanonSig(net.conns, Alu(net, d).y)
    ensures Eval(s, Restored(net, k, d, e)) == Eval(Alu(net, k).y, e)
  {
    hide Canon, SoleReader, Restored;
    var y := Alu(net, d).y;
    assert |CanonSig(net.conns, s)| == |s| == |y|;
    forall i | 0 <= i < |s| ensures BitVal(s[i], Restored(net, k, d, e)) == BitVal(Alu(net, k).y[i], e) {
      assert CanonSig(net.conns, s)[i] == CanonSig(net.conns, y)[i];
      assert y[i] in Outputs(net.cells[d.alu]);
      RestoredSum(net, k, d, onA, i, s[i], e);
    }
  }

  /** At one cycle the dropped register is back, next to the one kept, with all its inputs. */
  lemma RestoredRegister(net: Net, k: Loop, d: Loop, onA: bool, run: Run, beh: Behaviour, t: nat)
    requires Foldable(net, k, d, onA) && IsRun(Fold(net, k, d), run, beh) && t < |run|
    ensures ConnsHold(net.conns, run[t])
    ensures QAt(net, k, run[t]) == QAt(net, d, Restored(net, k, d, run[t]))
    ensures AgreeAt(Inputs(Ff(net, d))[|Ff(net, d).d|..], run[t], Restored(net, k, d, run[t]))
    ensures Eval(Ff(net, k).d, run[t]) == Eval(Ff(net, d).d, Restored(net, k, d, run[t]))
  {
    hide Canon, SoleReader, CanonSig, Eval, Restored, IsRun;
    var g := Ff(net, d);
    FoldedConns(net, k, d, onA, run, beh, t);
    OutsideUntouched(net, k, d, onA, g.q, 0, run[t]);
    AgreeEval(g.q, g.q, run[t], Restored(net, k, d, run[t]));
    OutsideUntouched(net, k, d, onA, Inputs(g)[|g.d|..], 0, run[t]);
    CanonEqual(net.conns, Alu(net, k).y, Ff(net, k).d, run[t]);
    RestoredSig(net, k, d, onA, g.d, run[t]);
  }

  lemma RestoredFlop(net: Net, k: Loop, d: Loop, onA: bool, run: Run, beh: Behaviour, t: nat)
    requires Foldable(net, k, d, onA) && IsRun(Fold(net, k, d), run, beh) && t + 1 < |run|
    ensures var e0, e1 := Restored(net, k, d, run[t]), Restored(net, k, d, run[t + 1]);
            Eval(Ff(net, d).q, e1) == FlopNext(Ff(net, d), e0, e1)
  {
    hide Canon, SoleReader, CanonSig, Eval, Restored, IsRun, FlopNext, Inputs, ConnsHold;
    var e0, e1 := Restored(net, k, d, run[t]), Restored(net, k, d, run[t + 1]);
    FoldedAlu(net, k, d, onA, run, beh, t);
    RestoredRegister(net, k, d, onA, run, beh, t);
    RestoredRegister(net, k, d, onA, run, beh, t + 1);
    TwinSteps(net, k, d, onA, run[t], run[t + 1], e0, e1);
  }

  lemma RestoredPowerUp(net: Net, k: Loop, d: Loop, onA: bool, run: Run, beh: Behaviour)
    requires Foldable(net, k, d, onA) && IsRun(Fold(net, k, d), run, beh) && |run| > 0
    ensures PowersUp(Ff(net, d), net.wires.init, Restored(net, k, d, run[0]))
  {
    hide Canon, SoleReader, CanonSig, Restored;
    var f, g, e := Ff(net, k), Ff(net, d), Restored(net, k, d, run[0]);
    FoldedConns(net, k, d, onA, run, beh, 0);
    OutsideUntouched(net, k, d, onA, g.q, 0, run[0]);
    assert Fold(net, k, d).cells[k.ff] == f && f in Fold(net, k, d).cells;
    forall b | b in g.q && b.Wire? && b.id in net.wires.init ensures e(b.id) == net.wires.init[b.id] {
      var i :| 0 <= i < |g.q| && g.q[i] == b;
      assert FlopInit(net, g.q)[i] == FlopInit(net, f.q)[i];
      assert f.q[i] in f.q;
      assert QAt(net, k, run[0])[i] == QAt(net, d, run[0])[i];
      assert BitVal(b, run[0]) == BitVal(b, e);
    }
  }

  /** A fold adds no behaviour: every run of the folded net is a run of the net, on all surviving nets. */
  lemma FoldRefines(net: Net, k: Loop, d: Loop, onA: bool, beh: Behaviour)
    requires Foldable(net, k, d, onA)
    ensures Refines(Fold(net, k, d), net, beh)
  {
    hide Canon, SoleReader, CanonSig, Restored, CellHolds, ConnsHold, PowersUp, AllBits;
    var net' := Fold(net, k, d);
    forall run' | IsRun(net', run', beh)
      ensures exists run :: IsRun(net, run, beh) && SurvivingAgree(net', run, run')
    {
      var run := RestoredRun(net, k, d, run');
      forall j | 0 <= j < |net.cells|
        ensures CellHolds(net.cells[j], run, beh)
        ensures |run| > 0 ==> PowersUp(net.cells[j], net.wires.init, run[0])
        ensures j != d.alu && j != d.ff ==> AgreeOn(AllBits(net.cells[j]), run, run')
      {
        RestoredCell(net, k, d, onA, run', beh, j);
      }
      forall t | 0 <= t < |run| ensures ConnsHold(net.conns, run[t]) && AgreeAt(net.wires.outputs, run[t], run'[t]) {
        RestoredWires(net, k, d, onA, run', beh, t);
      }
      assert IsRun(net, run, beh);
      forall c | c in net'.cells ensures AgreeOn(AllBits(c), run, run') {
        var j :| 0 <= j < |net'.cells| && net'.cells[j] == c;
        if c.Removed? { NoPorts(run, run'); } else { assert net.cells[j] == c; }
      }
    }
  }

  lemma NoPorts(run: Run, run': Run)
    requires |run| == |run'|
    ensures AgreeOn(AllBits(Removed), run, run')
  {
  }

  lemma RestoredWires(net: Net, k: Loop, d: Loop, onA: bool, run: Run, beh: Behaviour, t: nat)
    requires Foldable(net, k, d, onA) && IsRun(Fold(net, k, d), run, beh) && t < |run|
    ensures ConnsHold(net.conns, Restored(net, k, d, run[t]))
    ensures AgreeAt(net.wires.outputs, Restored(net, k, d, run[t]), run[t])
  {
    hide Canon, SoleReader, CanonSig, Restored, IsRun;
    FoldedConns(net, k, d, onA, run, beh, t);
    RestoredConns(net, k, d, onA, run[t]);
    OutsideUntouched(net, k, d, onA, net.wires.outputs, 0, run[t]);
  }

  lemma RestoredCell(net: Net, k: Loop, d: Loop, onA: bool, run: Run, beh: Behaviour, j: nat)
    requires Foldable(net, k, d, onA) && IsRun(Fold(net, k, d), run, beh) && j < |net.cells|
    ensures var r := RestoredRun(net, k, d, run);
            && CellHolds(net.cells[j], r, beh)
            && (|run| > 0 ==> PowersUp(net.cells[j], net.wires.init, r[0]))
            && (j != d.alu && j != d.ff ==> AgreeOn(AllBits(net.cells[j]), r, run))
  {
    hide Canon, SoleReader, CanonSig, Restored, FlopNext, ToBits, IVal, Eval, AllBits;
    var r, c := RestoredRun(net, k, d, run), net.cells[j];
    if j == d.alu {
      forall t | 0 <= t < |r| ensures Eval(c.y, r[t]) == SumOf(c, r[t]) {
        RestoredAlu(net, k, d, onA, run, beh, t);
      }
    } else if j == d.ff {
      forall t | 0 <= t < |r| - 1 ensures Eval(c.q, r[t + 1]) == FlopNext(c, r[t], r[t + 1]) {
        RestoredFlop(net, k, d, onA, run, beh, t);
      }
      if |run| > 0 { RestoredPowerUp(net, k, d, onA, run, beh); }
    } else {
      UntouchedCell(net, k, d, onA, run, beh, j);
    }
  }

  lemma UntouchedCell(net: Net, k: Loop, d: Loop, onA: bool, run: Run, beh: Behaviour, j: nat)
    requires Foldable(net, k, d, onA) && IsRun(Fold(net, k, d), run, beh)
    requires j < |net.cells| && j != d.alu && j != d.ff
    ensures var r := RestoredRun(net, k, d, run);
            && CellHolds(net.cells[j], r, beh)
            && (|run| > 0 ==> PowersUp(net.cells[j], net.wires.init, r[0]))
            && AgreeOn(AllBits(net.cells[j]), r, run)
  {
    hide Canon, SoleReader, CanonSig, Restored, CellHolds;
    var r, c := RestoredRun(net, k, d, run), net.cells[j];
    assert Fold(net, k, d).cells[j] == c;
    forall t | 0 <= t < |run| ensures AgreeAt(AllBits(c), run[t], r[t]) {
      OutsideUntouched(net, k, d, onA, AllBits(c), j, run[t]);
    }
    CellHoldsAgree(c, run, r, beh);
    if |run| > 0 && c.Flop? {
      assert c in Fold(net, k, d).cells;
      assert forall b :: b in c.q ==> b in AllBits(c);
      assert AgreeAt(AllBits(c), run[0], r[0]);
    }
  }

  // ---- Other loops survive a fold -----------------------------------------------------

  /** A loop that can still be kept or folded, with its feedback on a known port. */
  predicate Ready(net: Net, l: Loop, onA: bool) {
    LoopOn(net, l, onA) && SoleReader(net, Alu(net, l).y) && Ff(net, l).srst.Some? && NotKept(net, l)
  }

  /** One flop is in at most one ready loop, and one adder in at most one. */
  lemma ReadyDistinct(net: Net, l: Loop, onA: bool, l': Loop, onA': bool)
    requires Ready(net, l, onA) && Ready(net, l', onA')
    ensures l.ff == l'.ff <==> l.alu == l'.alu
  {
    hide Canon, SoleReader;
    var y, y' := Alu(net, l).y, Alu(net, l').y;
    assert |CanonSig(net.conns, y)| == |y| > 0 && |CanonSig(net.conns, y')| == |y'| > 0;
    assert CanonSig(net.conns, y)[0] == CanonSig(net.conns, Ff(net, l).d)[0];
    assert CanonSig(net.conns, y')[0] == CanonSig(net.conns, Ff(net, l').d)[0];
    assert y[0] in y && y'[0] in AllBits(Alu(net, l')) && Ff(net, l').d[0] in AllBits(Ff(net, l'));
    if l.ff == l'.ff {
      OnlyUses(net, l, onA, y[0], l'.alu, y'[0]);
    } else if l.alu == l'.alu {
      OnlyUses(net, l, onA, y[0], l'.ff, Ff(net, l').d[0]);
    }
  }

  /** Folding two other registers does not touch the class of a ready loop's sum. */
  lemma FoldApart(net: Net, k: Loop, d: Loop, onA: bool, l: Loop, onA': bool, b: Bit, p: (Bit, Bit))
    requires Foldable(net, k, d, onA) && Ready(net, l, onA') && l.ff != d.ff && b in Alu(net, l).y
    requires p in Pairs(Ff(net, d).q, Ff(net, k).q)
    ensures Canon(net.conns, p.0) != Canon(net.conns, b) && Canon(net.conns, p.1) != Canon(net.conns, b)
  {
    hide Canon, SoleReader, CanonSig;
    assert p.0 in AllBits(Ff(net, d)) && p.1 in Ff(net, k).q && p.1 in AllBits(Ff(net, k));
    if Canon(net.conns, p.0) == Canon(net.conns, b) {
      OnlyUses(net, l, onA', b, d.ff, p.0);
      assert false;
    }
    if Canon(net.conns, p.1) == Canon(net.conns, b) {
      OnlyUses(net, l, onA', b, k.ff, p.1);
      assert false;
    }
  }

  lemma {:induction false} UsesShrink(cells: seq<Cell>, cells': seq<Cell>, conns: Conns, more: Conns, c: Bit)
    requires Fewer(cells', cells)
    requires forall p :: p in more ==> Canon(conns, p.0) != c && Canon(conns, p.1) != c
    ensures PortBits(cells', conns + more)[c] <= PortBits(cells, conns)[c]
    decreases |cells|
  {
    hide Canon, CanonBits, AllBits;
    if cells != [] {
      var n := |cells| - 1;
      UsesShrink(cells[..n], cells'[..n], conns, more, c);
      if cells'[n].Removed? {
        NoPortBits(conns + more);
      } else {
        CountApart(conns, more, AllBits(cells[n]), c);
      }
    }
  }

  lemma NoPortBits(conns: Conns)
    ensures CanonBits(conns, AllBits(Removed)) == multiset{}
  {
    assert AllBits(Removed) == [];
    NoBits(conns);
  }

  lemma FoldFewer(net: Net, k: Loop, d: Loop, onA: bool)
    requires Foldable(net, k, d, onA)
    ensures Fewer(Fold(net, k, d).cells, net.cells)
    ensures Live(net.cells) == Live(Fold(net, k, d).cells) + 2
  {
    hide Canon, SoleReader, CanonSig;
    LiveRemove(net.cells, d.alu);
    LiveRemove(net.cells[d.alu := Removed], d.ff);
  }

  lemma FoldKeepsReady(net: Net, k: Loop, d: Loop, onA: bool, l: Loop, onA': bool)
    requires Foldable(net, k, d, onA) && Ready(net, d, onA) && Ready(net, l, onA') && l.ff != d.ff
    ensures Ready(Fold(net, k, d), l, onA')
    ensures Ff(Fold(net, k, d), l) == Ff(net, l) && Alu(Fold(net, k, d), l) == Alu(net, l)
  {
    hide Canon, CanonSig, PortBits, CanonBits;
    var net', more := Fold(net, k, d), Pairs(Ff(net, d).q, Ff(net, k).q);
    ReadyDistinct(net, l, onA', d, onA);
    FoldFewer(net, k, d, onA);
    CanonSigKeeps(net.conns, more, Alu(net, l).y, Ff(net, l).d);
    CanonSigKeeps(net.conns, more, Feedback(net, l, onA').sig, Ff(net, l).q);
    forall b | b in Alu(net, l).y ensures Users(net')[Canon(net'.conns, b)] <= 2 {
      var c := Canon(net.conns, b);
      forall p | p in more ensures Canon(net.conns, p.0) != c && Canon(net.conns, p.1) != c {
        FoldApart(net, k, d, onA, l, onA', b, p);
      }
      CanonApart(net.conns, more, c, b);
      UsesShrink(net.cells, net'.cells, net.conns, more, c);
      CountApart(net.conns, more, net.wires.outputs, c);
    }
  }

  lemma ControlKeeps(conns: Conns, more: Conns, c: Control, c': Control)
    requires CanonControl(conns, c) == CanonControl(conns, c')
    ensures CanonControl(conns + more, c) == CanonControl(conns + more, c')
  {
    hide Canon;
    CanonKeeps(conns, more, c.net, c'.net);
  }

  /** More connections keep equal keys equal. */
  lemma KeyKeeps(net: Net, net': Net, more: Conns, l: Loop, l': Loop, onA: bool)
    requires InNet(net, l) && InNet(net, l') && InNet(net', l) && InNet(net', l')
    requires net'.conns == net.conns + more && net'.wires == net.wires
    requires Ff(net', l) == Ff(net, l) && Ff(net', l') == Ff(net, l') && Alu(net', l) == Alu(net, l) && Alu(net', l') == Alu(net, l')
    requires KeyOn(net, l, onA) == KeyOn(net, l', onA)
    ensures KeyOn(net', l, onA) == KeyOn(net', l', onA)
  {
    hide Canon, CanonSig, CanonControl, FlopInit;
    var f, f' := Ff(net, l), Ff(net, l');
    CanonSigKeeps(net.conns, more, Feedback(net, l, !onA).sig, Feedback(net, l', !onA).sig);
    CanonKeeps(net.conns, more, f.clk, f'.clk);
    if f.en.Some? { ControlKeeps(net.conns, more, f.en.value, f'.en.value); }
    if f.srst.Some? { ControlKeeps(net.conns, more, f.srst.value.control, f'.srst.value.control); }
    SameInit(net, net', f.q);
    SameInit(net, net', f'.q);
  }

  lemma FoldKeepsKeys(net: Net, k: Loop, d: Loop, l: Loop, l': Loop, onA: bool)
    requires InNet(net, k) && InNet(net, d) && |Ff(net, k).q| == |Ff(net, d).q|
    requires InNet(net, l) && InNet(net, l') && KeyOn(net, l, onA) == KeyOn(net, l', onA)
    requires {l.ff, l.alu, l'.ff, l'.alu} !! {d.ff, d.alu}
    ensures InNet(Fold(net, k, d), l) && InNet(Fold(net, k, d), l')
    ensures KeyOn(Fold(net, k, d), l, onA) == KeyOn(Fold(net, k, d), l', onA)
  {
    hide Canon, CanonSig, KeyOn, Pairs;
    KeyKeeps(net, Fold(net, k, d), Pairs(Ff(net, d).q, Ff(net, k).q), l, l', onA);
  }

  lemma FoldKeepsDrives(net: Net, k: Loop, d: Loop, onA: bool)
    requires Foldable(net, k, d, onA)
    ensures DrivesWires(Fold(net, k, d))
  {
    hide Canon, CanonSig, SoleReader, Outputs;
    var net', more := Fold(net, k, d), Pairs(Ff(net, d).q, Ff(net, k).q);
    forall p | p in more ensures Canon(net.conns, p.0).Wire? && Canon(net.conns, p.1).Wire? {
      FlopDrives(net, d, p.0);
      FlopDrives(net, k, p.1);
    }
    forall i, b | 0 <= i < |net'.cells| && b in Outputs(net'.cells[i]) ensures Canon(net'.conns, b).Wire? {
      RemovedDrivesNothing();
      assert net'.cells[i] == net.cells[i];
      StaysWire(net.conns, more, b);
    }
  }

  lemma FlopDrives(net: Net, l: Loop, b: Bit)
    requires DrivesWires(net) && InNet(net, l) && b in Ff(net, l).q
    ensures Canon(net.conns, b).Wire?
  {
    hide Canon;
    assert b in Outputs(net.cells[l.ff]);
  }

  lemma RemovedDrivesNothing()
    ensures Outputs(Removed) == []
  {
  }

  lemma {:induction false} StaysWire(conns: Conns, more: Conns, b: Bit)
    requires Canon(conns, b).Wire?
    requires forall p :: p in more ==> Canon(conns, p.0).Wire? && Canon(conns, p.1).Wire?
    ensures Canon(conns + more, b).Wire?
    decreases |more|
  {
    if more == [] {
      assert conns + more == conns;
    } else {
      var n := |more| - 1;
      assert forall p :: p in more[..n] ==> p in more;
      assert more[n] in more;
      StaysWire(conns, more[..n], b);
      StaysWire(conns, more[..n], more[n].0);
      StaysWire(conns, more[..n], more[n].1);
      assert conns + more == (conns + more[..n]) + [more[n]];
      CanonStep(conns + more[..n], more[n], b);
    }
  }

  // ---- The pass ------------------------------------------------------------------------

  type Groups = map<Key, seq<Loop>>

  /** Every output bit of the first `n` cells has a driver, which is a cell with that output. */
  ghost predicate DriverOk(cells: seq<Cell>, conns: Conns, driver: map<Bit, nat>, n: nat) {
    && n <= |cells|
    && (forall b :: b in driver ==> driver[b] < n && b in CanonSig(conns, Outputs(cells[driver[b]])))
    && (forall i, b :: 0 <= i < n && b in Outputs(cells[i]) ==> Canon(conns, b) in driver)
  }

  method AddDriver(m: Module, driver: map<Bit, nat>, i: nat) returns (r: map<Bit, nat>)
    requires i < |m.cells| && DriverOk(m.cells, m.conns, driver, i)
    ensures DriverOk(m.cells, m.conns, r, i + 1)
  {
    hide Canon, Outputs;
    r := driver;
    var outs := Outputs(m.cells[i]);
    for j := 0 to |outs|
      invariant driver.Keys <= r.Keys
      invariant forall b :: b in r ==> r[b] <= i && b in CanonSig(m.conns, Outputs(m.cells[r[b]]))
      invariant forall k :: 0 <= k < j ==> Canon(m.conns, outs[k]) in r
    {
      assert CanonSig(m.conns, outs)[j] == Canon(m.conns, outs[j]);
      r := r[Canon(m.conns, outs[j]) := i];
    }
  }

  /** Users of every net, and the last cell seen driving it. */
  method Tally(m: Module) returns (users: multiset<Bit>, driver: map<Bit, nat>)
    ensures users == Users(m.View())
    ensures DriverOk(m.cells, m.conns, driver, |m.cells|)
  {
    hide Canon, Outputs, Inputs, DriverOk, CanonSig;
    users := multiset{};
    driver := map[];
    assert DriverOk(m.cells, m.conns, driver, 0) by { NoDrivers(m.cells, m.conns); }
    for i := 0 to |m.cells|
      invariant users == PortBits(m.cells[..i], m.conns)
      invariant DriverOk(m.cells, m.conns, driver, i)
    {
      users := users + CanonBits(m.conns, AllBits(m.cells[i]));
      assert m.cells[..i + 1][..i] == m.cells[..i];
      driver := AddDriver(m, driver, i);
    }
    assert m.cells[..|m.cells|] == m.cells;
    users := users + CanonBits(m.conns, m.wires.outputs);
  }

  lemma NoDrivers(cells: seq<Cell>, conns: Conns)
    ensures DriverOk(cells, conns, map[], 0)
  {
  }

  /** The adder is what is known to drive the first bit of D. */
  predicate Drives(net: Net, driver: map<Bit, nat>, l: Loop)
    requires InNet(net, l)
  {
    |Ff(net, l).d| > 0 &&
    var b := Canon(net.conns, Ff(net, l).d[0]);
    b in driver && driver[b] == l.alu
  }

  /** The loop through flop `i`, found from whatever drives its D. */
  method FindLoop(m: Module, driver: map<Bit, nat>, i: nat) returns (r: Option<Loop>)
    requires i < |m.cells| && DriverOk(m.cells, m.conns, driver, |m.cells|)
    ensures forall l :: r == Some(l) <==> l.ff == i && IsLoop(m.View(), l) && Drives(m.View(), driver, l)
    ensures forall l :: Eligible(m.View(), l) && l.ff == i ==> r == Some(l)
  {
    hide Canon, CanonSig, SoleReader, Inputs;
    ghost var net := m.View();
    forall l | Eligible(net, l) && l.ff == i
      ensures |m.cells[i].d| > 0 && Canon(m.conns, m.cells[i].d[0]) in driver
      ensures driver[Canon(m.conns, m.cells[i].d[0])] == l.alu
    {
      DriverIsAdder(net, l, driver);
    }
    var ff := m.cells[i];
    if !ff.Flop? || |ff.d| == 0 {
      return None;
    }
    var b := Canon(m.conns, ff.d[0]);
    if b !in driver || !m.cells[driver[b]].AddSub? {
      return None;
    }
    var alu := m.cells[driver[b]];
    if CanonSig(m.conns, alu.y) != CanonSig(m.conns, ff.d) {
      return None;
    }
    if CanonSig(m.conns, alu.a.sig) == CanonSig(m.conns, ff.q) || CanonSig(m.conns, alu.b.sig) == CanonSig(m.conns, ff.q) {
      assert LoopOn(net, Loop(i, driver[b]), true) || LoopOn(net, Loop(i, driver[b]), false);
      return Some(Loop(i, driver[b]));
    }
    return None;
  }

  lemma DriverIsAdder(net: Net, l: Loop, driver: map<Bit, nat>)
    requires Eligible(net, l) && DriverOk(net.cells, net.conns, driver, |net.cells|)
    ensures var c := Canon(net.conns, Ff(net, l).d[0]); c in driver && driver[c] == l.alu
  {
    hide Canon, SoleReader, Inputs, Users;
    var onA := LoopOn(net, l, true);
    var y, c := Alu(net, l).y, Canon(net.conns, Ff(net, l).d[0]);
    assert |CanonSig(net.conns, y)| == |y|;
    assert CanonSig(net.conns, y)[0] == CanonSig(net.conns, Ff(net, l).d)[0] == c;
    assert y[0] in Outputs(net.cells[l.alu]);
    var j := driver[c];
    var outs := Outputs(net.cells[j]);
    var k :| 0 <= k < |outs| && CanonSig(net.conns, outs)[k] == c;
    assert outs[k] in AllBits(net.cells[j]);
    OnlyUses(net, l, onA, y[0], j, outs[k]);
    assert outs[k] in outs;
  }

  /** The groups hold exactly the eligible loops among the first `n` flops, each under its key. */
  ghost predicate GroupsOk(net: Net, groups: Groups, n: nat) {
    && (forall key, j :: key in groups && 0 <= j < |groups[key]| ==>
          Eligible(net, groups[key][j]) && KeyOf(net, groups[key][j]) == key && groups[key][j].ff < n)
    && (forall key, i, j :: key in groups && 0 <= i < j < |groups[key]| ==> groups[key][i].ff < groups[key][j].ff)
    && (forall l :: Eligible(net, l) && l.ff < n ==> KeyOf(net, l) in groups && l in groups[KeyOf(net, l)])
  }

  lemma GroupsSkip(net: Net, groups: Groups, i: nat)
    requires GroupsOk(net, groups, i) && forall l :: Eligible(net, l) ==> l.ff != i
    ensures GroupsOk(net, groups, i + 1)
  {
    hide Eligible, KeyOf, IsLoop, KeyOn;
  }

  function Added(groups: Groups, key: Key, l: Loop): Groups {
    groups[key := (if key in groups then groups[key] else []) + [l]]
  }

  lemma GroupsAdd(net: Net, groups: Groups, i: nat, l: Loop)
    requires GroupsOk(net, groups, i) && Eligible(net, l) && l.ff == i
    ensures GroupsOk(net, Added(groups, KeyOf(net, l), l), i + 1)
  {
    hide Allowed, KeyOf, IsLoop, KeyOn;
    var key := KeyOf(net, l);
    var more := Added(groups, key, l);
    assert more[key][|more[key]| - 1] == l;
    forall l' | Eligible(net, l') && l'.ff < i + 1 ensures KeyOf(net, l') in more && l' in more[KeyOf(net, l')] {
      if l'.ff == i {
        EligibleDistinct(net, l, l');
      } else {
        assert l' in groups[KeyOf(net, l')];
      }
    }
  }

  method Group(m: Module) returns (groups: Groups)
    ensures GroupsOk(m.View(), groups, |m.cells|)
  {
    hide Canon, CanonSig, Users, KeyOn, GroupsOk, FlopBlocked, LoopOn;
    var users, driver := Tally(m);
    ghost var net := m.View();
    groups := map[];
    assert GroupsOk(net, groups, 0) by { NoGroups(net); }
    for i := 0 to |m.cells|
      invariant GroupsOk(net, groups, i)
    {
      var found := FindLoop(m, driver, i);
      var take := false;
      if found.Some? {
        LoopInNet(net, found.value);
        var ff, alu := m.cells[found.value.ff], m.cells[found.value.alu];
        var blocked := FlopBlocked(m.View(), ff);
        var sole := forall b :: b in alu.y ==> users[Canon(m.conns, b)] <= 2;
        take := !blocked && !alu.keep && sole && ff.srst.Some?;
        assert take <==> Eligible(net, found.value);
      }
      if take {
        GroupsAdd(net, groups, i, found.value);
        groups := Added(groups, KeyOf(m.View(), found.value), found.value);
      } else {
        GroupsSkip(net, groups, i);
      }
    }
  }

  lemma NoGroups(net: Net)
    ensures GroupsOk(net, map[], 0)
  {
  }

  lemma LoopInNet(net: Net, l: Loop)
    requires IsLoop(net, l)
    ensures InNet(net, l)
  {
  }

  lemma EligibleDistinct(net: Net, l: Loop, l': Loop)
    requires Eligible(net, l) && Eligible(net, l') && l.ff == l'.ff
    ensures l == l'
  {
    ReadyDistinct(net, l, LoopOn(net, l, true), l', LoopOn(net, l', true));
  }

  /** Every loop not yet folded away can still be folded with the rest of its group. */
  ghost predicate Pending(net: Net, groups: Groups, dead: set<nat>) {
    && (forall key, j :: key in groups && 0 <= j < |groups[key]| && groups[key][j].ff !in dead ==>
          Ready(net, groups[key][j], key.feedbackOnA))
    && (forall key, i, j :: key in groups && 0 <= i < |groups[key]| && 0 <= j < |groups[key]| ==>
          groups[key][i].ff in dead || groups[key][j].ff in dead || SameKey(net, groups[key][i], groups[key][j], key.feedbackOnA))
  }

  predicate SameKey(net: Net, l: Loop, l': Loop, onA: bool) {
    InNet(net, l) && InNet(net, l') && KeyOn(net, l, onA) == KeyOn(net, l', onA)
  }

  lemma StartPending(net: Net, groups: Groups)
    requires GroupsOk(net, groups, |net.cells|)
    ensures Pending(net, groups, {})
  {
    hide Canon, CanonSig, PortBits, Users, KeyOn;
    forall key, j | key in groups && 0 <= j < |groups[key]|
      ensures Ready(net, groups[key][j], key.feedbackOnA)
      ensures KeyOn(net, groups[key][j], key.feedbackOnA) == key
    {
      KeyRemembers(net, groups[key][j]);
    }
  }

  lemma KeyRemembers(net: Net, l: Loop)
    requires Eligible(net, l)
    ensures Ready(net, l, KeyOf(net, l).feedbackOnA) && KeyOn(net, l, KeyOf(net, l).feedbackOnA) == KeyOf(net, l)
  {
    hide Canon, CanonSig, SoleReader;
  }

  lemma PendingFoldable(net: Net, groups: Groups, dead: set<nat>, key: Key, i: nat, j: nat)
    requires Pending(net, groups, dead) && DrivesWires(net) && key in groups && i < |groups[key]| && j < |groups[key]|
    requires groups[key][i].ff !in dead && groups[key][j].ff !in dead && groups[key][i].ff != groups[key][j].ff
    ensures Foldable(net, groups[key][i], groups[key][j], key.feedbackOnA)
  {
    hide Canon, CanonSig, KeyOn, SoleReader, DrivesWires;
    ReadyDistinct(net, groups[key][i], key.feedbackOnA, groups[key][j], key.feedbackOnA);
  }

  lemma FoldKeepsPending(net: Net, groups: Groups, dead: set<nat>, k: Loop, d: Loop, onA: bool)
    requires Pending(net, groups, dead) && Foldable(net, k, d, onA) && Ready(net, d, onA)
    ensures Pending(Fold(net, k, d), groups, dead + {d.ff})
  {
    hide Canon, CanonSig, KeyOn, SoleReader, LoopOn, FlopInit, Live;
    FoldDefined(net, k, d, onA);
    var net' := Fold(net, k, d);
    forall key, j | key in groups && 0 <= j < |groups[key]| && groups[key][j].ff !in dead + {d.ff}
      ensures Ready(net', groups[key][j], key.feedbackOnA)
      ensures groups[key][j].alu != d.alu && InNet(net, groups[key][j]) && InNet(net', groups[key][j])
    {
      var l := groups[key][j];
      FoldKeepsReady(net, k, d, onA, l, key.feedbackOnA);
      ReadyDistinct(net, l, key.feedbackOnA, d, onA);
      ReadyInNet(net, l, key.feedbackOnA);
      ReadyInNet(net', l, key.feedbackOnA);
    }
    ReadyInNet(net, d, onA);
    forall key, i, j | key in groups && 0 <= i < |groups[key]| && 0 <= j < |groups[key]|
        && groups[key][i].ff !in dead + {d.ff} && groups[key][j].ff !in dead + {d.ff}
      ensures SameKey(net', groups[key][i], groups[key][j], key.feedbackOnA)
    {
      assert SameKey(net, groups[key][i], groups[key][j], key.feedbackOnA);
      FoldKeepsKeys(net, k, d, groups[key][i], groups[key][j], key.feedbackOnA);
    }
  }

  lemma ReadyInNet(net: Net, l: Loop, onA: bool)
    requires Ready(net, l, onA)
    ensures InNet(net, l)
  {
  }

  /** The flops of each merged pair hold the same value at power-up. */
  predicate StartEqual(cells: seq<Cell>, merged: set<(nat, nat)>, run: Run) {
    |run| > 0 ==> forall p :: p in merged && p.0 < |cells| && p.1 < |cells| && cells[p.0].Flop? && cells[p.1].Flop? ==>
      Eval(cells[p.0].q, run[0]) == Eval(cells[p.1].q, run[0])
  }

  /** Two resettable flops of one width and one power-up value. */
  predicate Alike(net: Net, k: nat, d: nat) {
    && k < |net.cells| && d < |net.cells| && k != d && net.cells[k].Flop? && net.cells[d].Flop?
    && net.cells[k].srst.Some? && net.cells[d].srst.Some?
    && |net.cells[k].q| == |net.cells[d].q| && FlopInit(net, net.cells[k].q) == FlopInit(net, net.cells[d].q)
  }

  /** The second flop of every pair is gone, the first is left or merged itself, and no other flop is gone. */
  ghost predicate MergedOk(old_: Net, new_: Net, merged: set<(nat, nat)>)
    requires |new_.cells| == |old_.cells|
  {
    && (forall p :: p in merged ==> Alike(old_, p.0, p.1) && new_.cells[p.1].Removed?)
    && (forall p :: p in merged && new_.cells[p.0].Removed? ==> IsMerged(merged, p.0))
    && (forall i :: 0 <= i < |old_.cells| && old_.cells[i].Flop? && new_.cells[i].Removed? ==> IsMerged(merged, i))
  }

  ghost predicate IsMerged(merged: set<(nat, nat)>, i: nat) {
    exists k: nat :: (k, i) in merged
  }

  /** An adder or register nobody asked to keep, and that does not power up at 1. */
  predicate MayGo(net: Net, c: Cell) {
    || (c.AddSub? && !c.keep)
    || (c.Flop? && !c.keep && forall b :: b in c.q && b.Wire? ==> b.id !in net.wires.keep && !InitIs(net, b, true))
  }

  ghost predicate KeptStay(net: Net, cells: seq<Cell>)
    requires |cells| == |net.cells|
  {
    forall i :: 0 <= i < |cells| ==> cells[i] == net.cells[i] || MayGo(net, net.cells[i])
  }

  /** Both directions: nothing the old net did is lost, given equal power-up, and nothing is added. */
  ghost predicate SameRuns(old_: Net, new_: Net, merged: set<(nat, nat)>) {
    && new_.wires == old_.wires && Fewer(new_.cells, old_.cells) && MergedOk(old_, new_, merged) && KeptStay(old_, new_.cells)
    && (forall run, beh: Behaviour :: IsRun(old_, run, beh) && StartEqual(old_.cells, merged, run) ==> IsRun(new_, run, beh))
    && (forall beh: Behaviour :: Refines(new_, old_, beh))
  }

  lemma SameRunsRefl(net: Net)
    ensures SameRuns(net, net, {})
  {
    hide IsRun, AllBits;
    forall beh: Behaviour ensures Refines(net, net, beh) {
      forall run | IsRun(net, run, beh) ensures exists r :: IsRun(net, r, beh) && SurvivingAgree(net, r, run) {
        assert SurvivingAgree(net, run, run);
      }
    }
  }

  lemma MergedTrans(a: Net, b: Net, c: Net, m: set<(nat, nat)>, m': set<(nat, nat)>)
    requires a.wires == b.wires == c.wires && Fewer(b.cells, a.cells) && Fewer(c.cells, b.cells)
    requires MergedOk(a, b, m) && MergedOk(b, c, m')
    ensures MergedOk(a, c, m + m')
  {
    hide FlopInit;
    forall i: nat | IsMerged(m, i) || IsMerged(m', i) ensures IsMerged(m + m', i) {
      if IsMerged(m, i) {
        var k: nat :| (k, i) in m;
        assert (k, i) in m + m';
      } else {
        var k: nat :| (k, i) in m';
        assert (k, i) in m + m';
      }
    }
    forall i | 0 <= i < |a.cells| && a.cells[i].Flop? && c.cells[i].Removed? ensures IsMerged(m + m', i) {
      if !b.cells[i].Removed? { assert b.cells[i] == a.cells[i]; }
    }
    forall p | p in m' ensures Alike(a, p.0, p.1) {
      assert Alike(b, p.0, p.1);
      assert b.cells[p.0] == a.cells[p.0] && b.cells[p.1] == a.cells[p.1];
      SameInit(a, b, a.cells[p.0].q);
      SameInit(a, b, a.cells[p.1].q);
    }
    forall p | p in m + m' && c.cells[p.0].Removed? ensures IsMerged(m + m', p.0) {
      if p in m {
        assert Alike(a, p.0, p.1);
      } else {
        assert Alike(b, p.0, p.1);
      }
    }
  }

  lemma SameInit(a: Net, b: Net, q: Sig)
    requires a.wires == b.wires
    ensures FlopInit(a, q) == FlopInit(b, q)
  {
  }

  lemma SameRunsTrans(a: Net, b: Net, c: Net, m: set<(nat, nat)>, m': set<(nat, nat)>)
    requires SameRuns(a, b, m) && SameRuns(b, c, m')
    ensures SameRuns(a, c, m + m')
  {
    hide IsRun, AllBits, Refines, Eval, MergedOk;
    MergedTrans(a, b, c, m, m');
    forall run, beh: Behaviour | IsRun(a, run, beh) && StartEqual(a.cells, m + m', run) ensures IsRun(c, run, beh) {
      assert StartEqual(a.cells, m, run);
      assert StartEqual(b.cells, m', run);
    }
    forall beh: Behaviour ensures Refines(c, a, beh) {
      RefinesTrans(c, b, a, beh);
    }
  }

  lemma FoldMerges(net: Net, k: Loop, d: Loop, onA: bool)
    requires Foldable(net, k, d, onA)
    ensures |Ff(net, k).q| == |Ff(net, d).q| && MergedOk(net, Fold(net, k, d), {(k.ff, d.ff)})
  {
    hide Canon, CanonSig, SoleReader, DrivesWires, FlopInit;
    FoldDefined(net, k, d, onA);
    var merged := {(k.ff, d.ff)};
    assert (k.ff, d.ff) in merged;
    assert IsMerged(merged, d.ff);
  }

  /** Every bit of the flop has a power-up value. */
  predicate FullInit(net: Net, i: nat)
    requires i < |net.cells| && net.cells[i].Flop?
  {
    forall j :: 0 <= j < |net.cells[i].q| ==> FlopInit(net, net.cells[i].q)[j].Some?
  }

  /** Every flop that could be in an accumulator loop says how it powers up. */
  predicate AllInit(net: Net) {
    forall i :: 0 <= i < |net.cells| && net.cells[i].Flop? && net.cells[i].srst.Some? ==> FullInit(net, i)
  }

  /** No run at all is lost. */
  ghost predicate AllKept(old_: Net, new_: Net) {
    forall run, beh: Behaviour :: IsRun(old_, run, beh) ==> IsRun(new_, run, beh)
  }

  ghost predicate MergedInit(net: Net, merged: set<(nat, nat)>) {
    forall p :: p in merged ==> p.0 < |net.cells| && net.cells[p.0].Flop? && FullInit(net, p.0)
  }

  /** Power-up values make merged flops start equal. */
  lemma InitStartsEqual(net: Net, new_: Net, merged: set<(nat, nat)>, run: Run, beh: Behaviour)
    requires |new_.cells| == |net.cells| && MergedOk(net, new_, merged) && MergedInit(net, merged) && IsRun(net, run, beh)
    ensures StartEqual(net.cells, merged, run)
  {
    hide CellHolds, ConnsHold;
    if |run| > 0 {
      forall p | p in merged ensures Eval(net.cells[p.0].q, run[0]) == Eval(net.cells[p.1].q, run[0]) {
        assert Alike(net, p.0, p.1);
        PowerUpEqual(net, p.0, p.1, run[0]);
      }
    }
  }

  lemma PowerUpEqual(net: Net, k: nat, d: nat, e: Env)
    requires Alike(net, k, d) && FullInit(net, k)
    requires PowersUp(net.cells[k], net.wires.init, e) && PowersUp(net.cells[d], net.wires.init, e)
    ensures Eval(net.cells[k].q, e) == Eval(net.cells[d].q, e)
  {
    var f, g := net.cells[k], net.cells[d];
    forall i | 0 <= i < |f.q| ensures BitVal(f.q[i], e) == BitVal(g.q[i], e) {
      assert FlopInit(net, f.q)[i] == FlopInit(net, g.q)[i];
      assert f.q[i] in f.q && g.q[i] in g.q;
    }
  }

  lemma InitKeepsRuns(net: Net, new_: Net, merged: set<(nat, nat)>)
    requires SameRuns(net, new_, merged)
    ensures MergedInit(net, merged) ==> AllKept(net, new_)
    ensures AllInit(net) ==> AllKept(net, new_)
  {
    hide IsRun, Refines, AllBits, FlopInit;
    if AllInit(net) {
      forall p | p in merged ensures p.0 < |net.cells| && net.cells[p.0].Flop? && FullInit(net, p.0) {
        assert Alike(net, p.0, p.1);
      }
    }
    if MergedInit(net, merged) {
      forall run, beh: Behaviour | IsRun(net, run, beh) ensures IsRun(new_, run, beh) {
        InitStartsEqual(net, new_, merged, run, beh);
      }
    }
  }

  lemma FoldSameRuns(net: Net, k: Loop, d: Loop, onA: bool)
    requires Foldable(net, k, d, onA)
    ensures SameRuns(net, Fold(net, k, d), {(k.ff, d.ff)})
  {
    hide IsRun, AllBits, Refines, Canon, CanonSig, SoleReader, KeyOn, DrivesWires, Live, FlopInit;
    FoldDefined(net, k, d, onA);
    FoldFewer(net, k, d, onA);
    FoldMerges(net, k, d, onA);
    hide MergedOk;
    forall run, beh: Behaviour | IsRun(net, run, beh) && StartEqual(net.cells, {(k.ff, d.ff)}, run)
      ensures IsRun(Fold(net, k, d), run, beh)
    {
      assert (k.ff, d.ff) in {(k.ff, d.ff)};
      FoldKeepsRun(net, k, d, onA, run, beh);
    }
    forall beh: Behaviour ensures Refines(Fold(net, k, d), net, beh) {
      FoldRefines(net, k, d, onA, beh);
    }
  }

  /** Folds the loops of one group onto its first. */
  method FoldGroup(m: Module, ghost groups: Groups, key: Key, loops: seq<Loop>, ghost dead0: set<nat>)
      returns (folded: nat, ghost merged: set<(nat, nat)>, ghost dead: set<nat>)
    requires key in groups && groups[key] == loops
    requires Pending(m.View(), groups, dead0) && DrivesWires(m.View())
    requires forall i, j :: 0 <= i < j < |loops| ==> loops[i].ff < loops[j].ff
    requires forall i :: 0 <= i < |loops| ==> loops[i].ff !in dead0
    modifies m
    ensures dead == dead0 + set i | 1 <= i < |loops| :: loops[i].ff
    ensures Pending(m.View(), groups, dead) && DrivesWires(m.View())
    ensures SameRuns(old(m.View()), m.View(), merged)
    ensures Live(old(m.cells)) == Live(m.cells) + 2 * folded
    ensures |loops| >= 1 ==> folded == |loops| - 1
    ensures |loops| <= 1 ==> folded == 0 && m.View() == old(m.View())
  {
    hide Canon, CanonSig, KeyOn, SoleReader, DrivesWires, Live, Pending, SameRuns;
    folded, merged, dead := 0, {}, dead0;
    SameRunsRefl(m.View());
    if |loops| <= 1 {
      return;
    }
    ghost var start := m.View();
    for i := 1 to |loops|
      invariant folded == i - 1
      invariant dead == dead0 + set j | 1 <= j < i :: loops[j].ff
      invariant Pending(m.View(), groups, dead) && DrivesWires(m.View())
      invariant SameRuns(start, m.View(), merged)
      invariant Live(start.cells) == Live(m.cells) + 2 * folded
    {
      var k, d := loops[0], loops[i];
      ghost var net := m.View();
      assert k.ff !in dead && d.ff !in dead;
      PendingFoldable(net, groups, dead, key, 0, i);
      PendingReady(net, groups, dead, key, i);
      FoldDefined(net, k, d, key.feedbackOnA);
      FoldKeepsPending(net, groups, dead, k, d, key.feedbackOnA);
      FoldKeepsDrives(net, k, d, key.feedbackOnA);
      FoldSameRuns(net, k, d, key.feedbackOnA);
      FoldFewer(net, k, d, key.feedbackOnA);
      SameRunsTrans(start, net, Fold(net, k, d), merged, {(k.ff, d.ff)});
      var keepQ, deadQ := m.cells[k.ff].q, m.cells[d.ff].q;
      m.Remove(d.alu);
      m.Remove(d.ff);
      m.Connect(deadQ, keepQ);
      assert m.View() == Fold(net, k, d);
      folded, merged, dead := folded + 1, merged + {(k.ff, d.ff)}, dead + {d.ff};
    }
  }

  lemma PendingReady(net: Net, groups: Groups, dead: set<nat>, key: Key, j: nat)
    requires Pending(net, groups, dead) && key in groups && j < |groups[key]| && groups[key][j].ff !in dead
    ensures Ready(net, groups[key][j], key.feedbackOnA)
  {
  }

  /** No accumulator is left written twice. */
  ghost predicate AllDistinct(net: Net) {
    forall l, l' :: Eligible(net, l) && Eligible(net, l') && InNet(net, l) && InNet(net, l') && Duplicates(net, l, l') ==> l == l'
  }

  /** A loop of another group, or of this one beyond what was folded, is not dead. */
  lemma GroupsApart(net: Net, groups: Groups, key: Key, key': Key, i: nat, j: nat)
    requires GroupsOk(net, groups, |net.cells|) && key in groups && key' in groups
    requires i < |groups[key]| && j < |groups[key']| && groups[key][i].ff == groups[key'][j].ff
    ensures key == key' && i == j
  {
    hide Canon, CanonSig, Users, KeyOn, LoopOn;
    EligibleDistinct(net, groups[key][i], groups[key'][j]);
  }

  lemma NoneLeft(net: Net, groups: Groups)
    requires GroupsOk(net, groups, |net.cells|) && forall key :: key in groups ==> |groups[key]| <= 1
    ensures AllDistinct(net)
  {
    hide Canon, CanonSig, KeyOn, LoopOn, Users, SameStep, SameRegister, KeyOf, Allowed;
    forall l, l' | Eligible(net, l) && Eligible(net, l') && InNet(net, l) && InNet(net, l') && Duplicates(net, l, l') ensures l == l' {
      KeyExact(net, l, l');
      var g := groups[KeyOf(net, l)];
      assert l in g && l' in g && |g| <= 1;
    }
  }

  method Round(m: Module) returns (folded: nat, ghost merged: set<(nat, nat)>)
    requires DrivesWires(m.View())
    modifies m
    ensures DrivesWires(m.View())
    ensures SameRuns(old(m.View()), m.View(), merged)
    ensures Live(old(m.cells)) == Live(m.cells) + 2 * folded
    ensures folded == 0 ==> AllDistinct(m.View())
  {
    hide Canon, CanonSig, KeyOn, LoopOn, Users, DrivesWires, Live, Pending, SameRuns, AllDistinct;
    var groups := Group(m);
    ghost var start, dead := m.View(), {};
    StartPending(start, groups);
    SameRunsRefl(start);
    folded, merged := 0, {};
    var keys := groups.Keys;
    while keys != {}
      invariant keys <= groups.Keys
      invariant forall key, j :: key in groups && 0 <= j < |groups[key]| ==>
        (groups[key][j].ff in dead <==> key !in keys && j >= 1)
      invariant Pending(m.View(), groups, dead) && DrivesWires(m.View())
      invariant SameRuns(start, m.View(), merged)
      invariant Live(start.cells) == Live(m.cells) + 2 * folded
      invariant folded == 0 ==> m.View() == start
      invariant folded == 0 ==> forall key :: key in groups && key !in keys ==> |groups[key]| <= 1
      decreases keys
    {
      var key :| key in keys;
      ghost var net, dead0 := m.View(), dead;
      var n, more, died := FoldGroup(m, groups, key, groups[key], dead);
      dead := died;
      SameRunsTrans(start, net, m.View(), merged, more);
      folded, merged, keys := folded + n, merged + more, keys - {key};
      forall key', j | key' in groups && 0 <= j < |groups[key']|
        ensures groups[key'][j].ff in dead <==> key' !in keys && j >= 1
      {
        if groups[key'][j].ff in dead && groups[key'][j].ff !in dead0 {
          var i :| 1 <= i < |groups[key]| && groups[key][i].ff == groups[key'][j].ff;
          GroupsApart(start, groups, key, key', i, j);
        }
      }
    }
    if folded == 0 { NoneLeft(start, groups); }
  }

  /**
   To a fixpoint: loops whose shared operand comes from other accumulators get
   equal keys only once those are merged.
   */
  method MergeAccumulators(m: Module) returns (removed: nat, ghost merged: set<(nat, nat)>)
    requires DrivesWires(m.View())
    modifies m
    ensures SameRuns(old(m.View()), m.View(), merged)
    ensures AllInit(old(m.View())) || MergedInit(old(m.View()), merged) ==> AllKept(old(m.View()), m.View())
    ensures AllDistinct(m.View())
    ensures Live(old(m.cells)) == Live(m.cells) + 2 * removed
  {
    hide Canon, DrivesWires, Live, SameRuns, AllDistinct, AllInit, MergedInit, AllKept;
    ghost var start := m.View();
    SameRunsRefl(start);
    removed, merged := 0, {};
    var again := true;
    while again
      invariant DrivesWires(m.View()) && SameRuns(start, m.View(), merged)
      invariant Live(start.cells) == Live(m.cells) + 2 * removed
      invariant !again ==> AllDistinct(m.View())
      decreases Live(m.cells), again
    {
      ghost var net := m.View();
      var n, more := Round(m);
      SameRunsTrans(start, net, m.View(), merged, more);
      removed, merged := removed + n, merged + more;
      again := n > 0;
    }
    InitKeepsRuns(start, m.View(), merged);
  }

  // ---- An instance ----------------------------------------------------------------------

  /** `q <= q + x` and `r <= r + y` under one clock and reset, where a connection makes `y` and `x` one net. */
  function TwoAccumulators(): Net {
    var reset := Some(Reset(Control(Wire(7), true), [false]));
    Net([AddSub(false, Operand([Wire(0)], false), Operand([Wire(4)], false), [Wire(2)], false),
         Flop([Wire(2)], [Wire(0)], Wire(6), true, None, reset, false),
         AddSub(false, Operand([Wire(1)], false), Operand([Wire(5)], false), [Wire(3)], false),
         Flop([Wire(3)], [Wire(1)], Wire(6), true, None, reset, false)],
        [(Wire(5), Wire(4))], Wires([Wire(0), Wire(1)], {}, map[0 := false, 1 := false]))
  }

  lemma TwoAccumulatorsCanon(b: Bit)
    ensures Canon(TwoAccumulators().conns, b) == if b == Wire(5) then Wire(4) else b
  {
    var conns := TwoAccumulators().conns;
    assert conns[..0] == [];
  }

  lemma FourCells(net: Net, c: Bit, n: nat)
    requires |net.cells| == 4 && CanonBits(net.conns, net.wires.outputs)[c] == 0
    requires CanonBits(net.conns, AllBits(net.cells[0]))[c] + CanonBits(net.conns, AllBits(net.cells[1]))[c]
           + CanonBits(net.conns, AllBits(net.cells[2]))[c] + CanonBits(net.conns, AllBits(net.cells[3]))[c] == n
    ensures Users(net)[c] == n
  {
    hide AllBits, CanonBits;
    var cells, conns := net.cells, net.conns;
    assert cells[..3][..2] == cells[..2] && cells[..2][..1] == cells[..1] && cells[..1][..0] == [];
    assert PortBits(cells[..1], conns) == CanonBits(conns, AllBits(cells[0]));
    assert PortBits(cells[..2], conns) == PortBits(cells[..1], conns) + CanonBits(conns, AllBits(cells[1]));
    assert PortBits(cells[..3], conns) == PortBits(cells[..2], conns) + CanonBits(conns, AllBits(cells[2]));
  }

  lemma TwoAccumulatorsPorts(s: Sig, c: Bit)
    requires c != Wire(4) && c != Wire(5)
    ensures CanonBits(TwoAccumulators().conns, s)[c] == multiset(s)[c]
  {
    var conns := TwoAccumulators().conns;
    CountApart([], conns, s, c);
    assert [] + conns == conns && CanonSig([], s) == s;
  }

  lemma TwoAccumulatorsBits(i: nat)
    requires i < 4
    ensures AllBits(TwoAccumulators().cells[i]) == match i
      case 0 => [Wire(0), Wire(4), Wire(2)]
      case 1 => [Wire(2), Wire(6), Wire(7), Wire(0)]
      case 2 => [Wire(1), Wire(5), Wire(3)]
      case _ => [Wire(3), Wire(6), Wire(7), Wire(1)]
  {
  }

  lemma TwoAccumulatorsPort(i: nat, c: Bit)
    requires i < 4 && (c == Wire(2) || c == Wire(3))
    ensures var net := TwoAccumulators(); CanonBits(net.conns, AllBits(net.cells[i]))[c] == if (c == Wire(2)) == (i < 2) then 1 else 0
  {
    hide Canon, CanonBits, AllBits;
    TwoAccumulatorsBits(i);
    TwoAccumulatorsPorts(AllBits(TwoAccumulators().cells[i]), c);
  }

  /** Each sum is on its adder and one D. */
  lemma TwoAccumulatorsUsers(c: Bit)
    requires c == Wire(2) || c == Wire(3)
    ensures Users(TwoAccumulators())[c] == 2
  {
    var net := TwoAccumulators();
    assert |net.cells| == 4 && net.wires.outputs == [Wire(0), Wire(1)];
    hide *;
    TwoAccumulatorsPort(0, c);
    TwoAccumulatorsPort(1, c);
    TwoAccumulatorsPort(2, c);
    TwoAccumulatorsPort(3, c);
    TwoAccumulatorsPorts(net.wires.outputs, c);
    FourCells(net, c, 2);
  }

  /** The two are candidates and the same accumulator, so a pass that leaves none written twice folds them. */
  lemma TwoAccumulatorsFold()
    ensures var net, l, l' := TwoAccumulators(), Loop(1, 0), Loop(3, 2);
      && Eligible(net, l) && Eligible(net, l') && Duplicates(net, l, l') && !AllDistinct(net)
  {
    hide Canon, Users;
    var net, l, l' := TwoAccumulators(), Loop(1, 0), Loop(3, 2);
    forall b ensures Canon(net.conns, b) == if b == Wire(5) then Wire(4) else b { TwoAccumulatorsCanon(b); }
    TwoAccumulatorsUsers(Wire(2));
    TwoAccumulatorsUsers(Wire(3));
    assert !FlopBlocked(net, Ff(net, l)) && !FlopBlocked(net, Ff(net, l'));
    assert IsLoop(net, l) && IsLoop(net, l');
    assert Eligible(net, l) && Eligible(net, l');
    assert Duplicates(net, l, l');
  }
}
