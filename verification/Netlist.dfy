/**
 A module of RTLIL cells and connections, and what it means to run one: values
 for every wire on every cycle that all cells and connections allow.
 */
module Netlist {
  import opened Bits
  import opened Operand

  /** A control net and the level at which it acts. */
  datatype Control = Control(net: Bit, activeHigh: bool)

  datatype Reset = Reset(control: Control, value: seq<bool>)

  /**
   `Flop` is `$dff`, `$dffe`, `$sdff` or `$sdffe` by its optional controls.
   `Other` is any cell whose behaviour is only known as a relation between the
   histories of its ports. `Removed` is the place of a removed cell.
   */
  datatype Cell =
    | Mul(a: Operand, b: Operand, y: Sig)
    | AddSub(sub: bool, a: Operand, b: Operand, y: Sig, keep: bool)
    | Flop(d: Sig, q: Sig, clk: Bit, rising: bool, en: Option<Control>, srst: Option<Reset>, keep: bool)
    | Other(kind: nat, ins: seq<Sig>, outs: seq<Sig>)
    | Removed

  /** Two-way connections, in the order they were made. */
  type Conns = seq<(Bit, Bit)>

  /** Module outputs, and the `keep` and `init` attributes of wires; no `init` is power-up unknown. */
  datatype Wires = Wires(outputs: Sig, keep: set<nat>, init: map<nat, bool>)

  datatype Net = Net(cells: seq<Cell>, conns: Conns, wires: Wires)

  type Run = seq<Env>
  type History = seq<seq<seq<bool>>>
  type Behaviour = (nat, History, History) -> bool

  // ---- Ports -------------------------------------------------------------------

  function Flatten(ss: seq<Sig>): Sig {
    if ss == [] then [] else ss[0] + Flatten(ss[1..])
  }

  lemma {:induction false} FlattenHas(ss: seq<Sig>, i: nat, b: Bit)
    requires i < |ss| && b in ss[i]
    ensures b in Flatten(ss)
  {
    if i > 0 { FlattenHas(ss[1..], i - 1, b); }
  }

  function ControlBits(c: Option<Control>): Sig {
    if c.Some? then [c.value.net] else []
  }

  function Inputs(c: Cell): Sig {
    match c
    case Mul(a, b, _) => a.sig + b.sig
    case AddSub(_, a, b, _, _) => a.sig + b.sig
    case Flop(d, _, clk, _, en, srst, _) =>
      d + ([clk] + (ControlBits(en) + (if srst.Some? then [srst.value.control.net] else [])))
    case Other(_, ins, _) => Flatten(ins)
    case Removed => []
  }

  function Outputs(c: Cell): Sig {
    match c
    case Mul(_, _, y) => y
    case AddSub(_, _, _, y, _) => y
    case Flop(_, q, _, _, _, _, _) => q
    case Other(_, _, outs) => Flatten(outs)
    case Removed => []
  }

  function AllBits(c: Cell): Sig {
    Inputs(c) + Outputs(c)
  }

  /** A `keep`, or a power-up value no register bank can have. */
  predicate FlopBlocked(net: Net, ff: Cell)
    requires ff.Flop?
  {
    || ff.keep
    || (exists b :: b in ff.q && b.Wire? && b.id in net.wires.keep)
    || (exists b :: b in ff.q && b.Wire? && b.id in net.wires.init && net.wires.init[b.id])
  }

  // ---- Runs ----------------------------------------------------------------------

  function EvalAll(ss: seq<Sig>, e: Env): seq<seq<bool>> {
    seq(|ss|, i requires 0 <= i < |ss| => Eval(ss[i], e))
  }

  function HistoryOf(ss: seq<Sig>, run: Run): History {
    seq(|run|, t requires 0 <= t < |run| => EvalAll(ss, run[t]))
  }

  predicate Active(c: Control, e: Env) {
    BitVal(c.net, e) == c.activeHigh
  }

  predicate ClockEdge(clk: Bit, rising: bool, e0: Env, e1: Env) {
    BitVal(clk, e0) != rising && BitVal(clk, e1) == rising
  }

  /** A flop's Q one cycle on: it holds between edges, and its reset overrides its enable. */
  function FlopNext(c: Cell, e0: Env, e1: Env): seq<bool>
    requires c.Flop?
  {
    if !ClockEdge(c.clk, c.rising, e0, e1) then Eval(c.q, e0)
    else if c.srst.Some? && Active(c.srst.value.control, e0) then c.srst.value.value
    else if c.en.Some? && !Active(c.en.value, e0) then Eval(c.q, e0)
    else Eval(c.d, e0)
  }

  ghost predicate CellHolds(c: Cell, run: Run, beh: Behaviour) {
    match c
    case Mul(a, b, y) =>
      forall t :: 0 <= t < |run| ==> Eval(y, run[t]) == ToBits(a.Value(run[t]) * b.Value(run[t]), |y|)
    case AddSub(sub, a, b, y, _) =>
      forall t :: 0 <= t < |run| ==>
        Eval(y, run[t]) == ToBits(if sub then a.Value(run[t]) - b.Value(run[t]) else a.Value(run[t]) + b.Value(run[t]), |y|)
    case Flop(_, q, _, _, _, _, _) =>
      forall t :: 0 <= t < |run| - 1 ==> Eval(q, run[t + 1]) == FlopNext(c, run[t], run[t + 1])
    case Other(kind, ins, outs) => beh(kind, HistoryOf(ins, run), HistoryOf(outs, run))
    case Removed => true
  }

  predicate ConnsHold(conns: Conns, e: Env) {
    forall p :: p in conns ==> BitVal(p.0, e) == BitVal(p.1, e)
  }

  /** A flop powers up with the values its Q wires are given. */
  predicate PowersUp(c: Cell, init: map<nat, bool>, e: Env) {
    c.Flop? ==> forall b :: b in c.q && b.Wire? && b.id in init ==> e(b.id) == init[b.id]
  }

  ghost predicate IsRun(net: Net, run: Run, beh: Behaviour) {
    && (forall c :: c in net.cells ==> CellHolds(c, run, beh))
    && (forall t :: 0 <= t < |run| ==> ConnsHold(net.conns, run[t]))
    && (|run| > 0 ==> forall c :: c in net.cells ==> PowersUp(c, net.wires.init, run[0]))
  }

  /** Every net a live cell or a module output still mentions. */
  predicate SurvivingAgree(net: Net, run: Run, run': Run) {
    && |run| == |run'|
    && (forall c :: c in net.cells ==> AgreeOn(AllBits(c), run, run'))
    && AgreeOn(net.wires.outputs, run, run')
  }

  /** Whatever `net'` does on its surviving nets, `net` can do as well. */
  ghost predicate Refines(net': Net, net: Net, beh: Behaviour) {
    forall run' :: IsRun(net', run', beh) ==> exists run :: IsRun(net, run, beh) && SurvivingAgree(net', run, run')
  }

  /** The cells of `cells'` are those of `cells`, some of them removed. */
  predicate Fewer(cells': seq<Cell>, cells: seq<Cell>) {
    |cells'| == |cells| && forall i :: 0 <= i < |cells| ==> cells'[i] == cells[i] || cells'[i].Removed?
  }

  lemma RefinesTrans(net2: Net, net1: Net, net0: Net, beh: Behaviour)
    requires Refines(net2, net1, beh) && Refines(net1, net0, beh)
    requires Fewer(net2.cells, net1.cells) && net2.wires == net1.wires
    ensures Refines(net2, net0, beh)
  {
    hide IsRun, SurvivingAgree;
    forall run2 | IsRun(net2, run2, beh)
      ensures exists run :: IsRun(net0, run, beh) && SurvivingAgree(net2, run, run2)
    {
      var run1 :| IsRun(net1, run1, beh) && SurvivingAgree(net2, run1, run2);
      var run0 :| IsRun(net0, run0, beh) && SurvivingAgree(net1, run0, run1);
      SurvivingTrans(net2, net1, run0, run1, run2);
    }
  }

  lemma SurvivingTrans(net2: Net, net1: Net, run0: Run, run1: Run, run2: Run)
    requires SurvivingAgree(net2, run1, run2) && SurvivingAgree(net1, run0, run1)
    requires Fewer(net2.cells, net1.cells) && net2.wires == net1.wires
    ensures SurvivingAgree(net2, run0, run2)
  {
    hide AgreeOn;
    forall c | c in net2.cells ensures AgreeOn(AllBits(c), run0, run2) {
      var i :| 0 <= i < |net2.cells| && net2.cells[i] == c;
      if !c.Removed? { assert net1.cells[i] in net1.cells; }
      AgreeTrans(AllBits(c), run0, run1, run2);
    }
    AgreeTrans(net2.wires.outputs, run0, run1, run2);
  }

  lemma AgreeTrans(s: Sig, run0: Run, run1: Run, run2: Run)
    requires |run0| == |run1|
    requires s == [] || AgreeOn(s, run0, run1)
    requires AgreeOn(s, run1, run2)
    ensures AgreeOn(s, run0, run2)
  {
  }

  predicate AgreeAt(s: Sig, e: Env, e': Env) {
    forall b :: b in s ==> BitVal(b, e) == BitVal(b, e')
  }

  predicate AgreeOn(s: Sig, run: Run, run': Run) {
    |run| == |run'| && forall t :: 0 <= t < |run| ==> AgreeAt(s, run[t], run'[t])
  }

  lemma AgreeEval(s: Sig, big: Sig, e: Env, e': Env)
    requires AgreeAt(big, e, e') && forall b :: b in s ==> b in big
    ensures Eval(s, e) == Eval(s, e')
  {
  }

  lemma AgreeHistory(ss: seq<Sig>, big: Sig, run: Run, run': Run)
    requires AgreeOn(big, run, run') && forall b :: b in Flatten(ss) ==> b in big
    ensures HistoryOf(ss, run) == HistoryOf(ss, run')
  {
    forall t, i | 0 <= t < |run| && 0 <= i < |ss|
      ensures Eval(ss[i], run[t]) == Eval(ss[i], run'[t])
    {
      forall b | b in ss[i] ensures b in big { FlattenHas(ss, i, b); }
      AgreeEval(ss[i], big, run[t], run'[t]);
    }
    assert forall t :: 0 <= t < |run| ==> HistoryOf(ss, run)[t] == HistoryOf(ss, run')[t];
  }

  lemma AgreeOperand(o: Operand, big: Sig, e: Env, e': Env)
    requires AgreeAt(big, e, e') && forall b :: b in o.sig ==> b in big
    ensures o.Value(e) == o.Value(e')
  {
    hide IVal;
    AgreeEval(o.sig, big, e, e');
  }

  lemma FlopNextAgree(c: Cell, e0: Env, e1: Env, e0': Env, e1': Env)
    requires c.Flop? && AgreeAt(AllBits(c), e0, e0') && AgreeAt(AllBits(c), e1, e1')
    ensures FlopNext(c, e0, e1) == FlopNext(c, e0', e1')
  {
    hide Eval;
    AgreeEval(c.q, AllBits(c), e0, e0');
    AgreeEval(c.d, AllBits(c), e0, e0');
    assert c.clk in AllBits(c);
    assert c.en.Some? ==> c.en.value.net in AllBits(c);
    assert c.srst.Some? ==> c.srst.value.control.net in AllBits(c);
  }

  /** A cell sees nothing but its own ports. */
  lemma CellHoldsAgree(c: Cell, run: Run, run': Run, beh: Behaviour)
    requires AgreeOn(AllBits(c), run, run') && CellHolds(c, run, beh)
    ensures CellHolds(c, run', beh)
  {
    hide ToBits, Eval, FlopNext, IVal;
    var all := AllBits(c);
    match c
    case Other(kind, ins, outs) =>
      AgreeHistory(ins, all, run, run');
      AgreeHistory(outs, all, run, run');
    case Flop(_, q, _, _, _, _, _) =>
      forall t | 0 <= t < |run| - 1 ensures Eval(q, run'[t + 1]) == FlopNext(c, run'[t], run'[t + 1]) {
        AgreeEval(q, all, run[t + 1], run'[t + 1]);
        FlopNextAgree(c, run[t], run[t + 1], run'[t], run'[t + 1]);
      }
    case Mul(a, b, y) =>
      forall t | 0 <= t < |run|
        ensures Eval(y, run'[t]) == Eval(y, run[t])
        ensures a.Value(run'[t]) == a.Value(run[t]) && b.Value(run'[t]) == b.Value(run[t])
      {
        AgreeOperand(a, all, run[t], run'[t]);
        AgreeOperand(b, all, run[t], run'[t]);
        AgreeEval(y, all, run[t], run'[t]);
      }
    case AddSub(_, a, b, y, _) =>
      forall t | 0 <= t < |run|
        ensures Eval(y, run'[t]) == Eval(y, run[t])
        ensures a.Value(run'[t]) == a.Value(run[t]) && b.Value(run'[t]) == b.Value(run[t])
      {
        AgreeOperand(a, all, run[t], run'[t]);
        AgreeOperand(b, all, run[t], run'[t]);
        AgreeEval(y, all, run[t], run'[t]);
      }
    case Removed =>
  }

  // ---- Canonical bits ----------------------------------------------------------------

  /** SigMap: one representative per set of connected bits, a constant where there is one. */
  function Canon(conns: Conns, b: Bit): Bit {
    if conns == [] then b
    else
      var n := |conns| - 1;
      var c, from, to := Canon(conns[..n], b), Canon(conns[..n], conns[n].0), Canon(conns[..n], conns[n].1);
      if c == from && from.Wire? then to
      else if c == to && from.Const? then from
      else c
  }

  function CanonSig(conns: Conns, s: Sig): Sig {
    seq(|s|, i requires 0 <= i < |s| => Canon(conns, s[i]))
  }

  lemma {:induction false} CanonValue(conns: Conns, b: Bit, e: Env)
    requires ConnsHold(conns, e)
    ensures BitVal(Canon(conns, b), e) == BitVal(b, e)
    decreases |conns|
  {
    if conns != [] {
      var n := |conns| - 1;
      CanonValue(conns[..n], b, e);
      CanonValue(conns[..n], conns[n].0, e);
      CanonValue(conns[..n], conns[n].1, e);
      assert conns[n] in conns;
    }
  }

  /** Equal canonical signals carry equal values. */
  lemma CanonEqual(conns: Conns, s: Sig, s': Sig, e: Env)
    requires ConnsHold(conns, e) && CanonSig(conns, s) == CanonSig(conns, s')
    ensures Eval(s, e) == Eval(s', e)
  {
    assert |CanonSig(conns, s)| == |s| == |s'|;
    forall i | 0 <= i < |s| ensures BitVal(s[i], e) == BitVal(s'[i], e) {
      CanonValue(conns, s[i], e);
      CanonValue(conns, s'[i], e);
      assert CanonSig(conns, s)[i] == CanonSig(conns, s')[i];
    }
  }

  lemma CanonStep(conns: Conns, p: (Bit, Bit), b: Bit)
    ensures var c, from, to := Canon(conns, b), Canon(conns, p.0), Canon(conns, p.1);
            Canon(conns + [p], b) == if c == from && from.Wire? then to
                                     else if c == to && from.Const? then from else c
  {
    assert (conns + [p])[..|conns|] == conns;
  }

  /** More connections never part what was one. */
  lemma {:induction false} CanonKeeps(conns: Conns, more: Conns, b: Bit, b': Bit)
    requires Canon(conns, b) == Canon(conns, b')
    ensures Canon(conns + more, b) == Canon(conns + more, b')
    decreases |more|
  {
    if more == [] {
      assert conns + more == conns;
    } else {
      var n := |more| - 1;
      CanonKeeps(conns, more[..n], b, b');
      assert conns + more == (conns + more[..n]) + [more[n]];
      CanonStep(conns + more[..n], more[n], b);
      CanonStep(conns + more[..n], more[n], b');
    }
  }

  lemma CanonSigKeeps(conns: Conns, more: Conns, s: Sig, s': Sig)
    requires CanonSig(conns, s) == CanonSig(conns, s')
    ensures CanonSig(conns + more, s) == CanonSig(conns + more, s')
  {
    assert |CanonSig(conns, s)| == |s| == |s'|;
    forall i | 0 <= i < |s| ensures Canon(conns + more, s[i]) == Canon(conns + more, s'[i]) {
      assert CanonSig(conns, s)[i] == CanonSig(conns, s')[i];
      CanonKeeps(conns, more, s[i], s'[i]);
    }
  }

  /** Connections between other classes leave the class of `c` exactly as it was. */
  lemma {:induction false} CanonApart(conns: Conns, more: Conns, c: Bit, b: Bit)
    requires forall p :: p in more ==> Canon(conns, p.0) != c && Canon(conns, p.1) != c
    ensures Canon(conns + more, b) == c <==> Canon(conns, b) == c
    decreases |more|
  {
    if more == [] {
      assert conns + more == conns;
    } else {
      var n := |more| - 1;
      assert forall p :: p in more[..n] ==> p in more;
      assert more[n] in more;
      CanonApart(conns, more[..n], c, b);
      CanonApart(conns, more[..n], c, more[n].0);
      CanonApart(conns, more[..n], c, more[n].1);
      assert conns + more == (conns + more[..n]) + [more[n]];
      CanonStep(conns + more[..n], more[n], b);
    }
  }

  lemma {:induction false} CanonConst(conns: Conns, v: bool)
    ensures Canon(conns, Const(v)).Const?
    decreases |conns|
  {
    if conns != [] { CanonConst(conns[..|conns| - 1], v); }
  }

  lemma {:induction false} CanonConnected(conns: Conns, p: (Bit, Bit))
    requires p in conns
    ensures Canon(conns, p.0) == Canon(conns, p.1)
    decreases |conns|
  {
    var n := |conns| - 1;
    assert conns == conns[..n] + [conns[n]];
    if p == conns[n] {
      CanonStep(conns[..n], p, p.0);
      CanonStep(conns[..n], p, p.1);
    } else {
      CanonConnected(conns[..n], p);
      CanonKeeps(conns[..n], [conns[n]], p.0, p.1);
    }
  }

  /** What a net carries when the net of `b` carries `v` and all others the opposite. */
  function Standing(c: Bit, b: Bit, v: bool): bool {
    if c.Const? then c.v else if c == b then v else !v
  }

  lemma StandingHolds(conns: Conns, b: Bit, v: bool, e0: Env) returns (e: Env)
    requires ConnsHold(conns, e0)
    ensures ConnsHold(conns, e) && forall x :: BitVal(x, e) == Standing(Canon(conns, x), b, v)
  {
    hide Canon;
    e := (w: nat) => Standing(Canon(conns, Wire(w)), b, v);
    forall x ensures BitVal(x, e) == Standing(Canon(conns, x), b, v) {
      if x.Const? {
        CanonConst(conns, x.v);
        CanonValue(conns, x, e0);
      }
    }
    forall p | p in conns ensures BitVal(p.0, e) == BitVal(p.1, e) {
      CanonConnected(conns, p);
    }
  }

  /** Unless the connections contradict each other, bits have one representative exactly when they are always equal. */
  lemma CanonExact(conns: Conns, b: Bit, b': Bit)
    requires exists e :: ConnsHold(conns, e)
    ensures Canon(conns, b) == Canon(conns, b') <==> forall e :: ConnsHold(conns, e) ==> BitVal(b, e) == BitVal(b', e)
  {
    hide Canon;
    var c, c' := Canon(conns, b), Canon(conns, b');
    if c == c' {
      forall e | ConnsHold(conns, e) ensures BitVal(b, e) == BitVal(b', e) {
        CanonValue(conns, b, e);
        CanonValue(conns, b', e);
      }
    } else {
      var e0 :| ConnsHold(conns, e0);
      var e := StandingHolds(conns, if c.Const? then c' else c, if c.Const? then !c.v else if c'.Const? then !c'.v else true, e0);
      assert BitVal(b, e) != BitVal(b', e);
    }
  }

  /** Two signals on the same nets, bit by bit. */
  predicate OneNet(conns: Conns, s: Sig, s': Sig) {
    |s| == |s'| && forall i :: 0 <= i < |s| ==> Canon(conns, s[i]) == Canon(conns, s'[i])
  }

  lemma OneNetCanon(conns: Conns, s: Sig, s': Sig)
    ensures OneNet(conns, s, s') <==> CanonSig(conns, s) == CanonSig(conns, s')
  {
    hide Canon;
    if CanonSig(conns, s) == CanonSig(conns, s') {
      assert |CanonSig(conns, s)| == |s| == |s'|;
      forall i | 0 <= i < |s| ensures Canon(conns, s[i]) == Canon(conns, s'[i]) {
        assert CanonSig(conns, s)[i] == CanonSig(conns, s')[i];
      }
    }
  }

  // ---- Giving nets new values ------------------------------------------------------------

  /** Which bit of the signal a net carries, or -1. */
  ghost function NetIndex(conns: Conns, s: Sig, b: Bit): (i: int)
    ensures -1 <= i < |s|
    ensures i >= 0 ==> Canon(conns, s[i]) == Canon(conns, b)
    ensures i < 0 ==> forall k :: 0 <= k < |s| ==> Canon(conns, s[k]) != Canon(conns, b)
  {
    if exists k :: 0 <= k < |s| && Canon(conns, s[k]) == Canon(conns, b) then
      var k :| 0 <= k < |s| && Canon(conns, s[k]) == Canon(conns, b);
      k
    else -1
  }

  /** The nets of a signal with other values on them. */
  ghost function WithNets(conns: Conns, s: Sig, v: seq<bool>, e: Env): Env
    requires |v| == |s|
  {
    (w: nat) =>
      var i := NetIndex(conns, s, Wire(w));
      if i >= 0 then v[i] else e(w)
  }

  /** Every bit on a net of its own, and none on a constant. */
  predicate OwnNets(conns: Conns, s: Sig) {
    && (forall i :: 0 <= i < |s| ==> Canon(conns, s[i]).Wire?)
    && forall i, j :: 0 <= i < j < |s| ==> Canon(conns, s[i]) != Canon(conns, s[j])
  }

  predicate Elsewhere(conns: Conns, s: Sig, s': Sig) {
    forall b, x :: b in s && x in s' ==> Canon(conns, b) != Canon(conns, x)
  }

  lemma WithNetsElsewhere(conns: Conns, s: Sig, v: seq<bool>, e: Env, other: Sig)
    requires |v| == |s| && Elsewhere(conns, other, s)
    ensures AgreeAt(other, e, WithNets(conns, s, v, e))
  {
    hide Canon;
    forall b | b in other ensures BitVal(b, e) == BitVal(b, WithNets(conns, s, v, e)) {
      forall i | 0 <= i < |s| ensures Canon(conns, s[i]) != Canon(conns, b) {
        assert s[i] in s;
      }
    }
  }

  lemma WithNetsThere(conns: Conns, s: Sig, v: seq<bool>, e: Env, i: nat, b: Bit)
    requires |v| == |s| && OwnNets(conns, s) && i < |s| && Canon(conns, b) == Canon(conns, s[i])
    ensures BitVal(b, WithNets(conns, s, v, e)) == v[i]
  {
    hide Canon;
    if b.Const? {
      CanonConst(conns, b.v);
      assert false;
    }
    var j := NetIndex(conns, s, b);
    assert j == i;
  }

  lemma WithNetsValue(conns: Conns, s: Sig, v: seq<bool>, e: Env)
    requires |v| == |s| && OwnNets(conns, s)
    ensures Eval(s, WithNets(conns, s, v, e)) == v
  {
    hide Canon, OwnNets;
    forall i | 0 <= i < |s| ensures BitVal(s[i], WithNets(conns, s, v, e)) == v[i] {
      WithNetsThere(conns, s, v, e, i, s[i]);
    }
  }

  lemma WithNetsConns(conns: Conns, s: Sig, v: seq<bool>, e: Env)
    requires |v| == |s| && OwnNets(conns, s) && ConnsHold(conns, e)
    ensures ConnsHold(conns, WithNets(conns, s, v, e))
  {
    hide Canon, OwnNets;
    var r := WithNets(conns, s, v, e);
    forall p | p in conns ensures BitVal(p.0, r) == BitVal(p.1, r) {
      CanonConnected(conns, p);
      if exists i :: 0 <= i < |s| && Canon(conns, s[i]) == Canon(conns, p.0) {
        var i :| 0 <= i < |s| && Canon(conns, s[i]) == Canon(conns, p.0);
        WithNetsThere(conns, s, v, e, i, p.0);
        WithNetsThere(conns, s, v, e, i, p.1);
      } else {
        assert forall x :: x in s ==> exists i :: 0 <= i < |s| && s[i] == x;
        WithNetsElsewhere(conns, s, v, e, [p.0, p.1]);
        assert p.0 in [p.0, p.1] && p.1 in [p.0, p.1];
      }
    }
  }

  // ---- Inputs and outputs -----------------------------------------------------------------

  /** Cells with a known function: the inputs, and what a register started with, decide the outputs. */
  lemma {:induction false} OutputsFollow(c: Cell, run: Run, run': Run, beh: Behaviour, t: nat)
    requires !c.Other? && AgreeOn(Inputs(c), run, run') && CellHolds(c, run, beh) && CellHolds(c, run', beh)
    requires c.Flop? && |run| > 0 ==> Eval(c.q, run[0]) == Eval(c.q, run'[0])
    requires t < |run|
    ensures AgreeAt(Outputs(c), run[t], run'[t])
  {
    hide ToBits, IVal, Eval;
    match c
    case Mul(a, b, y) =>
      AgreeOperand(a, Inputs(c), run[t], run'[t]);
      AgreeOperand(b, Inputs(c), run[t], run'[t]);
      EvalAgrees(y, run[t], run'[t]);
    case AddSub(_, a, b, y, _) =>
      AgreeOperand(a, Inputs(c), run[t], run'[t]);
      AgreeOperand(b, Inputs(c), run[t], run'[t]);
      EvalAgrees(y, run[t], run'[t]);
    case Flop(d, q, clk, _, en, srst, _) =>
      if t == 0 {
        EvalAgrees(q, run[0], run'[0]);
      } else {
        OutputsFollow(c, run, run', beh, t - 1);
        AgreeEval(q, q, run[t - 1], run'[t - 1]);
        AgreeEval(d, Inputs(c), run[t - 1], run'[t - 1]);
        FlopInputs(c);
        assert AgreeAt(Inputs(c), run[t - 1], run'[t - 1]) && AgreeAt(Inputs(c), run[t], run'[t]);
        assert FlopNext(c, run[t - 1], run[t]) == FlopNext(c, run'[t - 1], run'[t]);
        assert Eval(q, run[t - 1 + 1]) == FlopNext(c, run[t - 1], run[t]);
        EvalAgrees(q, run[t], run'[t]);
      }
    case Removed =>
  }

  lemma FlopInputs(c: Cell)
    requires c.Flop?
    ensures c.clk in Inputs(c) && (c.en.Some? ==> c.en.value.net in Inputs(c))
    ensures c.srst.Some? ==> c.srst.value.control.net in Inputs(c)
  {
  }

  lemma EvalAgrees(s: Sig, e: Env, e': Env)
    requires Eval(s, e) == Eval(s, e')
    ensures AgreeAt(s, e, e')
  {
    forall b | b in s ensures BitVal(b, e) == BitVal(b, e') {
      var i :| 0 <= i < |s| && s[i] == b;
      assert Eval(s, e)[i] == Eval(s, e')[i];
    }
  }

  // ---- Users ----------------------------------------------------------------------------

  function CanonBits(conns: Conns, s: Sig): multiset<Bit> {
    multiset(CanonSig(conns, s))
  }

  function PortBits(cells: seq<Cell>, conns: Conns): multiset<Bit> {
    if cells == [] then multiset{}
    else PortBits(cells[..|cells| - 1], conns) + CanonBits(conns, AllBits(cells[|cells| - 1]))
  }

  /** How often each canonical bit appears on a cell port or as a module output. */
  function Users(net: Net): multiset<Bit> {
    PortBits(net.cells, net.conns) + CanonBits(net.conns, net.wires.outputs)
  }

  lemma {:induction false} PortBitsTwo(cells: seq<Cell>, conns: Conns, i: nat, j: nat, c: Bit)
    requires i < |cells| && j < |cells| && i != j
    ensures PortBits(cells, conns)[c] >= CanonBits(conns, AllBits(cells[i]))[c] + CanonBits(conns, AllBits(cells[j]))[c]
    decreases |cells|
  {
    hide AllBits, CanonBits;
    var n := |cells| - 1;
    if i == n {
      PortBitsOne(cells[..n], conns, j, c);
    } else if j == n {
      PortBitsOne(cells[..n], conns, i, c);
    } else {
      PortBitsTwo(cells[..n], conns, i, j, c);
    }
  }

  lemma {:induction false} PortBitsOne(cells: seq<Cell>, conns: Conns, i: nat, c: Bit)
    requires i < |cells|
    ensures PortBits(cells, conns)[c] >= CanonBits(conns, AllBits(cells[i]))[c]
    decreases |cells|
  {
    hide AllBits, CanonBits;
    var n := |cells| - 1;
    if i < n { PortBitsOne(cells[..n], conns, i, c); }
  }

  lemma {:induction false} PortBitsThree(cells: seq<Cell>, conns: Conns, i: nat, j: nat, k: nat, c: Bit)
    requires i < |cells| && j < |cells| && k < |cells| && i != j && i != k && j != k
    ensures PortBits(cells, conns)[c] >= CanonBits(conns, AllBits(cells[i]))[c]
         + CanonBits(conns, AllBits(cells[j]))[c] + CanonBits(conns, AllBits(cells[k]))[c]
    decreases |cells|
  {
    hide AllBits, CanonBits;
    var n := |cells| - 1;
    if i == n {
      PortBitsTwo(cells[..n], conns, j, k, c);
    } else if j == n {
      PortBitsTwo(cells[..n], conns, i, k, c);
    } else if k == n {
      PortBitsTwo(cells[..n], conns, i, j, c);
    } else {
      PortBitsThree(cells[..n], conns, i, j, k, c);
    }
  }

  lemma CountOf(conns: Conns, s: Sig, b: Bit)
    requires b in s
    ensures CanonBits(conns, s)[Canon(conns, b)] >= 1
  {
    var i :| 0 <= i < |s| && s[i] == b;
    assert CanonSig(conns, s)[i] == Canon(conns, b);
    assert Canon(conns, b) in CanonSig(conns, s);
  }

  lemma CountSplit(conns: Conns, s: Sig, s': Sig)
    ensures CanonBits(conns, s + s') == CanonBits(conns, s) + CanonBits(conns, s')
  {
    assert CanonSig(conns, s + s') == CanonSig(conns, s) + CanonSig(conns, s');
  }

  /** With the class of `c` untouched, its uses are the same. */
  lemma {:induction false} CountApart(conns: Conns, more: Conns, s: Sig, c: Bit)
    requires forall p :: p in more ==> Canon(conns, p.0) != c && Canon(conns, p.1) != c
    ensures CanonBits(conns + more, s)[c] == CanonBits(conns, s)[c]
    decreases |s|
  {
    hide Canon, CanonBits;
    if s == [] {
      NoBits(conns);
      NoBits(conns + more);
    } else {
      var n := |s| - 1;
      assert s == s[..n] + [s[n]];
      CountSplit(conns, s[..n], [s[n]]);
      CountSplit(conns + more, s[..n], [s[n]]);
      CountApart(conns, more, s[..n], c);
      CanonApart(conns, more, c, s[n]);
      OneBit(conns, s[n]);
      OneBit(conns + more, s[n]);
    }
  }

  lemma NoBits(conns: Conns)
    ensures CanonBits(conns, []) == multiset{}
  {
    assert CanonSig(conns, []) == [];
  }

  lemma OneBit(conns: Conns, b: Bit)
    ensures CanonBits(conns, [b]) == multiset{Canon(conns, b)}
  {
    assert CanonSig(conns, [b]) == [Canon(conns, b)];
  }

  function Pairs(s: Sig, s': Sig): Conns
    requires |s| == |s'|
  {
    seq(|s|, i requires 0 <= i < |s| => (s[i], s'[i]))
  }

  lemma ConnsSplit(conns: Conns, more: Conns, e: Env)
    ensures ConnsHold(conns + more, e) <==> ConnsHold(conns, e) && ConnsHold(more, e)
  {
    if ConnsHold(conns + more, e) {
      assert forall p :: p in conns ==> p in conns + more;
      assert forall p :: p in more ==> p in conns + more;
    }
  }

  lemma PairsHold(s: Sig, s': Sig, e: Env)
    requires |s| == |s'|
    ensures ConnsHold(Pairs(s, s'), e) <==> Eval(s, e) == Eval(s', e)
  {
    if ConnsHold(Pairs(s, s'), e) {
      forall i | 0 <= i < |s| ensures BitVal(s[i], e) == BitVal(s'[i], e) {
        assert Pairs(s, s')[i] in Pairs(s, s');
      }
    }
    if Eval(s, e) == Eval(s', e) {
      forall p | p in Pairs(s, s') ensures BitVal(p.0, e) == BitVal(p.1, e) {
        var i :| 0 <= i < |s| && Pairs(s, s')[i] == p;
        assert Eval(s, e)[i] == Eval(s', e)[i];
      }
    }
  }

  // ---- Small nets without connections ---------------------------------------------------------

  lemma NoConn(b: Bit)
    ensures Canon([], b) == b
  {
  }

  lemma NoConns(s: Sig)
    ensures CanonSig([], s) == s && CanonBits([], s) == multiset(s)
  {
    assert CanonSig([], s) == s;
  }

  lemma TwoCells(net: Net, c: Bit)
    requires |net.cells| == 2 && net.conns == []
    ensures Users(net)[c] == multiset(AllBits(net.cells[0]))[c] + multiset(AllBits(net.cells[1]))[c] + multiset(net.wires.outputs)[c]
  {
    hide AllBits, CanonBits;
    assert net.cells[..1][..0] == [];
    NoConns(AllBits(net.cells[0]));
    NoConns(AllBits(net.cells[1]));
    NoConns(net.wires.outputs);
    assert PortBits(net.cells[..1], []) == CanonBits([], AllBits(net.cells[0]));
  }

  // ---- New wires ------------------------------------------------------------------------

  /** All wires of the net are older than `next`. */
  predicate Older(s: Sig, next: nat) {
    forall b :: b in s && b.Wire? ==> b.id < next
  }

  predicate NetOlder(net: Net, next: nat) {
    && (forall c :: c in net.cells ==> Older(AllBits(c), next))
    && (forall p :: p in net.conns ==> Older([p.0, p.1], next))
  }

  function Fresh(next: nat, n: nat): Sig {
    seq(n, i requires 0 <= i < n => Wire(next + i))
  }

  lemma FreshSize(next: nat, n: nat)
    ensures |Fresh(next, n)| == n
  {
  }

  lemma FreshOlder(next: nat, n: nat)
    ensures Older(Fresh(next, n), next + n)
  {
  }

  lemma CanonOlder(conns: Conns, s: Sig, next: nat)
    requires Older(s, next) && forall p :: p in conns ==> Older([p.0, p.1], next)
    ensures Older(CanonSig(conns, s), next)
  {
    hide Canon;
    forall b | b in CanonSig(conns, s) && b.Wire? ensures b.id < next {
      var i :| 0 <= i < |s| && CanonSig(conns, s)[i] == b;
      assert s[i] in s;
      CanonBitOlder(conns, s[i], next);
    }
  }

  lemma {:induction false} CanonBitOlder(conns: Conns, b: Bit, next: nat)
    requires Older([b], next) && forall p :: p in conns ==> Older([p.0, p.1], next)
    ensures Older([Canon(conns, b)], next)
    decreases |conns|
  {
    if conns != [] {
      var n := |conns| - 1;
      assert conns[n] in conns;
      assert forall x :: x in [conns[n].0] || x in [conns[n].1] ==> x in [conns[n].0, conns[n].1];
      CanonBitOlder(conns[..n], b, next);
      CanonBitOlder(conns[..n], conns[n].0, next);
      CanonBitOlder(conns[..n], conns[n].1, next);
      assert Canon(conns, b) in [Canon(conns, b)];
      assert Canon(conns[..n], b) in [Canon(conns[..n], b)];
      assert Canon(conns[..n], conns[n].0) in [Canon(conns[..n], conns[n].0)];
      assert Canon(conns[..n], conns[n].1) in [Canon(conns[..n], conns[n].1)];
    }
  }

  lemma OlderMono(s: Sig, next: nat, next': nat)
    requires Older(s, next) && next <= next'
    ensures Older(s, next')
  {
  }

  lemma NetOlderMono(net: Net, next: nat, next': nat)
    requires NetOlder(net, next) && next <= next'
    ensures NetOlder(net, next')
  {
    hide AllBits;
    forall c | c in net.cells ensures Older(AllBits(c), next') {
      OlderMono(AllBits(c), next, next');
    }
    forall p | p in net.conns ensures Older([p.0, p.1], next') {
      OlderMono([p.0, p.1], next, next');
    }
  }

  lemma FlopPorts(c: Cell)
    requires c.Flop?
    ensures forall b :: b in c.q ==> b in AllBits(c)
  {
  }

  predicate AgreeBelow(run: Run, run': Run, next: nat) {
    |run| == |run'| && forall t, w: nat :: 0 <= t < |run| && w < next ==> run[t](w) == run'[t](w)
  }

  lemma AgreeBelowTrans(run: Run, run1: Run, run2: Run, n: nat, n': nat)
    requires AgreeBelow(run, run1, n) && AgreeBelow(run1, run2, n') && n <= n'
    ensures AgreeBelow(run, run2, n)
  {
  }

  function Live(cells: seq<Cell>): nat {
    if cells == [] then 0 else Live(cells[..|cells| - 1]) + if cells[|cells| - 1].Removed? then 0 else 1
  }

  lemma {:induction false} LiveRemove(cells: seq<Cell>, i: nat)
    requires i < |cells| && !cells[i].Removed?
    ensures Live(cells[i := Removed]) == Live(cells) - 1
  {
    var n := |cells| - 1;
    if i == n {
      assert cells[i := Removed][..n] == cells[..n];
    } else {
      LiveRemove(cells[..n], i);
      assert cells[i := Removed][..n] == cells[..n][i := Removed];
    }
  }

  /** A module under rewriting. */
  class Module {
    var cells: seq<Cell>
    var conns: Conns
    const wires: Wires
    /** The first wire number not in use. */
    var next: nat

    function View(): Net
      reads this
    {
      Net(cells, conns, wires)
    }

    method Remove(i: nat)
      requires i < |cells|
      modifies `cells
      ensures cells == old(cells)[i := Removed]
    {
      cells := cells[i := Removed];
    }

    method Connect(s: Sig, s': Sig)
      requires |s| == |s'|
      modifies `conns
      ensures conns == old(conns) + Pairs(s, s')
    {
      conns := conns + Pairs(s, s');
    }
  }
}
