/**
 Making every dedicated DSP cascade net point to point, by giving each consumer
 of a shared feeder after the first a private copy of the feeder.
 */
module Cascade {
  import opened Bits
  import opened Operand
  import opened Netlist
  import Accumulator

  /** A QL_DSP4 configuration: its OPMODE, and which input is PCIN if that is connected. */
  datatype Config = Config(opmode: Option<seq<bool>>, pcin: Option<nat>)

  /** The cell kinds that are QL_DSP4, by their parameters. */
  type Dsps = map<nat, Config>

  predicate IsDsp(dsps: Dsps, c: Cell) {
    c.Other? && c.kind in dsps
  }

  /** PCIN, where OPMODE[6:4] selects it as the addend. */
  function AddendPort(dsps: Dsps, c: Cell): (p: Option<nat>)
    ensures p.Some? ==> IsDsp(dsps, c) && p.value < |c.ins|
  {
    if !IsDsp(dsps, c) || dsps[c.kind].opmode.None? then None
    else
      var om, pcin := dsps[c.kind].opmode.value, dsps[c.kind].pcin;
      if |om| < 7 || UVal(om[4..7]) != 1 then None
      else if pcin.Some? && pcin.value < |c.ins| then pcin
      else None
  }

  /** OPMODE[6:4] is 001. */
  predicate SelectsPcin(om: seq<bool>)
    requires |om| >= 7
  {
    om[4] && !om[5] && !om[6]
  }

  lemma SelectValue(om: seq<bool>)
    requires |om| >= 7
    ensures UVal(om[4..7]) == (if om[4] then 1 else 0) + (if om[5] then 2 else 0) + (if om[6] then 4 else 0)
  {
    var v := om[4..7];
    assert Pow2(0) == 1 && Pow2(1) == 2 && Pow2(2) == 4;
    assert v[..2][..1] == v[..1] && v[..1][..0] == [];
    assert UVal(v[..1]) == if v[0] then 1 else 0;
    assert UVal(v[..2]) == UVal(v[..1]) + if v[1] then 2 else 0;
  }

  /** Which cells have a cascade addend, and that it is PCIN. */
  lemma AddendPortIff(dsps: Dsps, c: Cell)
    ensures AddendPort(dsps, c).Some? <==>
      && c.Other? && c.kind in dsps
      && dsps[c.kind].opmode.Some? && |dsps[c.kind].opmode.value| >= 7 && SelectsPcin(dsps[c.kind].opmode.value)
      && dsps[c.kind].pcin.Some? && dsps[c.kind].pcin.value < |c.ins|
    ensures AddendPort(dsps, c).Some? ==> AddendPort(dsps, c) == dsps[c.kind].pcin
  {
    if c.Other? && c.kind in dsps && dsps[c.kind].opmode.Some? && |dsps[c.kind].opmode.value| >= 7 {
      SelectValue(dsps[c.kind].opmode.value);
    }
  }

  // ---- The addend in the DSP -------------------------------------------------------------

  const PCIN_WIDTH: nat := 50
  const SHIFT: nat := 17

  /** What the Z mux chooses from. */
  datatype ZInputs = ZInputs(pcin: seq<bool>, p: seq<bool>, c: seq<bool>, signCin: bool)

  predicate ZSized(z: ZInputs) {
    |z.pcin| == PCIN_WIDTH && |z.p| == Accumulator.ACC_WIDTH && |z.c| == C_WIDTH
  }

  /** The 64-bit addend, by OPMODE[6:4]. */
  function ZMux(om: seq<bool>, z: ZInputs): (r: seq<bool>)
    requires |om| == 9 && ZSized(z)
    ensures |r| == Accumulator.ACC_WIDTH
  {
    match UVal(om[4..7])
    case 1 => ExtendBits(z.pcin, Accumulator.ACC_WIDTH, true)
    case 2 => z.p
    case 3 => ExtendBits(z.c, Accumulator.ACC_WIDTH, true)
    case 4 => Repeat(z.signCin, Accumulator.ACC_WIDTH)
    case 5 => ExtendBits(z.pcin[SHIFT..], Accumulator.ACC_WIDTH, true)
    case 6 => ExtendBits(z.p[SHIFT..P_WIDTH], Accumulator.ACC_WIDTH, true)
    case _ => Repeat(false, Accumulator.ACC_WIDTH)
  }

  /** The mux reads the cascade input. */
  ghost predicate ReadsPcin(om: seq<bool>)
    requires |om| == 9
  {
    exists z, z' :: ZSized(z) && ZSized(z') && z' == z.(pcin := z'.pcin) && ZMux(om, z) != ZMux(om, z')
  }

  /** The mux passes the cascade input on as the addend. */
  ghost predicate PassesPcin(om: seq<bool>)
    requires |om| == 9
  {
    forall z :: ZSized(z) ==> ZMux(om, z) == ExtendBits(z.pcin, Accumulator.ACC_WIDTH, true)
  }

  /** All inputs clear but one bit of PCIN. */
  function OneBitIn(i: nat): ZInputs
    requires i < PCIN_WIDTH
  {
    ZInputs(Repeat(false, PCIN_WIDTH)[i := true], Repeat(false, Accumulator.ACC_WIDTH), Repeat(false, C_WIDTH), false)
  }

  /** What the pass takes for a cascade addend is what the hardware does with the select. */
  lemma SelectPasses(om: seq<bool>)
    requires |om| == 9
    ensures PassesPcin(om) <==> SelectsPcin(om)
  {
    hide UVal;
    SelectValue(om);
    var z := OneBitIn(0);
    if !SelectsPcin(om) {
      assert !ZMux(om, z)[0];
      assert ExtendBits(z.pcin, Accumulator.ACC_WIDTH, true)[0];
    }
  }

  /** The mux also reads PCIN, shifted, at select 101. */
  lemma SelectReads(om: seq<bool>)
    requires |om| == 9
    ensures ReadsPcin(om) <==> om[4] && !om[5]
  {
    hide UVal;
    SelectValue(om);
    if om[4] && !om[5] {
      var z, z' := OneBitIn(SHIFT).(pcin := Repeat(false, PCIN_WIDTH)), OneBitIn(SHIFT);
      var at := if om[6] then 0 else SHIFT;
      assert !ZMux(om, z)[at] && ZMux(om, z')[at];
      assert z' == z.(pcin := z'.pcin);
    }
  }

  /**
   A cell whose addend is the shifted PCIN reads the cascade and is not seen as
   its consumer; every other OPMODE that reads PCIN is.
   */
  lemma ShiftedAddendMissed(dsps: Dsps, c: Cell)
    requires IsDsp(dsps, c) && dsps[c.kind].opmode.Some? && |dsps[c.kind].opmode.value| == 9
    requires dsps[c.kind].pcin.Some? && dsps[c.kind].pcin.value < |c.ins|
    ensures var om := dsps[c.kind].opmode.value;
      ReadsPcin(om) && AddendPort(dsps, c).None? <==> om[4] && !om[5] && om[6]
  {
    AddendPortIff(dsps, c);
    SelectReads(dsps[c.kind].opmode.value);
  }

  function Addend(dsps: Dsps, c: Cell): Sig {
    var p := AddendPort(dsps, c);
    if p.Some? then c.ins[p.value] else []
  }

  /** The nets of a signal, constants aside. */
  function WireBits(conns: Conns, s: Sig): set<Bit> {
    set b | b in s && Canon(conns, b).Wire? :: Canon(conns, b)
  }

  /** No cascade net feeds two cells. */
  ghost predicate PointToPoint(net: Net, dsps: Dsps) {
    forall i, j :: 0 <= i < j < |net.cells| ==> Disjoint(net.conns, Addend(dsps, net.cells[i]), Addend(dsps, net.cells[j]))
  }

  predicate Disjoint(conns: Conns, s: Sig, s': Sig) {
    WireBits(conns, s) !! WireBits(conns, s')
  }

  /** A DSP's outputs follow from its parameters and the histories of its inputs. */
  ghost predicate Deterministic(dsps: Dsps, beh: Behaviour) {
    forall kind, ins, outs, outs' :: kind in dsps && beh(kind, ins, outs) && beh(kind, ins, outs') ==> outs == outs'
  }

  // ---- One replica ---------------------------------------------------------------------

  /** Fresh wires for every port, numbered on from `next`. */
  function FreshPorts(outs: seq<Sig>, next: nat): (r: seq<Sig>)
    ensures |r| == |outs|
  {
    if outs == [] then []
    else
      var n := |outs| - 1;
      FreshPorts(outs[..n], next) + [Fresh(next + |Flatten(outs[..n])|, |outs[n]|)]
  }

  function CloneOf(c: Cell, next: nat): Cell
    requires c.Other?
  {
    Other(c.kind, c.ins, FreshPorts(c.outs, next))
  }

  type Sub = map<Bit, Bit>

  /** The new bit for every net the feeder drives. */
  ghost predicate SubOk(conns: Conns, olds: Sig, next: nat, sub: Sub) {
    && (forall b :: b in sub ==> b.Wire? && exists j :: 0 <= j < |olds| && Canon(conns, olds[j]) == b && sub[b] == Wire(next + j))
    && (forall j :: 0 <= j < |olds| && Canon(conns, olds[j]).Wire? ==> Canon(conns, olds[j]) in sub)
  }

  function Repoint(conns: Conns, sub: Sub, s: Sig): (r: Sig)
    ensures |r| == |s|
  {
    seq(|s|, i requires 0 <= i < |s| => if Canon(conns, s[i]) in sub then sub[Canon(conns, s[i])] else s[i])
  }

  function Repointed(conns: Conns, sub: Sub, c: Cell, p: nat): Cell
    requires c.Other? && p < |c.ins|
  {
    Other(c.kind, c.ins[p := Repoint(conns, sub, c.ins[p])], c.outs)
  }

  datatype Replica = Replica(feeder: nat, consumer: nat, port: nat, sub: Sub)

  ghost predicate CanReplicate(net: Net, dsps: Dsps, r: Replica, next: nat) {
    && r.feeder < |net.cells| && IsDsp(dsps, net.cells[r.feeder])
    && r.consumer < |net.cells| && net.cells[r.consumer].Other? && r.port < |net.cells[r.consumer].ins|
    && SubOk(net.conns, Flatten(net.cells[r.feeder].outs), next, r.sub)
  }

  function Replicated(net: Net, r: Replica, next: nat): Net
    requires r.feeder < |net.cells| && net.cells[r.feeder].Other?
    requires r.consumer < |net.cells| && net.cells[r.consumer].Other? && r.port < |net.cells[r.consumer].ins|
  {
    Net(net.cells[r.consumer := Repointed(net.conns, r.sub, net.cells[r.consumer], r.port)] + [CloneOf(net.cells[r.feeder], next)],
        net.conns, net.wires)
  }

  lemma {:induction false} FlattenSnoc(ss: seq<Sig>, s: Sig)
    ensures Flatten(ss + [s]) == Flatten(ss) + s
  {
    if ss == [] {
      assert ss + [s] == [s] && [s][1..] == [];
    } else {
      assert (ss + [s])[1..] == ss[1..] + [s];
      FlattenSnoc(ss[1..], s);
    }
  }

  lemma {:induction false} FreshFlat(outs: seq<Sig>, next: nat)
    ensures Flatten(FreshPorts(outs, next)) == Fresh(next, |Flatten(outs)|)
    decreases |outs|
  {
    if outs != [] {
      var n := |outs| - 1;
      FreshFlat(outs[..n], next);
      assert outs == outs[..n] + [outs[n]];
      FlattenSnoc(outs[..n], outs[n]);
      FlattenSnoc(FreshPorts(outs[..n], next), Fresh(next + |Flatten(outs[..n])|, |outs[n]|));
    }
  }

  lemma {:induction false} FlattenEval(ss: seq<Sig>, ss': seq<Sig>, e: Env, e': Env)
    requires |ss| == |ss'| && forall i :: 0 <= i < |ss| ==> |ss[i]| == |ss'[i]|
    ensures |Flatten(ss)| == |Flatten(ss')|
    ensures EvalAll(ss, e) == EvalAll(ss', e') <==> Eval(Flatten(ss), e) == Eval(Flatten(ss'), e')
  {
    if ss != [] {
      FlattenEval(ss[1..], ss'[1..], e, e');
      EvalCons(ss, e);
      EvalCons(ss', e');
      var a, b := Eval(ss[0], e), Eval(Flatten(ss[1..]), e);
      var a', b' := Eval(ss'[0], e'), Eval(Flatten(ss'[1..]), e');
      assert (a + b)[..|a|] == a && (a + b)[|a|..] == b;
      assert (a' + b')[..|a|] == a' && (a' + b')[|a|..] == b';
      assert ([a] + EvalAll(ss[1..], e))[1..] == EvalAll(ss[1..], e);
      assert ([a'] + EvalAll(ss'[1..], e'))[1..] == EvalAll(ss'[1..], e');
      assert ([a] + EvalAll(ss[1..], e))[0] == a && ([a'] + EvalAll(ss'[1..], e'))[0] == a';
    }
  }

  lemma EvalAppend(s: Sig, s': Sig, e: Env)
    ensures Eval(s + s', e) == Eval(s, e) + Eval(s', e)
  {
  }

  lemma EvalCons(ss: seq<Sig>, e: Env)
    requires ss != []
    ensures EvalAll(ss, e) == [Eval(ss[0], e)] + EvalAll(ss[1..], e)
    ensures Eval(Flatten(ss), e) == Eval(ss[0], e) + Eval(Flatten(ss[1..]), e)
  {
    EvalAppend(ss[0], Flatten(ss[1..]), e);
    hide Eval;
  }

  lemma {:induction false} FreshSizes(outs: seq<Sig>, next: nat)
    ensures forall i :: 0 <= i < |outs| ==> |FreshPorts(outs, next)[i]| == |outs[i]|
    decreases |outs|
  {
    if outs != [] {
      FreshSizes(outs[..|outs| - 1], next);
    }
  }

  /** The replica drives, on every cycle, what the feeder drives. */
  ghost predicate Lockstep(feeder: Cell, next: nat, run: Run)
    requires feeder.Other?
  {
    var flat := Flatten(feeder.outs);
    forall t :: 0 <= t < |run| ==> Eval(Fresh(next, |flat|), run[t]) == Eval(flat, run[t])
  }

  lemma LockstepHistory(feeder: Cell, next: nat, run: Run)
    requires feeder.Other?
    ensures Lockstep(feeder, next, run) <==>
      HistoryOf(CloneOf(feeder, next).outs, run) == HistoryOf(feeder.outs, run)
  {
    hide Eval, Flatten, EvalAll;
    var outs, outs' := feeder.outs, CloneOf(feeder, next).outs;
    FreshFlat(outs, next);
    FreshSizes(outs, next);
    forall t | 0 <= t < |run|
      ensures EvalAll(outs', run[t]) == EvalAll(outs, run[t]) <==>
        Eval(Fresh(next, |Flatten(outs)|), run[t]) == Eval(Flatten(outs), run[t])
    {
      FlattenEval(outs', outs, run[t], run[t]);
    }
    var h, h' := HistoryOf(outs, run), HistoryOf(outs', run);
    if h' == h {
      forall t | 0 <= t < |run| ensures EvalAll(outs', run[t]) == EvalAll(outs, run[t]) {
        assert h'[t] == h[t];
      }
    }
    if Lockstep(feeder, next, run) {
      forall t | 0 <= t < |run| ensures h'[t] == h[t] {
        assert EvalAll(outs', run[t]) == EvalAll(outs, run[t]);
      }
      assert h' == h;
    }
  }

  /** So the consumer reads what it read. */
  lemma AddendUnchanged(net: Net, dsps: Dsps, r: Replica, next: nat, run: Run, t: nat)
    requires CanReplicate(net, dsps, r, next) && Lockstep(net.cells[r.feeder], next, run) && t < |run|
    requires ConnsHold(net.conns, run[t])
    ensures Eval(Repoint(net.conns, r.sub, net.cells[r.consumer].ins[r.port]), run[t]) == Eval(net.cells[r.consumer].ins[r.port], run[t])
  {
    hide Canon, Flatten;
    var s := net.cells[r.consumer].ins[r.port];
    var s' := Repoint(net.conns, r.sub, s);
    var flat := Flatten(net.cells[r.feeder].outs);
    forall i | 0 <= i < |s| ensures BitVal(s'[i], run[t]) == BitVal(s[i], run[t]) {
      var b := Canon(net.conns, s[i]);
      CanonValue(net.conns, s[i], run[t]);
      if b in r.sub {
        var j :| 0 <= j < |flat| && Canon(net.conns, flat[j]) == b && r.sub[b] == Wire(next + j);
        CanonValue(net.conns, flat[j], run[t]);
        assert Eval(Fresh(next, |flat|), run[t])[j] == Eval(flat, run[t])[j];
      }
    }
  }

  lemma ConsumerHistory(net: Net, dsps: Dsps, r: Replica, next: nat, run: Run)
    requires CanReplicate(net, dsps, r, next) && Lockstep(net.cells[r.feeder], next, run)
    requires forall t :: 0 <= t < |run| ==> ConnsHold(net.conns, run[t])
    ensures HistoryOf(Repointed(net.conns, r.sub, net.cells[r.consumer], r.port).ins, run)
         == HistoryOf(net.cells[r.consumer].ins, run)
  {
    hide Eval, Repoint, Lockstep, SubOk, Canon;
    var ins, ins' := net.cells[r.consumer].ins, Repointed(net.conns, r.sub, net.cells[r.consumer], r.port).ins;
    forall t | 0 <= t < |run| ensures EvalAll(ins', run[t]) == EvalAll(ins, run[t]) {
      AddendUnchanged(net, dsps, r, next, run, t);
    }
    assert forall t :: 0 <= t < |run| ==> HistoryOf(ins', run)[t] == HistoryOf(ins, run)[t];
  }

  /** Nothing is added: a run with the replica is a run without it. */
  lemma ReplicaSound(net: Net, dsps: Dsps, r: Replica, next: nat, run: Run, beh: Behaviour)
    requires CanReplicate(net, dsps, r, next) && r.feeder != r.consumer && Deterministic(dsps, beh)
    requires IsRun(Replicated(net, r, next), run, beh)
    ensures IsRun(net, run, beh)
    ensures Lockstep(net.cells[r.feeder], next, run)
  {
    hide SubOk, Lockstep, Repoint, FreshPorts, ConnsHold, PowersUp, HistoryOf;
    var net' := Replicated(net, r, next);
    var f, c, clone := net.cells[r.feeder], net.cells[r.consumer], CloneOf(net.cells[r.feeder], next);
    var c' := Repointed(net.conns, r.sub, c, r.port);
    assert net'.cells[r.feeder] == f && net'.cells[|net.cells|] == clone && net'.cells[r.consumer] == c';
    assert f in net'.cells && clone in net'.cells && c' in net'.cells;
    assert CellHolds(f, run, beh) && CellHolds(clone, run, beh);
    LockstepHistory(f, next, run);
    ConsumerHistory(net, dsps, r, next, run);
    assert CellHolds(c', run, beh);
    forall x | x in net.cells
      ensures CellHolds(x, run, beh) && (|run| > 0 ==> PowersUp(x, net.wires.init, run[0]))
    {
      var i :| 0 <= i < |net.cells| && net.cells[i] == x;
      if i == r.consumer {
        NoPower(x, net.wires.init, run);
      } else {
        assert net'.cells[i] == x && x in net'.cells;
      }
    }
  }

  lemma NoPower(c: Cell, init: map<nat, bool>, run: Run)
    requires c.Other?
    ensures |run| > 0 ==> PowersUp(c, init, run[0])
  {
  }

  /** The old values, with the replica's wires carrying what the feeder drives. */
  function WithReplica(flat: Sig, next: nat, e: Env): Env {
    (w: nat) => if next <= w < next + |flat| then BitVal(flat[w - next], e) else e(w)
  }

  function RunWithReplica(flat: Sig, next: nat, run: Run): Run {
    seq(|run|, t requires 0 <= t < |run| => WithReplica(flat, next, run[t]))
  }

  lemma OldStays(flat: Sig, next: nat, s: Sig, e: Env)
    requires Older(s, next)
    ensures AgreeAt(s, e, WithReplica(flat, next, e))
  {
  }

  lemma OldCell(net: Net, flat: Sig, next: nat, run: Run, beh: Behaviour, c: Cell)
    requires NetOlder(net, next) && IsRun(net, run, beh) && c in net.cells
    ensures CellHolds(c, RunWithReplica(flat, next, run), beh)
    ensures |run| > 0 ==> PowersUp(c, net.wires.init, RunWithReplica(flat, next, run)[0])
  {
    hide CellHolds, AllBits;
    var run' := RunWithReplica(flat, next, run);
    forall t | 0 <= t < |run| ensures AgreeAt(AllBits(c), run[t], run'[t]) {
      OldStays(flat, next, AllBits(c), run[t]);
    }
    CellHoldsAgree(c, run, run', beh);
    if |run| > 0 && c.Flop? {
      FlopPorts(c);
      assert AgreeAt(AllBits(c), run[0], run'[0]);
    }
  }

  lemma OldConns(net: Net, flat: Sig, next: nat, e: Env)
    requires NetOlder(net, next) && ConnsHold(net.conns, e)
    ensures ConnsHold(net.conns, WithReplica(flat, next, e))
  {
    forall q | q in net.conns
      ensures BitVal(q.0, WithReplica(flat, next, e)) == BitVal(q.1, WithReplica(flat, next, e))
    {
      OldStays(flat, next, [q.0, q.1], e);
      assert q.0 in [q.0, q.1] && q.1 in [q.0, q.1];
    }
  }

  lemma OtherPorts(c: Cell)
    requires c.Other?
    ensures AllBits(c) == Flatten(c.ins) + Flatten(c.outs)
  {
  }

  lemma ReplicaInStep(net: Net, feeder: nat, next: nat, run: Run)
    requires NetOlder(net, next) && feeder < |net.cells| && net.cells[feeder].Other?
    ensures Lockstep(net.cells[feeder], next, RunWithReplica(Flatten(net.cells[feeder].outs), next, run))
  {
    hide Flatten, AllBits;
    var f := net.cells[feeder];
    var flat := Flatten(f.outs);
    assert f in net.cells;
    OtherPorts(f);
    assert Older(flat, next);
    var run' := RunWithReplica(flat, next, run);
    forall t | 0 <= t < |run| ensures Eval(Fresh(next, |flat|), run'[t]) == Eval(flat, run'[t]) {
      OldStays(flat, next, flat, run[t]);
      forall j | 0 <= j < |flat| ensures BitVal(Fresh(next, |flat|)[j], run'[t]) == BitVal(flat[j], run'[t]) {
        assert flat[j] in flat;
      }
    }
  }

  /** Nothing is lost: every run extends to one with the replica, all old wires as they were. */
  lemma ReplicaComplete(net: Net, dsps: Dsps, r: Replica, next: nat, run: Run, beh: Behaviour)
    requires CanReplicate(net, dsps, r, next) && NetOlder(net, next) && IsRun(net, run, beh)
    ensures IsRun(Replicated(net, r, next), RunWithReplica(Flatten(net.cells[r.feeder].outs), next, run), beh)
  {
    hide SubOk, Lockstep, Repoint, FreshPorts, ConnsHold, PowersUp, HistoryOf, NetOlder, WithReplica, Flatten;
    var net' := Replicated(net, r, next);
    var f, c, clone := net.cells[r.feeder], net.cells[r.consumer], CloneOf(net.cells[r.feeder], next);
    var c' := Repointed(net.conns, r.sub, c, r.port);
    var flat := Flatten(f.outs);
    var run' := RunWithReplica(flat, next, run);
    assert f in net.cells && c in net.cells;
    forall t | 0 <= t < |run'| ensures ConnsHold(net.conns, run'[t]) {
      OldConns(net, flat, next, run[t]);
    }
    ReplicaInStep(net, r.feeder, next, run);
    OldCell(net, flat, next, run, beh, f);
    OldCell(net, flat, next, run, beh, c);
    LockstepHistory(f, next, run');
    ConsumerHistory(net, dsps, r, next, run');
    forall x | x in net'.cells
      ensures CellHolds(x, run', beh) && (|run'| > 0 ==> PowersUp(x, net.wires.init, run'[0]))
    {
      var i :| 0 <= i < |net'.cells| && net'.cells[i] == x;
      if i == |net.cells| || i == r.consumer {
        NoPower(x, net.wires.init, run');
      } else {
        assert net.cells[i] == x && x in net.cells;
        OldCell(net, flat, next, run, beh, x);
      }
    }
  }

  // ---- The same behaviour ---------------------------------------------------------------

  ghost predicate AddsNothing(old_: Net, new_: Net, beh: Behaviour) {
    forall run :: IsRun(new_, run, beh) ==> IsRun(old_, run, beh)
  }

  ghost predicate LosesNothing(old_: Net, new_: Net, next: nat, beh: Behaviour) {
    forall run :: IsRun(old_, run, beh) ==> exists run' :: IsRun(new_, run', beh) && AgreeBelow(run, run', next)
  }

  /** The same runs, looked at on the wires older than `next`. */
  ghost predicate SameFor(old_: Net, new_: Net, next: nat, beh: Behaviour) {
    AddsNothing(old_, new_, beh) && LosesNothing(old_, new_, next, beh)
  }

  lemma SameForItself(net: Net, next: nat, beh: Behaviour)
    ensures SameFor(net, net, next, beh)
  {
    hide IsRun;
    forall run | IsRun(net, run, beh) ensures exists run' :: IsRun(net, run', beh) && AgreeBelow(run, run', next) {
      assert AgreeBelow(run, run, next);
    }
  }

  lemma SameForReplica(start: Net, net: Net, dsps: Dsps, r: Replica, n: nat, next: nat, beh: Behaviour)
    requires CanReplicate(net, dsps, r, next) && r.feeder != r.consumer && Deterministic(dsps, beh)
    requires NetOlder(net, next) && n <= next && SameFor(start, net, n, beh)
    ensures SameFor(start, Replicated(net, r, next), n, beh)
  {
    hide IsRun, AgreeBelow, Replicated, SubOk, NetOlder, Deterministic, RunWithReplica;
    var net' := Replicated(net, r, next);
    forall run | IsRun(net', run, beh) ensures IsRun(start, run, beh) {
      ReplicaSound(net, dsps, r, next, run, beh);
    }
    forall run | IsRun(start, run, beh) ensures exists run' :: IsRun(net', run', beh) && AgreeBelow(run, run', n) {
      var run1 :| IsRun(net, run1, beh) && AgreeBelow(run, run1, n);
      var flat := Flatten(net.cells[r.feeder].outs);
      var run2 := RunWithReplica(flat, next, run1);
      ReplicaComplete(net, dsps, r, next, run1, beh);
      ReplicaAgrees(flat, next, run1);
      AgreeBelowTrans(run, run1, run2, n, next);
    }
  }

  lemma ReplicaAgrees(flat: Sig, next: nat, run: Run)
    ensures AgreeBelow(run, RunWithReplica(flat, next, run), next)
  {
  }

  // ---- Feeders and consumers ---------------------------------------------------------------

  type DriverMap = map<Bit, nat>

  /** The nets a DSP drives. */
  function Driven(dsps: Dsps, conns: Conns, c: Cell): set<Bit> {
    if IsDsp(dsps, c) then WireBits(conns, Flatten(c.outs)) else {}
  }

  ghost predicate DriversOk(net: Net, dsps: Dsps, driverOf: DriverMap) {
    && (forall b :: b in driverOf ==> driverOf[b] < |net.cells| && b in Driven(dsps, net.conns, net.cells[driverOf[b]]))
    && (forall i, b :: 0 <= i < |net.cells| && b in Driven(dsps, net.conns, net.cells[i]) ==> b in driverOf)
  }

  method FindDrivers(m: Module, dsps: Dsps) returns (driverOf: DriverMap)
    ensures DriversOk(m.View(), dsps, driverOf)
  {
    hide Driven;
    driverOf := map[];
    for i := 0 to |m.cells|
      invariant forall b :: b in driverOf ==> driverOf[b] < i && b in Driven(dsps, m.conns, m.cells[driverOf[b]])
      invariant forall j, b :: 0 <= j < i && b in Driven(dsps, m.conns, m.cells[j]) ==> b in driverOf
    {
      var driven := Driven(dsps, m.conns, m.cells[i]);
      driverOf := driverOf + map b | b in driven :: i;
    }
  }

  /** The one DSP that drives a signal, as far as DSPs drive it at all. */
  ghost predicate FedBy(conns: Conns, driverOf: DriverMap, s: Sig, f: nat) {
    && (exists b :: b in WireBits(conns, s) && b in driverOf)
    && (forall b :: b in WireBits(conns, s) && b in driverOf ==> driverOf[b] == f)
  }

  method FindFeeder(m: Module, driverOf: DriverMap, s: Sig) returns (r: Option<nat>)
    ensures r.Some? ==> FedBy(m.conns, driverOf, s, r.value)
    ensures r.None? ==> forall f :: !FedBy(m.conns, driverOf, s, f)
  {
    hide WireBits;
    var todo := WireBits(m.conns, s);
    var single := true;
    r := None;
    while todo != {}
      invariant todo <= WireBits(m.conns, s)
      invariant r.None? ==> forall b :: b in WireBits(m.conns, s) - todo ==> b !in driverOf
      invariant r.Some? ==> exists b :: b in WireBits(m.conns, s) && b in driverOf && driverOf[b] == r.value
      invariant r.Some? && single ==> forall b :: b in WireBits(m.conns, s) - todo && b in driverOf ==> driverOf[b] == r.value
      invariant !single ==> r.Some? && exists b :: b in WireBits(m.conns, s) && b in driverOf && driverOf[b] != r.value
      decreases |todo|
    {
      var b :| b in todo;
      todo := todo - {b};
      if b in driverOf {
        if r.None? {
          r := Some(driverOf[b]);
        } else if r.value != driverOf[b] {
          single := false;
        }
      }
    }
    if !single {
      r := None;
    }
  }

  type ConsumerMap = map<nat, seq<nat>>

  function Of(cons: ConsumerMap, f: nat): seq<nat> {
    if f in cons then cons[f] else []
  }

  ghost predicate IsFed(net: Net, dsps: Dsps, driverOf: DriverMap, i: nat, f: nat) {
    i < |net.cells| && FedBy(net.conns, driverOf, Addend(dsps, net.cells[i]), f)
  }

  /** The consumers of `f` among the first `n` cells, in cell order. */
  ghost predicate ListOk(net: Net, dsps: Dsps, driverOf: DriverMap, list: seq<nat>, f: nat, n: nat) {
    && (forall x: nat :: x in list <==> x < n && IsFed(net, dsps, driverOf, x, f))
    && (forall k, l :: 0 <= k < l < |list| ==> list[k] < list[l])
  }

  ghost predicate ConsumersOk(net: Net, dsps: Dsps, driverOf: DriverMap, cons: ConsumerMap, n: nat) {
    forall f: nat :: ListOk(net, dsps, driverOf, Of(cons, f), f, n)
  }

  method FindConsumers(m: Module, dsps: Dsps, driverOf: DriverMap) returns (cons: ConsumerMap)
    ensures ConsumersOk(m.View(), dsps, driverOf, cons, |m.cells|)
  {
    hide ConsumersOk, Addend, WireBits, FedBy;
    cons := map[];
    NoConsumers(m.View(), dsps, driverOf);
    for i := 0 to |m.cells|
      invariant ConsumersOk(m.View(), dsps, driverOf, cons, i)
    {
      var feeder := FindFeeder(m, driverOf, Addend(dsps, m.cells[i]));
      ConsumerAdded(m.View(), dsps, driverOf, cons, i, feeder);
      cons := WithConsumer(cons, i, feeder);
    }
  }

  lemma NoConsumers(net: Net, dsps: Dsps, driverOf: DriverMap)
    ensures ConsumersOk(net, dsps, driverOf, map[], 0)
  {
  }

  lemma ConsumerAdded(net: Net, dsps: Dsps, driverOf: DriverMap, cons: ConsumerMap, i: nat, feeder: Option<nat>)
    requires i < |net.cells| && ConsumersOk(net, dsps, driverOf, cons, i)
    requires feeder.Some? ==> IsFed(net, dsps, driverOf, i, feeder.value)
    requires feeder.None? ==> forall f :: !IsFed(net, dsps, driverOf, i, f)
    ensures ConsumersOk(net, dsps, driverOf, WithConsumer(cons, i, feeder), i + 1)
  {
    hide Addend, FedBy;
    forall f: nat ensures ListOk(net, dsps, driverOf, Of(WithConsumer(cons, i, feeder), f), f, i + 1) {
      assert ListOk(net, dsps, driverOf, Of(cons, f), f, i);
      if feeder == Some(f) {
        ListGrows(net, dsps, driverOf, Of(cons, f), f, i);
      } else if feeder.Some? && IsFed(net, dsps, driverOf, i, f) {
        OneFeeder(net.conns, driverOf, Addend(dsps, net.cells[i]), f);
        assert false;
      }
    }
  }

  lemma ListGrows(net: Net, dsps: Dsps, driverOf: DriverMap, list: seq<nat>, f: nat, i: nat)
    requires ListOk(net, dsps, driverOf, list, f, i) && IsFed(net, dsps, driverOf, i, f)
    ensures ListOk(net, dsps, driverOf, list + [i], f, i + 1)
  {
    hide IsFed;
    forall k | 0 <= k < |list| ensures list[k] < i {
      assert list[k] in list;
    }
  }

  function WithConsumer(cons: ConsumerMap, i: nat, feeder: Option<nat>): ConsumerMap {
    if feeder.Some? then cons[feeder.value := Of(cons, feeder.value) + [i]] else cons
  }

  lemma OneFeeder(conns: Conns, driverOf: DriverMap, s: Sig, f: nat)
    requires FedBy(conns, driverOf, s, f)
    ensures forall g :: FedBy(conns, driverOf, s, g) ==> g == f
  {
    hide WireBits;
  }

  // ---- Making one replica ---------------------------------------------------------------------

  lemma SubSnoc(conns: Conns, olds: Sig, next: nat, sub: Sub, x: Bit)
    requires SubOk(conns, olds, next, sub)
    ensures SubOk(conns, olds + [x], next,
                  if Canon(conns, x).Wire? then sub[Canon(conns, x) := Wire(next + |olds|)] else sub)
  {
    hide Canon;
    var sub' := if Canon(conns, x).Wire? then sub[Canon(conns, x) := Wire(next + |olds|)] else sub;
    var olds' := olds + [x];
    forall b | b in sub' ensures exists j :: 0 <= j < |olds'| && Canon(conns, olds'[j]) == b && sub'[b] == Wire(next + j) {
      if b == Canon(conns, x) && b.Wire? {
        assert olds'[|olds|] == x;
      } else {
        var j :| 0 <= j < |olds| && Canon(conns, olds[j]) == b && sub[b] == Wire(next + j);
        assert olds'[j] == olds[j];
      }
    }
  }

  /** Fresh wires for the outputs of a feeder, and which net each stands for. */
  method CloneOutputs(conns: Conns, f: Cell, start: nat) returns (outs: seq<Sig>, sub: Sub, next: nat)
    requires f.Other?
    ensures outs == FreshPorts(f.outs, start)
    ensures SubOk(conns, Flatten(f.outs), start, sub)
    ensures next == start + |Flatten(f.outs)|
  {
    hide SubOk, Canon, Flatten;
    outs, sub, next := [], map[], start;
    NoOutputs(conns, start);
    for p := 0 to |f.outs|
      invariant next == start + |Flatten(f.outs[..p])|
      invariant outs == FreshPorts(f.outs[..p], start)
      invariant SubOk(conns, Flatten(f.outs[..p]), start, sub)
    {
      assert f.outs[..p + 1][..p] == f.outs[..p];
      assert f.outs[..p + 1] == f.outs[..p] + [f.outs[p]];
      FlattenSnoc(f.outs[..p], f.outs[p]);
      var wire := Fresh(next, |f.outs[p]|);
      FreshSize(next, |f.outs[p]|);
      assert Flatten(f.outs[..p]) + f.outs[p][..0] == Flatten(f.outs[..p]);
      for j := 0 to |f.outs[p]|
        invariant SubOk(conns, Flatten(f.outs[..p]) + f.outs[p][..j], start, sub)
      {
        SubSnoc(conns, Flatten(f.outs[..p]) + f.outs[p][..j], start, sub, f.outs[p][j]);
        assert Flatten(f.outs[..p]) + f.outs[p][..j + 1] == Flatten(f.outs[..p]) + f.outs[p][..j] + [f.outs[p][j]];
        var b := Canon(conns, f.outs[p][j]);
        if b.Wire? {
          sub := sub[b := wire[j]];
        }
      }
      assert f.outs[p][..|f.outs[p]|] == f.outs[p];
      outs, next := outs + [wire], next + |wire|;
    }
    assert f.outs[..|f.outs|] == f.outs;
  }

  method Replicate(m: Module, dsps: Dsps, feeder: nat, consumer: nat) returns (r: Replica)
    requires feeder < |m.cells| && IsDsp(dsps, m.cells[feeder])
    requires consumer < |m.cells| && AddendPort(dsps, m.cells[consumer]).Some?
    modifies m`cells, m`next
    ensures r.feeder == feeder && r.consumer == consumer && Some(r.port) == AddendPort(dsps, old(m.cells[consumer]))
    ensures CanReplicate(old(m.View()), dsps, r, old(m.next))
    ensures m.View() == Replicated(old(m.View()), r, old(m.next))
    ensures m.next == old(m.next) + |Flatten(old(m.cells[feeder].outs))|
  {
    hide SubOk, Canon, Flatten;
    var f := m.cells[feeder];
    var outs, sub, next := CloneOutputs(m.conns, f, m.next);
    r := Replica(feeder, consumer, AddendPort(dsps, m.cells[consumer]).value, sub);
    m.cells := m.cells[consumer := Repointed(m.conns, sub, m.cells[consumer], r.port)] + [Other(f.kind, f.ins, outs)];
    m.next := next;
  }

  lemma NoOutputs(conns: Conns, next: nat)
    ensures Flatten([]) == [] && SubOk(conns, [], next, map[])
  {
  }

  lemma CloneOlder(f: Cell, next: nat)
    requires f.Other? && Older(AllBits(f), next)
    ensures Older(AllBits(CloneOf(f, next)), next + |Flatten(f.outs)|)
  {
    hide Flatten, AllBits, Older, Fresh, FreshPorts;
    var flat := Flatten(f.outs);
    var clone, next' := CloneOf(f, next), next + |flat|;
    OtherPorts(f);
    OtherPorts(clone);
    FreshFlat(f.outs, next);
    FreshOlder(next, |flat|);
    OlderMono(AllBits(f), next, next');
    OlderParts(Flatten(f.ins), flat, next');
    OlderWhole(Flatten(f.ins), Fresh(next, |flat|), next');
  }

  lemma ConsumerOlder(net: Net, dsps: Dsps, r: Replica, next: nat)
    requires CanReplicate(net, dsps, r, next) && Older(AllBits(net.cells[r.consumer]), next)
    ensures Older(AllBits(Repointed(net.conns, r.sub, net.cells[r.consumer], r.port)), next + |Flatten(net.cells[r.feeder].outs)|)
  {
    hide Flatten, AllBits, Older, Canon, SubOk, Repoint;
    var c, flat := net.cells[r.consumer], Flatten(net.cells[r.feeder].outs);
    var c', next' := Repointed(net.conns, r.sub, c, r.port), next + |flat|;
    OtherPorts(c);
    OtherPorts(c');
    OlderMono(AllBits(c), next, next');
    OlderParts(Flatten(c.ins), Flatten(c.outs), next');
    SubOlder(net.conns, flat, next, r.sub);
    forall i | 0 <= i < |c.ins| ensures Older(c'.ins[i], next') {
      PartOlder(c.ins, i, next');
      if i == r.port { RepointOlder(net.conns, r.sub, c.ins[i], next'); }
    }
    FlattenOlder(c'.ins, next');
    OlderWhole(Flatten(c'.ins), Flatten(c.outs), next');
  }

  lemma PartOlder(ss: seq<Sig>, i: nat, next: nat)
    requires i < |ss| && Older(Flatten(ss), next)
    ensures Older(ss[i], next)
  {
    hide Flatten;
    forall b | b in ss[i] ensures b in Flatten(ss) { FlattenHas(ss, i, b); }
  }

  lemma ReplicatedOlder(net: Net, dsps: Dsps, r: Replica, next: nat)
    requires CanReplicate(net, dsps, r, next) && NetOlder(net, next)
    ensures NetOlder(Replicated(net, r, next), next + |Flatten(net.cells[r.feeder].outs)|)
  {
    hide Canon, SubOk, AllBits, Older, CloneOf, Repointed, Flatten;
    var net', f, c := Replicated(net, r, next), net.cells[r.feeder], net.cells[r.consumer];
    var next' := next + |Flatten(f.outs)|;
    assert f in net.cells && c in net.cells;
    NetOlderMono(net, next, next');
    CloneOlder(f, next);
    ConsumerOlder(net, dsps, r, next);
    forall x | x in net'.cells ensures Older(AllBits(x), next') {
      var i :| 0 <= i < |net'.cells| && net'.cells[i] == x;
      if i != |net.cells| && i != r.consumer { assert net.cells[i] == x && x in net.cells; }
    }
  }

  lemma OlderParts(s: Sig, s': Sig, next: nat)
    requires Older(s + s', next)
    ensures Older(s, next) && Older(s', next)
  {
    assert forall b :: b in s || b in s' ==> b in s + s';
  }

  lemma OlderWhole(s: Sig, s': Sig, next: nat)
    requires Older(s, next) && Older(s', next)
    ensures Older(s + s', next)
  {
  }

  lemma SubOlder(conns: Conns, olds: Sig, next: nat, sub: Sub)
    requires SubOk(conns, olds, next, sub)
    ensures forall b :: b in sub ==> Older([sub[b]], next + |olds|)
  {
    hide Canon;
  }

  lemma RepointOlder(conns: Conns, sub: Sub, s: Sig, next: nat)
    requires Older(s, next) && forall b :: b in sub ==> Older([sub[b]], next)
    ensures Older(Repoint(conns, sub, s), next)
  {
    hide Canon;
    var s' := Repoint(conns, sub, s);
    forall b | b in s' && b.Wire? ensures b.id < next {
      var i :| 0 <= i < |s'| && s'[i] == b;
      assert s[i] in s;
      var c := Canon(conns, s[i]);
      if c in sub { assert sub[c] in [sub[c]]; }
    }
  }

  lemma {:induction false} FlattenOlder(ss: seq<Sig>, next: nat)
    requires forall i :: 0 <= i < |ss| ==> Older(ss[i], next)
    ensures Older(Flatten(ss), next)
  {
    hide Older;
    if ss == [] {
      NoneOlder(next);
    } else {
      FlattenOlder(ss[1..], next);
      OlderWhole(ss[0], Flatten(ss[1..]), next);
    }
  }

  lemma NoneOlder(next: nat)
    ensures Older([], next)
  {
  }

  // ---- What becomes of the addends -----------------------------------------------------------

  lemma FreshCanon(conns: Conns, next: nat, w: nat)
    requires (forall p :: p in conns ==> Older([p.0, p.1], next)) && next <= w
    ensures Canon(conns, Wire(w)) == Wire(w)
  {
    var none: Conns := [];
    forall p | p in conns ensures Canon(none, p.0) != Wire(w) && Canon(none, p.1) != Wire(w) {
      assert Older([p.0, p.1], next);
      assert p.0 in [p.0, p.1] && p.1 in [p.0, p.1];
    }
    CanonApart(none, conns, Wire(w), Wire(w));
    assert none + conns == conns;
  }

  predicate Within(b: Bit, lo: nat, hi: nat) {
    b.Wire? && lo <= b.id < hi
  }

  lemma RepointedNets(conns: Conns, sub: Sub, s: Sig, olds: Sig, next0: nat, next: nat)
    requires SubOk(conns, olds, next, sub) && next0 <= next
    requires forall p :: p in conns ==> Older([p.0, p.1], next0)
    ensures forall b :: b in WireBits(conns, Repoint(conns, sub, s)) ==>
      Within(b, next, next + |olds|) || (b in WireBits(conns, s) && b !in sub)
    ensures WireBits(conns, s) != {} ==> WireBits(conns, Repoint(conns, sub, s)) != {}
    ensures forall b :: b in WireBits(conns, s) && b !in sub ==> b in WireBits(conns, Repoint(conns, sub, s))
  {
    hide Canon;
    var s' := Repoint(conns, sub, s);
    forall b | b in WireBits(conns, s) && b !in sub ensures b in WireBits(conns, s') {
      var x :| x in s && Canon(conns, x).Wire? && Canon(conns, x) == b;
      var i :| 0 <= i < |s| && s[i] == x;
      assert s'[i] == x && s'[i] in s';
    }
    forall i | 0 <= i < |s|
      ensures Canon(conns, s'[i]).Wire? <==> Canon(conns, s[i]).Wire?
      ensures Canon(conns, s'[i]).Wire? ==>
        Within(Canon(conns, s'[i]), next, next + |olds|) || (s'[i] == s[i] && Canon(conns, s[i]) !in sub)
    {
      var c := Canon(conns, s[i]);
      if c in sub {
        var j :| 0 <= j < |olds| && Canon(conns, olds[j]) == c && sub[c] == Wire(next + j);
        FreshCanon(conns, next0, next + j);
      }
    }
    forall b | b in WireBits(conns, s')
      ensures Within(b, next, next + |olds|) || (b in WireBits(conns, s) && b !in sub)
    {
      var x :| x in s' && Canon(conns, x).Wire? && Canon(conns, x) == b;
      var i :| 0 <= i < |s'| && s'[i] == x;
      assert s[i] in s;
    }
    if b :| b in WireBits(conns, s) {
      var x :| x in s && Canon(conns, x) == b;
      var i :| 0 <= i < |s| && s[i] == x;
      assert s'[i] in s';
      assert Canon(conns, s'[i]) in WireBits(conns, s');
    }
  }

  /** The net before, and what is known of feeders and consumers in it. */
  datatype Plan0 = Plan0(net: Net, dsps: Dsps, driverOf: DriverMap, cons: ConsumerMap, next: nat)

  ghost predicate Planned(p: Plan0) {
    && DriversOk(p.net, p.dsps, p.driverOf)
    && ConsumersOk(p.net, p.dsps, p.driverOf, p.cons, |p.net.cells|)
    && forall q :: q in p.net.conns ==> Older([q.0, q.1], p.next)
  }

  /** The replicas so far: the new wires each moved consumer reads, each replica's feeder, and how far each group is. */
  datatype Progress = Progress(moved: map<nat, (nat, nat)>, from: seq<nat>, pos: map<nat, nat>)

  function NetsOf(p: Plan0, c: Cell): set<Bit> {
    WireBits(p.net.conns, Addend(p.dsps, c))
  }

  predicate SamePorts(c: Cell, c': Cell) {
    c.Other? && c'.Other? && c.kind == c'.kind && |c.ins| == |c'.ins|
  }

  ghost predicate CellOk(p: Plan0, g: Progress, c: Cell, next: nat, i: nat)
    requires i < |p.net.cells|
  {
    var was := p.net.cells[i];
    if i !in g.moved then c == was
    else
      && SamePorts(was, c) && c.outs == was.outs
      && p.next <= g.moved[i].0 && g.moved[i].1 <= next
      && NetsOf(p, was) != {} && NetsOf(p, c) != {}
      && (forall b :: b in NetsOf(p, c) ==> Within(b, g.moved[i].0, g.moved[i].1) || (b in NetsOf(p, was) && b !in p.driverOf))
      && (forall b :: b in NetsOf(p, was) && b !in p.driverOf ==> b in NetsOf(p, c))
  }

  predicate RangesApart(g: Progress) {
    forall i, j :: i in g.moved && j in g.moved && i != j ==>
      g.moved[i].1 <= g.moved[j].0 || g.moved[j].1 <= g.moved[i].0
  }

  /** A replica reads what its feeder read at the time: originally, or since it was moved. */
  ghost predicate CloneOk(p: Plan0, g: Progress, c: Cell, f: nat, now: Cell)
    requires f < |p.net.cells|
  {
    var was := p.net.cells[f];
    && SamePorts(was, c) && |Of(p.cons, f)| >= 2
    && (Addend(p.dsps, c) == Addend(p.dsps, was) || (f in g.moved && Addend(p.dsps, c) == Addend(p.dsps, now)))
  }

  ghost predicate FromOk(p: Plan0, g: Progress, cells: seq<Cell>, k: nat)
    requires k < |g.from| && |cells| == |p.net.cells| + |g.from|
  {
    g.from[k] < |p.net.cells| && CloneOk(p, g, cells[|p.net.cells| + k], g.from[k], cells[g.from[k]])
  }

  ghost predicate Handled(p: Plan0, g: Progress, x: nat) {
    exists f, k :: f in g.pos && 1 <= k < g.pos[f] && k < |Of(p.cons, f)| && Of(p.cons, f)[k] == x
  }

  ghost predicate Made(p: Plan0, net: Net, next: nat, g: Progress) {
    && net.conns == p.net.conns && net.wires == p.net.wires && p.next <= next
    && |net.cells| == |p.net.cells| + |g.from|
    && (forall i :: 0 <= i < |p.net.cells| ==> CellOk(p, g, net.cells[i], next, i))
    && (forall k :: 0 <= k < |g.from| ==> FromOk(p, g, net.cells, k))
    && RangesApart(g)
    && (forall x :: x in g.moved <==> Handled(p, g, x))
    && (forall f :: f in g.pos && g.pos[f] >= 2 ==> f in g.from)
  }

  lemma NothingMade(p: Plan0)
    ensures Made(p, p.net, p.next, Progress(map[], [], map[]))
  {
  }

  /** The next consumer of a group has not been moved before. */
  lemma NotYetMoved(p: Plan0, g: Progress, f: nat, i: nat)
    requires Planned(p) && f in g.pos && g.pos[f] == i && i < |Of(p.cons, f)|
    ensures !Handled(p, g, Of(p.cons, f)[i])
    ensures IsFed(p.net, p.dsps, p.driverOf, Of(p.cons, f)[i], f)
  {
    hide FedBy, DriversOk, Addend;
    var x := Of(p.cons, f)[i];
    assert ListOk(p.net, p.dsps, p.driverOf, Of(p.cons, f), f, |p.net.cells|);
    assert x in Of(p.cons, f);
    forall h, k | h in g.pos && 1 <= k < g.pos[h] && k < |Of(p.cons, h)| ensures Of(p.cons, h)[k] != x {
      assert ListOk(p.net, p.dsps, p.driverOf, Of(p.cons, h), h, |p.net.cells|);
      if Of(p.cons, h)[k] == x {
        assert x in Of(p.cons, h);
        OneFeeder(p.net.conns, p.driverOf, Addend(p.dsps, p.net.cells[x]), f);
        assert false;
      }
    }
  }

  function MoreProgress(g: Progress, f: nat, x: nat, next: nat, next': nat): Progress
    requires f in g.pos
  {
    Progress(g.moved[x := (next, next')], g.from + [f], g.pos[f := g.pos[f] + 1])
  }

  ghost predicate NextStep(p: Plan0, net: Net, next: nat, g: Progress, r: Replica) {
    && Planned(p) && Made(p, net, next, g) && CanReplicate(net, p.dsps, r, next)
    && r.feeder < |p.net.cells| && r.feeder in g.pos
    && 1 <= g.pos[r.feeder] < |Of(p.cons, r.feeder)| && r.consumer == Of(p.cons, r.feeder)[g.pos[r.feeder]]
    && Some(r.port) == AddendPort(p.dsps, net.cells[r.consumer])
  }

  lemma ConsumerIsOriginal(p: Plan0, net: Net, next: nat, g: Progress, r: Replica)
    requires NextStep(p, net, next, g, r)
    ensures r.consumer < |p.net.cells| && r.consumer !in g.moved && net.cells[r.consumer] == p.net.cells[r.consumer]
    ensures IsFed(p.net, p.dsps, p.driverOf, r.consumer, r.feeder)
  {
    hide FedBy, DriversOk, Addend, ConsumersOk, CanReplicate, CloneOk;
    NotYetMoved(p, g, r.feeder, g.pos[r.feeder]);
    assert CellOk(p, g, net.cells[r.consumer], next, r.consumer);
  }

  /** The feeder drives all DSP-driven nets of a consumer, so all of them have a new bit. */
  lemma FeederNets(p: Plan0, net: Net, next: nat, g: Progress, r: Replica, b: Bit)
    requires NextStep(p, net, next, g, r) && IsFed(p.net, p.dsps, p.driverOf, r.consumer, r.feeder)
    requires b in NetsOf(p, p.net.cells[r.consumer])
    ensures b in r.sub <==> b in p.driverOf
  {
    hide Flatten, Canon, Addend, ConsumersOk, CloneOk;
    assert CellOk(p, g, net.cells[r.feeder], next, r.feeder);
    var flat := Flatten(net.cells[r.feeder].outs);
    if b in p.driverOf {
      assert b in Driven(p.dsps, p.net.conns, p.net.cells[r.feeder]);
      var x :| x in flat && Canon(p.net.conns, x) == b;
      var j :| 0 <= j < |flat| && flat[j] == x;
    }
    if b in r.sub {
      var j :| 0 <= j < |flat| && Canon(p.net.conns, flat[j]) == b;
      assert flat[j] in flat;
      assert b in Driven(p.dsps, p.net.conns, p.net.cells[r.feeder]);
    }
  }

  lemma MovedCellOk(p: Plan0, net: Net, next: nat, g: Progress, r: Replica)
    requires NextStep(p, net, next, g, r)
    ensures var next' := next + |Flatten(net.cells[r.feeder].outs)|;
            r.consumer < |p.net.cells| &&
            CellOk(p, MoreProgress(g, r.feeder, r.consumer, next, next'),
                   Repointed(net.conns, r.sub, net.cells[r.consumer], r.port), next', r.consumer)
  {
    hide Flatten, Canon, ConsumersOk, CloneOk, WireBits, DriversOk, RangesApart, Repoint;
    ConsumerIsOriginal(p, net, next, g, r);
    var was := p.net.cells[r.consumer];
    var c := Repointed(net.conns, r.sub, was, r.port);
    var flat := Flatten(net.cells[r.feeder].outs);
    var s := was.ins[r.port];
    assert Addend(p.dsps, was) == s && Addend(p.dsps, c) == Repoint(net.conns, r.sub, s);
    RepointedNets(net.conns, r.sub, s, flat, p.next, next);
    forall b | b in NetsOf(p, was) ensures b in r.sub <==> b in p.driverOf {
      FeederNets(p, net, next, g, r, b);
    }
  }

  lemma NewCloneOk(p: Plan0, net: Net, next: nat, g: Progress, r: Replica, next': nat)
    requires NextStep(p, net, next, g, r)
    ensures var cells := Replicated(net, r, next).cells;
            CloneOk(p, MoreProgress(g, r.feeder, r.consumer, next, next'), CloneOf(net.cells[r.feeder], next),
                    r.feeder, cells[r.feeder])
  {
    hide Flatten, Canon, ConsumersOk, WireBits, DriversOk, RangesApart, FreshPorts, SubOk, Repoint;
    ConsumerIsOriginal(p, net, next, g, r);
    assert CellOk(p, g, net.cells[r.feeder], next, r.feeder);
  }

  /** The other cells are as they were. */
  lemma OthersKept(p: Plan0, net: Net, next: nat, g: Progress, r: Replica, next': nat)
    requires NextStep(p, net, next, g, r) && next <= next' && r.consumer < |p.net.cells| && r.consumer !in g.moved
    ensures forall i :: 0 <= i < |p.net.cells| && i != r.consumer ==>
      CellOk(p, MoreProgress(g, r.feeder, r.consumer, next, next'), Replicated(net, r, next).cells[i], next', i)
  {
    hide Flatten, Canon, Planned, SubOk, FreshPorts, Repoint, Handled, Addend, NetsOf, Within, CloneOf, Repointed, RangesApart, FromOk;
    var g', net' := MoreProgress(g, r.feeder, r.consumer, next, next'), Replicated(net, r, next);
    forall i | 0 <= i < |p.net.cells| && i != r.consumer ensures CellOk(p, g', net'.cells[i], next', i) {
      assert CellOk(p, g, net.cells[i], next, i);
    }
  }

  /** So are the replicas, and what they are known to read. */
  lemma ClonesKept(p: Plan0, net: Net, next: nat, g: Progress, r: Replica, next': nat)
    requires NextStep(p, net, next, g, r) && r.consumer < |p.net.cells| && r.consumer !in g.moved
    requires net.cells[r.consumer] == p.net.cells[r.consumer]
    ensures forall k :: 0 <= k < |g.from| ==>
      FromOk(p, MoreProgress(g, r.feeder, r.consumer, next, next'), Replicated(net, r, next).cells, k)
  {
    hide Flatten, Canon, Planned, SubOk, FreshPorts, Repoint, Handled, Addend, Within, CloneOf, Repointed, RangesApart, CellOk;
    var g', net' := MoreProgress(g, r.feeder, r.consumer, next, next'), Replicated(net, r, next);
    forall k | 0 <= k < |g.from| ensures FromOk(p, g', net'.cells, k) {
      assert FromOk(p, g, net.cells, k);
    }
  }

  lemma OneMore(p: Plan0, net: Net, next: nat, g: Progress, r: Replica)
    requires NextStep(p, net, next, g, r)
    ensures var next' := next + |Flatten(net.cells[r.feeder].outs)|;
            Made(p, Replicated(net, r, next), next', MoreProgress(g, r.feeder, r.consumer, next, next'))
  {
    hide Flatten, Canon, Planned, SubOk, FreshPorts, Repoint, Handled, Addend, NetsOf, Within, CloneOf, Repointed, CloneOk;
    var f, x, n := r.feeder, r.consumer, |p.net.cells|;
    var next' := next + |Flatten(net.cells[f].outs)|;
    var g', net' := MoreProgress(g, f, x, next, next'), Replicated(net, r, next);
    ConsumerIsOriginal(p, net, next, g, r);
    MovedCellOk(p, net, next, g, r);
    NewCloneOk(p, net, next, g, r, next');
    OthersKept(p, net, next, g, r, next');
    ClonesKept(p, net, next, g, r, next');
    assert FromOk(p, g', net'.cells, |g.from|);
    forall i | i in g.moved ensures g.moved[i].1 <= next {
      StillHandled(p, g, i);
      assert CellOk(p, g, net.cells[i], next, i);
    }
    assert RangesApart(g');
    HandledNext(p, g, f, x, next, next');
  }

  lemma StillHandled(p: Plan0, g: Progress, x: nat)
    requires Planned(p) && Handled(p, g, x)
    ensures x < |p.net.cells|
  {
    hide FedBy, DriversOk, Addend, IsFed;
    var f, k :| f in g.pos && 1 <= k < g.pos[f] && k < |Of(p.cons, f)| && Of(p.cons, f)[k] == x;
    assert ListOk(p.net, p.dsps, p.driverOf, Of(p.cons, f), f, |p.net.cells|);
    assert x in Of(p.cons, f);
  }

  lemma HandledNext(p: Plan0, g: Progress, f: nat, x: nat, next: nat, next': nat)
    requires f in g.pos && 1 <= g.pos[f] < |Of(p.cons, f)| && x == Of(p.cons, f)[g.pos[f]]
    ensures forall y :: Handled(p, MoreProgress(g, f, x, next, next'), y) <==> Handled(p, g, y) || y == x
  {
    var g' := MoreProgress(g, f, x, next, next');
    forall y ensures Handled(p, g', y) <==> Handled(p, g, y) || y == x {
      if y == x {
        assert f in g'.pos && g.pos[f] < g'.pos[f] && Of(p.cons, f)[g.pos[f]] == y;
      }
      if Handled(p, g, y) {
        var h, k :| h in g.pos && 1 <= k < g.pos[h] && k < |Of(p.cons, h)| && Of(p.cons, h)[k] == y;
        assert h in g'.pos && k < g'.pos[h];
      }
    }
  }

  // ---- When the result is point to point ----------------------------------------------------------

  ghost predicate Finished(p: Plan0, net: Net, next: nat, g: Progress) {
    && Planned(p) && Made(p, net, next, g) && NetOlder(p.net, p.next)
    && forall f: nat :: |Of(p.cons, f)| >= 2 ==> f in g.pos && g.pos[f] == |Of(p.cons, f)|
  }

  /** Every net of an addend comes from one DSP. */
  ghost predicate SingleDrivers(net: Net, dsps: Dsps, driverOf: DriverMap) {
    forall i :: 0 <= i < |net.cells| && WireBits(net.conns, Addend(dsps, net.cells[i])) != {} ==>
      (exists f :: IsFed(net, dsps, driverOf, i, f)) && forall b :: b in WireBits(net.conns, Addend(dsps, net.cells[i])) ==> b in driverOf
  }

  ghost predicate IsShared(net: Net, dsps: Dsps, driverOf: DriverMap, f: nat) {
    exists i, j :: i < j && IsFed(net, dsps, driverOf, i, f) && IsFed(net, dsps, driverOf, j, f)
  }

  /** A feeder with several consumers that reads a cascade net itself. */
  ghost predicate SharedMidChain(net: Net, dsps: Dsps, driverOf: DriverMap) {
    exists f :: 0 <= f < |net.cells| && IsShared(net, dsps, driverOf, f) && WireBits(net.conns, Addend(dsps, net.cells[f])) != {}
  }

  /** Consumers of one feeder read some net of it in common. */
  ghost predicate ConsumersMeet(net: Net, dsps: Dsps, driverOf: DriverMap) {
    forall f: nat, i: nat, j: nat :: i < j && IsFed(net, dsps, driverOf, i, f) && IsFed(net, dsps, driverOf, j, f) ==>
      !Disjoint(net.conns, Addend(dsps, net.cells[i]), Addend(dsps, net.cells[j]))
  }

  lemma SharedHasTwo(p: Plan0, f: nat)
    requires Planned(p)
    ensures IsShared(p.net, p.dsps, p.driverOf, f) <==> |Of(p.cons, f)| >= 2
  {
    hide DriversOk, IsFed;
    var list := Of(p.cons, f);
    assert ListOk(p.net, p.dsps, p.driverOf, list, f, |p.net.cells|);
    if |list| >= 2 {
      assert list[0] in list && list[1] in list;
    }
    if i, j :| i < j && IsFed(p.net, p.dsps, p.driverOf, i, f) && IsFed(p.net, p.dsps, p.driverOf, j, f) {
      FedInNet(p, i, f);
      FedInNet(p, j, f);
      assert i in list && j in list;
      var k :| 0 <= k < |list| && list[k] == i;
      var l :| 0 <= l < |list| && list[l] == j;
    }
  }

  lemma FedInNet(p: Plan0, i: nat, f: nat)
    requires IsFed(p.net, p.dsps, p.driverOf, i, f)
    ensures i < |p.net.cells|
  {
  }

  lemma OldNets(p: Plan0, i: nat)
    requires NetOlder(p.net, p.next) && i < |p.net.cells|
    ensures forall b :: b in NetsOf(p, p.net.cells[i]) ==> Within(b, 0, p.next)
  {
    hide Canon, Flatten;
    var c := p.net.cells[i];
    var s := Addend(p.dsps, c);
    assert c in p.net.cells;
    if AddendPort(p.dsps, c).Some? {
      OtherPorts(c);
      OlderParts(Flatten(c.ins), Flatten(c.outs), p.next);
      PartOlder(c.ins, AddendPort(p.dsps, c).value, p.next);
    }
    forall b | b in NetsOf(p, c) ensures Within(b, 0, p.next) {
      var x :| x in s && Canon(p.net.conns, x).Wire? && Canon(p.net.conns, x) == b;
      assert Older([x], p.next);
      CanonBitOlder(p.net.conns, x, p.next);
      assert b in [b];
    }
  }

  /** A consumer that is not the first of its feeder, and so gets a replica. */
  ghost predicate MovesOff(net: Net, dsps: Dsps, driverOf: DriverMap, j: nat) {
    exists f: nat, i: nat :: i < j && IsFed(net, dsps, driverOf, i, f) && IsFed(net, dsps, driverOf, j, f)
  }

  /** Two addends share a net that replication does not part: no DSP drives it, or both stay where they are. */
  ghost predicate Stuck(net: Net, dsps: Dsps, driverOf: DriverMap) {
    exists i, j, b :: 0 <= i < j < |net.cells| && SharesNet(net, dsps, i, j, b)
      && (b !in driverOf || (!MovesOff(net, dsps, driverOf, i) && !MovesOff(net, dsps, driverOf, j)))
  }

  predicate SharesNet(net: Net, dsps: Dsps, i: nat, j: nat, b: Bit)
    requires i < |net.cells| && j < |net.cells|
  {
    b in WireBits(net.conns, Addend(dsps, net.cells[i])) && b in WireBits(net.conns, Addend(dsps, net.cells[j]))
  }

  lemma MovedIff(p: Plan0, net: Net, next: nat, g: Progress, x: nat)
    requires Finished(p, net, next, g)
    ensures x in g.moved <==> MovesOff(p.net, p.dsps, p.driverOf, x)
  {
    hide WireBits, Addend, DriversOk, NetOlder, CellOk, FromOk, RangesApart, IsFed;
    if x in g.moved {
      assert Handled(p, g, x);
      var f, k :| f in g.pos && 1 <= k < g.pos[f] && k < |Of(p.cons, f)| && Of(p.cons, f)[k] == x;
      var list := Of(p.cons, f);
      assert ListOk(p.net, p.dsps, p.driverOf, list, f, |p.net.cells|);
      assert list[0] in list && list[k] in list && list[0] < list[k];
    }
    if f: nat, i: nat :| i < x && IsFed(p.net, p.dsps, p.driverOf, i, f) && IsFed(p.net, p.dsps, p.driverOf, x, f) {
      var list := Of(p.cons, f);
      assert ListOk(p.net, p.dsps, p.driverOf, list, f, |p.net.cells|);
      FedInNet(p, i, f);
      FedInNet(p, x, f);
      assert i in list && x in list;
      var k :| 0 <= k < |list| && list[k] == i;
      var l :| 0 <= l < |list| && list[l] == x;
      assert l >= 1;
      assert Handled(p, g, x);
    }
  }

  /** A cascade net of the result: one of a replica's, or one the cell read before and replication does not change. */
  predicate From(p: Plan0, g: Progress, i: nat, b: Bit)
    requires i < |p.net.cells|
  {
    || (i in g.moved && Within(b, g.moved[i].0, g.moved[i].1) && p.next <= g.moved[i].0)
    || (b in NetsOf(p, p.net.cells[i]) && Within(b, 0, p.next) && (i in g.moved ==> b !in p.driverOf))
  }

  /** Where a cell of the result gets a cascade net from. */
  lemma NetOrigin(p: Plan0, net: Net, next: nat, g: Progress, i: nat, b: Bit)
    requires Finished(p, net, next, g) && i < |net.cells| && b in NetsOf(p, net.cells[i])
    requires !SharedMidChain(p.net, p.dsps, p.driverOf)
    ensures i < |p.net.cells| && From(p, g, i, b)
  {
    hide Canon, Addend, WireBits, DriversOk, ConsumersOk, NetOlder, IsFed, RangesApart, Handled, Within, IsShared;
    var n := |p.net.cells|;
    if i < n {
      assert CellOk(p, g, net.cells[i], next, i);
      OldNets(p, i);
    } else {
      assert FromOk(p, g, net.cells, i - n);
      var f := g.from[i - n];
      SharedHasTwo(p, f);
      assert false;
    }
  }

  /** What two cells of the result share, they shared before. */
  lemma SharedBefore(p: Plan0, net: Net, next: nat, g: Progress, i: nat, j: nat, b: Bit)
    requires Finished(p, net, next, g) && i < j < |p.net.cells| && From(p, g, i, b) && From(p, g, j, b)
    ensures b in NetsOf(p, p.net.cells[i]) && b in NetsOf(p, p.net.cells[j])
    ensures i in g.moved || j in g.moved ==> b !in p.driverOf
  {
    hide CellOk, FromOk, Planned, NetOlder, Handled, NetsOf;
  }

  /** A net that replication does not take off a cell is still there. */
  lemma NetStays(p: Plan0, net: Net, next: nat, g: Progress, i: nat, b: Bit)
    requires Finished(p, net, next, g) && i < |p.net.cells| && b in NetsOf(p, p.net.cells[i])
    requires i in g.moved ==> b !in p.driverOf
    ensures i < |net.cells| && b in NetsOf(p, net.cells[i])
  {
    hide Canon, Addend, WireBits, DriversOk, ConsumersOk, NetOlder, RangesApart, Handled, Within, FromOk;
    assert CellOk(p, g, net.cells[i], next, i);
  }

  /** With no shared feeder in mid-chain: legal exactly when nothing is stuck. */
  lemma LegalWhenHeadsShare(p: Plan0, net: Net, next: nat, g: Progress)
    requires Finished(p, net, next, g) && !SharedMidChain(p.net, p.dsps, p.driverOf)
    ensures PointToPoint(net, p.dsps) <==> !Stuck(p.net, p.dsps, p.driverOf)
  {
    hide Finished, SharedMidChain, MovesOff, NetsOf, From, PointToPoint, IsFed, Addend, WireBits;
    if Stuck(p.net, p.dsps, p.driverOf) {
      var i, j, b :| 0 <= i < j < |p.net.cells| && SharesNet(p.net, p.dsps, i, j, b)
        && (b !in p.driverOf || (!MovesOff(p.net, p.dsps, p.driverOf, i) && !MovesOff(p.net, p.dsps, p.driverOf, j)));
      MovedIff(p, net, next, g, i);
      MovedIff(p, net, next, g, j);
      NetsAre(p, i);
      NetsAre(p, j);
      NetStays(p, net, next, g, i, b);
      NetStays(p, net, next, g, j, b);
      NotApart(p, net, next, g, i, j, b);
    } else {
      forall i, j, b | 0 <= i < j < |net.cells| && b in NetsOf(p, net.cells[i]) ensures b !in NetsOf(p, net.cells[j]) {
        if b in NetsOf(p, net.cells[j]) {
          NetOrigin(p, net, next, g, i, b);
          NetOrigin(p, net, next, g, j, b);
          SharedBefore(p, net, next, g, i, j, b);
          MovedIff(p, net, next, g, i);
          MovedIff(p, net, next, g, j);
          NetsAre(p, i);
          NetsAre(p, j);
          NoneStuck(p, i, j, b);
          assert false;
        }
      }
      AllDisjoint(p, net, next, g);
    }
  }

  lemma NoneStuck(p: Plan0, i: nat, j: nat, b: Bit)
    requires !Stuck(p.net, p.dsps, p.driverOf) && i < j < |p.net.cells| && SharesNet(p.net, p.dsps, i, j, b)
    ensures b in p.driverOf && (MovesOff(p.net, p.dsps, p.driverOf, i) || MovesOff(p.net, p.dsps, p.driverOf, j))
  {
    hide SharesNet, MovesOff;
  }

  lemma NetsAre(p: Plan0, i: nat)
    requires i < |p.net.cells|
    ensures NetsOf(p, p.net.cells[i]) == WireBits(p.net.conns, Addend(p.dsps, p.net.cells[i]))
  {
  }

  lemma NotApart(p: Plan0, net: Net, next: nat, g: Progress, i: nat, j: nat, b: Bit)
    requires Finished(p, net, next, g) && i < j < |net.cells| && b in NetsOf(p, net.cells[i]) && b in NetsOf(p, net.cells[j])
    ensures !PointToPoint(net, p.dsps)
  {
    hide WireBits, Addend, ConsumersOk, DriversOk, NetOlder, CellOk, FromOk, RangesApart;
    assert !Disjoint(net.conns, Addend(p.dsps, net.cells[i]), Addend(p.dsps, net.cells[j]));
  }

  lemma AllDisjoint(p: Plan0, net: Net, next: nat, g: Progress)
    requires Finished(p, net, next, g)
    requires forall i, j, b :: 0 <= i < j < |net.cells| && b in NetsOf(p, net.cells[i]) ==> b !in NetsOf(p, net.cells[j])
    ensures PointToPoint(net, p.dsps)
  {
    hide WireBits, Addend, ConsumersOk, DriversOk, NetOlder;
    forall i, j | 0 <= i < j < |net.cells|
      ensures Disjoint(net.conns, Addend(p.dsps, net.cells[i]), Addend(p.dsps, net.cells[j]))
    {
      assert NetsOf(p, net.cells[i]) !! NetsOf(p, net.cells[j]);
    }
  }

  /** With one DSP driver an addend nothing is stuck: of two consumers of one feeder the later moves off. */
  lemma SingleDriversNotStuck(net: Net, dsps: Dsps, driverOf: DriverMap)
    requires SingleDrivers(net, dsps, driverOf)
    ensures !Stuck(net, dsps, driverOf)
  {
    hide WireBits, Addend;
    forall i, j, b | 0 <= i < j < |net.cells| && SharesNet(net, dsps, i, j, b)
      ensures b in driverOf && MovesOff(net, dsps, driverOf, j)
    {
      var f: nat :| IsFed(net, dsps, driverOf, i, f);
      var h: nat :| IsFed(net, dsps, driverOf, j, h);
      assert f == driverOf[b] == h;
    }
  }

  /** A replica of a feeder in mid-chain meets the feeder, or the head of the feeder's own group. */
  lemma StuckMidChain(p: Plan0, net: Net, next: nat, g: Progress)
    requires Finished(p, net, next, g)
    requires ConsumersMeet(p.net, p.dsps, p.driverOf) && SharedMidChain(p.net, p.dsps, p.driverOf)
    ensures !PointToPoint(net, p.dsps)
  {
    hide WireBits, Addend, DriversOk, NetOlder, RangesApart, ConsumersOk, IsFed;
    var n := |p.net.cells|;
    var f :| 0 <= f < n && IsShared(p.net, p.dsps, p.driverOf, f) && NetsOf(p, p.net.cells[f]) != {};
    SharedHasTwo(p, f);
    assert f in g.from;
    var k :| 0 <= k < |g.from| && g.from[k] == f;
    assert FromOk(p, g, net.cells, k) && CellOk(p, g, net.cells[f], next, f);
    var clone := net.cells[n + k];
    if f !in g.moved || Addend(p.dsps, clone) == Addend(p.dsps, net.cells[f]) {
      assert NetsOf(p, net.cells[f]) != {};
      MeetsItself(net.conns, Addend(p.dsps, net.cells[f]));
      assert !Disjoint(net.conns, Addend(p.dsps, net.cells[f]), Addend(p.dsps, net.cells[n + k]));
    } else {
      var head := HeadOf(p, net, next, g, f);
      assert CellOk(p, g, net.cells[head], next, head);
      assert !Disjoint(net.conns, Addend(p.dsps, net.cells[head]), Addend(p.dsps, net.cells[n + k]));
    }
  }

  lemma MeetsItself(conns: Conns, s: Sig)
    requires WireBits(conns, s) != {}
    ensures !Disjoint(conns, s, s)
  {
    hide WireBits;
    var b :| b in WireBits(conns, s);
  }

  /** The consumer left on the feeder that `f`, itself a moved consumer, was on. */
  lemma HeadOf(p: Plan0, net: Net, next: nat, g: Progress, f: nat) returns (head: nat)
    requires Finished(p, net, next, g) && f in g.moved && ConsumersMeet(p.net, p.dsps, p.driverOf)
    ensures head < |p.net.cells| && head !in g.moved && f < |p.net.cells|
    ensures !Disjoint(p.net.conns, Addend(p.dsps, p.net.cells[head]), Addend(p.dsps, p.net.cells[f]))
  {
    hide WireBits, Addend, DriversOk, NetOlder, RangesApart, CellOk, FromOk, FedBy;
    assert Handled(p, g, f);
    var h, i :| h in g.pos && 1 <= i < g.pos[h] && i < |Of(p.cons, h)| && Of(p.cons, h)[i] == f;
    var list := Of(p.cons, h);
    assert ListOk(p.net, p.dsps, p.driverOf, list, h, |p.net.cells|);
    head := list[0];
    assert head in list && f in list;
    if head in g.moved {
      assert Handled(p, g, head);
      var h', i' :| h' in g.pos && 1 <= i' < g.pos[h'] && i' < |Of(p.cons, h')| && Of(p.cons, h')[i'] == head;
      var list' := Of(p.cons, h');
      assert ListOk(p.net, p.dsps, p.driverOf, list', h', |p.net.cells|);
      assert head in list';
      OneFeeder(p.net.conns, p.driverOf, Addend(p.dsps, p.net.cells[head]), h);
      assert false;
    }
  }

  // ---- The pass ---------------------------------------------------------------------------------------

  /** The closing check: some cascade net feeds two cells. */
  method CheckCascades(m: Module, dsps: Dsps) returns (ok: bool)
    ensures ok <==> PointToPoint(m.View(), dsps)
  {
    hide WireBits, Addend;
    var sink: map<Bit, nat> := map[];
    for i := 0 to |m.cells|
      invariant forall b :: b in sink ==> sink[b] < i && b in WireBits(m.conns, Addend(dsps, m.cells[sink[b]]))
      invariant forall j, b :: 0 <= j < i && b in WireBits(m.conns, Addend(dsps, m.cells[j])) ==> b in sink
      invariant forall j, k :: 0 <= j < k < i ==> Disjoint(m.conns, Addend(dsps, m.cells[j]), Addend(dsps, m.cells[k]))
    {
      var nets := WireBits(m.conns, Addend(dsps, m.cells[i]));
      if b :| b in nets && b in sink {
        assert !Disjoint(m.conns, Addend(dsps, m.cells[sink[b]]), Addend(dsps, m.cells[i]));
        return false;
      }
      sink := sink + map b | b in nets :: i;
    }
    return true;
  }

  /** One group: the first consumer stays, each of the others gets a replica. */
  method ReplicateGroup(m: Module, f: nat, ghost p: Plan0, ghost g: Progress, consumers: seq<nat>, dsps: Dsps, ghost beh: Behaviour)
      returns (ghost g': Progress)
    requires Planned(p) && Made(p, m.View(), m.next, g) && p.dsps == dsps && NetOlder(m.View(), m.next)
    requires Deterministic(dsps, beh) && SameFor(p.net, m.View(), p.next, beh) && NoneOwn(p)
    requires f !in g.pos && f < |p.net.cells| && IsDsp(dsps, p.net.cells[f]) && consumers == Of(p.cons, f) != []
    modifies m`cells, m`next
    ensures Made(p, m.View(), m.next, g') && NetOlder(m.View(), m.next) && SameFor(p.net, m.View(), p.next, beh)
    ensures g'.pos == g.pos[f := |consumers|]
  {
    hide Planned, Made, NetOlder, Deterministic, SameFor, NoneOwn, CanReplicate, Replicated, NextStep, Flatten, Canon, IsDsp, AddendPort;
    g' := Progress(g.moved, g.from, g.pos[f := 1]);
    GroupStarts(p, m.View(), m.next, g, f);
    for i := 1 to |consumers|
      invariant Made(p, m.View(), m.next, g') && NetOlder(m.View(), m.next) && SameFor(p.net, m.View(), p.next, beh)
      invariant g'.pos == g.pos[f := i]
    {
      var x := consumers[i];
      ghost var net, next := m.View(), m.next;
      ConsumerReady(p, net, next, g', f, i);
      var r := Replicate(m, dsps, f, x);
      StepReady(p, net, next, g', r, i);
      SameForReplica(p.net, net, dsps, r, p.next, next, beh);
      ReplicatedOlder(net, dsps, r, next);
      OneMore(p, net, next, g', r);
      g' := MoreProgress(g', f, x, next, m.next);
      ProgressPos(g', g, f, i);
    }
  }

  /** No DSP drives its own cascade input. */
  ghost predicate NoneOwn(p: Plan0) {
    forall f: nat, i: nat :: IsFed(p.net, p.dsps, p.driverOf, i, f) ==> i != f
  }

  lemma GroupStarts(p: Plan0, net: Net, next: nat, g: Progress, f: nat)
    requires Made(p, net, next, g) && f !in g.pos
    ensures Made(p, net, next, Progress(g.moved, g.from, g.pos[f := 1]))
  {
    hide Addend, WireBits, SamePorts, Within, Of;
    var g' := Progress(g.moved, g.from, g.pos[f := 1]);
    forall x: nat ensures Handled(p, g', x) <==> Handled(p, g, x) {
      if Handled(p, g, x) {
        var h, k :| h in g.pos && 1 <= k < g.pos[h] && k < |Of(p.cons, h)| && Of(p.cons, h)[k] == x;
        assert h in g'.pos && k < g'.pos[h];
      }
    }
    forall i | 0 <= i < |p.net.cells| ensures CellOk(p, g', net.cells[i], next, i) {
      assert CellOk(p, g, net.cells[i], next, i);
    }
    forall k | 0 <= k < |g.from| ensures FromOk(p, g', net.cells, k) {
      assert FromOk(p, g, net.cells, k);
    }
  }

  lemma ConsumerReady(p: Plan0, net: Net, next: nat, g: Progress, f: nat, i: nat)
    requires Planned(p) && Made(p, net, next, g) && NoneOwn(p)
    requires f < |p.net.cells| && IsDsp(p.dsps, p.net.cells[f])
    requires f in g.pos && g.pos[f] == i && 1 <= i < |Of(p.cons, f)|
    ensures f < |net.cells| && IsDsp(p.dsps, net.cells[f])
    ensures Of(p.cons, f)[i] < |net.cells| && AddendPort(p.dsps, net.cells[Of(p.cons, f)[i]]).Some? && Of(p.cons, f)[i] != f
  {
    hide DriversOk, ConsumersOk, FromOk, RangesApart, FedBy;
    var x := Of(p.cons, f)[i];
    NotYetMoved(p, g, f, i);
    assert CellOk(p, g, net.cells[x], next, x) && CellOk(p, g, net.cells[f], next, f);
    FedHasPort(p, x, f);
  }

  lemma FedHasPort(p: Plan0, i: nat, f: nat)
    requires IsFed(p.net, p.dsps, p.driverOf, i, f)
    ensures AddendPort(p.dsps, p.net.cells[i]).Some?
  {
  }

  lemma StepReady(p: Plan0, net: Net, next: nat, g: Progress, r: Replica, i: nat)
    requires Planned(p) && Made(p, net, next, g) && CanReplicate(net, p.dsps, r, next)
    requires r.feeder < |p.net.cells| && r.feeder in g.pos && g.pos[r.feeder] == i && 1 <= i < |Of(p.cons, r.feeder)|
    requires r.consumer == Of(p.cons, r.feeder)[i] && Some(r.port) == AddendPort(p.dsps, net.cells[r.consumer])
    ensures NextStep(p, net, next, g, r) && p.next <= next
  {
    hide CellOk, FromOk, RangesApart, Planned, SubOk;
  }

  lemma ProgressPos(g': Progress, g: Progress, f: nat, i: nat)
    ensures g.pos[f := i][f := i + 1] == g.pos[f := i + 1]
  {
  }

  /** What a caller can check: no net a DSP drives is on its own cascade input. */
  ghost predicate NoSelfFeed(net: Net, dsps: Dsps) {
    forall i :: 0 <= i < |net.cells| && IsDsp(dsps, net.cells[i]) ==>
      Disjoint(net.conns, Addend(dsps, net.cells[i]), Flatten(net.cells[i].outs))
  }

  lemma NoneFeedsItself(p: Plan0)
    requires Planned(p) && NoSelfFeed(p.net, p.dsps)
    ensures NoneOwn(p)
  {
    hide WireBits, ConsumersOk, Flatten;
    forall f: nat, i: nat | IsFed(p.net, p.dsps, p.driverOf, i, f) ensures i != f {
      if i == f { assert false; }
    }
  }

  lemma FeederIsDsp(p: Plan0, f: nat)
    requires Planned(p) && |Of(p.cons, f)| >= 1
    ensures f < |p.net.cells| && IsDsp(p.dsps, p.net.cells[f])
  {
    hide WireBits, Flatten;
    var x := Of(p.cons, f)[0];
    assert ListOk(p.net, p.dsps, p.driverOf, Of(p.cons, f), f, |p.net.cells|);
    assert x in Of(p.cons, f);
    var b :| b in WireBits(p.net.conns, Addend(p.dsps, p.net.cells[x])) && b in p.driverOf;
    assert b in Driven(p.dsps, p.net.conns, p.net.cells[f]);
  }

  /**
   The pass changes no run; it succeeds exactly when every cascade net of the
   result is point to point. In terms of the module before, where no shared
   feeder is in mid-chain that is exactly when nothing is stuck; and where
   consumers of a feeder have a net of it in common, a shared feeder in
   mid-chain always fails.
   */
  method LegalizeCascadeFanout(m: Module, dsps: Dsps, ghost beh: Behaviour) returns (ok: bool, driverOf: DriverMap)
    requires NetOlder(m.View(), m.next) && Deterministic(dsps, beh) && NoSelfFeed(m.View(), dsps)
    modifies m`cells, m`next
    ensures SameFor(old(m.View()), m.View(), old(m.next), beh)
    ensures ok <==> PointToPoint(m.View(), dsps)
    ensures DriversOk(old(m.View()), dsps, driverOf)
    ensures !SharedMidChain(old(m.View()), dsps, driverOf) ==> (ok <==> !Stuck(old(m.View()), dsps, driverOf))
    ensures ConsumersMeet(old(m.View()), dsps, driverOf) ==>
      (ok <==> !SharedMidChain(old(m.View()), dsps, driverOf) && !Stuck(old(m.View()), dsps, driverOf))
    ensures ConsumersMeet(old(m.View()), dsps, driverOf) && SingleDrivers(old(m.View()), dsps, driverOf) ==>
      (ok <==> !SharedMidChain(old(m.View()), dsps, driverOf))
  {
    hide Planned, Made, NetOlder, Deterministic, SameFor, NoneOwn, NoSelfFeed, DriversOk, ConsumersOk, SingleDrivers,
      SharedMidChain, ConsumersMeet, PointToPoint, Finished, IsDsp, Stuck;
    driverOf := FindDrivers(m, dsps);
    var cons := FindConsumers(m, dsps, driverOf);
    ghost var p := Plan0(m.View(), dsps, driverOf, cons, m.next);
    ghost var g := Progress(map[], [], map[]);
    PlanReady(p);
    NothingMade(p);
    NoneFeedsItself(p);
    SameForItself(m.View(), m.next, beh);
    var todo := cons.Keys;
    while todo != {}
      invariant todo <= cons.Keys
      invariant Made(p, m.View(), m.next, g) && NetOlder(m.View(), m.next) && SameFor(p.net, m.View(), p.next, beh)
      invariant forall f :: f in g.pos <==> f in cons.Keys - todo && |cons[f]| >= 1
      invariant forall f :: f in g.pos ==> g.pos[f] == |cons[f]|
      decreases |todo|
    {
      var f :| f in todo;
      todo := todo - {f};
      OfKey(cons, f);
      if |cons[f]| >= 1 {
        FeederIsDsp(p, f);
        g := ReplicateGroup(m, f, p, g, cons[f], dsps, beh);
      }
    }
    AllHandled(p, m.View(), m.next, g);
    if !SharedMidChain(p.net, dsps, driverOf) {
      LegalWhenHeadsShare(p, m.View(), m.next, g);
    }
    if SingleDrivers(p.net, dsps, driverOf) {
      SingleDriversNotStuck(p.net, dsps, driverOf);
    }
    if ConsumersMeet(p.net, dsps, driverOf) && SharedMidChain(p.net, dsps, driverOf) {
      StuckMidChain(p, m.View(), m.next, g);
    }
    ok := CheckCascades(m, dsps);
  }

  lemma PlanReady(p: Plan0)
    requires DriversOk(p.net, p.dsps, p.driverOf) && NetOlder(p.net, p.next)
    requires ConsumersOk(p.net, p.dsps, p.driverOf, p.cons, |p.net.cells|)
    ensures Planned(p)
  {
    hide DriversOk, ConsumersOk;
  }

  lemma OfKey(cons: ConsumerMap, f: nat)
    requires f in cons
    ensures Of(cons, f) == cons[f]
  {
  }

  lemma AllHandled(p: Plan0, net: Net, next: nat, g: Progress)
    requires Planned(p) && Made(p, net, next, g) && NetOlder(p.net, p.next)
    requires forall f :: f in g.pos <==> f in p.cons && |p.cons[f]| >= 1
    requires forall f :: f in g.pos ==> g.pos[f] == |p.cons[f]|
    ensures Finished(p, net, next, g)
  {
    hide Planned, Made, NetOlder;
  }

  // ---- An instance that fails ---------------------------------------------------------------------------

  /** A multiply-add on the cascade: OPMODE[6:4] is 001 and PCIN the only input. */
  function Chained(w: nat, y: nat): Cell {
    Other(1, [[Wire(w)]], [[Wire(y)]])
  }

  /** A head, a feeder on its cascade, and two consumers of the feeder. */
  function ForkedChain(): Net {
    Net([Other(0, [], [[Wire(0)]]), Chained(0, 1), Chained(1, 2), Chained(1, 3)], [], Wires([], {}, map[]))
  }

  function ForkedDsps(): Dsps {
    map[0 := Config(None, None),
        1 := Config(Some([true, false, true, false, true, false, false, false, false]), Some(0))]
  }

  lemma ForkedNets()
    ensures forall w: nat, y: nat :: Addend(ForkedDsps(), Chained(w, y)) == [Wire(w)]
    ensures Addend(ForkedDsps(), Other(0, [], [[Wire(0)]])) == []
    ensures forall w: nat :: WireBits([], [Wire(w)]) == {Wire(w)}
    ensures WireBits([], []) == {}
    ensures forall y: nat :: Flatten([[Wire(y)]]) == [Wire(y)]
  {
    SelectValue([true, false, true, false, true, false, false, false, false]);
    forall w: nat ensures WireBits([], [Wire(w)]) == {Wire(w)} {
      assert Wire(w) in [Wire(w)] && Canon([], Wire(w)) == Wire(w);
    }
  }

  /** The feeder is in mid-chain and shared: the pass copies it, and both copies read the head. */
  lemma ForkedChainFails()
    ensures var net, dsps := ForkedChain(), ForkedDsps();
      var driverOf := map[Wire(0) := 0, Wire(1) := 1, Wire(2) := 2, Wire(3) := 3];
      && NetOlder(net, 4) && NoSelfFeed(net, dsps) && DriversOk(net, dsps, driverOf)
      && ConsumersMeet(net, dsps, driverOf) && SingleDrivers(net, dsps, driverOf) && SharedMidChain(net, dsps, driverOf)
      && !PointToPoint(net, dsps)
  {
    ForkedNets();
    hide Addend, WireBits, Flatten;
    var net, dsps := ForkedChain(), ForkedDsps();
    var driverOf: DriverMap := map[Wire(0) := 0, Wire(1) := 1, Wire(2) := 2, Wire(3) := 3];
    forall i | 0 <= i < 4
      ensures WireBits([], Addend(dsps, net.cells[i])) == if i == 0 then {} else {Wire(if i == 1 then 0 else 1)}
      ensures Driven(dsps, [], net.cells[i]) == {Wire(i)}
    {
    }
    forall i: nat, f: nat ensures IsFed(net, dsps, driverOf, i, f) <==> (i == 1 && f == 0) || ((i == 2 || i == 3) && f == 1) {
      if i == 1 { assert Wire(0) in driverOf; }
      if i == 2 || i == 3 { assert Wire(1) in driverOf; }
    }
    assert IsFed(net, dsps, driverOf, 2, 1) && IsFed(net, dsps, driverOf, 3, 1);
    assert IsShared(net, dsps, driverOf, 1);
    assert Wire(1) in WireBits([], Addend(dsps, net.cells[2])) && Wire(1) in WireBits([], Addend(dsps, net.cells[3]));
    ForkedOlder();
    forall i | 0 <= i < 4 && WireBits([], Addend(dsps, net.cells[i])) != {} ensures exists f :: IsFed(net, dsps, driverOf, i, f) {
      assert IsFed(net, dsps, driverOf, i, if i == 1 then 0 else 1);
    }
  }

  lemma ForkedOlder()
    ensures NetOlder(ForkedChain(), 4)
  {
    var net := ForkedChain();
    forall c, b | c in net.cells && b in AllBits(c) && b.Wire? ensures b.id < 4 {
      assert Flatten([[Wire(0)]]) == [Wire(0)] && Flatten([[Wire(1)]]) == [Wire(1)];
      assert Flatten([[Wire(2)]]) == [Wire(2)] && Flatten([[Wire(3)]]) == [Wire(3)];
    }
  }
}
