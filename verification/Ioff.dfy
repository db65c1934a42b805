/** Promoting registers at the module boundary to IO flip-flops. */
module Ioff {
  import opened Bits
  import N = Netlist

  /** The `n` kinds act on the falling edge; the kinds without `s` reset asynchronously. */
  datatype Kind = Dffre | Sdffre | Dffnre | Sdffnre | Dff | Dffn | IoSdffr | IoSdffnr

  datatype Cell =
    | Ff(kind: Kind, c: Bit, d: Bit, q: Bit, e: Option<Bit>, r: Option<Bit>)
    | Vcc(p: Bit)
    | Gnd(g: Bit)
    | Other(name: nat, ins: Sig, outs: Sig)

  /** `ports` are the wires of the module's output ports. */
  datatype Net = Net(cells: seq<Cell>, conns: N.Conns, ports: seq<seq<nat>>)

  type Run = seq<Env>
  type Behaviour = (nat, seq<seq<bool>>, seq<seq<bool>>) -> bool

  // ---- Runs ----------------------------------------------------------------------------

  predicate Negedge(k: Kind) {
    k == Dffnre || k == Sdffnre || k == Dffn || k == IoSdffnr
  }

  predicate AsyncReset(k: Kind) {
    k == Dffre || k == Dffnre
  }

  predicate High(b: Option<Bit>, e: Env) {
    b.Some? ==> BitVal(b.value, e)
  }

  /** Q after a step, from what it was; R is active low, and E gates the load but not the reset. */
  function NextQ(f: Cell, q: bool, e0: Env, e1: Env): bool
    requires f.Ff?
  {
    if AsyncReset(f.kind) && High(f.r, e0) && !High(f.r, e1) then false
    else if !N.ClockEdge(f.c, !Negedge(f.kind), e0, e1) then q
    else if !High(f.r, if AsyncReset(f.kind) then e1 else e0) then false
    else if !High(f.e, e0) then q
    else BitVal(f.d, e0)
  }

  function History(s: Sig, run: Run): seq<seq<bool>> {
    seq(|run|, t requires 0 <= t < |run| => Eval(s, run[t]))
  }

  /** All registers power up at 0. */
  predicate FfHolds(f: Cell, run: Run)
    requires f.Ff?
  {
    && (|run| > 0 ==> !BitVal(f.q, run[0]))
    && forall t :: 0 <= t < |run| - 1 ==> BitVal(f.q, run[t + 1]) == NextQ(f, BitVal(f.q, run[t]), run[t], run[t + 1])
  }

  predicate CellHolds(c: Cell, run: Run, beh: Behaviour) {
    match c
    case Ff(_, _, _, _, _, _) => FfHolds(c, run)
    case Vcc(p) => forall t :: 0 <= t < |run| ==> BitVal(p, run[t])
    case Gnd(g) => forall t :: 0 <= t < |run| ==> !BitVal(g, run[t])
    case Other(name, ins, outs) => beh(name, History(ins, run), History(outs, run))
  }

  ghost predicate IsRun(net: Net, run: Run, beh: Behaviour) {
    && (forall c :: c in net.cells ==> CellHolds(c, run, beh))
    && forall t :: 0 <= t < |run| ==> N.ConnsHold(net.conns, run[t])
  }

  // ---- Constant pins -------------------------------------------------------------------------

  type Drivers = map<Bit, bool>

  ghost predicate DriversOk(cells: seq<Cell>, conns: N.Conns, drivers: Drivers) {
    forall b :: b in drivers ==> exists c :: c in cells && Ties(c, conns, b, drivers[b])
  }

  predicate Ties(c: Cell, conns: N.Conns, b: Bit, v: bool) {
    match c
    case Vcc(p) => v && N.Canon(conns, p) == b
    case Gnd(g) => !v && N.Canon(conns, g) == b
    case _ => false
  }

  predicate TiesKnown(c: Cell, conns: N.Conns, drivers: Drivers) {
    match c
    case Vcc(p) => N.Canon(conns, p) in drivers
    case Gnd(g) => N.Canon(conns, g) in drivers
    case _ => true
  }

  predicate ConstOnes(conns: N.Conns, drivers: Drivers, pin: Option<Bit>) {
    pin.Some? && var b := N.Canon(conns, pin.value); (if b in drivers then drivers[b] else b == Const(true))
  }

  /** A pin found constant is 1 on every cycle of every run. */
  lemma ConstOnesHigh(net: Net, drivers: Drivers, pin: Option<Bit>, run: Run, beh: Behaviour, t: nat)
    requires DriversOk(net.cells, net.conns, drivers) && ConstOnes(net.conns, drivers, pin)
    requires IsRun(net, run, beh) && t < |run|
    ensures pin.Some? && BitVal(pin.value, run[t])
  {
    hide N.Canon;
    var b := N.Canon(net.conns, pin.value);
    N.CanonValue(net.conns, pin.value, run[t]);
    if b in drivers {
      var c :| c in net.cells && Ties(c, net.conns, b, drivers[b]);
      N.CanonValue(net.conns, c.p, run[t]);
    }
  }

  /** The values VCC and GND cells allow. */
  predicate TiesHold(cells: seq<Cell>, e: Env) {
    forall c :: c in cells ==> match c case Vcc(p) => BitVal(p, e) case Gnd(g) => !BitVal(g, e) case _ => true
  }

  predicate Powered(net: Net, e: Env) {
    N.ConnsHold(net.conns, e) && TiesHold(net.cells, e)
  }

  ghost predicate AllKnown(cells: seq<Cell>, conns: N.Conns, drivers: Drivers) {
    DriversOk(cells, conns, drivers) && forall i :: 0 <= i < |cells| ==> TiesKnown(cells[i], conns, drivers)
  }

  /** What is known of a net's value, and low where nothing is. */
  function Known(drivers: Drivers, c: Bit): bool {
    if c in drivers then drivers[c] else c == Const(true)
  }

  lemma DriverValue(net: Net, drivers: Drivers, b: Bit, e: Env)
    requires DriversOk(net.cells, net.conns, drivers) && Powered(net, e) && b in drivers
    ensures exists p :: N.Canon(net.conns, p) == b && BitVal(p, e) == drivers[b]
    ensures b.Const? ==> drivers[b] == b.v
  {
    hide N.Canon;
    var c :| c in net.cells && Ties(c, net.conns, b, drivers[b]);
    var p := if c.Vcc? then c.p else c.g;
    N.CanonValue(net.conns, p, e);
    assert N.Canon(net.conns, p) == b && BitVal(p, e) == drivers[b];
  }

  /** Nothing else need be high. */
  lemma LowElsewhere(net: Net, drivers: Drivers, e0: Env) returns (e: Env)
    requires AllKnown(net.cells, net.conns, drivers) && Powered(net, e0)
    ensures Powered(net, e) && forall x :: BitVal(x, e) == Known(drivers, N.Canon(net.conns, x))
  {
    hide N.Canon, DriversOk;
    e := (w: nat) => Known(drivers, N.Canon(net.conns, Wire(w)));
    forall x ensures BitVal(x, e) == Known(drivers, N.Canon(net.conns, x)) {
      if x.Const? {
        N.CanonConst(net.conns, x.v);
        N.CanonValue(net.conns, x, e0);
        if x in drivers { DriverValue(net, drivers, x, e0); }
      }
    }
    forall p | p in net.conns ensures BitVal(p.0, e) == BitVal(p.1, e) {
      N.CanonConnected(net.conns, p);
    }
    forall c | c in net.cells ensures match c case Vcc(p) => BitVal(p, e) case Gnd(g) => !BitVal(g, e) case _ => true {
      var i :| 0 <= i < |net.cells| && net.cells[i] == c;
      assert TiesKnown(net.cells[i], net.conns, drivers);
      if c.Vcc? || c.Gnd? { TieValue(net, drivers, if c.Vcc? then c.p else c.g, c.Vcc?, e0); }
    }
  }

  lemma TieValue(net: Net, drivers: Drivers, p: Bit, v: bool, e: Env)
    requires DriversOk(net.cells, net.conns, drivers) && Powered(net, e) && BitVal(p, e) == v
    requires N.Canon(net.conns, p) in drivers
    ensures drivers[N.Canon(net.conns, p)] == v
  {
    hide N.Canon, DriversOk;
    var b := N.Canon(net.conns, p);
    DriverValue(net, drivers, b, e);
    var q :| N.Canon(net.conns, q) == b && BitVal(q, e) == drivers[b];
    N.CanonValue(net.conns, p, e);
    N.CanonValue(net.conns, q, e);
  }

  /** A connected pin counts as constant exactly when connections, VCC and GND hold it at 1. */
  lemma ConstOnesExact(net: Net, drivers: Drivers, pin: Bit)
    requires AllKnown(net.cells, net.conns, drivers) && exists e :: Powered(net, e)
    ensures ConstOnes(net.conns, drivers, Some(pin)) <==> forall e :: Powered(net, e) ==> BitVal(pin, e)
  {
    hide N.Canon, DriversOk;
    var b := N.Canon(net.conns, pin);
    if ConstOnes(net.conns, drivers, Some(pin)) {
      forall e | Powered(net, e) ensures BitVal(pin, e) {
        N.CanonValue(net.conns, pin, e);
        if b in drivers {
          DriverValue(net, drivers, b, e);
          var p :| N.Canon(net.conns, p) == b && BitVal(p, e) == drivers[b];
          N.CanonValue(net.conns, p, e);
        }
      }
    } else {
      var e0 :| Powered(net, e0);
      var e := LowElsewhere(net, drivers, e0);
      assert !BitVal(pin, e);
    }
  }

  // ---- The promoted register -------------------------------------------------------------------

  /** One IO flip-flop per edge; without it in the library a register with no reset is a plain one. */
  function TargetType(k: Kind, resetless: bool, haveIo: bool): Kind {
    var negedge := k == Dffnre || k == Sdffnre;
    if resetless && !haveIo then (if negedge then Dffn else Dff)
    else if negedge then IoSdffnr else IoSdffr
  }

  predicate IsIoFf(k: Kind) {
    k == IoSdffr || k == IoSdffnr
  }

  predicate IsFabric(c: Cell) {
    c.Ff? && (c.kind == Dffre || c.kind == Sdffre || c.kind == Dffnre || c.kind == Sdffnre) && c.r.Some?
  }

  predicate IsSync(k: Kind) {
    k == Sdffre || k == Sdffnre
  }

  /** The fabric registers are those of the four kinds with R connected, and the synchronous ones those that reset at the edge. */
  lemma FabricKinds(c: Cell)
    ensures IsFabric(c) <==> c.Ff? && c.r.Some? && !IsIoFf(c.kind) && c.kind != Dff && c.kind != Dffn
    ensures IsFabric(c) ==> (IsSync(c.kind) <==> !AsyncReset(c.kind))
  {
  }

  /** No enable, R held inactive if there was none, on the given Q. */
  function Promoted(c: Cell, resetless: bool, haveIo: bool, q: Bit): Cell
    requires IsFabric(c)
  {
    var kind := TargetType(c.kind, resetless, haveIo);
    Ff(kind, c.c, c.d, q, None,
       if !resetless then c.r else if IsIoFf(kind) then Some(Const(true)) else None)
  }

  /**
   A register the library can pack in the place of another: an IO flip-flop, R
   driven, wherever there is one; otherwise a plain flip-flop without R if there
   was no reset. The edge, clock and data are those of the register before.
   */
  predicate Packs(was: Cell, now: Cell, resetless: bool, haveIo: bool)
    requires was.Ff?
  {
    && now.Ff? && now.c == was.c && now.d == was.d && now.e.None?
    && (Negedge(now.kind) <==> Negedge(was.kind))
    && (haveIo || !resetless ==> (now.kind == IoSdffr || now.kind == IoSdffnr) && now.r.Some?)
    && (!haveIo && resetless ==> (now.kind == Dff || now.kind == Dffn) && now.r.None?)
    && (haveIo && resetless ==> now.r == Some(Const(true))) && (!resetless ==> now.r == was.r)
  }

  lemma PromotedPacks(c: Cell, resetless: bool, haveIo: bool, q: Bit)
    requires IsFabric(c)
    ensures Packs(c, Promoted(c, resetless, haveIo, q), resetless, haveIo) && Promoted(c, resetless, haveIo, q).q == q
  {
  }

  /** What classification establishes before anything is promoted. */
  predicate MayPromote(conns: N.Conns, drivers: Drivers, c: Cell, resetless: bool) {
    && IsFabric(c) && ConstOnes(conns, drivers, c.e)
    && resetless == ConstOnes(conns, drivers, c.r) && (resetless || IsSync(c.kind))
  }

  /** From the same Q, the promoted register steps as the register it replaces. */
  lemma PromotedSteps(net: Net, drivers: Drivers, c: Cell, resetless: bool, haveIo: bool, q: Bit, v: bool,
                      run: Run, beh: Behaviour, t: nat)
    requires DriversOk(net.cells, net.conns, drivers) && IsRun(net, run, beh) && t + 1 < |run|
    requires MayPromote(net.conns, drivers, c, resetless)
    ensures NextQ(Promoted(c, resetless, haveIo, q), v, run[t], run[t + 1]) == NextQ(c, v, run[t], run[t + 1])
  {
    hide IsRun, DriversOk, ConstOnes, N.ClockEdge;
    ConstOnesHigh(net, drivers, c.e, run, beh, t);
    if resetless {
      ConstOnesHigh(net, drivers, c.r, run, beh, t);
      ConstOnesHigh(net, drivers, c.r, run, beh, t + 1);
    }
  }

  lemma PromotedHolds(net: Net, drivers: Drivers, c: Cell, resetless: bool, haveIo: bool, run: Run, beh: Behaviour)
    requires DriversOk(net.cells, net.conns, drivers) && IsRun(net, run, beh)
    requires MayPromote(net.conns, drivers, c, resetless)
    ensures FfHolds(Promoted(c, resetless, haveIo, c.q), run) <==> FfHolds(c, run)
  {
    hide IsRun, DriversOk, ConstOnes, NextQ;
    var g := Promoted(c, resetless, haveIo, c.q);
    forall t | 0 <= t < |run| - 1
      ensures NextQ(g, BitVal(c.q, run[t]), run[t], run[t + 1]) == NextQ(c, BitVal(c.q, run[t]), run[t], run[t + 1])
    {
      PromotedSteps(net, drivers, c, resetless, haveIo, c.q, BitVal(c.q, run[t]), run, beh, t);
    }
  }

  /** A promoted register on another Q is in step with the one it copies, on every cycle. */
  lemma {:induction false} CopyInStep(net: Net, drivers: Drivers, c: Cell, resetless: bool, haveIo: bool, q: Bit,
                                      run: Run, beh: Behaviour, t: nat)
    requires DriversOk(net.cells, net.conns, drivers) && IsRun(net, run, beh) && t < |run|
    requires MayPromote(net.conns, drivers, c, resetless) && FfHolds(c, run)
    requires FfHolds(Promoted(c, resetless, haveIo, q), run)
    ensures BitVal(q, run[t]) == BitVal(c.q, run[t])
  {
    hide IsRun, DriversOk, ConstOnes, NextQ;
    if t > 0 {
      CopyInStep(net, drivers, c, resetless, haveIo, q, run, beh, t - 1);
      PromotedSteps(net, drivers, c, resetless, haveIo, q, BitVal(q, run[t - 1]), run, beh, t - 1);
      var g, p := Promoted(c, resetless, haveIo, q), t - 1;
      assert BitVal(g.q, run[p + 1]) == NextQ(g, BitVal(g.q, run[p]), run[p], run[p + 1]);
      assert BitVal(c.q, run[p + 1]) == NextQ(c, BitVal(c.q, run[p]), run[p], run[p + 1]);
    }
  }

  lemma CopyHolds(net: Net, drivers: Drivers, c: Cell, resetless: bool, haveIo: bool, q: Bit, run: Run, beh: Behaviour)
    requires DriversOk(net.cells, net.conns, drivers) && IsRun(net, run, beh)
    requires MayPromote(net.conns, drivers, c, resetless) && FfHolds(c, run)
    requires forall t :: 0 <= t < |run| ==> BitVal(q, run[t]) == BitVal(c.q, run[t])
    ensures FfHolds(Promoted(c, resetless, haveIo, q), run)
  {
    hide IsRun, DriversOk, ConstOnes, NextQ;
    forall t | 0 <= t < |run| - 1
      ensures BitVal(q, run[t + 1]) == NextQ(Promoted(c, resetless, haveIo, q), BitVal(q, run[t]), run[t], run[t + 1])
    {
      PromotedSteps(net, drivers, c, resetless, haveIo, q, BitVal(q, run[t]), run, beh, t);
    }
  }

  // ---- The same ports ------------------------------------------------------------------------------

  ghost predicate SamePorts(ports: seq<seq<nat>>, ports': seq<seq<nat>>, run: Run) {
    && |ports| == |ports'|
    && (forall k :: 0 <= k < |ports| ==> |ports[k]| == |ports'[k]|)
    && forall k, i, t :: 0 <= k < |ports| && 0 <= i < |ports[k]| && 0 <= t < |run| ==>
         run[t](ports[k][i]) == run[t](ports'[k][i])
  }

  ghost predicate AgreeBelow(run: Run, run': Run, next: nat) {
    |run| == |run'| && forall t, w: nat :: 0 <= t < |run| && w < next ==> run[t](w) == run'[t](w)
  }

  /** A run of the new module is one of the old, with the same values on every port bit. */
  ghost predicate AddsNothing(old_: Net, new_: Net, beh: Behaviour) {
    forall run :: IsRun(new_, run, beh) ==> IsRun(old_, run, beh) && SamePorts(old_.ports, new_.ports, run)
  }

  /** A run of the old module is one of the new, up to new wires. */
  ghost predicate LosesNothing(old_: Net, new_: Net, next: nat, beh: Behaviour) {
    forall run :: IsRun(old_, run, beh) ==> exists run' :: IsRun(new_, run', beh) && AgreeBelow(run, run', next)
  }

  ghost predicate Equivalent(old_: Net, new_: Net, next: nat, beh: Behaviour) {
    AddsNothing(old_, new_, beh) && LosesNothing(old_, new_, next, beh)
  }

  lemma EquivalentSelf(net: Net, next: nat, beh: Behaviour)
    ensures Equivalent(net, net, next, beh)
  {
    hide IsRun;
    forall run | IsRun(net, run, beh) ensures exists run' :: IsRun(net, run', beh) && AgreeBelow(run, run', next) {
      assert AgreeBelow(run, run, next);
    }
  }

  lemma AddsTrans(a: Net, b: Net, c: Net, beh: Behaviour)
    requires AddsNothing(a, b, beh) && AddsNothing(b, c, beh)
    ensures AddsNothing(a, c, beh)
  {
    hide IsRun, SamePorts;
    forall run | IsRun(c, run, beh) ensures IsRun(a, run, beh) && SamePorts(a.ports, c.ports, run) {
      SamePortsTrans(a.ports, b.ports, c.ports, run);
    }
  }

  lemma LosesTrans(a: Net, b: Net, c: Net, n: nat, n': nat, beh: Behaviour)
    requires LosesNothing(a, b, n, beh) && LosesNothing(b, c, n', beh) && n <= n'
    ensures LosesNothing(a, c, n, beh)
  {
    hide IsRun, AgreeBelow;
    forall run | IsRun(a, run, beh) ensures exists run' :: IsRun(c, run', beh) && AgreeBelow(run, run', n) {
      var run1 :| IsRun(b, run1, beh) && AgreeBelow(run, run1, n);
      var run2 :| IsRun(c, run2, beh) && AgreeBelow(run1, run2, n');
      AgreeTrans(run, run1, run2, n, n');
    }
  }

  lemma AgreeTrans(run: Run, run1: Run, run2: Run, n: nat, n': nat)
    requires AgreeBelow(run, run1, n) && AgreeBelow(run1, run2, n') && n <= n'
    ensures AgreeBelow(run, run2, n)
  {
  }

  lemma EquivalentTrans(a: Net, b: Net, c: Net, n: nat, n': nat, beh: Behaviour)
    requires Equivalent(a, b, n, beh) && Equivalent(b, c, n', beh) && n <= n'
    ensures Equivalent(a, c, n, beh)
  {
    hide AddsNothing, LosesNothing;
    AddsTrans(a, b, c, beh);
    LosesTrans(a, b, c, n, n', beh);
  }

  lemma SamePortsTrans(a: seq<seq<nat>>, b: seq<seq<nat>>, c: seq<seq<nat>>, run: Run)
    requires SamePorts(a, b, run) && SamePorts(b, c, run)
    ensures SamePorts(a, c, run)
  {
  }

  // ---- Changing a register in place --------------------------------------------------------------------

  predicate At(net: Net, i: nat, conns0: N.Conns, drivers: Drivers, resetless: bool) {
    conns0 <= net.conns && i < |net.cells| && MayPromote(conns0, drivers, net.cells[i], resetless)
  }

  function InPlace(net: Net, i: nat, resetless: bool, haveIo: bool): Net
    requires i < |net.cells| && IsFabric(net.cells[i])
  {
    Net(net.cells[i := Promoted(net.cells[i], resetless, haveIo, net.cells[i].q)], net.conns, net.ports)
  }

  lemma InPlaceDrivers(net: Net, i: nat, conns0: N.Conns, drivers: Drivers, resetless: bool, haveIo: bool)
    requires At(net, i, conns0, drivers, resetless) && DriversOk(net.cells, conns0, drivers)
    ensures DriversOk(InPlace(net, i, resetless, haveIo).cells, conns0, drivers)
  {
    hide N.Canon;
    var net' := InPlace(net, i, resetless, haveIo);
    forall b | b in drivers ensures exists c :: c in net'.cells && Ties(c, conns0, b, drivers[b]) {
      var c :| c in net.cells && Ties(c, conns0, b, drivers[b]);
      var j :| 0 <= j < |net.cells| && net.cells[j] == c;
      assert net'.cells[j] == c;
    }
  }

  lemma FewerConns(net: Net, conns0: N.Conns, run: Run, beh: Behaviour)
    requires conns0 <= net.conns && IsRun(net, run, beh)
    ensures IsRun(Net(net.cells, conns0, net.ports), run, beh)
  {
    hide CellHolds;
  }

  /** Exactly the same runs. */
  lemma InPlaceSame(net: Net, i: nat, conns0: N.Conns, drivers: Drivers, resetless: bool, haveIo: bool, run: Run, beh: Behaviour)
    requires At(net, i, conns0, drivers, resetless) && DriversOk(net.cells, conns0, drivers)
    ensures IsRun(InPlace(net, i, resetless, haveIo), run, beh) <==> IsRun(net, run, beh)
  {
    hide FfHolds, ConstOnes, DriversOk, N.ConnsHold;
    var net', c := InPlace(net, i, resetless, haveIo), net.cells[i];
    InPlaceDrivers(net, i, conns0, drivers, resetless, haveIo);
    if IsRun(net', run, beh) {
      FewerConns(net', conns0, run, beh);
      PromotedHolds(Net(net'.cells, conns0, net'.ports), drivers, c, resetless, haveIo, run, beh);
      assert net'.cells[i] in net'.cells;
      forall x | x in net.cells ensures CellHolds(x, run, beh) {
        var j :| 0 <= j < |net.cells| && net.cells[j] == x;
        if j != i { assert net'.cells[j] == x && x in net'.cells; }
      }
    }
    if IsRun(net, run, beh) {
      FewerConns(net, conns0, run, beh);
      PromotedHolds(Net(net.cells, conns0, net.ports), drivers, c, resetless, haveIo, run, beh);
      assert c in net.cells;
      forall x | x in net'.cells ensures CellHolds(x, run, beh) {
        var j :| 0 <= j < |net'.cells| && net'.cells[j] == x;
        if j != i { assert net.cells[j] == x && x in net.cells; }
      }
    }
  }

  lemma InPlaceEquivalent(net: Net, i: nat, conns0: N.Conns, drivers: Drivers, resetless: bool, haveIo: bool, next: nat, beh: Behaviour)
    requires At(net, i, conns0, drivers, resetless) && DriversOk(net.cells, conns0, drivers)
    ensures Equivalent(net, InPlace(net, i, resetless, haveIo), next, beh)
  {
    hide IsRun, DriversOk, ConstOnes;
    var net' := InPlace(net, i, resetless, haveIo);
    forall run ensures IsRun(net', run, beh) <==> IsRun(net, run, beh) {
      InPlaceSame(net, i, conns0, drivers, resetless, haveIo, run, beh);
    }
    forall run | IsRun(net, run, beh) ensures exists run' :: IsRun(net', run', beh) && AgreeBelow(run, run', next) {
      assert AgreeBelow(run, run, next);
    }
  }

  // ---- Replacing one bit of a port ---------------------------------------------------------------------------

  predicate HasBit(net: Net, k: nat, i: nat) {
    k < |net.ports| && i < |net.ports[k]|
  }

  function Repointed(ports: seq<seq<nat>>, k: nat, i: nat, w: nat): seq<seq<nat>>
    requires k < |ports| && i < |ports[k]|
  {
    var port: seq<nat> := ports[k][i := w];
    ports[k := port]
  }

  /** The new bit connected to the old wire. */
  function ByWire(net: Net, k: nat, i: nat, w: nat): Net
    requires HasBit(net, k, i)
  {
    Net(net.cells, net.conns + [(Wire(w), Wire(net.ports[k][i]))], Repointed(net.ports, k, i, w))
  }

  /** The new bit driven by an IO copy of a register. */
  function ByCopy(net: Net, k: nat, i: nat, w: nat, src: nat, resetless: bool, haveIo: bool): Net
    requires HasBit(net, k, i) && src < |net.cells| && IsFabric(net.cells[src])
  {
    Net(net.cells + [Promoted(net.cells[src], resetless, haveIo, Wire(w))], net.conns, Repointed(net.ports, k, i, w))
  }

  lemma RepointedSame(ports: seq<seq<nat>>, k: nat, i: nat, w: nat, run: Run)
    requires k < |ports| && i < |ports[k]|
    requires forall t :: 0 <= t < |run| ==> run[t](w) == run[t](ports[k][i])
    ensures SamePorts(ports, Repointed(ports, k, i, w), run)
  {
  }

  function Pins(c: Cell): Sig {
    match c
    case Ff(_, c, d, q, e, r) => [c, d, q] + OptBit(e) + OptBit(r)
    case Vcc(p) => [p]
    case Gnd(g) => [g]
    case Other(_, ins, outs) => ins + outs
  }

  function OptBit(b: Option<Bit>): Sig {
    if b.Some? then [b.value] else []
  }

  predicate Older(s: Sig, next: nat) {
    forall b :: b in s && b.Wire? ==> b.id < next
  }

  predicate NetOlder(net: Net, next: nat) {
    && (forall c :: c in net.cells ==> Older(Pins(c), next))
    && (forall p :: p in net.conns ==> Older([p.0], next) && Older([p.1], next))
    && forall k, i :: 0 <= k < |net.ports| && 0 <= i < |net.ports[k]| ==> net.ports[k][i] < next
  }

  /** The run with wire `w` following wire `old_`. */
  function Following(run: Run, w: nat, old_: nat): Run {
    seq(|run|, t requires 0 <= t < |run| => FollowEnv(run[t], w, old_))
  }

  function FollowEnv(e: Env, w: nat, old_: nat): Env {
    (x: nat) => if x == w then e(old_) else e(x)
  }

  lemma FollowBit(b: Bit, e: Env, w: nat, old_: nat)
    requires Older([b], w)
    ensures BitVal(b, FollowEnv(e, w, old_)) == BitVal(b, e)
  {
    assert b in [b];
  }

  lemma FollowEval(s: Sig, run: Run, w: nat, old_: nat)
    requires Older(s, w)
    ensures History(s, Following(run, w, old_)) == History(s, run)
  {
    forall t | 0 <= t < |run| ensures Eval(s, Following(run, w, old_)[t]) == Eval(s, run[t]) {
      forall i | 0 <= i < |s| ensures BitVal(s[i], FollowEnv(run[t], w, old_)) == BitVal(s[i], run[t]) {
        assert s[i] in s;
      }
    }
  }

  lemma FollowFf(f: Cell, run: Run, w: nat, old_: nat)
    requires f.Ff? && Older(Pins(f), w)
    ensures FfHolds(f, Following(run, w, old_)) <==> FfHolds(f, run)
  {
    hide N.ClockEdge;
    var run' := Following(run, w, old_);
    assert f.c in Pins(f) && f.d in Pins(f) && f.q in Pins(f);
    assert (f.e.Some? ==> f.e.value in Pins(f)) && (f.r.Some? ==> f.r.value in Pins(f));
    forall t | 0 <= t < |run|
      ensures BitVal(f.q, run'[t]) == BitVal(f.q, run[t]) && BitVal(f.d, run'[t]) == BitVal(f.d, run[t])
      ensures BitVal(f.c, run'[t]) == BitVal(f.c, run[t])
      ensures High(f.e, run'[t]) == High(f.e, run[t]) && High(f.r, run'[t]) == High(f.r, run[t])
    {
    }
    forall t | 0 <= t < |run| - 1
      ensures NextQ(f, BitVal(f.q, run'[t]), run'[t], run'[t + 1]) == NextQ(f, BitVal(f.q, run[t]), run[t], run[t + 1])
    {
      SameEdge(f, run[t], run[t + 1], run'[t], run'[t + 1]);
    }
  }

  lemma SameEdge(f: Cell, e0: Env, e1: Env, e0': Env, e1': Env)
    requires f.Ff? && BitVal(f.c, e0) == BitVal(f.c, e0') && BitVal(f.c, e1) == BitVal(f.c, e1')
    ensures forall rising :: N.ClockEdge(f.c, rising, e0, e1) == N.ClockEdge(f.c, rising, e0', e1')
  {
  }

  lemma FollowCell(c: Cell, run: Run, w: nat, old_: nat, beh: Behaviour)
    requires Older(Pins(c), w) && CellHolds(c, run, beh)
    ensures CellHolds(c, Following(run, w, old_), beh)
  {
    hide FfHolds, History;
    match c
    case Ff(_, _, _, _, _, _) => FollowFf(c, run, w, old_);
    case Vcc(p) =>
      forall t | 0 <= t < |run| ensures BitVal(p, Following(run, w, old_)[t]) { FollowBit(p, run[t], w, old_); }
    case Gnd(g) =>
      forall t | 0 <= t < |run| ensures !BitVal(g, Following(run, w, old_)[t]) { FollowBit(g, run[t], w, old_); }
    case Other(_, ins, outs) =>
      assert forall b :: b in ins || b in outs ==> b in Pins(c);
      FollowEval(ins, run, w, old_);
      FollowEval(outs, run, w, old_);
  }

  lemma FollowRun(net: Net, run: Run, w: nat, old_: nat, beh: Behaviour)
    requires NetOlder(net, w) && IsRun(net, run, beh)
    ensures IsRun(net, Following(run, w, old_), beh) && AgreeBelow(run, Following(run, w, old_), w)
  {
    hide CellHolds, Pins;
    var run' := Following(run, w, old_);
    forall c | c in net.cells ensures CellHolds(c, run', beh) {
      FollowCell(c, run, w, old_, beh);
    }
    forall t, p | 0 <= t < |run'| && p in net.conns ensures BitVal(p.0, run'[t]) == BitVal(p.1, run'[t]) {
      FollowBit(p.0, run[t], w, old_);
      FollowBit(p.1, run[t], w, old_);
    }
  }

  lemma ByWireEquivalent(net: Net, k: nat, i: nat, w: nat, beh: Behaviour)
    requires HasBit(net, k, i) && NetOlder(net, w)
    ensures Equivalent(net, ByWire(net, k, i, w), w, beh)
  {
    hide CellHolds, NetOlder, SamePorts;
    var net', old_ := ByWire(net, k, i, w), net.ports[k][i];
    var added := (Wire(w), Wire(old_));
    forall run: Run | IsRun(net', run, beh) ensures IsRun(net, run, beh) && SamePorts(net.ports, net'.ports, run) {
      assert forall p :: p in net.conns ==> p in net'.conns;
      assert added in net'.conns;
      forall t | 0 <= t < |run| ensures run[t](w) == run[t](old_) {
        assert BitVal(added.0, run[t]) == BitVal(added.1, run[t]);
      }
      RepointedSame(net.ports, k, i, w, run);
    }
    forall run | IsRun(net, run, beh) ensures exists run' :: IsRun(net', run', beh) && AgreeBelow(run, run', w) {
      var run' := Following(run, w, old_);
      FollowRun(net, run, w, old_, beh);
      PortOlder(net, k, i, w);
      assert IsRun(net', run', beh);
    }
  }

  lemma PortOlder(net: Net, k: nat, i: nat, w: nat)
    requires HasBit(net, k, i) && NetOlder(net, w)
    ensures net.ports[k][i] < w
  {
  }

  lemma ByCopyEquivalent(net: Net, k: nat, i: nat, w: nat, src: nat, conns0: N.Conns, drivers: Drivers, resetless: bool, haveIo: bool,
                         beh: Behaviour)
    requires HasBit(net, k, i) && NetOlder(net, w)
    requires At(net, src, conns0, drivers, resetless) && DriversOk(net.cells, conns0, drivers)
    requires N.Canon(conns0, Wire(net.ports[k][i])) == N.Canon(conns0, net.cells[src].q)
    ensures Equivalent(net, ByCopy(net, k, i, w, src, resetless, haveIo), w, beh)
  {
    hide NetOlder, SamePorts, FfHolds, ConstOnes, DriversOk, N.Canon, N.ConnsHold;
    var net', old_, c := ByCopy(net, k, i, w, src, resetless, haveIo), net.ports[k][i], net.cells[src];
    var copy := Promoted(c, resetless, haveIo, Wire(w));
    assert copy in net'.cells && c in net.cells;
    forall run: Run | IsRun(net', run, beh) ensures IsRun(net, run, beh) && SamePorts(net.ports, net'.ports, run) {
      assert forall x :: x in net.cells ==> x in net'.cells;
      FewerConns(net, conns0, run, beh);
      forall t | 0 <= t < |run| ensures run[t](w) == run[t](old_) {
        CopyInStep(Net(net.cells, conns0, net.ports), drivers, c, resetless, haveIo, Wire(w), run, beh, t);
        OldIsQ(net, conns0, Wire(old_), c.q, run, t, beh);
      }
      RepointedSame(net.ports, k, i, w, run);
    }
    forall run | IsRun(net, run, beh) ensures exists run' :: IsRun(net', run', beh) && AgreeBelow(run, run', w) {
      var run' := Following(run, w, old_);
      FollowRun(net, run, w, old_, beh);
      PortOlder(net, k, i, w);
      FewerConns(net, conns0, run', beh);
      forall t | 0 <= t < |run'| ensures run'[t](w) == BitVal(c.q, run'[t]) {
        OldIsQ(net, conns0, Wire(old_), c.q, run', t, beh);
      }
      CopyHolds(Net(net.cells, conns0, net.ports), drivers, c, resetless, haveIo, Wire(w), run', beh);
      assert IsRun(net', run', beh);
    }
  }

  lemma OldIsQ(net: Net, conns0: N.Conns, b: Bit, q: Bit, run: Run, t: nat, beh: Behaviour)
    requires conns0 <= net.conns && IsRun(net, run, beh) && t < |run|
    requires N.Canon(conns0, b) == N.Canon(conns0, q)
    ensures BitVal(b, run[t]) == BitVal(q, run[t])
  {
    hide N.Canon, CellHolds;
    FewerConns(net, conns0, run, beh);
    N.CanonValue(conns0, b, run[t]);
    N.CanonValue(conns0, q, run[t]);
  }

  // ---- The pass -----------------------------------------------------------------------------------------------

  /** The module as it was, and the constants found in it. */
  datatype Start = Start(net: Net, next: nat, drivers: Drivers)

  ghost predicate Ready(s: Start, net: Net, next: nat, beh: Behaviour) {
    && Equivalent(s.net, net, s.next, beh) && NetOlder(net, next) && s.next <= next
    && s.net.conns <= net.conns && DriversOk(net.cells, s.net.conns, s.drivers) && |net.ports| == |s.net.ports|
  }

  /** The register at `i`, still as it was classified. */
  predicate StillAt(s: Start, net: Net, i: nat, resetless: bool) {
    i < |net.cells| && i < |s.net.cells| && net.cells[i] == s.net.cells[i]
    && MayPromote(s.net.conns, s.drivers, net.cells[i], resetless)
  }

  lemma ReadyAtStart(s: Start, beh: Behaviour)
    requires NetOlder(s.net, s.next) && DriversOk(s.net.cells, s.net.conns, s.drivers)
    ensures Ready(s, s.net, s.next, beh)
  {
    hide NetOlder, DriversOk, Equivalent;
    EquivalentSelf(s.net, s.next, beh);
  }

  lemma PromotedOlder(c: Cell, resetless: bool, haveIo: bool, q: Bit, next: nat)
    requires IsFabric(c) && Older(Pins(c), next) && Older([q], next)
    ensures Older(Pins(Promoted(c, resetless, haveIo, q)), next)
  {
    assert q in [q];
    var g := Promoted(c, resetless, haveIo, q);
    assert c.c in Pins(c) && c.d in Pins(c) && c.r.value in Pins(c);
    forall b | b in Pins(g) && b.Wire? ensures b.id < next {
      assert b == c.c || b == c.d || b == q || b == c.r.value;
    }
  }

  lemma ReadyInPlace(s: Start, net: Net, next: nat, i: nat, resetless: bool, haveIo: bool, beh: Behaviour)
    requires Ready(s, net, next, beh) && StillAt(s, net, i, resetless)
    ensures Ready(s, InPlace(net, i, resetless, haveIo), next, beh)
  {
    hide Equivalent, DriversOk, ConstOnes, Pins;
    var net', c := InPlace(net, i, resetless, haveIo), net.cells[i];
    InPlaceDrivers(net, i, s.net.conns, s.drivers, resetless, haveIo);
    InPlaceEquivalent(net, i, s.net.conns, s.drivers, resetless, haveIo, next, beh);
    EquivalentTrans(s.net, net, net', s.next, next, beh);
    assert c in net.cells;
    FfPins(c);
    PromotedOlder(c, resetless, haveIo, c.q, next);
    forall x | x in net'.cells ensures Older(Pins(x), next) {
      var j :| 0 <= j < |net'.cells| && net'.cells[j] == x;
      if j != i { assert net.cells[j] == x && x in net.cells; }
    }
  }

  lemma FfPins(c: Cell)
    requires c.Ff?
    ensures forall next :: Older(Pins(c), next) ==> Older([c.q], next)
  {
    assert c.q in Pins(c);
  }

  lemma OlderMono(net: Net, next: nat, next': nat)
    requires NetOlder(net, next) && next <= next'
    ensures NetOlder(net, next')
  {
    hide Pins;
  }

  lemma RepointedOlder(ports: seq<seq<nat>>, k: nat, i: nat, w: nat)
    requires k < |ports| && i < |ports[k]|
    requires forall h, j :: 0 <= h < |ports| && 0 <= j < |ports[h]| ==> ports[h][j] < w
    ensures var ports' := Repointed(ports, k, i, w);
      forall h, j :: 0 <= h < |ports'| && 0 <= j < |ports'[h]| ==> ports'[h][j] < w + 1
  {
    var ports' := Repointed(ports, k, i, w);
    forall h, j | 0 <= h < |ports'| && 0 <= j < |ports'[h]| ensures ports'[h][j] < w + 1 {
      if h != k { assert ports'[h] == ports[h]; }
      else if j != i { assert ports'[h][j] == ports[h][j]; }
    }
  }

  lemma ReadyByWire(s: Start, net: Net, next: nat, k: nat, i: nat, beh: Behaviour)
    requires Ready(s, net, next, beh) && HasBit(net, k, i)
    ensures Ready(s, ByWire(net, k, i, next), next + 1, beh)
  {
    hide Equivalent, DriversOk, Pins;
    var net' := ByWire(net, k, i, next);
    ByWireEquivalent(net, k, i, next, beh);
    EquivalentTrans(s.net, net, net', s.next, next, beh);
    OlderMono(net, next, next + 1);
    RepointedOlder(net.ports, k, i, next);
    PortOlder(net, k, i, next);
  }

  lemma ReadyByCopy(s: Start, net: Net, next: nat, k: nat, i: nat, src: nat, resetless: bool, haveIo: bool, beh: Behaviour)
    requires Ready(s, net, next, beh) && HasBit(net, k, i) && StillAt(s, net, src, resetless)
    requires N.Canon(s.net.conns, Wire(net.ports[k][i])) == N.Canon(s.net.conns, net.cells[src].q)
    ensures Ready(s, ByCopy(net, k, i, next, src, resetless, haveIo), next + 1, beh)
  {
    hide Equivalent, ConstOnes, Pins, N.Canon;
    var net', c := ByCopy(net, k, i, next, src, resetless, haveIo), net.cells[src];
    ByCopyEquivalent(net, k, i, next, src, s.net.conns, s.drivers, resetless, haveIo, beh);
    EquivalentTrans(s.net, net, net', s.next, next, beh);
    OlderMono(net, next, next + 1);
    RepointedOlder(net.ports, k, i, next);
    assert c in net.cells && Older([Wire(next)], next + 1);
    PromotedOlder(c, resetless, haveIo, Wire(next), next + 1);
    assert forall x :: x in net.cells ==> x in net'.cells;
  }

  /** A register that passed classification; an output register with all the port bits it is on. */
  datatype Candidate = Candidate(cell: nat, isInput: bool, resetless: bool, slots: set<(nat, nat)>)

  predicate OnNet(conns: N.Conns, b: Bit, b': Bit) {
    N.Canon(conns, b) == N.Canon(conns, b')
  }

  function PortSlots(conns: N.Conns, ports: seq<seq<nat>>, b: Bit): set<(nat, nat)> {
    set k, i | 0 <= k < |ports| && 0 <= i < |ports[k]| && OnNet(conns, Wire(ports[k][i]), b) :: (k, i)
  }

  function Ins(c: Cell): Sig {
    match c
    case Ff(_, c, d, _, e, r) => [c, d] + OptBit(e) + OptBit(r)
    case Other(_, ins, _) => ins
    case _ => []
  }

  function Outs(c: Cell): Sig {
    match c
    case Ff(_, _, _, q, _, _) => [q]
    case Vcc(p) => [p]
    case Gnd(g) => [g]
    case Other(_, _, outs) => outs
  }

  /** A cell looks at nothing but these pins and what it drives. */
  lemma InsDecide(c: Cell, run: Run, run': Run, beh: Behaviour)
    requires N.AgreeOn(Ins(c) + Outs(c), run, run') && CellHolds(c, run, beh)
    ensures CellHolds(c, run', beh)
  {
    hide Eval;
    match c
    case Ff(_, clk, d, q, e, r) =>
      assert (Ins(c) + Outs(c))[0] == clk && (Ins(c) + Outs(c))[1] == d;
      assert e.Some? ==> e.value in Ins(c);
      assert r.Some? ==> r.value in Ins(c);
      assert q in Outs(c);
      forall b | b in [clk, d, q] + OptBit(e) + OptBit(r) ensures b in Ins(c) + Outs(c) { }
      forall t | 0 <= t < |run| - 1 ensures BitVal(q, run'[t + 1]) == NextQ(c, BitVal(q, run'[t]), run'[t], run'[t + 1]) {
        assert N.AgreeAt(Ins(c) + Outs(c), run[t], run'[t]) && N.AgreeAt(Ins(c) + Outs(c), run[t + 1], run'[t + 1]);
      }
    case Vcc(p) => assert p in Ins(c) + Outs(c);
    case Gnd(g) => assert g in Ins(c) + Outs(c);
    case Other(_, ins, outs) =>
      forall t | 0 <= t < |run| ensures Eval(ins, run[t]) == Eval(ins, run'[t]) && Eval(outs, run[t]) == Eval(outs, run'[t]) {
        N.AgreeEval(ins, Ins(c) + Outs(c), run[t], run'[t]);
        N.AgreeEval(outs, Ins(c) + Outs(c), run[t], run'[t]);
      }
      assert History(ins, run) == History(ins, run') && History(outs, run) == History(outs, run');
  }

  /** The input pins on a net. */
  function Consumers(cells: seq<Cell>, conns: N.Conns, b: Bit): set<(nat, nat)> {
    set j, i | 0 <= j < |cells| && 0 <= i < |Ins(cells[j])| && OnNet(conns, Ins(cells[j])[i], b) :: (j, i)
  }

  /** No enable in use, and a reset only if it is synchronous. */
  predicate Promotable(s: Start, c: Cell) {
    IsFabric(c) && ConstOnes(s.net.conns, s.drivers, c.e) && (ConstOnes(s.net.conns, s.drivers, c.r) || IsSync(c.kind))
  }

  /** D comes straight from an input port and goes straight to no output port. */
  predicate FromPort(s: Start, inputs: set<nat>, c: Cell)
    requires c.Ff?
  {
    (exists w :: w in inputs && OnNet(s.net.conns, Wire(w), c.d)) && PortSlots(s.net.conns, s.net.ports, c.d) == {}
  }

  predicate InputEligible(s: Start, inputs: set<nat>, c: Cell) {
    Promotable(s, c) && FromPort(s, inputs, c) && |Consumers(s.net.cells, s.net.conns, c.d)| <= 1
  }

  predicate OutputEligible(s: Start, inputs: set<nat>, c: Cell) {
    Promotable(s, c) && !FromPort(s, inputs, c)
    && Consumers(s.net.cells, s.net.conns, c.q) == {} && PortSlots(s.net.conns, s.net.ports, c.q) != {}
  }

  ghost predicate CandidateOk(s: Start, cand: Candidate) {
    && cand.cell < |s.net.cells| && MayPromote(s.net.conns, s.drivers, s.net.cells[cand.cell], cand.resetless)
    && (!cand.isInput ==> cand.slots == PortSlots(s.net.conns, s.net.ports, s.net.cells[cand.cell].q))
  }

  ghost predicate CandidatesOk(s: Start, cands: seq<Candidate>) {
    && (forall a :: 0 <= a < |cands| ==> CandidateOk(s, cands[a]))
    && (forall a, b :: 0 <= a < b < |cands| ==> cands[a].cell != cands[b].cell)
  }

  predicate IsCandidate(cands: seq<Candidate>, i: nat, isInput: bool) {
    exists a :: 0 <= a < |cands| && cands[a].cell == i && cands[a].isInput == isInput
  }

  lemma OneMoreCandidate(was: seq<Candidate>, cands: seq<Candidate>, i: nat)
    requires cands == was || (|cands| == |was| + 1 && cands[..|was|] == was && cands[|was|].cell == i)
    requires forall a :: 0 <= a < |was| ==> was[a].cell < i
    ensures forall j, isInput :: 0 <= j < i ==> (IsCandidate(cands, j, isInput) <==> IsCandidate(was, j, isInput))
    ensures forall isInput :: IsCandidate(cands, i, isInput) <==> cands != was && cands[|was|].isInput == isInput
  {
    assert forall a :: 0 <= a < |was| ==> cands[a] == was[a];
    if cands != was {
      assert IsCandidate(cands, i, cands[|was|].isInput);
    }
  }

  /** The register the candidate becomes, on its own Q or on another bit. */
  predicate IsPromoted(s: Start, c: Cell, cand: Candidate, haveIo: bool, q: Bit) {
    cand.cell < |s.net.cells| && IsFabric(s.net.cells[cand.cell])
    && c == Promoted(s.net.cells[cand.cell], cand.resetless, haveIo, q)
  }

  ghost predicate InputsDone(s: Start, cells: seq<Cell>, cands: seq<Candidate>, haveIo: bool, n: nat) {
    forall a :: 0 <= a < n && a < |cands| && cands[a].isInput ==>
      cands[a].cell < |cells| && cands[a].cell < |s.net.cells| && s.net.cells[cands[a].cell].Ff?
      && IsPromoted(s, cells[cands[a].cell], cands[a], haveIo, s.net.cells[cands[a].cell].q)
  }

  /** What is not promoted after `n` candidates is as it was. */
  ghost predicate Left(s: Start, net: Net, cands: seq<Candidate>, n: nat) {
    forall b :: 0 <= b < |cands| && (b >= n || !cands[b].isInput) ==> StillAt(s, net, cands[b].cell, cands[b].resetless)
  }

  lemma AllLeft(s: Start, net: Net, cands: seq<Candidate>, haveIo: bool)
    requires CandidatesOk(s, cands) && net == s.net
    ensures Left(s, net, cands, 0) && InputsDone(s, net.cells, cands, haveIo, 0)
  {
    hide MayPromote, PortSlots;
  }

  lemma OutputsOfLeft(s: Start, net: Net, cands: seq<Candidate>)
    requires Left(s, net, cands, |cands|)
    ensures OutputsLeft(s, net, cands)
  {
    hide StillAt;
  }

  /** Promoting one input register leaves the others as they are. */
  lemma NextInput(s: Start, net: Net, cands: seq<Candidate>, haveIo: bool, a: nat)
    requires CandidatesOk(s, cands) && a < |cands| && |net.cells| == |s.net.cells|
    requires Left(s, net, cands, a) && InputsDone(s, net.cells, cands, haveIo, a)
    ensures StillAt(s, net, cands[a].cell, cands[a].resetless) && cands[a].cell < |net.cells| && IsFabric(net.cells[cands[a].cell])
    ensures
      var cand := cands[a];
      var c := net.cells[cand.cell];
      var cells := if cand.isInput then net.cells[cand.cell := Promoted(c, cand.resetless, haveIo, c.q)] else net.cells;
      InputsDone(s, cells, cands, haveIo, a + 1) && Left(s, Net(cells, net.conns, net.ports), cands, a + 1)
  {
    hide MayPromote, PortSlots, Promoted;
    var cand := cands[a];
    assert StillAt(s, net, cand.cell, cand.resetless);
    MayPromoteFabric(s.net.conns, s.drivers, net.cells[cand.cell], cand.resetless);
  }

  /** A port bit driven by the IO register of a candidate on its net. */
  ghost predicate HasIoFf(s: Start, cells: seq<Cell>, cand: Candidate, haveIo: bool, w: nat) {
    exists c :: c in cells && IsPromoted(s, c, cand, haveIo, Wire(w))
  }

  ghost predicate BitPromoted(s: Start, net: Net, cands: seq<Candidate>, haveIo: bool, x: (nat, nat)) {
    HasBit(net, x.0, x.1) && exists cand ::
      cand in cands && !cand.isInput && x in cand.slots && HasIoFf(s, net.cells, cand, haveIo, net.ports[x.0][x.1])
  }

  /** Exactly the eligible registers among those selected. */
  ghost predicate Chosen(s: Start, inputs: set<nat>, selected: set<nat>, cands: seq<Candidate>) {
    && (forall a :: 0 <= a < |cands| ==> cands[a].cell in selected)
    && forall i :: 0 <= i < |s.net.cells| && i in selected ==>
         && (InputEligible(s, inputs, s.net.cells[i]) <==> IsCandidate(cands, i, true))
         && (OutputEligible(s, inputs, s.net.cells[i]) <==> IsCandidate(cands, i, false))
  }

  /** All of them are IO registers now, the output ones on every port bit they drove. */
  ghost predicate AllPromoted(s: Start, net: Net, cands: seq<Candidate>, haveIo: bool) {
    && InputsDone(s, net.cells, cands, haveIo, |cands|)
    && forall a, x :: 0 <= a < |cands| && !cands[a].isInput && x in cands[a].slots ==> BitPromoted(s, net, cands, haveIo, x)
  }

  /** The same of the cells of the result: each candidate's register, or the one on each of its port bits, packs. */
  ghost predicate AllPacked(s: Start, net: Net, cands: seq<Candidate>, haveIo: bool) {
    forall a :: 0 <= a < |cands| ==> CandidatePacked(s, net, cands, haveIo, cands[a])
  }

  ghost predicate CandidatePacked(s: Start, net: Net, cands: seq<Candidate>, haveIo: bool, cand: Candidate) {
    && cand.cell < |s.net.cells| && s.net.cells[cand.cell].Ff?
    && var was := s.net.cells[cand.cell];
    if cand.isInput then cand.cell < |net.cells| && PacksAs(s, was, net.cells[cand.cell], haveIo, was.q)
    else forall x :: x in cand.slots ==> HasBit(net, x.0, x.1) && HasPacked(s, net, cands, haveIo, x)
  }

  predicate PacksAs(s: Start, was: Cell, now: Cell, haveIo: bool, q: Bit)
    requires was.Ff?
  {
    Packs(was, now, ConstOnes(s.net.conns, s.drivers, was.r), haveIo) && now.q == q
  }

  /** The port bit is driven by a register that takes the place of a candidate with that bit. */
  ghost predicate HasPacked(s: Start, net: Net, cands: seq<Candidate>, haveIo: bool, x: (nat, nat))
    requires HasBit(net, x.0, x.1)
  {
    exists cand, c :: cand in cands && x in cand.slots && c in net.cells && PacksFor(s, cand, c, haveIo, net.ports[x.0][x.1])
  }

  predicate PacksFor(s: Start, cand: Candidate, c: Cell, haveIo: bool, w: nat) {
    cand.cell < |s.net.cells| && s.net.cells[cand.cell].Ff? && PacksAs(s, s.net.cells[cand.cell], c, haveIo, Wire(w))
  }

  lemma PromotedPacked(s: Start, net: Net, cands: seq<Candidate>, haveIo: bool)
    requires CandidatesOk(s, cands) && AllPromoted(s, net, cands, haveIo)
    ensures AllPacked(s, net, cands, haveIo)
  {
    hide N.Canon, ConstOnes, Packs, Promoted, PortSlots;
    forall cand | cand in cands
      ensures cand.cell < |s.net.cells| && IsFabric(s.net.cells[cand.cell])
      ensures cand.resetless == ConstOnes(s.net.conns, s.drivers, s.net.cells[cand.cell].r)
    {
      assert CandidateOk(s, cand);
    }
    forall a | 0 <= a < |cands| && cands[a].isInput
      ensures cands[a].cell < |net.cells|
      ensures PacksAs(s, s.net.cells[cands[a].cell], net.cells[cands[a].cell], haveIo, s.net.cells[cands[a].cell].q)
    {
      var was := s.net.cells[cands[a].cell];
      PromotedPacks(was, cands[a].resetless, haveIo, was.q);
    }
    forall a, x | 0 <= a < |cands| && !cands[a].isInput && x in cands[a].slots
      ensures HasBit(net, x.0, x.1) && HasPacked(s, net, cands, haveIo, x)
    {
      assert BitPromoted(s, net, cands, haveIo, x);
      var w := net.ports[x.0][x.1];
      var cand :| cand in cands && !cand.isInput && x in cand.slots && HasIoFf(s, net.cells, cand, haveIo, w);
      var c :| c in net.cells && IsPromoted(s, c, cand, haveIo, Wire(w));
      PromotedPacks(s.net.cells[cand.cell], cand.resetless, haveIo, Wire(w));
      assert PacksFor(s, cand, c, haveIo, w);
    }
  }

  class Module {
    var cells: seq<Cell>
    var conns: N.Conns
    var ports: seq<seq<nat>>
    var next: nat
    const inputs: set<nat>

    function View(): Net
      reads this
    {
      Net(cells, conns, ports)
    }

    method BuildConstDrivers() returns (drivers: Drivers)
      ensures DriversOk(cells, conns, drivers)
      ensures forall i :: 0 <= i < |cells| ==> TiesKnown(cells[i], conns, drivers)
    {
      hide N.Canon;
      drivers := map[];
      for i := 0 to |cells|
        invariant DriversOk(cells, conns, drivers)
        invariant forall j :: 0 <= j < i ==> TiesKnown(cells[j], conns, drivers)
      {
        assert cells[i] in cells;
        match cells[i]
        case Vcc(p) =>
          assert Ties(cells[i], conns, N.Canon(conns, p), true);
          drivers := drivers[N.Canon(conns, p) := true];
        case Gnd(g) =>
          assert Ties(cells[i], conns, N.Canon(conns, g), false);
          drivers := drivers[N.Canon(conns, g) := false];
        case _ =>
      }
    }

    /** Input registers first: D straight from a port and read by nothing else; then Q straight to a port. */
    method ClassifyCell(i: nat, drivers: Drivers, ghost s: Start) returns (r: Option<Candidate>)
      requires i < |cells| && s.net == View() && s.drivers == drivers
      ensures r.Some? ==> r.value.cell == i && CandidateOk(s, r.value)
      ensures InputEligible(s, inputs, cells[i]) <==> r.Some? && r.value.isInput
      ensures OutputEligible(s, inputs, cells[i]) <==> r.Some? && !r.value.isInput
    {
      hide N.Canon, ConstOnes, PortSlots, Consumers, OnNet;
      var c := cells[i];
      if !IsFabric(c) || !ConstOnes(conns, drivers, c.e) {
        return None;
      }
      var resetless := ConstOnes(conns, drivers, c.r);
      if !resetless && !IsSync(c.kind) {
        return None;
      }
      var fromPort := exists w :: w in inputs && OnNet(conns, Wire(w), c.d);
      if fromPort && PortSlots(conns, ports, c.d) == {} {
        if |Consumers(cells, conns, c.d)| > 1 {
          return None;
        }
        return Some(Candidate(i, true, resetless, {}));
      }
      var slots := PortSlots(conns, ports, c.q);
      if Consumers(cells, conns, c.q) == {} && slots != {} {
        return Some(Candidate(i, false, resetless, slots));
      }
      return None;
    }

    method Classify(selected: set<nat>, drivers: Drivers, ghost s: Start) returns (cands: seq<Candidate>)
      requires s.net == View() && s.drivers == drivers
      ensures CandidatesOk(s, cands) && Chosen(s, inputs, selected, cands)
    {
      hide CandidateOk, InputEligible, OutputEligible;
      cands := [];
      for i := 0 to |cells|
        invariant CandidatesOk(s, cands)
        invariant forall a :: 0 <= a < |cands| ==> cands[a].cell < i && cands[a].cell in selected
        invariant forall j :: 0 <= j < i && j in selected ==>
          && (InputEligible(s, inputs, cells[j]) <==> IsCandidate(cands, j, true))
          && (OutputEligible(s, inputs, cells[j]) <==> IsCandidate(cands, j, false))
      {
        ghost var was := cands;
        if i in selected {
          var cand := ClassifyCell(i, drivers, s);
          if cand.Some? {
            cands := cands + [cand.value];
          }
        }
        OneMoreCandidate(was, cands, i);
      }
    }

    /** Input registers change type where they stand. */
    method PromoteInputs(cands: seq<Candidate>, haveIo: bool, ghost s: Start, ghost beh: Behaviour)
      requires Ready(s, View(), next, beh) && View() == s.net && CandidatesOk(s, cands)
      modifies `cells
      ensures Ready(s, View(), next, beh)
      ensures OutputsLeft(s, View(), cands)
      ensures |cells| == |s.net.cells| && InputsDone(s, cells, cands, haveIo, |cands|)
    {
      hide Ready, MayPromote, PortSlots, Promoted, InputsDone, Left;
      AllLeft(s, View(), cands, haveIo);
      for a := 0 to |cands|
        invariant Ready(s, View(), next, beh) && |cells| == |s.net.cells|
        invariant InputsDone(s, cells, cands, haveIo, a) && Left(s, View(), cands, a)
      {
        var cand := cands[a];
        NextInput(s, View(), cands, haveIo, a);
        if cand.isInput {
          ReadyInPlace(s, View(), next, cand.cell, cand.resetless, haveIo, beh);
          var c := cells[cand.cell];
          cells := cells[cand.cell := Promoted(c, cand.resetless, haveIo, c.q)];
        }
      }
      OutputsOfLeft(s, View(), cands);
    }

    /** A new wire for one bit of a port: driven by the candidate's IO register if there is one, connected to the old wire if not. */
    method ReplaceBit(k: nat, i: nat, slots: map<(nat, nat), Candidate>, haveIo: bool, ghost s: Start, ghost beh: Behaviour)
      requires Ready(s, View(), next, beh) && SlotsOk(s, View(), slots)
      requires HasBit(View(), k, i) && HasBit(s.net, k, i) && ports[k][i] == s.net.ports[k][i]
      modifies `cells, `conns, `ports, `next
      ensures Ready(s, View(), next, beh) && SlotsOk(s, View(), slots) && old(cells) <= cells
      ensures ports == Repointed(old(ports), k, i, old(next))
      ensures (k, i) in slots ==> HasIoFf(s, cells, slots[(k, i)], haveIo, old(next))
    {
      hide Ready, MayPromote, PortSlots, N.Canon, TargetType, Promoted;
      ghost var before := View();
      if (k, i) in slots {
        var cand := slots[(k, i)];
        SlotOnNet(s, before, slots, k, i);
        MayPromoteFabric(s.net.conns, s.drivers, cells[cand.cell], cand.resetless);
        ReadyByCopy(s, before, next, k, i, cand.cell, cand.resetless, haveIo, beh);
        var copy := Promoted(cells[cand.cell], cand.resetless, haveIo, Wire(next));
        cells := cells + [copy];
        assert copy in cells && IsPromoted(s, copy, cand, haveIo, Wire(next));
      } else {
        ReadyByWire(s, before, next, k, i, beh);
        conns := conns + [(Wire(next), Wire(ports[k][i]))];
      }
      ports := Repointed(ports, k, i, next);
      next := next + 1;
    }

    /** A new wire takes a port's place: an IO register on each candidate's bit, a connection on the others. */
    method ReplacePort(k: nat, slots: map<(nat, nat), Candidate>, haveIo: bool, ghost s: Start, ghost beh: Behaviour)
      requires Ready(s, View(), next, beh) && k < |ports| && k < |s.net.ports| && ports[k] == s.net.ports[k]
      requires SlotsOk(s, View(), slots)
      modifies `cells, `conns, `ports, `next
      ensures Ready(s, View(), next, beh) && SlotsOk(s, View(), slots)
      ensures |ports| == |old(ports)| && forall h :: 0 <= h < |ports| && h != k ==> ports[h] == old(ports)[h]
      ensures old(cells) <= cells && |ports[k]| == |old(ports)[k]|
      ensures forall i :: 0 <= i < |ports[k]| && (k, i) in slots ==> HasIoFf(s, cells, slots[(k, i)], haveIo, ports[k][i])
    {
      hide Ready, SlotsOk, IsPromoted;
      var width := |ports[k]|;
      for i := 0 to width
        invariant Ready(s, View(), next, beh) && SlotsOk(s, View(), slots)
        invariant |ports| == |old(ports)| && |ports[k]| == width
        invariant forall h :: 0 <= h < |ports| && h != k ==> ports[h] == old(ports)[h]
        invariant forall j :: i <= j < width ==> ports[k][j] == s.net.ports[k][j]
        invariant old(cells) <= cells
        invariant forall j :: 0 <= j < i && (k, j) in slots ==> HasIoFf(s, cells, slots[(k, j)], haveIo, ports[k][j])
      {
        ghost var before := cells;
        ReplaceBit(k, i, slots, haveIo, s, beh);
        MoreCells(before, cells);
      }
    }

    /** The last candidate on each port bit. */
    method OutputSlots(cands: seq<Candidate>, ghost s: Start) returns (slots: map<(nat, nat), Candidate>)
      requires CandidatesOk(s, cands) && OutputsLeft(s, View(), cands)
      ensures SlotsOk(s, View(), slots)
      ensures forall b, x :: 0 <= b < |cands| && !cands[b].isInput && x in cands[b].slots ==> x in slots
      ensures forall x :: x in slots ==> slots[x] in cands && !slots[x].isInput && x in slots[x].slots
    {
      hide MayPromote, PortSlots, N.Canon;
      slots := map[];
      for a := 0 to |cands|
        invariant SlotsOk(s, View(), slots)
        invariant forall b, x :: 0 <= b < a && !cands[b].isInput && x in cands[b].slots ==> x in slots
        invariant forall x :: x in slots ==> slots[x] in cands && !slots[x].isInput && x in slots[x].slots
      {
        if !cands[a].isInput {
          assert CandidateOk(s, cands[a]);
          MayPromoteFabric(s.net.conns, s.drivers, s.net.cells[cands[a].cell], cands[a].resetless);
          slots := slots + map x | x in cands[a].slots :: cands[a];
        }
      }
    }

    method PromoteOutputs(cands: seq<Candidate>, haveIo: bool, ghost s: Start, ghost beh: Behaviour)
      requires Ready(s, View(), next, beh) && ports == s.net.ports && CandidatesOk(s, cands) && OutputsLeft(s, View(), cands)
      modifies `cells, `conns, `ports, `next
      ensures Ready(s, View(), next, beh)
      ensures old(cells) <= cells
      ensures forall a, x :: 0 <= a < |cands| && !cands[a].isInput && x in cands[a].slots ==> BitPromoted(s, View(), cands, haveIo, x)
    {
      hide Ready, MayPromote, PortSlots, N.Canon, CandidatesOk, OutputsLeft, SlotsOk, IsPromoted;
      var slots := OutputSlots(cands, s);
      for k := 0 to |ports|
        invariant Ready(s, View(), next, beh) && SlotsOk(s, View(), slots)
        invariant |ports| == |s.net.ports| && forall h :: k <= h < |ports| ==> ports[h] == s.net.ports[h]
        invariant forall h :: 0 <= h < |ports| ==> |ports[h]| == |s.net.ports[h]|
        invariant old(cells) <= cells
        invariant forall x :: x in slots && x.0 < k && HasBit(View(), x.0, x.1) ==>
          HasIoFf(s, cells, slots[x], haveIo, ports[x.0][x.1])
      {
        ghost var before := cells;
        if exists x :: x in slots && x.0 == k {
          ReplacePort(k, slots, haveIo, s, beh);
        }
        MoreCells(before, cells);
      }
      forall a, x | 0 <= a < |cands| && !cands[a].isInput && x in cands[a].slots
        ensures BitPromoted(s, View(), cands, haveIo, x)
      {
        CandidateSlot(s, cands, a, x);
        assert HasIoFf(s, cells, slots[x], haveIo, ports[x.0][x.1]);
      }
    }

    /**
     Every run of the result is a run of the module before with the same value
     on every port bit on every cycle, and the other way round.
     */
    method Execute(selected: set<nat>, haveIo: bool, ghost beh: Behaviour) returns (drivers: Drivers, cands: seq<Candidate>)
      requires NetOlder(View(), next)
      modifies `cells, `conns, `ports, `next
      ensures Equivalent(old(View()), View(), old(next), beh)
      ensures NetOlder(View(), next)
      ensures AllKnown(old(cells), old(conns), drivers)
      ensures Chosen(Start(old(View()), old(next), drivers), inputs, selected, cands)
      ensures AllPromoted(Start(old(View()), old(next), drivers), View(), cands, haveIo)
      ensures AllPacked(Start(old(View()), old(next), drivers), View(), cands, haveIo)
    {
      hide NetOlder, DriversOk, Equivalent, CandidatesOk, AllPromoted, AllPacked;
      drivers := BuildConstDrivers();
      ghost var s := Start(View(), next, drivers);
      cands := Classify(selected, drivers, s);
      ReadyAtStart(s, beh);
      PromoteInputs(cands, haveIo, s, beh);
      ghost var cells0 := cells;
      PromoteOutputs(cands, haveIo, s, beh);
      assert AllPromoted(s, View(), cands, haveIo) by { DonePromoted(s, View(), cells0, cands, haveIo); }
      PromotedPacked(s, View(), cands, haveIo);
    }
  }

  lemma DonePromoted(s: Start, net: Net, before: seq<Cell>, cands: seq<Candidate>, haveIo: bool)
    requires before <= net.cells && InputsDone(s, before, cands, haveIo, |cands|)
    requires forall a, x :: 0 <= a < |cands| && !cands[a].isInput && x in cands[a].slots ==> BitPromoted(s, net, cands, haveIo, x)
    ensures AllPromoted(s, net, cands, haveIo)
  {
    hide IsPromoted, BitPromoted;
    assert forall i :: 0 <= i < |before| ==> before[i] == net.cells[i];
  }

  lemma MoreCells(cells: seq<Cell>, cells': seq<Cell>)
    requires cells <= cells'
    ensures forall c :: c in cells ==> c in cells'
  {
  }

  lemma CandidateSlot(s: Start, cands: seq<Candidate>, a: nat, x: (nat, nat))
    requires CandidatesOk(s, cands) && a < |cands| && !cands[a].isInput && x in cands[a].slots
    ensures HasBit(s.net, x.0, x.1)
  {
    hide N.Canon, ConstOnes;
    assert CandidateOk(s, cands[a]);
  }

  lemma MayPromoteFabric(conns: N.Conns, drivers: Drivers, c: Cell, resetless: bool)
    requires MayPromote(conns, drivers, c, resetless)
    ensures IsFabric(c)
  {
  }

  /** The output registers are still as they were classified. */
  ghost predicate OutputsLeft(s: Start, net: Net, cands: seq<Candidate>) {
    forall a :: 0 <= a < |cands| && !cands[a].isInput ==> StillAt(s, net, cands[a].cell, cands[a].resetless)
  }

  ghost predicate SlotsOk(s: Start, net: Net, slots: map<(nat, nat), Candidate>) {
    forall x :: x in slots ==>
      && StillAt(s, net, slots[x].cell, slots[x].resetless) && s.net.cells[slots[x].cell].Ff?
      && x in PortSlots(s.net.conns, s.net.ports, s.net.cells[slots[x].cell].q)
  }

  lemma SlotOnNet(s: Start, net: Net, slots: map<(nat, nat), Candidate>, k: nat, i: nat)
    requires SlotsOk(s, net, slots) && (k, i) in slots
    requires HasBit(net, k, i) && HasBit(s.net, k, i) && net.ports[k][i] == s.net.ports[k][i]
    ensures var c := slots[(k, i)].cell;
      c < |net.cells| && net.cells[c].Ff? && N.Canon(s.net.conns, Wire(net.ports[k][i])) == N.Canon(s.net.conns, net.cells[c].q)
  {
    hide N.Canon, MayPromote;
  }

  // ---- An instance -------------------------------------------------------------------------

  /**
   A register behind input port wire 6 and one before output port wire 7, both
   through a connection, their E and R high through a VCC cell or a constant.
   */
  function TwoRegisters(): Net {
    Net([Vcc(Wire(5)),
         Ff(Dffre, Wire(4), Wire(0), Wire(1), Some(Wire(5)), Some(Wire(5))),
         Other(0, [Wire(1)], [Wire(2)]),
         Ff(Dffnre, Wire(4), Wire(2), Wire(3), Some(Const(true)), Some(Wire(5)))],
        [(Wire(0), Wire(6)), (Wire(7), Wire(3))], [[7]])
  }

  lemma TwoRegistersCanon(b: Bit)
    ensures N.Canon(TwoRegisters().conns, b) == if b == Wire(0) then Wire(6) else if b == Wire(7) then Wire(3) else b
  {
    var one: N.Conns := [(Wire(0), Wire(6))];
    var p: (Bit, Bit) := (Wire(7), Wire(3));
    forall x ensures N.Canon(one, x) == if x == Wire(0) then Wire(6) else x {
      N.CanonStep([], (Wire(0), Wire(6)), x);
      assert [] + one == one;
    }
    N.CanonStep(one, p, b);
    assert one + [p] == TwoRegisters().conns;
  }

  lemma TwoRegistersIns()
    ensures var cells := TwoRegisters().cells;
      && Ins(cells[0]) == [] && Ins(cells[1]) == [Wire(4), Wire(0), Wire(5), Wire(5)]
      && Ins(cells[2]) == [Wire(1)] && Ins(cells[3]) == [Wire(4), Wire(2), Const(true), Wire(5)]
  {
  }

  lemma TwoRegistersConsumers()
    ensures Consumers(TwoRegisters().cells, TwoRegisters().conns, Wire(0)) == {(1, 1)}
    ensures Consumers(TwoRegisters().cells, TwoRegisters().conns, Wire(3)) == {}
  {
    hide N.Canon, Ins;
    forall b ensures N.Canon(TwoRegisters().conns, b) == if b == Wire(0) then Wire(6) else if b == Wire(7) then Wire(3) else b {
      TwoRegistersCanon(b);
    }
    TwoRegistersIns();
  }

  /** One goes to an input, the other to an output. */
  lemma TwoRegistersEligible()
    ensures var net, inputs := TwoRegisters(), {6, 4};
      var s := Start(net, 8, map[Wire(5) := true]);
      && AllKnown(net.cells, net.conns, s.drivers)
      && InputEligible(s, inputs, net.cells[1]) && OutputEligible(s, inputs, net.cells[3])
  {
    hide N.Canon, Ins, Consumers;
    var net, inputs := TwoRegisters(), {6, 4};
    var s := Start(net, 8, map[Wire(5) := true]);
    forall b ensures N.Canon(net.conns, b) == if b == Wire(0) then Wire(6) else if b == Wire(7) then Wire(3) else b {
      TwoRegistersCanon(b);
    }
    TwoRegistersConsumers();
    assert Ties(net.cells[0], net.conns, Wire(5), true);
    assert OnNet(net.conns, Wire(6), Wire(0));
    assert (0, 0) in PortSlots(net.conns, net.ports, Wire(3));
  }
}
