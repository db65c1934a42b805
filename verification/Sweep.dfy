/** Dropping copied registers that nothing reads any more, to a fixpoint. */
module Sweep {
  import opened Bits
  import opened Netlist

  ghost predicate Reads(net: Net, c: Cell, f: Cell) {
    exists b, q :: b in Inputs(c) && q in Outputs(f) && Canon(net.conns, b) == Canon(net.conns, q)
  }

  ghost predicate IsOutput(net: Net, f: Cell) {
    exists b, q :: b in net.wires.outputs && q in Outputs(f) && Canon(net.conns, b) == Canon(net.conns, q)
  }

  /** All that reads the cell is in `gone`. */
  ghost predicate ReadersIn(net: Net, f: nat, gone: set<nat>)
    requires f < |net.cells|
  {
    !IsOutput(net, net.cells[f])
    && forall i :: 0 <= i < |net.cells| && Reads(net, net.cells[i], net.cells[f]) ==> i in gone
  }

  ghost predicate AreFlops(net: Net, s: set<nat>) {
    forall f :: f in s ==> f < |net.cells| && net.cells[f].Flop?
  }

  /** A register of the pool whose readers are all in the set is in it too. */
  ghost predicate Closed(net: Net, pool: set<nat>, s: set<nat>)
    requires AreFlops(net, pool)
  {
    forall f :: f in pool && ReadersIn(net, f, s) ==> f in s
  }

  ghost predicate LeastClosed(net: Net, pool: set<nat>, s: set<nat>)
    requires AreFlops(net, pool)
  {
    Closed(net, pool, s) && forall s' :: Closed(net, pool, s') ==> s <= s'
  }

  function Without(cells: seq<Cell>, gone: set<nat>): seq<Cell> {
    seq(|cells|, i requires 0 <= i < |cells| => if i in gone then Removed else cells[i])
  }

  function InputNets(conns: Conns, c: Cell): set<Bit> {
    set x | x in Inputs(c) :: Canon(conns, x)
  }

  function OutputNets(net: Net): set<Bit> {
    set x | x in net.wires.outputs :: Canon(net.conns, x)
  }

  ghost predicate IsLive(net: Net, b: Bit) {
    b in OutputNets(net) || exists i :: 0 <= i < |net.cells| && b in InputNets(net.conns, net.cells[i])
  }

  /** The canonical nets that remaining cells and module outputs read. */
  method LiveBits(m: Module) returns (live: set<Bit>)
    ensures forall b :: b in live <==> IsLive(m.View(), b)
  {
    hide InputNets, OutputNets;
    live := {};
    for i := 0 to |m.cells|
      invariant forall b :: b in live <==> exists j :: 0 <= j < i && b in InputNets(m.conns, m.cells[j])
    {
      live := live + InputNets(m.conns, m.cells[i]);
    }
    live := live + OutputNets(m.View());
  }

  /** What a whole sweep may rely on between two removals. */
  ghost predicate Sound(net: Net, pool: set<nat>, gone: set<nat>)
    requires AreFlops(net, pool)
  {
    && gone <= pool
    && (forall f :: f in gone ==> ReadersIn(net, f, gone))
    && (forall s :: Closed(net, pool, s) ==> gone <= s)
  }

  /** Read counts from an earlier moment err on the side of keeping. */
  lemma StaleIsSafe(net: Net, pool: set<nat>, before: set<nat>, gone: set<nat>, f: nat)
    requires AreFlops(net, pool) && Sound(net, pool, gone) && before <= gone && f in pool
    requires ReadersIn(net, f, before)
    ensures Sound(net, pool, gone + {f})
  {
    hide Reads, IsOutput;
    forall s | Closed(net, pool, s) ensures f in s {
      assert ReadersIn(net, f, s);
    }
  }

  lemma LiveReads(net: Net, left: Net, gone: set<nat>, f: nat)
    requires f < |net.cells| && net.cells[f].Flop?
    requires left == Net(Without(net.cells, gone), net.conns, net.wires)
    ensures (forall q :: q in net.cells[f].q ==> !IsLive(left, Canon(net.conns, q))) <==> ReadersIn(net, f, gone)
  {
    hide Canon, Inputs;
    var ff, cells := net.cells[f], left.cells;
    assert forall i :: 0 <= i < |cells| ==> Inputs(cells[i]) == if i in gone then Inputs(Removed) else Inputs(net.cells[i]);
    NoInputs();
    if forall q :: q in ff.q ==> !IsLive(left, Canon(net.conns, q)) {
      forall i | 0 <= i < |net.cells| && i !in gone ensures !Reads(net, net.cells[i], ff) {
        forall b, q | b in Inputs(net.cells[i]) && q in Outputs(ff) ensures Canon(net.conns, b) != Canon(net.conns, q) {
          assert Canon(net.conns, b) in InputNets(net.conns, cells[i]);
        }
      }
      forall b, q | b in net.wires.outputs && q in Outputs(ff) ensures Canon(net.conns, b) != Canon(net.conns, q) {
        assert Canon(net.conns, b) in OutputNets(left);
      }
    }
    if ReadersIn(net, f, gone) {
      forall q | q in ff.q ensures !IsLive(left, Canon(net.conns, q)) {
        assert q in Outputs(ff);
        forall i, x | 0 <= i < |cells| && x in Inputs(cells[i]) ensures Canon(net.conns, x) != Canon(net.conns, q) {
          assert !Reads(net, net.cells[i], ff);
        }
      }
    }
  }

  lemma NoInputs()
    ensures Inputs(Removed) == []
  {
  }

  // ---- What a removal means -----------------------------------------------------------------

  /** No net has two drivers, and none is a constant. */
  ghost predicate DrivenOnce(net: Net) {
    && (forall i :: 0 <= i < |net.cells| ==> OwnNets(net.conns, Outputs(net.cells[i])))
    && forall i, j :: 0 <= i < |net.cells| && 0 <= j < |net.cells| && i != j ==>
         Elsewhere(net.conns, Outputs(net.cells[i]), Outputs(net.cells[j]))
  }

  predicate Sized(ff: Cell)
    requires ff.Flop?
  {
    |ff.d| == |ff.q| && (ff.srst.Some? ==> |ff.srst.value.value| == |ff.q|)
  }

  /** What a register nothing reads has held, from its power-up value on. */
  function Held(ff: Cell, init: map<nat, bool>, run: Run, t: nat): (v: seq<bool>)
    requires ff.Flop? && Sized(ff) && t < |run|
    ensures |v| == |ff.q|
  {
    if t == 0 then seq(|ff.q|, i requires 0 <= i < |ff.q| => ff.q[i].Wire? && ff.q[i].id in init && init[ff.q[i].id])
    else if !ClockEdge(ff.clk, ff.rising, run[t - 1], run[t]) then Held(ff, init, run, t - 1)
    else if ff.srst.Some? && Active(ff.srst.value.control, run[t - 1]) then ff.srst.value.value
    else if ff.en.Some? && !Active(ff.en.value, run[t - 1]) then Held(ff, init, run, t - 1)
    else Eval(ff.d, run[t - 1])
  }

  /** A register that may go: sized, and nothing reads it. */
  ghost predicate Userless(net: Net, f: nat) {
    && f < |net.cells| && net.cells[f].Flop? && Sized(net.cells[f])
    && DrivenOnce(net) && ReadersIn(net, f, {})
  }

  function Dropped(net: Net, f: nat): Net
    requires f < |net.cells|
  {
    Net(net.cells[f := Removed], net.conns, net.wires)
  }

  ghost function PutBack(net: Net, f: nat, run: Run): (r: Run)
    requires Userless(net, f)
    ensures |r| == |run|
  {
    seq(|run|, t requires 0 <= t < |run| =>
      WithNets(net.conns, net.cells[f].q, Held(net.cells[f], net.wires.init, run, t), run[t]))
  }

  lemma PutBackElsewhere(net: Net, f: nat, run: Run, s: Sig)
    requires Userless(net, f) && Elsewhere(net.conns, s, net.cells[f].q)
    ensures AgreeOn(s, PutBack(net, f, run), run)
  {
    hide Canon, Userless, Held, WithNets, Elsewhere;
    assert f < |net.cells| && net.cells[f].Flop? && Sized(net.cells[f]) by { UserlessFlop(net, f); }
    forall t | 0 <= t < |run| ensures AgreeAt(s, PutBack(net, f, run)[t], run[t]) {
      WithNetsElsewhere(net.conns, net.cells[f].q, Held(net.cells[f], net.wires.init, run, t), run[t], s);
    }
  }

  lemma UserlessFlop(net: Net, f: nat)
    requires Userless(net, f)
    ensures f < |net.cells| && net.cells[f].Flop? && Sized(net.cells[f]) && OwnNets(net.conns, net.cells[f].q)
  {
    hide Canon, Elsewhere, ReadersIn, Inputs;
    assert OwnNets(net.conns, Outputs(net.cells[f]));
  }

  /** Nothing it reads, and no port of another cell, is on its nets. */
  lemma PortsElsewhere(net: Net, f: nat, j: nat)
    requires Userless(net, f) && j < |net.cells|
    ensures Elsewhere(net.conns, Inputs(net.cells[j]), net.cells[f].q)
    ensures j != f ==> Elsewhere(net.conns, AllBits(net.cells[j]), net.cells[f].q)
  {
    hide Canon, Inputs, OwnNets;
    var q := net.cells[f].q;
    assert Outputs(net.cells[f]) == q && !Reads(net, net.cells[j], net.cells[f]);
    if j != f { assert Elsewhere(net.conns, Outputs(net.cells[j]), Outputs(net.cells[f])); }
  }

  lemma PutBackValue(net: Net, f: nat, run: Run, t: nat)
    requires Userless(net, f) && t < |run|
    ensures Eval(net.cells[f].q, PutBack(net, f, run)[t]) == Held(net.cells[f], net.wires.init, run, t)
  {
    hide Canon, Userless, Held, WithNets, OwnNets, Eval;
    UserlessFlop(net, f);
    WithNetsValue(net.conns, net.cells[f].q, Held(net.cells[f], net.wires.init, run, t), run[t]);
  }

  /** The register put back steps as it should. */
  lemma PutBackSteps(net: Net, f: nat, run: Run, t: nat)
    requires Userless(net, f) && t + 1 < |run|
    ensures var r := PutBack(net, f, run); Eval(net.cells[f].q, r[t + 1]) == FlopNext(net.cells[f], r[t], r[t + 1])
  {
    hide Canon, Userless, PutBack, OwnNets, Eval, Inputs;
    UserlessFlop(net, f);
    var ff, r := net.cells[f], PutBack(net, f, run);
    PutBackValue(net, f, run, t);
    PutBackValue(net, f, run, t + 1);
    PortsElsewhere(net, f, f);
    PutBackElsewhere(net, f, run, Inputs(ff));
    FlopInputs(ff);
    assert AgreeAt(Inputs(ff), r[t], run[t]) && AgreeAt(Inputs(ff), r[t + 1], run[t + 1]);
    DataInputs(ff);
    AgreeEval(ff.d, Inputs(ff), r[t], run[t]);
  }

  lemma DataInputs(ff: Cell)
    requires ff.Flop?
    ensures forall b :: b in ff.d ==> b in Inputs(ff)
  {
  }

  lemma PutBackPowersUp(net: Net, f: nat, run: Run)
    requires Userless(net, f) && |run| > 0
    ensures PowersUp(net.cells[f], net.wires.init, PutBack(net, f, run)[0])
  {
    hide Canon, Userless, PutBack, OwnNets;
    UserlessFlop(net, f);
    PutBackValue(net, f, run, 0);
    var q, e := net.cells[f].q, PutBack(net, f, run)[0];
    forall b | b in q && b.Wire? && b.id in net.wires.init ensures e(b.id) == net.wires.init[b.id] {
      var i :| 0 <= i < |q| && q[i] == b;
      assert Eval(q, e)[i] == BitVal(b, e);
    }
  }

  /** Without the register nothing can be seen that could not be seen with it. */
  lemma DropRefines(net: Net, f: nat, beh: Behaviour)
    requires Userless(net, f)
    ensures Refines(Dropped(net, f), net, beh)
  {
    hide Canon, Userless, PutBack, OwnNets, CellHolds, PowersUp, ConnsHold, Inputs, AllBits, Elsewhere;
    UserlessFlop(net, f);
    var net' := Dropped(net, f);
    forall run | IsRun(net', run, beh) ensures exists r :: IsRun(net, r, beh) && SurvivingAgree(net', r, run) {
      var r := PutBack(net, f, run);
      forall j | 0 <= j < |net.cells|
        ensures CellHolds(net.cells[j], r, beh) && (|run| > 0 ==> PowersUp(net.cells[j], net.wires.init, r[0]))
        ensures j != f ==> AgreeOn(AllBits(net.cells[j]), r, run)
      {
        PutBackCell(net, f, run, beh, j);
      }
      forall t | 0 <= t < |run| ensures ConnsHold(net.conns, r[t]) {
        PutBackConns(net, f, run, t);
      }
      assert Elsewhere(net.conns, net.wires.outputs, net.cells[f].q) by { OutputsElsewhere(net, f); }
      PutBackElsewhere(net, f, run, net.wires.outputs);
      forall c | c in net'.cells ensures AgreeOn(AllBits(c), r, run) {
        var j :| 0 <= j < |net'.cells| && net'.cells[j] == c;
        if j == f { RemovedAgrees(r, run); }
      }
      assert IsRun(net, r, beh) && SurvivingAgree(net', r, run);
    }
  }

  lemma RemovedAgrees(run: Run, run': Run)
    requires |run| == |run'|
    ensures AgreeOn(AllBits(Removed), run, run')
  {
  }

  lemma OutputsElsewhere(net: Net, f: nat)
    requires Userless(net, f)
    ensures Elsewhere(net.conns, net.wires.outputs, net.cells[f].q)
  {
    hide Canon, OwnNets, Inputs;
    assert Outputs(net.cells[f]) == net.cells[f].q;
  }

  lemma PutBackConns(net: Net, f: nat, run: Run, t: nat)
    requires Userless(net, f) && t < |run| && ConnsHold(net.conns, run[t])
    ensures ConnsHold(net.conns, PutBack(net, f, run)[t])
  {
    hide Canon, Userless, OwnNets, Held, WithNets, ConnsHold;
    UserlessFlop(net, f);
    WithNetsConns(net.conns, net.cells[f].q, Held(net.cells[f], net.wires.init, run, t), run[t]);
  }

  lemma PutBackCell(net: Net, f: nat, run: Run, beh: Behaviour, j: nat)
    requires Userless(net, f) && IsRun(Dropped(net, f), run, beh) && j < |net.cells|
    ensures var r := PutBack(net, f, run);
      CellHolds(net.cells[j], r, beh) && (|run| > 0 ==> PowersUp(net.cells[j], net.wires.init, r[0]))
    ensures j != f ==> AgreeOn(AllBits(net.cells[j]), PutBack(net, f, run), run)
  {
    hide Canon, Userless, PutBack, OwnNets, Inputs, ConnsHold, Elsewhere, FlopNext;
    UserlessFlop(net, f);
    var r, c := PutBack(net, f, run), net.cells[j];
    if j == f {
      forall t | 0 <= t < |r| - 1 ensures Eval(c.q, r[t + 1]) == FlopNext(c, r[t], r[t + 1]) {
        PutBackSteps(net, f, run, t);
      }
      if |run| > 0 { PutBackPowersUp(net, f, run); }
    } else {
      assert Dropped(net, f).cells[j] == c && c in Dropped(net, f).cells;
      PortsElsewhere(net, f, j);
      PutBackElsewhere(net, f, run, AllBits(c));
      CellHoldsAgree(c, run, r, beh);
      if |run| > 0 && c.Flop? {
        forall b | b in c.q && b.Wire? ensures r[0](b.id) == run[0](b.id) {
          FlopPorts(c);
          assert AgreeAt(AllBits(c), r[0], run[0]) && BitVal(b, r[0]) == BitVal(b, run[0]);
        }
      }
    }
  }

  lemma DropKeeps(net: Net, f: nat, run: Run, beh: Behaviour)
    requires f < |net.cells| && IsRun(net, run, beh)
    ensures IsRun(Dropped(net, f), run, beh)
  {
    hide ConnsHold;
    var cells := Dropped(net, f).cells;
    forall c | c in cells ensures CellHolds(c, run, beh) && (|run| > 0 ==> PowersUp(c, net.wires.init, run[0])) {
      var j :| 0 <= j < |cells| && cells[j] == c;
      if j != f { assert net.cells[j] in net.cells; }
    }
  }

  /** Nothing is lost, and nothing can be seen that could not be seen before. */
  ghost predicate SameBehaviour(net: Net, net': Net) {
    && net'.wires == net.wires && net'.conns == net.conns && Fewer(net'.cells, net.cells)
    && (forall run, beh: Behaviour :: IsRun(net, run, beh) ==> IsRun(net', run, beh))
    && (forall beh: Behaviour :: Refines(net', net, beh))
  }

  lemma SameAtStart(net: Net)
    ensures SameBehaviour(net, net)
  {
    hide IsRun, AllBits;
    forall beh: Behaviour ensures Refines(net, net, beh) {
      forall run | IsRun(net, run, beh) ensures exists r :: IsRun(net, r, beh) && SurvivingAgree(net, r, run) {
        assert SurvivingAgree(net, run, run);
      }
    }
  }

  /** One register more, when all its readers are among those gone. */
  lemma SameAfter(net: Net, gone: set<nat>, f: nat)
    requires AreFlops(net, gone + {f}) && f !in gone && DrivenOnce(net) && Sized(net.cells[f]) && ReadersIn(net, f, gone)
    requires SameBehaviour(net, Net(Without(net.cells, gone), net.conns, net.wires))
    ensures SameBehaviour(net, Net(Without(net.cells, gone + {f}), net.conns, net.wires))
  {
    hide Canon, IsRun, Refines, Inputs, Outputs, OwnNets, Elsewhere;
    var now := Net(Without(net.cells, gone), net.conns, net.wires);
    StillUserless(net, gone, f);
    WithoutOne(net.cells, gone, f);
    var next := Dropped(now, f);
    assert next == Net(Without(net.cells, gone + {f}), net.conns, net.wires);
    forall run, beh: Behaviour | IsRun(net, run, beh) ensures IsRun(next, run, beh) {
      DropKeeps(now, f, run, beh);
    }
    forall beh: Behaviour ensures Refines(next, net, beh) {
      DropRefines(now, f, beh);
      RefinesTrans(next, now, net, beh);
    }
  }

  lemma StillUserless(net: Net, gone: set<nat>, f: nat)
    requires AreFlops(net, gone + {f}) && f !in gone && DrivenOnce(net) && Sized(net.cells[f]) && ReadersIn(net, f, gone)
    ensures Userless(Net(Without(net.cells, gone), net.conns, net.wires), f)
  {
    hide Canon, OwnNets;
    var now := Net(Without(net.cells, gone), net.conns, net.wires);
    forall i | 0 <= i < |now.cells| ensures now.cells[i] == net.cells[i] || (now.cells[i] == Removed && i in gone) { }
    NoPorts(net.conns);
    hide Inputs, Outputs;
    assert DrivenOnce(now);
    forall i | 0 <= i < |now.cells| ensures !Reads(now, now.cells[i], now.cells[f]) {
      if now.cells[i] == net.cells[i] && i !in gone { assert !Reads(net, net.cells[i], net.cells[f]); }
    }
    assert !IsOutput(now, now.cells[f]);
  }

  lemma NoPorts(conns: Conns)
    ensures Inputs(Removed) == [] && Outputs(Removed) == [] && OwnNets(conns, [])
    ensures forall s :: Elsewhere(conns, [], s) && Elsewhere(conns, s, [])
  {
  }

  /** What removal needs of the net and the pool to be harmless. */
  ghost predicate Proper(net: Net, pool: set<nat>)
    requires AreFlops(net, pool)
  {
    DrivenOnce(net) && forall f :: f in pool ==> Sized(net.cells[f])
  }

  lemma SameAfterStale(net: Net, pool: set<nat>, before: set<nat>, gone: set<nat>, f: nat)
    requires AreFlops(net, pool) && Proper(net, pool) && before <= gone <= pool && f in pool && f !in gone && ReadersIn(net, f, before)
    requires SameBehaviour(net, Net(Without(net.cells, gone), net.conns, net.wires))
    ensures SameBehaviour(net, Net(Without(net.cells, gone + {f}), net.conns, net.wires))
  {
    hide Reads, IsOutput, SameBehaviour, DrivenOnce, Sized;
    SameAfter(net, gone, f);
  }

  /** One pass over the pool with the counts taken at its start. */
  method Round(m: Module, pool: set<nat>, ghost net: Net, ghost gone: set<nat>) returns (left: set<nat>)
    requires AreFlops(net, pool + gone) && pool !! gone && Sound(net, pool + gone, gone)
    requires m.View() == Net(Without(net.cells, gone), net.conns, net.wires)
    modifies m`cells
    ensures left <= pool && Sound(net, pool + gone, pool + gone - left)
    ensures m.View() == Net(Without(net.cells, pool + gone - left), net.conns, net.wires)
    ensures left == pool ==> forall f :: f in pool ==> !ReadersIn(net, f, gone)
    ensures Proper(net, pool + gone) && SameBehaviour(net, old(m.View())) ==> SameBehaviour(net, m.View())
  {
    hide Sound, ReadersIn, Canon, Inputs, IsLive, Without, Proper, SameBehaviour;
    ghost var start := m.View();
    ghost var all := pool + gone;
    var live := LiveBits(m);
    left := pool;
    var todo := pool;
    assert all - left == gone;
    while todo != {}
      invariant todo <= left <= pool
      invariant Sound(net, all, all - left)
      invariant m.View() == Net(Without(net.cells, all - left), net.conns, net.wires)
      invariant left == pool ==> forall f :: f in pool - todo ==> !ReadersIn(net, f, gone)
      invariant Proper(net, all) && SameBehaviour(net, start) ==> SameBehaviour(net, m.View())
      decreases |todo|
    {
      var f :| f in todo;
      todo := todo - {f};
      WithoutOne(net.cells, all - left, f);
      var ff := m.cells[f];
      LiveReads(net, start, gone, f);
      if forall q :: q in ff.q ==> Canon(m.conns, q) !in live {
        StaleIsSafe(net, all, gone, all - left, f);
        if Proper(net, all) && SameBehaviour(net, start) {
          SoundPart(net, all, all - left);
          SameAfterStale(net, all, gone, all - left, f);
        }
        assert all - left + {f} == all - (left - {f});
        left := left - {f};
        m.Remove(f);
      }
    }
  }

  lemma SoundPart(net: Net, pool: set<nat>, gone: set<nat>)
    requires AreFlops(net, pool) && Sound(net, pool, gone)
    ensures gone <= pool
  {
  }

  lemma WithoutOne(cells: seq<Cell>, gone: set<nat>, f: nat)
    requires f < |cells| && f !in gone
    ensures |Without(cells, gone)| == |cells| && Without(cells, gone)[f] == cells[f]
    ensures Without(cells, gone)[f := Removed] == Without(cells, gone + {f})
  {
  }

  /**
   What is removed is the least set closed under "all readers removed", in
   whatever order the pool is looked at; nothing left reads a removed register,
   and without them the module behaves as before.
   */
  method SweepUserless(m: Module, shared: set<nat>) returns (left: set<nat>)
    requires AreFlops(m.View(), shared)
    modifies m`cells
    ensures left <= shared && LeastClosed(old(m.View()), shared, shared - left)
    ensures m.View() == Net(Without(old(m.cells), shared - left), old(m.conns), m.wires)
    ensures forall f :: f in shared - left ==> ReadersIn(old(m.View()), f, shared - left)
    ensures Proper(old(m.View()), shared) ==> SameBehaviour(old(m.View()), m.View())
  {
    hide Sound, ReadersIn, Closed, Proper, SameBehaviour;
    ghost var net := m.View();
    left := shared;
    var again := true;
    NothingGone(net, shared);
    SameAtStart(net);
    assert shared - left == {};
    while again
      invariant left <= shared && Sound(net, shared, shared - left)
      invariant m.View() == Net(Without(net.cells, shared - left), net.conns, net.wires)
      invariant !again ==> forall f :: f in left ==> !ReadersIn(net, f, shared - left)
      invariant Proper(net, shared) ==> SameBehaviour(net, m.View())
      decreases |left|, again
    {
      var before := left;
      assert before + (shared - before) == shared;
      left := Round(m, before, net, shared - before);
      assert shared - left == before + (shared - before) - left;
      again := left != before;
      SubsetSmaller(left, before);
    }
    Least(net, shared, left);
  }

  lemma NothingGone(net: Net, pool: set<nat>)
    requires AreFlops(net, pool)
    ensures Sound(net, pool, {}) && Without(net.cells, {}) == net.cells
  {
  }

  lemma Least(net: Net, pool: set<nat>, left: set<nat>)
    requires AreFlops(net, pool) && left <= pool && Sound(net, pool, pool - left)
    requires forall f :: f in left ==> !ReadersIn(net, f, pool - left)
    ensures LeastClosed(net, pool, pool - left)
    ensures forall f :: f in pool - left ==> ReadersIn(net, f, pool - left)
  {
    hide ReadersIn;
  }

  lemma {:induction false} SubsetSmaller(s: set<nat>, s': set<nat>)
    requires s <= s'
    ensures s != s' ==> |s| < |s'|
  {
    if s != s' {
      assert s' == s + (s' - s);
      assert s' - s != {};
    }
  }
}
