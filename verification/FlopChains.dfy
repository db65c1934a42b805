/**
 Walking back from a DSP operand over the registers behind it, and the register
 bank that replaces them.
 */
module FlopChains {
  import opened Bits
  import opened Operand
  import opened Netlist

  /** Which flop drives a net, and from which bit of its Q. */
  type FlopIndex = map<Bit, (nat, nat)>

  /** A control as a raw net, and whether the bank's pin takes it inverted. */
  datatype Pin = Pin(net: Bit, inverted: bool)

  const TIED := Pin(Const(true), false)

  datatype Controls = Controls(clk: Bit, en: Pin, rst: Pin)

  /** What the cell has already fixed: its clock, and its reset when an M register is absorbed. */
  datatype Seed = Seed(clk: Option<Bit>, rst: Option<Pin>)

  datatype Chain = Chain(
    stages: seq<seq<nat>>,          // the flops of each stage, nearest the operand first
    stageD: seq<Sig>,               // what feeds each stage, in the operand's bit order
    copied: bool,                   // some stage has a reader besides this operand
    controls: Option<Controls>)     // fixed by the first stage

  predicate FlopsSized(net: Net) {
    forall c :: c in net.cells && c.Flop? ==>
      |c.d| == |c.q| && (c.srst.Some? ==> |c.srst.value.value| == |c.q|)
  }

  predicate IndexOk(net: Net, index: FlopIndex) {
    forall b :: b in index ==>
      var f, o := index[b].0, index[b].1;
      f < |net.cells| && net.cells[f].Flop? && o < |net.cells[f].q| && Canon(net.conns, net.cells[f].q[o]) == b
  }

  /** The flops of a module by the nets they drive. */
  method IndexFlops(m: Module) returns (index: FlopIndex)
    ensures IndexOk(m.View(), index)
    ensures forall i, o :: 0 <= i < |m.cells| && m.cells[i].Flop? && 0 <= o < |m.cells[i].q| ==>
      Canon(m.conns, m.cells[i].q[o]) in index
  {
    hide Canon;
    index := map[];
    for i := 0 to |m.cells|
      invariant IndexOk(m.View(), index)
      invariant forall j, o :: 0 <= j < i && m.cells[j].Flop? && 0 <= o < |m.cells[j].q| ==>
        Canon(m.conns, m.cells[j].q[o]) in index
    {
      if m.cells[i].Flop? {
        var q := m.cells[i].q;
        for o := 0 to |q|
          invariant IndexOk(m.View(), index)
          invariant forall j, o :: 0 <= j < i && m.cells[j].Flop? && 0 <= o < |m.cells[j].q| ==>
            Canon(m.conns, m.cells[j].q[o]) in index
          invariant forall k :: 0 <= k < o ==> Canon(m.conns, q[k]) in index
        {
          index := index[Canon(m.conns, q[o]) := (i, o)];
        }
      }
    }
  }

  function EnablePin(c: Cell): Pin
    requires c.Flop?
  {
    if c.en.Some? then Pin(c.en.value.net, !c.en.value.activeHigh) else TIED
  }

  /** A flop with no reset has the pin tied high: active low, never asserted. */
  function ResetPin(c: Cell): Pin
    requires c.Flop?
  {
    if c.srst.Some? then Pin(c.srst.value.control.net, c.srst.value.control.activeHigh) else TIED
  }

  function ControlsOf(c: Cell): Controls
    requires c.Flop?
  {
    Controls(c.clk, EnablePin(c), ResetPin(c))
  }

  predicate ResetsToZero(c: Cell)
    requires c.Flop?
  {
    c.srst.Some? ==> forall b :: b in c.srst.value.value ==> !b
  }

  predicate Agrees(seed: Seed, have: Option<Controls>, c: Controls) {
    && (seed.clk.Some? ==> seed.clk.value == c.clk)
    && (seed.rst.Some? ==> seed.rst.value == c.rst)
    && (have.Some? ==> have.value == c)
  }

  /** A register under the clock of the cell, and its reset net and polarity if that is fixed. */
  predicate UnderSeed(net: Net, f: nat, seed: Seed) {
    && f < |net.cells| && net.cells[f].Flop?
    && (seed.clk.Some? ==> net.cells[f].clk == seed.clk.value)
    && (seed.rst.Some? ==>
          if net.cells[f].srst.Some? then
            seed.rst.value == Pin(net.cells[f].srst.value.control.net, net.cells[f].srst.value.control.activeHigh)
          else seed.rst.value == Pin(Const(true), false))
  }

  // ---- One stage ------------------------------------------------------------------

  /** The flop and offset behind each bit of a signal, if all bits have one. */
  method Resolve(m: Module, index: FlopIndex, s: Sig) returns (r: Option<seq<(nat, nat)>>)
    ensures r.Some? <==> forall b :: b in s ==> Canon(m.conns, b) in index
    ensures r.Some? ==> r.value == Drivers(m.View(), index, s)
  {
    hide Canon;
    var perBit := [];
    for i := 0 to |s|
      invariant |perBit| == i
      invariant forall j :: 0 <= j < i ==> Canon(m.conns, s[j]) in index && perBit[j] == index[Canon(m.conns, s[j])]
    {
      var b := Canon(m.conns, s[i]);
      if b !in index {
        assert s[i] in s;
        return None;
      }
      perBit := perBit + [index[b]];
    }
    return Some(perBit);
  }

  function Drivers(net: Net, index: FlopIndex, s: Sig): (d: seq<(nat, nat)>)
    requires forall b :: b in s ==> Canon(net.conns, b) in index
    ensures |d| == |s|
  {
    seq(|s|, i requires 0 <= i < |s| => index[Canon(net.conns, s[i])])
  }

  function UseCount(perBit: seq<(nat, nat)>, f: nat): nat {
    if perBit == [] then 0
    else UseCount(perBit[..|perBit| - 1], f) + if perBit[|perBit| - 1].0 == f then 1 else 0
  }

  /** The distinct flops of a stage, and how many of the operand's bits each gives. */
  method FlopsOf(perBit: seq<(nat, nat)>) returns (stage: seq<nat>, used: map<nat, nat>)
    ensures forall f :: f in stage <==> f in used
    ensures forall i, j :: 0 <= i < j < |stage| ==> stage[i] != stage[j]
    ensures forall f :: f in used <==> exists j :: 0 <= j < |perBit| && perBit[j].0 == f
    ensures forall f :: f in used ==> used[f] == UseCount(perBit, f)
  {
    stage, used := [], map[];
    for i := 0 to |perBit|
      invariant forall f :: f in stage <==> f in used
      invariant forall k, j :: 0 <= k < j < |stage| ==> stage[k] != stage[j]
      invariant forall f :: f in used <==> exists j :: 0 <= j < i && perBit[j].0 == f
      invariant forall f :: UseCount(perBit[..i], f) == if f in used then used[f] else 0
    {
      assert perBit[..i + 1][..i] == perBit[..i];
      var f := perBit[i].0;
      if f !in used {
        stage := stage + [f];
        used := used[f := 1];
      } else {
        used := used[f := used[f] + 1];
      }
    }
    assert perBit[..|perBit|] == perBit;
  }

  /** What every flop of an absorbed stage satisfies. */
  predicate FlopFits(net: Net, f: nat, absorbed: set<nat>, shared: set<nat>) {
    && f < |net.cells| && net.cells[f].Flop?
    && (f in absorbed ==> f in shared)
    && net.cells[f].rising
    && !FlopBlocked(net, net.cells[f])
    && ResetsToZero(net.cells[f])
  }

  /** The operand is the flop's only reader and takes all of it. */
  predicate SolelyRead(net: Net, perBit: seq<(nat, nat)>, f: nat, users: multiset<Bit>, shared: set<nat>)
    requires f < |net.cells| && net.cells[f].Flop?
  {
    && UseCount(perBit, f) == |net.cells[f].q|
    && (forall b :: b in net.cells[f].q ==> users[Canon(net.conns, b)] <= 2)
    && f !in shared
  }

  method CheckStage(m: Module, perBit: seq<(nat, nat)>, stage: seq<nat>, used: map<nat, nat>,
                    users: multiset<Bit>, absorbed: set<nat>, shared: set<nat>)
      returns (ok: bool, copied: bool)
    requires forall f :: f in stage ==> f < |m.cells| && m.cells[f].Flop? && f in used && used[f] == UseCount(perBit, f)
    ensures ok <==> forall f :: f in stage ==> FlopFits(m.View(), f, absorbed, shared)
    ensures copied ==> exists f :: f in stage && !SolelyRead(m.View(), perBit, f, users, shared)
    ensures ok && !copied ==> forall f :: f in stage ==> SolelyRead(m.View(), perBit, f, users, shared)
  {
    hide Canon, FlopBlocked, UseCount;
    copied := false;
    for i := 0 to |stage|
      invariant forall j :: 0 <= j < i ==> FlopFits(m.View(), stage[j], absorbed, shared)
      invariant !copied ==> forall j :: 0 <= j < i ==> SolelyRead(m.View(), perBit, stage[j], users, shared)
      invariant copied ==> exists f :: f in stage && !SolelyRead(m.View(), perBit, f, users, shared)
    {
      var f := stage[i];
      assert f in stage;
      var ff := m.cells[f];
      var onlyPart := used[f] != |ff.q|;
      if onlyPart {
        copied := true;
      }
      if f in absorbed && f !in shared {
        return false, copied;
      }
      if (exists b :: b in ff.q && users[Canon(m.conns, b)] > 2) || f in shared || onlyPart {
        copied := true;
      }
      var blocked := FlopBlocked(m.View(), ff);
      if !ff.rising || blocked || !ResetsToZero(ff) {
        return false, copied;
      }
    }
    return true, copied;
  }

  /** Every flop of a stage goes into one bank, so they share all controls. */
  method SharedControls(m: Module, stage: seq<nat>) returns (r: Option<Controls>)
    requires stage != [] && forall f :: f in stage ==> f < |m.cells| && m.cells[f].Flop?
    ensures r.Some? ==> forall f :: f in stage ==> ControlsOf(m.cells[f]) == r.value
    ensures r.None? ==> exists f, g :: f in stage && g in stage && ControlsOf(m.cells[f]) != ControlsOf(m.cells[g])
  {
    r := None;
    for i := 0 to |stage|
      invariant i > 0 <==> r.Some?
      invariant forall j :: 0 <= j < i ==> stage[j] in stage && Some(ControlsOf(m.cells[stage[j]])) == r
    {
      assert stage[i] in stage;
      var c := ControlsOf(m.cells[stage[i]]);
      if r.None? {
        r := Some(c);
      } else if r.value != c {
        assert stage[0] in stage && stage[i] in stage && ControlsOf(m.cells[stage[0]]) != ControlsOf(m.cells[stage[i]]);
        return None;
      }
    }
  }

  // ---- The walk ---------------------------------------------------------------------

  /** What a walk sees of stage `k`: the operand, then each stage's D. */
  function Source(s: Sig, c: Chain, k: nat): Sig
    requires k <= |c.stageD|
  {
    if k == 0 then s else c.stageD[k - 1]
  }

  predicate TakesD(net: Net, p: (nat, nat), stage: seq<nat>, d: Bit) {
    && p.0 in stage && p.0 < |net.cells| && net.cells[p.0].Flop?
    && p.1 < |net.cells[p.0].d| && d == net.cells[p.0].d[p.1]
  }

  ghost predicate StageOk(net: Net, index: FlopIndex, src: Sig, stage: seq<nat>, d: Sig, controls: Controls,
                          absorbed: set<nat>, shared: set<nat>) {
    && |d| == |src| && |src| > 0
    && (forall b :: b in src ==> Canon(net.conns, b) in index)
    && (forall f :: f in stage ==> FlopFits(net, f, absorbed, shared) && ControlsOf(net.cells[f]) == controls)
    && (forall j :: 0 <= j < |src| ==> TakesD(net, Drivers(net, index, src)[j], stage, d[j]))
    && (forall f :: f in stage ==> exists j :: 0 <= j < |src| && Drivers(net, index, src)[j].0 == f)
  }

  /** Nothing refuses the stage behind `src`: every bit has a register that fits, all under the same controls. */
  ghost predicate Takable(net: Net, index: FlopIndex, src: Sig, have: Option<Controls>, seed: Seed,
                          absorbed: set<nat>, shared: set<nat>) {
    && (forall b :: b in src ==> Canon(net.conns, b) in index)
    && exists c :: Agrees(seed, have, c) && forall j :: 0 <= j < |src| ==>
         FitsUnder(net, Drivers(net, index, src)[j].0, c, absorbed, shared)
  }

  predicate FitsUnder(net: Net, f: nat, c: Controls, absorbed: set<nat>, shared: set<nat>) {
    FlopFits(net, f, absorbed, shared) && ControlsOf(net.cells[f]) == c
  }

  /** Some register behind `src` has a reader besides it, or gives it only some of its bits. */
  ghost predicate ReadElsewhere(net: Net, index: FlopIndex, users: multiset<Bit>, src: Sig, shared: set<nat>) {
    && (forall b :: b in src ==> Canon(net.conns, b) in index)
    && exists j :: 0 <= j < |src| && NotSole(net, Drivers(net, index, src), j, users, shared)
  }

  predicate NotSole(net: Net, perBit: seq<(nat, nat)>, j: nat, users: multiset<Bit>, shared: set<nat>)
    requires j < |perBit|
  {
    var f := perBit[j].0;
    f < |net.cells| && net.cells[f].Flop? && !SolelyRead(net, perBit, f, users, shared)
  }

  /** The chain a walk returns. */
  ghost predicate ChainOk(net: Net, index: FlopIndex, users: multiset<Bit>, s: Sig, c: Chain, seed: Seed,
                          absorbed: set<nat>, shared: set<nat>) {
    && |c.stages| == |c.stageD|
    && (if |c.stages| > 0 then c.controls.Some? && Agrees(seed, None, c.controls.value) else c.controls.None?)
    && (forall k :: 0 <= k < |c.stages| ==>
          StageOk(net, index, Source(s, c, k), c.stages[k], c.stageD[k], c.controls.value, absorbed, shared))
    && (!c.copied ==> forall k, f :: 0 <= k < |c.stages| && f in c.stages[k] ==>
          SolelyRead(net, Drivers(net, index, Source(s, c, k)), f, users, shared))
  }

  datatype Stage = Stage(flops: seq<nat>, d: Sig, controls: Controls)

  /** One turn of the walk: the stage behind `src`, unless something refuses it. */
  method TakeStage(m: Module, index: FlopIndex, users: multiset<Bit>, src: Sig, have: Option<Controls>, seed: Seed,
                   absorbed: set<nat>, shared: set<nat>) returns (r: Option<Stage>, copied: bool)
    requires IndexOk(m.View(), index) && FlopsSized(m.View()) && src != []
    ensures r.Some? ==> StageOk(m.View(), index, src, r.value.flops, r.value.d, r.value.controls, absorbed, shared)
    ensures r.Some? ==> Agrees(seed, have, r.value.controls)
    ensures r.Some? ==> forall f :: f in r.value.flops ==> UnderSeed(m.View(), f, seed)
    ensures r.None? ==> !Takable(m.View(), index, src, have, seed, absorbed, shared)
    ensures copied ==> ReadElsewhere(m.View(), index, users, src, shared)
    ensures r.Some? && !copied ==> forall f :: f in r.value.flops ==>
      SolelyRead(m.View(), Drivers(m.View(), index, src), f, users, shared)
  {
    hide Canon, UseCount, StageOk, SolelyRead, FlopFits, Agrees, Takable, ReadElsewhere, IndexOk, FlopsSized, ControlsOf, StageSet, Drivers;
    copied := false;
    var found := StageBehind(m, index, src);
    if found.None? {
      Unresolved(m.View(), index, src, have, seed, absorbed, shared);
      return None, copied;
    }
    var (perBit, flops, used) := found.value;
    StageFlops(m.View(), index, src, flops);
    var ok;
    ok, copied := CheckStage(m, perBit, flops, used, users, absorbed, shared);
    StageCopied(m.View(), index, src, flops, users, shared, copied);
    if !ok {
      StageRefused(m.View(), index, src, flops, have, seed, absorbed, shared);
      return None, copied;
    }
    var controls := SharedControls(m, flops);
    if controls.None? || !Agrees(seed, have, controls.value) {
      StageRefused(m.View(), index, src, flops, have, seed, absorbed, shared);
      return None, copied;
    }
    var cells := m.cells;
    var d := seq(|perBit|, j requires 0 <= j < |perBit| => cells[perBit[j].0].d[perBit[j].1]);
    StageAdded(m.View(), index, src, flops, d, controls.value, absorbed, shared);
    forall f | f in flops ensures UnderSeed(m.View(), f, seed) {
      SeededFlop(m.View(), f, seed, have, controls.value);
    }
    return Some(Stage(flops, d, controls.value)), copied;
  }

  /** The registers behind a signal, all of whose bits come from registers. */
  ghost predicate StageSet(net: Net, index: FlopIndex, src: Sig, stage: seq<nat>) {
    && IndexOk(net, index) && FlopsSized(net) && stage != []
    && (forall b :: b in src ==> Canon(net.conns, b) in index)
    && (forall f :: f in stage <==> exists j :: 0 <= j < |src| && Drivers(net, index, src)[j].0 == f)
  }

  method StageBehind(m: Module, index: FlopIndex, src: Sig) returns (r: Option<(seq<(nat, nat)>, seq<nat>, map<nat, nat>)>)
    requires IndexOk(m.View(), index) && FlopsSized(m.View()) && src != []
    ensures r.Some? <==> forall b :: b in src ==> Canon(m.conns, b) in index
    ensures r.Some? ==> StageSet(m.View(), index, src, r.value.1) && r.value.0 == Drivers(m.View(), index, src)
    ensures r.Some? ==> forall f :: f in r.value.1 ==> f in r.value.2 && r.value.2[f] == UseCount(r.value.0, f)
  {
    hide Canon, UseCount, IndexOk, FlopsSized;
    var found := Resolve(m, index, src);
    if found.None? {
      return None;
    }
    var flops, used := FlopsOf(found.value);
    assert found.value[0].0 in flops;
    return Some((found.value, flops, used));
  }

  method CollectFlops(m: Module, index: FlopIndex, users: multiset<Bit>, s: Sig, maxDepth: nat, seed: Seed,
                      absorbed: set<nat>, shared: set<nat>) returns (c: Chain)
    requires IndexOk(m.View(), index) && FlopsSized(m.View()) && s != []
    ensures ChainOk(m.View(), index, users, s, c, seed, absorbed, shared) && Controlled(m.View(), c, seed)
    ensures |c.stages| <= maxDepth && |c.stageD| == |c.stages|
    ensures |c.stages| == maxDepth || !Takable(m.View(), index, Source(s, c, |c.stages|), c.controls, seed, absorbed, shared)
    ensures c.copied ==> exists k :: 0 <= k <= |c.stages| && ReadElsewhere(m.View(), index, users, Source(s, c, k), shared)
  {
    hide Canon, FlopBlocked, UseCount, StageOk, SolelyRead, FlopFits, Agrees, ChainOk, FlopsSized, IndexOk, Takable, ReadElsewhere, Controlled;
    ghost var net := m.View();
    c := Chain([], [], false, None);
    EmptyChainOk(net, index, users, s, seed, absorbed, shared);
    ChainControlled(net, index, users, s, c, seed, absorbed, shared);
    while |c.stages| < maxDepth
      invariant ChainOk(net, index, users, s, c, seed, absorbed, shared) && Controlled(net, c, seed)
      invariant |c.stages| == |c.stageD| <= maxDepth && Source(s, c, |c.stageD|) != []
      invariant c.copied ==> exists k :: 0 <= k <= |c.stages| && ReadElsewhere(net, index, users, Source(s, c, k), shared)
      decreases maxDepth - |c.stages|
    {
      var src := Source(s, c, |c.stageD|);
      var taken, copied := TakeStage(m, index, users, src, c.controls, seed, absorbed, shared);
      if taken.None? {
        CopiedChainOk(net, index, users, s, c, copied, seed, absorbed, shared);
        var c' := Chain(c.stages, c.stageD, c.copied || copied, c.controls);
        SameSources(s, c, c');
        ChainControlled(net, index, users, s, c', seed, absorbed, shared);
        return c';
      }
      var stage := taken.value;
      var c' := Chain(c.stages + [stage.flops], c.stageD + [stage.d], c.copied || copied, Some(stage.controls));
      StageSize(net, index, src, stage.flops, stage.d, stage.controls, absorbed, shared);
      ChainGrows(net, index, users, s, c, c', seed, absorbed, shared);
      SameSources(s, c, c');
      ChainControlled(net, index, users, s, c', seed, absorbed, shared);
      c := c';
    }
  }

  lemma SameSources(s: Sig, c: Chain, c': Chain)
    requires c.stageD <= c'.stageD
    ensures forall k :: 0 <= k <= |c.stageD| ==> Source(s, c', k) == Source(s, c, k)
  {
  }

  lemma EmptyChainOk(net: Net, index: FlopIndex, users: multiset<Bit>, s: Sig, seed: Seed,
                     absorbed: set<nat>, shared: set<nat>)
    ensures ChainOk(net, index, users, s, Chain([], [], false, None), seed, absorbed, shared)
  {
  }

  /** A stage that was looked at but not taken may still have marked the chain. */
  lemma CopiedChainOk(net: Net, index: FlopIndex, users: multiset<Bit>, s: Sig, c: Chain, copied: bool, seed: Seed,
                      absorbed: set<nat>, shared: set<nat>)
    requires ChainOk(net, index, users, s, c, seed, absorbed, shared)
    ensures ChainOk(net, index, users, s, Chain(c.stages, c.stageD, c.copied || copied, c.controls), seed, absorbed, shared)
  {
    hide Canon, StageOk, SolelyRead, Agrees, Drivers;
    var c' := Chain(c.stages, c.stageD, c.copied || copied, c.controls);
    forall k | 0 <= k < |c.stages| ensures Source(s, c', k) == Source(s, c, k) {
    }
  }

  lemma StageSize(net: Net, index: FlopIndex, src: Sig, stage: seq<nat>, d: Sig, c: Controls,
                  absorbed: set<nat>, shared: set<nat>)
    requires StageOk(net, index, src, stage, d, c, absorbed, shared)
    ensures |d| == |src| && |src| > 0
  {
  }

  lemma StageFlops(net: Net, index: FlopIndex, src: Sig, stage: seq<nat>)
    requires StageSet(net, index, src, stage)
    ensures stage != [] && forall b :: b in src ==> Canon(net.conns, b) in index
    ensures forall j :: 0 <= j < |src| ==>
      var p := Drivers(net, index, src)[j];
      p.0 in stage && p.0 < |net.cells| && net.cells[p.0].Flop? && p.1 < |net.cells[p.0].d|
    ensures forall f :: f in stage ==> f < |net.cells| && net.cells[f].Flop?
  {
    hide Canon;
    forall j | 0 <= j < |src|
      ensures var p := Drivers(net, index, src)[j];
              p.0 in stage && p.0 < |net.cells| && net.cells[p.0].Flop? && p.1 < |net.cells[p.0].d|
    {
      assert src[j] in src;
      var p := Drivers(net, index, src)[j];
      assert Canon(net.conns, src[j]) in index;
      assert net.cells[p.0] in net.cells;
    }
  }

  lemma StageCopied(net: Net, index: FlopIndex, src: Sig, stage: seq<nat>, users: multiset<Bit>, shared: set<nat>, copied: bool)
    requires StageSet(net, index, src, stage)
    requires forall f :: f in stage ==> f < |net.cells| && net.cells[f].Flop?
    requires copied ==> exists f :: f in stage && !SolelyRead(net, Drivers(net, index, src), f, users, shared)
    ensures copied ==> ReadElsewhere(net, index, users, src, shared)
  {
    hide Canon, IndexOk, FlopsSized, UseCount, SolelyRead;
    if copied {
      var perBit := Drivers(net, index, src);
      var f :| f in stage && !SolelyRead(net, perBit, f, users, shared);
      var j :| 0 <= j < |src| && perBit[j].0 == f;
      assert NotSole(net, perBit, j, users, shared);
    }
  }

  /** Some register does not fit, two disagree, or they disagree with the cell: whichever it is, the stage cannot be taken. */
  lemma StageRefused(net: Net, index: FlopIndex, src: Sig, stage: seq<nat>, have: Option<Controls>, seed: Seed,
                     absorbed: set<nat>, shared: set<nat>)
    requires StageSet(net, index, src, stage)
    requires forall f :: f in stage ==> f < |net.cells| && net.cells[f].Flop?
    requires
      || (exists f :: f in stage && !FlopFits(net, f, absorbed, shared))
      || (exists f, g :: f in stage && g in stage && ControlsOf(net.cells[f]) != ControlsOf(net.cells[g]))
      || (exists c :: !Agrees(seed, have, c) && forall f :: f in stage ==> ControlsOf(net.cells[f]) == c)
    ensures !Takable(net, index, src, have, seed, absorbed, shared)
  {
    hide Canon, IndexOk, FlopsSized, FlopFits, Agrees, ControlsOf;
    assert stage[0] in stage;
    if Takable(net, index, src, have, seed, absorbed, shared) {
      var c :| Agrees(seed, have, c) && forall j :: 0 <= j < |src| ==>
        FitsUnder(net, Drivers(net, index, src)[j].0, c, absorbed, shared);
      forall f | f in stage ensures FitsUnder(net, f, c, absorbed, shared) {
        var j :| 0 <= j < |src| && Drivers(net, index, src)[j].0 == f;
      }
      assert false;
    }
  }

  lemma Unresolved(net: Net, index: FlopIndex, src: Sig, have: Option<Controls>, seed: Seed, absorbed: set<nat>, shared: set<nat>)
    requires !forall b :: b in src ==> Canon(net.conns, b) in index
    ensures !Takable(net, index, src, have, seed, absorbed, shared)
  {
    hide Canon;
  }

  lemma StageAdded(net: Net, index: FlopIndex, src: Sig, stage: seq<nat>, d: Sig, controls: Controls,
                   absorbed: set<nat>, shared: set<nat>)
    requires StageSet(net, index, src, stage)
    requires forall f :: f in stage ==> FlopFits(net, f, absorbed, shared) && ControlsOf(net.cells[f]) == controls
    requires |d| == |src| && forall j :: 0 <= j < |src| ==>
      var p := Drivers(net, index, src)[j];
      p.0 < |net.cells| && net.cells[p.0].Flop? && p.1 < |net.cells[p.0].d| && d[j] == net.cells[p.0].d[p.1]
    ensures StageOk(net, index, src, stage, d, controls, absorbed, shared)
  {
    hide Canon, FlopFits;
    assert stage[0] in stage;
    StageFlops(net, index, src, stage);
  }

  lemma SeededFlop(net: Net, f: nat, seed: Seed, have: Option<Controls>, c: Controls)
    requires f < |net.cells| && net.cells[f].Flop? && ControlsOf(net.cells[f]) == c && Agrees(seed, have, c)
    ensures UnderSeed(net, f, seed)
  {
  }

  /** The registers of a chain: all under the controls it returns, and under those the cell has fixed. */
  ghost predicate Controlled(net: Net, c: Chain, seed: Seed) {
    && (c.controls.Some? <==> |c.stages| > 0)
    && (forall k :: 0 <= k < |c.stages| ==> c.stages[k] != [])
    && (forall k, f :: 0 <= k < |c.stages| && f in c.stages[k] ==>
          UnderSeed(net, f, seed) && ControlsOf(net.cells[f]) == c.controls.value)
  }

  lemma ChainControlled(net: Net, index: FlopIndex, users: multiset<Bit>, s: Sig, c: Chain, seed: Seed,
                        absorbed: set<nat>, shared: set<nat>)
    requires ChainOk(net, index, users, s, c, seed, absorbed, shared)
    ensures Controlled(net, c, seed)
  {
    hide Canon, SolelyRead, ControlsOf, UnderSeed, FlopBlocked, UseCount;
    forall k | 0 <= k < |c.stages|
      ensures c.stages[k] != []
      ensures forall f :: f in c.stages[k] ==> UnderSeed(net, f, seed) && ControlsOf(net.cells[f]) == c.controls.value
    {
      var src := Source(s, c, k);
      assert StageOk(net, index, src, c.stages[k], c.stageD[k], c.controls.value, absorbed, shared);
      assert TakesD(net, Drivers(net, index, src)[0], c.stages[k], c.stageD[k][0]);
      forall f | f in c.stages[k] ensures UnderSeed(net, f, seed) {
        assert FlopFits(net, f, absorbed, shared);
        SeededFlop(net, f, seed, None, c.controls.value);
      }
    }
  }

  lemma ChainGrows(net: Net, index: FlopIndex, users: multiset<Bit>, s: Sig, c: Chain, c': Chain, seed: Seed,
                   absorbed: set<nat>, shared: set<nat>)
    requires ChainOk(net, index, users, s, c, seed, absorbed, shared)
    requires var n := |c.stages|;
             && |c'.stages| == |c'.stageD| == n + 1 && c'.stages[..n] == c.stages && c'.stageD[..n] == c.stageD
             && c'.controls.Some? && Agrees(seed, c.controls, c'.controls.value)
             && (c.copied ==> c'.copied)
             && StageOk(net, index, Source(s, c', n), c'.stages[n], c'.stageD[n], c'.controls.value, absorbed, shared)
             && (!c'.copied ==> forall f :: f in c'.stages[n] ==>
                   SolelyRead(net, Drivers(net, index, Source(s, c', n)), f, users, shared))
    ensures ChainOk(net, index, users, s, c', seed, absorbed, shared)
  {
    hide Canon, StageOk, SolelyRead, Drivers, Source;
    var n := |c.stages|;
    assert Agrees(seed, None, c'.controls.value);
    SameSources(s, c, c');
    assert n > 0 ==> c'.controls == c.controls;
    forall k | 0 <= k < n ensures c'.stages[k] == c.stages[k] && c'.stageD[k] == c.stageD[k] {
      assert c'.stages[..n][k] == c'.stages[k] && c'.stageD[..n][k] == c'.stageD[k];
    }
  }

  // ---- The bank ------------------------------------------------------------------------

  /** The bank's pins, wired from the chain's controls: CE is active high, RSTN active low. */
  predicate PinHigh(p: Pin, e: Env) {
    BitVal(p.net, e) != p.inverted
  }

  /** One register of the bank on one cycle: cleared by RSTN, else loaded when enabled. */
  function BankNext(q: seq<bool>, d: seq<bool>, c: Controls, e0: Env, e1: Env): seq<bool> {
    if !ClockEdge(c.clk, true, e0, e1) then q
    else if !PinHigh(c.rst, e0) then Repeat(false, |d|)
    else if PinHigh(c.en, e0) then d
    else q
  }

  /** What register `k` is fed: the register before it, or the port. */
  function Fed(q: seq<seq<bool>>, port: seq<bool>, k: nat): seq<bool> {
    if k + 1 < |q| then q[k + 1] else port
  }

  /** An n-register bank on one cycle; register 0 is the output, register n-1 is fed first. */
  function BankStep(q: seq<seq<bool>>, port: seq<bool>, c: Controls, e0: Env, e1: Env): (r: seq<seq<bool>>)
    ensures |r| == |q|
  {
    seq(|q|, k requires 0 <= k < |q| => BankNext(q[k], Fed(q, port, k), c, e0, e1))
  }

  function BankRun(init: seq<seq<bool>>, input: Sig, c: Controls, run: Run, t: nat): (r: seq<seq<bool>>)
    requires t < |run|
    ensures |r| == |init|
  {
    if t == 0 then init
    else BankStep(BankRun(init, input, c, run, t - 1), Eval(input, run[t - 1]), c, run[t - 1], run[t])
  }

  /** One bit of an absorbed stage steps as the bank does. */
  lemma StageBit(net: Net, index: FlopIndex, src: Sig, stage: seq<nat>, d: Sig, c: Controls,
                 absorbed: set<nat>, shared: set<nat>, run: Run, beh: Behaviour, t: nat, j: nat)
    requires IndexOk(net, index) && FlopsSized(net) && IsRun(net, run, beh) && t + 1 < |run| && j < |src|
    requires StageOk(net, index, src, stage, d, c, absorbed, shared)
    ensures BitVal(src[j], run[t + 1]) ==
      if !ClockEdge(c.clk, true, run[t], run[t + 1]) then BitVal(src[j], run[t])
      else if !PinHigh(c.rst, run[t]) then false
      else if PinHigh(c.en, run[t]) then BitVal(d[j], run[t])
      else BitVal(src[j], run[t])
  {
    hide Canon, FlopBlocked;
    assert src[j] in src;
    var p := Drivers(net, index, src)[j];
    assert TakesD(net, p, stage, d[j]);
    var ff := net.cells[p.0];
    assert FlopFits(net, p.0, absorbed, shared) && ControlsOf(ff) == c && ff in net.cells;
    assert index[Canon(net.conns, src[j])] == p;
    CanonValue(net.conns, src[j], run[t]);
    CanonValue(net.conns, src[j], run[t + 1]);
    CanonValue(net.conns, ff.q[p.1], run[t]);
    CanonValue(net.conns, ff.q[p.1], run[t + 1]);
    assert Eval(ff.q, run[t + 1])[p.1] == FlopNext(ff, run[t], run[t + 1])[p.1];
    if ff.srst.Some? { assert ff.srst.value.value[p.1] in ff.srst.value.value; }
  }

  /** The whole stage, at the width of a port, steps as the bank register of that width. */
  lemma StageStep(net: Net, index: FlopIndex, src: Sig, stage: seq<nat>, d: Sig, c: Controls,
                  absorbed: set<nat>, shared: set<nat>, run: Run, beh: Behaviour, t: nat, width: nat, signed: bool)
    requires IndexOk(net, index) && FlopsSized(net) && IsRun(net, run, beh) && t + 1 < |run|
    requires StageOk(net, index, src, stage, d, c, absorbed, shared)
    ensures Eval(ExtendU0(src, width, signed), run[t + 1]) ==
      BankNext(Eval(ExtendU0(src, width, signed), run[t]), Eval(ExtendU0(d, width, signed), run[t]), c, run[t], run[t + 1])
  {
    hide Canon, StageOk, IsRun, ClockEdge, PinHigh, FlopsSized, IndexOk;
    var s', d' := ExtendU0(src, width, signed), ExtendU0(d, width, signed);
    assert |d| == |src| && |src| > 0 by { StageSize(net, index, src, stage, d, c, absorbed, shared); }
    var after, before, fed := Eval(s', run[t + 1]), Eval(s', run[t]), Eval(d', run[t]);
    var next := BankNext(before, fed, c, run[t], run[t + 1]);
    forall i | 0 <= i < |after| ensures after[i] == next[i] {
      var j := if i < |src| then i else |src| - 1;
      StageBit(net, index, src, stage, d, c, absorbed, shared, run, beh, t, j);
    }
  }

  /**
   The bank simulates the chain: on every cycle of every run, register `k` of an
   n-register bank fed by what feeds the last absorbed stage holds what stage
   `k`'s flops hold, at the port's width. So the port's operand, which is
   register 0, is the RTL's.
   */
  lemma {:induction false} BankSimulates(
      net: Net, index: FlopIndex, users: multiset<Bit>, s: Sig, c: Chain, n: nat, seed: Seed,
      absorbed: set<nat>, shared: set<nat>, width: nat, signed: bool,
      init: seq<seq<bool>>, run: Run, beh: Behaviour, t: nat, k: nat)
    requires IndexOk(net, index) && FlopsSized(net) && IsRun(net, run, beh) && t < |run|
    requires ChainOk(net, index, users, s, c, seed, absorbed, shared) && k < n <= |c.stages|
    requires MatchesAt(init, s, c, n, width, signed, run[0])
    ensures BankRun(init, ExtendU0(c.stageD[n - 1], width, signed), c.controls.value, run, t)[k]
         == Eval(ExtendU0(Source(s, c, k), width, signed), run[t])
    decreases t
  {
    hide *;
    ChainStage(net, index, users, s, c, k, seed, absorbed, shared);
    MatchesSize(init, s, c, n, width, signed, run[0]);
    var input, controls := ExtendU0(c.stageD[n - 1], width, signed), c.controls.value;
    var out, feed := ExtendU0(Source(s, c, k), width, signed), ExtendU0(c.stageD[k], width, signed);
    if t == 0 {
      BankStarts(init, input, s, c, n, k, width, signed, run);
    } else {
      BankSimulates(net, index, users, s, c, n, seed, absorbed, shared, width, signed, init, run, beh, t - 1, k);
      if k + 1 < n {
        BankSimulates(net, index, users, s, c, n, seed, absorbed, shared, width, signed, init, run, beh, t - 1, k + 1);
        SourceNext(s, c, k);
      }
      StageStep(net, index, Source(s, c, k), c.stages[k], c.stageD[k], controls, absorbed, shared,
                run, beh, t - 1, width, signed);
      BankAdvances(init, input, controls, run, t, k, out, feed);
    }
  }

  lemma MatchesSize(init: seq<seq<bool>>, s: Sig, c: Chain, n: nat, width: nat, signed: bool, e: Env)
    requires MatchesAt(init, s, c, n, width, signed, e)
    ensures |init| == n <= |c.stageD|
  {
  }

  lemma SourceNext(s: Sig, c: Chain, k: nat)
    requires k < |c.stageD|
    ensures Source(s, c, k + 1) == c.stageD[k]
  {
  }

  lemma BankAdvances(init: seq<seq<bool>>, input: Sig, c: Controls, run: Run, t: nat, k: nat, out: Sig, feed: Sig)
    requires 0 < t < |run| && k < |init|
    requires BankRun(init, input, c, run, t - 1)[k] == Eval(out, run[t - 1])
    requires if k + 1 < |init| then BankRun(init, input, c, run, t - 1)[k + 1] == Eval(feed, run[t - 1])
             else Eval(input, run[t - 1]) == Eval(feed, run[t - 1])
    requires Eval(out, run[t]) == BankNext(Eval(out, run[t - 1]), Eval(feed, run[t - 1]), c, run[t - 1], run[t])
    ensures BankRun(init, input, c, run, t)[k] == Eval(out, run[t])
  {
    hide BankNext, Eval, BankRun;
    BankSteps(init, input, c, run, t, k);
  }

  /** The registers start with what the flops of their stages hold. */
  predicate MatchesAt(init: seq<seq<bool>>, s: Sig, c: Chain, n: nat, width: nat, signed: bool, e: Env) {
    |init| == n <= |c.stageD|
    && forall k :: 0 <= k < n ==> init[k] == Eval(ExtendU0(Source(s, c, k), width, signed), e)
  }

  lemma BankStarts(init: seq<seq<bool>>, input: Sig, s: Sig, c: Chain, n: nat, k: nat, width: nat, signed: bool, run: Run)
    requires |run| > 0 && c.controls.Some? && k < n && MatchesAt(init, s, c, n, width, signed, run[0])
    ensures BankRun(init, input, c.controls.value, run, 0)[k] == Eval(ExtendU0(Source(s, c, k), width, signed), run[0])
  {
    hide Eval, ExtendU0, Source;
  }

  lemma ChainStage(net: Net, index: FlopIndex, users: multiset<Bit>, s: Sig, c: Chain, k: nat, seed: Seed,
                   absorbed: set<nat>, shared: set<nat>)
    requires ChainOk(net, index, users, s, c, seed, absorbed, shared) && k < |c.stages|
    ensures |c.stages| == |c.stageD| && c.controls.Some?
    ensures StageOk(net, index, Source(s, c, k), c.stages[k], c.stageD[k], c.controls.value, absorbed, shared)
  {
    hide StageOk, SolelyRead, Agrees;
  }

  lemma BankSteps(init: seq<seq<bool>>, input: Sig, c: Controls, run: Run, t: nat, k: nat)
    requires 0 < t < |run| && k < |init|
    ensures BankRun(init, input, c, run, t)[k]
         == BankNext(BankRun(init, input, c, run, t - 1)[k],
                     Fed(BankRun(init, input, c, run, t - 1), Eval(input, run[t - 1]), k),
                     c, run[t - 1], run[t])
  {
    hide BankNext, Fed, Eval;
  }

  // ---- The two-register operand path ------------------------------------------------------

  /** The A or B path: a register R1 on the port, R2 behind it or the port, and what leaves. */
  datatype Path = Path(r1: seq<bool>, r2: seq<bool>)

  function PathOut(p: Path, input: seq<bool>, reg1: bool): seq<bool> {
    if reg1 then p.r2 else input
  }

  function PathNext(p: Path, input: seq<bool>, reg0: bool, c: Controls, e0: Env, e1: Env): Path {
    Path(BankNext(p.r1, input, c, e0, e1), BankNext(p.r2, if reg0 then p.r1 else input, c, e0, e1))
  }

  function PathRun(p: Path, input: Sig, reg0: bool, c: Controls, run: Run, t: nat): Path
    requires t < |run|
  {
    if t == 0 then p
    else PathNext(PathRun(p, input, reg0, c, run, t - 1), Eval(input, run[t - 1]), reg0, c, run[t - 1], run[t])
  }

  /** `n` stages are encoded as (REG0, REG1) = (n >= 2, n >= 1); the path is then the n-register bank. */
  lemma {:induction false} PathIsBank(init: seq<seq<bool>>, r1: seq<bool>, input: Sig, c: Controls, run: Run, t: nat)
    requires 1 <= |init| <= 2 && t < |run| && (|init| == 2 ==> r1 == init[1])
    ensures var p := PathRun(Path(r1, init[0]), input, |init| >= 2, c, run, t);
            && PathOut(p, Eval(input, run[t]), |init| >= 1) == BankRun(init, input, c, run, t)[0]
            && (|init| == 2 ==> p.r1 == BankRun(init, input, c, run, t)[1])
    decreases t
  {
    hide BankNext, Eval;
    if t > 0 { PathIsBank(init, r1, input, c, run, t - 1); }
  }

  /** Pins that carry a chain's controls: its clock's net, its enable and its reset. */
  predicate SamePins(conns: Conns, pins: Controls, c: Controls) {
    Canon(conns, pins.clk) == Canon(conns, c.clk) && pins.en == c.en && pins.rst == c.rst
  }

  lemma {:induction false} PathPins(conns: Conns, pins: Controls, c: Controls, p: Path, input: Sig, reg0: bool, run: Run, t: nat)
    requires SamePins(conns, pins, c) && t < |run| && forall x :: 0 <= x < |run| ==> ConnsHold(conns, run[x])
    ensures PathRun(p, input, reg0, pins, run, t) == PathRun(p, input, reg0, c, run, t)
    decreases t
  {
    hide Canon, Eval, ConnsHold;
    if t > 0 {
      PathPins(conns, pins, c, p, input, reg0, run, t - 1);
      CanonValue(conns, pins.clk, run[t - 1]);
      CanonValue(conns, c.clk, run[t - 1]);
      CanonValue(conns, pins.clk, run[t]);
      CanonValue(conns, c.clk, run[t]);
    }
  }

  /** On such pins the operand leaving the path is the RTL's, for every depth the hardware has. */
  lemma OperandPathExact(
      net: Net, index: FlopIndex, users: multiset<Bit>, s: Sig, c: Chain, n: nat, seed: Seed,
      absorbed: set<nat>, shared: set<nat>, width: nat, signed: bool, pins: Controls, p: Path, run: Run, beh: Behaviour, t: nat)
    requires IndexOk(net, index) && FlopsSized(net) && IsRun(net, run, beh) && t < |run|
    requires ChainOk(net, index, users, s, c, seed, absorbed, shared) && n <= |c.stages| && n <= 2
    requires n > 0 ==> c.controls.Some? && SamePins(net.conns, pins, c.controls.value)
    requires n >= 1 ==> p.r2 == Eval(ExtendU0(s, width, signed), run[0])
    requires n >= 2 ==> p.r1 == Eval(ExtendU0(c.stageD[0], width, signed), run[0])
    ensures PathOut(PathRun(p, ExtendU0(Source(s, c, n), width, signed), n >= 2, pins, run, t),
                    Eval(ExtendU0(Source(s, c, n), width, signed), run[t]), n >= 1)
         == Eval(ExtendU0(s, width, signed), run[t])
  {
    hide Canon, FlopsSized, IndexOk, ExtendU0, Eval, StageOk, SolelyRead, BankRun, PathRun, CellHolds, SamePins;
    if n > 0 {
      var init := if n == 1 then [p.r2] else [p.r2, p.r1];
      assert MatchesAt(init, s, c, n, width, signed, run[0]);
      BankSimulates(net, index, users, s, c, n, seed, absorbed, shared, width, signed, init, run, beh, t, 0);
      PathIsBank(init, p.r1, ExtendU0(c.stageD[n - 1], width, signed), c.controls.value, run, t);
      PathPins(net.conns, pins, c.controls.value, p, ExtendU0(Source(s, c, n), width, signed), n >= 2, run, t);
    }
  }
}
