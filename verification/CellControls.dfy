/**
 One clock pin, one reset pin and three clock enables for all the registers a DSP
 takes in: which chains have to be given up for that, and how the pins are wired.
 */
module CellControls {
  import opened Bits
  import opened Netlist
  import opened FlopChains

  const MAX_ENABLES: nat := 3

  /** The registers of the match itself: behind the multiplier, on the result, behind the pre-adder. */
  datatype Registers = Registers(m: Option<nat>, p: Option<nat>, ad: Option<nat>)

  predicate IsFlop(net: Net, r: Option<nat>) {
    r.Some? ==> r.value < |net.cells| && net.cells[r.value].Flop?
  }

  predicate RegistersOk(net: Net, own: Registers) {
    IsFlop(net, own.m) && IsFlop(net, own.p) && IsFlop(net, own.ad)
  }

  /** Chains take the clock of M, or else of the result register, and the reset of M only. */
  function SeedOf(net: Net, own: Registers): Seed
    requires RegistersOk(net, own)
  {
    Seed(if own.m.Some? then Some(net.cells[own.m.value].clk)
         else if own.p.Some? then Some(net.cells[own.p.value].clk) else None,
         if own.m.Some? then Some(ResetPin(net.cells[own.m.value])) else None)
  }

  ghost predicate AllControlled(net: Net, own: Registers, cs: seq<Chain>)
    requires RegistersOk(net, own)
  {
    forall a :: 0 <= a < |cs| ==> Controlled(net, cs[a], SeedOf(net, own))
  }

  /** How much of each chain is taken: all of it or nothing. */
  predicate Shares(cs: seq<Chain>, ns: seq<nat>) {
    |ns| == |cs| && forall a :: 0 <= a < |cs| ==> ns[a] == 0 || ns[a] == |cs[a].stages|
  }

  // ---- One clock, one reset ---------------------------------------------------------------

  predicate Agree(c: Chain, c': Chain) {
    && c.controls.Some? && c'.controls.Some?
    && c.controls.value.clk == c'.controls.value.clk && c.controls.value.rst == c'.controls.value.rst
  }

  /** The chains kept agree, and one is given up only for an earlier one that is kept. */
  ghost predicate GivenUp(cs: seq<Chain>, ns: seq<nat>) {
    && Shares(cs, ns)
    && (forall a, b :: 0 <= a < b < |cs| && ns[a] > 0 && ns[b] > 0 ==> Agree(cs[a], cs[b]))
    && (forall b :: 0 <= b < |cs| && ns[b] < |cs[b].stages| ==> exists a :: 0 <= a < b && ns[a] > 0 && !Agree(cs[a], cs[b]))
  }

  method GiveUpDisagreeing(cs: seq<Chain>) returns (ns: seq<nat>)
    ensures GivenUp(cs, ns)
  {
    hide Agree;
    ns := [];
    for b := 0 to |cs|
      invariant |ns| == b && forall a :: 0 <= a < b ==> ns[a] == 0 || ns[a] == |cs[a].stages|
      invariant forall x, y :: 0 <= x < y < b && ns[x] > 0 && ns[y] > 0 ==> Agree(cs[x], cs[y])
      invariant forall y :: 0 <= y < b && ns[y] < |cs[y].stages| ==> exists x :: 0 <= x < y && ns[x] > 0 && !Agree(cs[x], cs[y])
    {
      var n := |cs[b].stages|;
      for a := 0 to b
        invariant n == 0 || n == |cs[b].stages|
        invariant n > 0 ==> forall x :: 0 <= x < a && ns[x] > 0 ==> Agree(cs[x], cs[b])
        invariant n < |cs[b].stages| ==> exists x :: 0 <= x < b && ns[x] > 0 && !Agree(cs[x], cs[b])
      {
        if ns[a] > 0 && n > 0 && !Agree(cs[a], cs[b]) {
          n := 0;
        }
      }
      ns := ns + [n];
    }
  }

  /** A register in one of the operand banks. */
  ghost predicate InBank(cs: seq<Chain>, ns: seq<nat>, f: nat) {
    |ns| == |cs| && exists a, k :: 0 <= a < |cs| && 0 <= k < ns[a] && k < |cs[a].stages| && f in cs[a].stages[k]
  }

  // ---- Three enables ------------------------------------------------------------------------

  /** The clock enables the cell needs routed, constants aside. */
  function Enables(net: Net, own: Registers, cs: seq<Chain>, ns: seq<nat>): set<Bit>
    requires RegistersOk(net, own) && |ns| == |cs|
  {
    (set a | 0 <= a < |cs| && ns[a] > 0 && cs[a].controls.Some? && cs[a].controls.value.en.net.Wire? ::
       cs[a].controls.value.en.net) + ResultEnable(net, own)
  }

  function ResultEnable(net: Net, own: Registers): (s: set<Bit>)
    requires RegistersOk(net, own)
    ensures |s| <= 1
  {
    if own.p.Some? && net.cells[own.p.value].en.Some? && net.cells[own.p.value].en.value.net.Wire?
    then {net.cells[own.p.value].en.value.net} else {}
  }

  /** The first `k` ports of an order given up. */
  function Without(ns: seq<nat>, order: seq<nat>, k: nat): (r: seq<nat>)
    requires k <= |order|
    ensures |r| == |ns|
  {
    seq(|ns|, a requires 0 <= a < |ns| => if a in order[..k] then 0 else ns[a])
  }

  /** No more ports than needed are given up for the enables, narrowest first. */
  ghost predicate Evicted(net: Net, own: Registers, cs: seq<Chain>, ns: seq<nat>, order: seq<nat>, ns': seq<nat>)
    requires RegistersOk(net, own) && |ns| == |cs|
  {
    exists k :: 0 <= k <= |order| && ns' == Without(ns, order, k) && |Enables(net, own, cs, ns')| <= MAX_ENABLES
      && forall j :: 0 <= j < k ==> |Enables(net, own, cs, Without(ns, order, j))| > MAX_ENABLES
  }

  predicate Covers(order: seq<nat>, n: nat) {
    (forall x :: x in order ==> x < n) && forall a :: 0 <= a < n ==> a in order
  }

  method EvictEnables(m: Module, own: Registers, cs: seq<Chain>, ns: seq<nat>, order: seq<nat>) returns (r: seq<nat>)
    requires RegistersOk(m.View(), own) && |ns| == |cs| && Covers(order, |cs|)
    ensures Evicted(m.View(), own, cs, ns, order, r)
  {
    hide Enables;
    r := ns;
    assert Without(ns, order, 0) == ns;
    for k := 0 to |order|
      invariant r == Without(ns, order, k)
      invariant forall j :: 0 <= j < k ==> |Enables(m.View(), own, cs, Without(ns, order, j))| > MAX_ENABLES
    {
      if |Enables(m.View(), own, cs, r)| <= MAX_ENABLES {
        return;
      }
      assert order[k] in order;
      WithoutNext(ns, order, k);
      r := r[order[k] := 0];
    }
    AllEvicted(m.View(), own, cs, ns, order);
  }

  lemma WithoutNext(ns: seq<nat>, order: seq<nat>, k: nat)
    requires k < |order| && order[k] < |ns|
    ensures Without(ns, order, k + 1) == Without(ns, order, k)[order[k] := 0]
  {
    assert order[..k + 1] == order[..k] + [order[k]];
  }

  /** What the result register needs is never too much. */
  lemma AllEvicted(net: Net, own: Registers, cs: seq<Chain>, ns: seq<nat>, order: seq<nat>)
    requires RegistersOk(net, own) && |ns| == |cs| && Covers(order, |cs|)
    ensures |Enables(net, own, cs, Without(ns, order, |order|))| <= 1
  {
    var r := Without(ns, order, |order|);
    assert order[..|order|] == order;
    assert forall a :: 0 <= a < |cs| ==> r[a] == 0;
    assert Enables(net, own, cs, r) == ResultEnable(net, own);
  }

  // ---- The pre-adder's register ---------------------------------------------------------------

  /** Chains that reset otherwise than the pre-adder's register are given up for it. */
  function ForPreadder(net: Net, own: Registers, cs: seq<Chain>, ns: seq<nat>): (r: seq<nat>)
    requires RegistersOk(net, own) && |ns| == |cs|
    ensures |r| == |ns|
  {
    seq(|ns|, a requires 0 <= a < |ns| =>
      if own.ad.Some? && cs[a].controls.Some? && cs[a].controls.value.rst != ResetPin(net.cells[own.ad.value]) then 0 else ns[a])
  }

  /** What the rules leave of each chain, in the order they are applied. */
  ghost predicate Granted(net: Net, own: Registers, cs: seq<Chain>, order: seq<nat>, ns: seq<nat>)
    requires RegistersOk(net, own)
  {
    exists agreed, routed :: GivenUp(cs, agreed) && |agreed| == |cs| && Evicted(net, own, cs, agreed, order, routed)
      && |routed| == |cs| && ns == ForPreadder(net, own, cs, routed)
  }

  function FirstTaken(ns: seq<nat>): (r: Option<nat>)
    ensures r.Some? ==> r.value < |ns| && ns[r.value] > 0
    ensures r.None? ==> forall a :: 0 <= a < |ns| ==> ns[a] == 0
  {
    if ns == [] then None
    else
      var before := FirstTaken(ns[..|ns| - 1]);
      if before.Some? then before
      else if ns[|ns| - 1] > 0 then Some(|ns| - 1)
      else None
  }

  /** The clock the cell has without the pre-adder's register. */
  function CellClock(net: Net, own: Registers, cs: seq<Chain>, ns: seq<nat>): Option<Bit>
    requires RegistersOk(net, own) && |ns| == |cs|
  {
    var first := FirstTaken(ns);
    if first.Some? && cs[first.value].controls.Some? then Some(cs[first.value].controls.value.clk)
    else if own.m.Some? then Some(net.cells[own.m.value].clk)
    else if own.p.Some? then Some(net.cells[own.p.value].clk)
    else None
  }

  predicate Holdable(net: Net, r: Option<nat>)
    requires IsFlop(net, r)
  {
    r.Some? ==> !FlopBlocked(net, net.cells[r.value]) && ResetsToZero(net.cells[r.value])
  }

  /** None of the registers of the match is in the way of another, or of its bank. */
  predicate Compatible(net: Net, own: Registers, cs: seq<Chain>, ns: seq<nat>)
    requires RegistersOk(net, own) && |ns| == |cs|
  {
    && Holdable(net, own.m) && Holdable(net, own.p) && Holdable(net, own.ad)
    && (own.m.Some? && own.p.Some? ==>
          Canon(net.conns, net.cells[own.m.value].clk) == Canon(net.conns, net.cells[own.p.value].clk))
    && (own.ad.Some? ==>
          && (own.m.Some? ==> ResetPin(net.cells[own.m.value]) == ResetPin(net.cells[own.ad.value]))
          && (CellClock(net, own, cs, ns).Some? ==> CellClock(net, own, cs, ns).value == net.cells[own.ad.value].clk))
  }

  /** The rules of the shared controls, applied to the chains the walks found. */
  method ShareControls(m: Module, own: Registers, cs: seq<Chain>, order: seq<nat>) returns (ok: bool, ns: seq<nat>)
    requires RegistersOk(m.View(), own) && Covers(order, |cs|)
    ensures |ns| == |cs| && Granted(m.View(), own, cs, order, ns)
    ensures ok <==> Compatible(m.View(), own, cs, ns)
  {
    hide Canon, FlopBlocked, GivenUp, Evicted;
    var agreed := GiveUpDisagreeing(cs);
    assert |agreed| == |cs| by { SharesSize(cs, agreed); }
    var routed := EvictEnables(m, own, cs, agreed, order);
    assert |routed| == |cs| by { EvictedSize(m.View(), own, cs, agreed, order, routed); }
    ns := ForPreadder(m.View(), own, cs, routed);
    if own.m.Some? {
      var ff := m.cells[own.m.value];
      var blocked := FlopBlocked(m.View(), ff);
      if blocked || !ResetsToZero(ff) || (own.p.Some? && Canon(m.conns, ff.clk) != Canon(m.conns, m.cells[own.p.value].clk)) {
        return false, ns;
      }
    }
    if own.p.Some? {
      var blocked := FlopBlocked(m.View(), m.cells[own.p.value]);
      if blocked || !ResetsToZero(m.cells[own.p.value]) {
        return false, ns;
      }
    }
    if own.ad.Some? {
      var ff := m.cells[own.ad.value];
      var blocked := FlopBlocked(m.View(), ff);
      var clk := CellClock(m.View(), own, cs, ns);
      if blocked || !ResetsToZero(ff) || (own.m.Some? && ResetPin(m.cells[own.m.value]) != ResetPin(ff)) || (clk.Some? && clk.value != ff.clk) {
        return false, ns;
      }
    }
    return true, ns;
  }

  lemma SharesSize(cs: seq<Chain>, ns: seq<nat>)
    requires GivenUp(cs, ns)
    ensures |ns| == |cs|
  {
    hide Agree;
  }

  lemma EvictedSize(net: Net, own: Registers, cs: seq<Chain>, ns: seq<nat>, order: seq<nat>, ns': seq<nat>)
    requires RegistersOk(net, own) && |ns| == |cs| && Evicted(net, own, cs, ns, order, ns')
    ensures |ns'| == |ns| && |Enables(net, own, cs, ns')| <= MAX_ENABLES
    ensures forall a :: 0 <= a < |ns| ==> ns'[a] == 0 || ns'[a] == ns[a]
  {
    hide Enables;
  }

  /** The chains that are left are whole and agree on clock and reset; three enables do. */
  lemma GrantedAgree(net: Net, own: Registers, cs: seq<Chain>, order: seq<nat>, ns: seq<nat>)
    requires RegistersOk(net, own) && |ns| == |cs| && Granted(net, own, cs, order, ns)
    ensures Shares(cs, ns)
    ensures forall a, b :: 0 <= a < b < |cs| && ns[a] > 0 && ns[b] > 0 ==> Agree(cs[a], cs[b])
    ensures forall a :: 0 <= a < |cs| && ns[a] > 0 && own.ad.Some? && cs[a].controls.Some? ==>
      cs[a].controls.value.rst == ResetPin(net.cells[own.ad.value])
    ensures |Enables(net, own, cs, ns)| <= 3
  {
    hide Agree, ResetPin, Evicted, Enables;
    var agreed, routed := GrantedParts(net, own, cs, order, ns);
    EvictedSize(net, own, cs, agreed, order, routed);
    FewerEnables(net, own, cs, routed, ns);
  }

  lemma FewerEnables(net: Net, own: Registers, cs: seq<Chain>, ns: seq<nat>, ns': seq<nat>)
    requires RegistersOk(net, own) && |ns| == |ns'| == |cs|
    requires forall a :: 0 <= a < |ns| ==> ns'[a] == 0 || ns'[a] == ns[a]
    ensures |Enables(net, own, cs, ns')| <= |Enables(net, own, cs, ns)|
  {
    var fewer, all := Enables(net, own, cs, ns'), Enables(net, own, cs, ns);
    assert fewer <= all && all == fewer + (all - fewer);
  }

  /** The enables counted are those of the registers taken, and of the result's. */
  lemma EnablesAre(net: Net, own: Registers, cs: seq<Chain>, ns: seq<nat>, b: Bit)
    requires RegistersOk(net, own) && AllControlled(net, own, cs) && Shares(cs, ns)
    ensures b in Enables(net, own, cs, ns) <==> (
      b.Wire? && ((exists f :: InBank(cs, ns, f) && EnabledBy(net, f, b)) || (own.p.Some? && EnabledBy(net, own.p.value, b))))
  {
    hide Controlled, InBank, EnabledBy;
    if b in Enables(net, own, cs, ns) && b !in ResultEnable(net, own) {
      var a :| 0 <= a < |cs| && ns[a] > 0 && cs[a].controls.Some? && cs[a].controls.value.en.net == b;
      OneControlled(net, own, cs, a);
      var f := ChainEnabled(net, cs, ns, a, SeedOf(net, own), b);
    }
    forall f: nat | InBank(cs, ns, f) && EnabledBy(net, f, b) && b.Wire? ensures b in Enables(net, own, cs, ns) {
      var a := InBankFacts(net, own, cs, ns, f);
      EnabledPin(net, f, b);
    }
    ResultEnabled(net, own, b);
  }

  lemma ChainEnabled(net: Net, cs: seq<Chain>, ns: seq<nat>, a: nat, seed: Seed, b: Bit) returns (f: nat)
    requires Shares(cs, ns) && a < |cs| && ns[a] > 0 && Controlled(net, cs[a], seed)
    requires cs[a].controls.Some? && cs[a].controls.value.en.net == b && b.Wire?
    ensures InBank(cs, ns, f) && EnabledBy(net, f, b)
  {
    f := cs[a].stages[0][0];
    assert f in cs[a].stages[0];
    assert UnderSeed(net, f, seed) && ControlsOf(net.cells[f]) == cs[a].controls.value;
  }

  lemma ResultEnabled(net: Net, own: Registers, b: Bit)
    requires RegistersOk(net, own)
    ensures b in ResultEnable(net, own) <==> b.Wire? && own.p.Some? && EnabledBy(net, own.p.value, b)
  {
  }

  lemma EnabledPin(net: Net, f: nat, b: Bit)
    requires EnabledBy(net, f, b)
    ensures f < |net.cells| && net.cells[f].Flop? && EnablePin(net.cells[f]).net == b
  {
  }

  predicate EnabledBy(net: Net, f: nat, b: Bit) {
    f < |net.cells| && net.cells[f].Flop? && net.cells[f].en.Some? && net.cells[f].en.value.net == b
  }

  function Whole(cs: seq<Chain>): (ns: seq<nat>)
    ensures |ns| == |cs|
  {
    seq(|cs|, a requires 0 <= a < |cs| => |cs[a].stages|)
  }

  /** A chain disagrees with another on the clock or the reset of their registers. */
  ghost predicate Clash(net: Net, c: Chain, c': Chain) {
    exists f: nat, g: nat :: InStage(net, c, f) && InStage(net, c', g)
      && (net.cells[f].clk != net.cells[g].clk || ResetPin(net.cells[f]) != ResetPin(net.cells[g]))
  }

  ghost predicate ResetsOtherwise(net: Net, c: Chain, rst: Pin) {
    exists f: nat :: InStage(net, c, f) && ResetPin(net.cells[f]) != rst
  }

  predicate InStage(net: Net, c: Chain, f: nat) {
    |c.stages| > 0 && f in c.stages[0] && f < |net.cells| && net.cells[f].Flop?
  }

  lemma ClashIff(net: Net, c: Chain, c': Chain, seed: Seed)
    requires Controlled(net, c, seed) && Controlled(net, c', seed) && |c.stages| > 0 && |c'.stages| > 0
    ensures Clash(net, c, c') <==> !Agree(c, c')
  {
    var f, g := c.stages[0][0], c'.stages[0][0];
    assert f in c.stages[0] && g in c'.stages[0];
    assert UnderSeed(net, f, seed) && UnderSeed(net, g, seed);
    assert InStage(net, c, f) && InStage(net, c', g);
  }

  /**
   A chain is left in fabric only for a reason: an earlier chain with another
   clock or reset, another reset on the pre-adder's register, or four enables.
   */
  lemma WhyGivenUp(net: Net, own: Registers, cs: seq<Chain>, order: seq<nat>, ns: seq<nat>, a: nat)
    requires RegistersOk(net, own) && |ns| == |cs| && AllControlled(net, own, cs) && Granted(net, own, cs, order, ns)
    requires a < |cs| && ns[a] < |cs[a].stages|
    ensures
      || (exists b :: 0 <= b < a && Clash(net, cs[b], cs[a]))
      || (own.ad.Some? && ResetsOtherwise(net, cs[a], ResetPin(net.cells[own.ad.value])))
      || |Enables(net, own, cs, Whole(cs))| >= 4
  {
    assert own.ad.Some? ==> own.ad.value < |net.cells| && net.cells[own.ad.value].Flop?;
    hide *;
    var agreed, routed := GrantedParts(net, own, cs, order, ns);
    var seed := SeedOf(net, own);
    OneControlled(net, own, cs, a);
    if agreed[a] < |cs[a].stages| {
      var b := NotAgreed(cs, agreed, a);
      OneControlled(net, own, cs, b);
      ClashIff(net, cs[b], cs[a], seed);
    } else if routed[a] < agreed[a] {
      NotRouted(net, own, cs, agreed, order, routed, a);
    } else {
      NotForPreadder(net, own, cs, routed, a);
      OtherReset(net, cs[a], seed, ResetPin(net.cells[own.ad.value]));
    }
  }

  lemma GrantedParts(net: Net, own: Registers, cs: seq<Chain>, order: seq<nat>, ns: seq<nat>)
      returns (agreed: seq<nat>, routed: seq<nat>)
    requires RegistersOk(net, own) && Granted(net, own, cs, order, ns)
    ensures |agreed| == |routed| == |cs| && GivenUp(cs, agreed) && Evicted(net, own, cs, agreed, order, routed)
    ensures ns == ForPreadder(net, own, cs, routed)
  {
    hide Agree, Enables, ResetPin, GivenUp, Evicted, ForPreadder;
    agreed, routed :| GivenUp(cs, agreed) && |agreed| == |cs| && Evicted(net, own, cs, agreed, order, routed)
      && |routed| == |cs| && ns == ForPreadder(net, own, cs, routed);
  }

  lemma OneControlled(net: Net, own: Registers, cs: seq<Chain>, a: nat)
    requires RegistersOk(net, own) && AllControlled(net, own, cs) && a < |cs|
    ensures Controlled(net, cs[a], SeedOf(net, own))
  {
    hide Controlled;
  }

  lemma NotForPreadder(net: Net, own: Registers, cs: seq<Chain>, ns: seq<nat>, a: nat)
    requires RegistersOk(net, own) && |ns| == |cs| && a < |cs| && ForPreadder(net, own, cs, ns)[a] < ns[a]
    ensures own.ad.Some? && cs[a].controls.Some? && cs[a].controls.value.rst != ResetPin(net.cells[own.ad.value])
  {
    hide ResetPin;
  }

  lemma NotAgreed(cs: seq<Chain>, ns: seq<nat>, a: nat) returns (b: nat)
    requires GivenUp(cs, ns) && |ns| == |cs| && a < |cs| && ns[a] < |cs[a].stages|
    ensures b < a && |cs[b].stages| > 0 && !Agree(cs[b], cs[a])
  {
    hide Agree;
    b :| 0 <= b < a && ns[b] > 0 && !Agree(cs[b], cs[a]);
  }

  lemma NotRouted(net: Net, own: Registers, cs: seq<Chain>, ns: seq<nat>, order: seq<nat>, ns': seq<nat>, a: nat)
    requires RegistersOk(net, own) && |ns| == |cs| == |ns'| && GivenUp(cs, ns) && Evicted(net, own, cs, ns, order, ns')
    requires a < |cs| && ns'[a] < ns[a]
    ensures |Enables(net, own, cs, Whole(cs))| > MAX_ENABLES
  {
    hide Agree, Enables;
    var k :| 0 <= k <= |order| && ns' == Without(ns, order, k)
      && forall j :: 0 <= j < k ==> |Enables(net, own, cs, Without(ns, order, j))| > MAX_ENABLES;
    assert Without(ns, order, 0) == ns;
    assert k > 0;
    FewerEnables(net, own, cs, Whole(cs), ns);
  }

  lemma OtherReset(net: Net, c: Chain, seed: Seed, rst: Pin)
    requires Controlled(net, c, seed) && |c.stages| > 0 && c.controls.Some? && c.controls.value.rst != rst
    ensures ResetsOtherwise(net, c, rst)
  {
    hide Controlled, ResetPin, InStage;
    var f := SomeRegister(net, c, seed);
  }

  lemma SomeRegister(net: Net, c: Chain, seed: Seed) returns (f: nat)
    requires Controlled(net, c, seed) && |c.stages| > 0
    ensures InStage(net, c, f) && c.controls.Some? && ResetPin(net.cells[f]) == c.controls.value.rst
  {
    f := c.stages[0][0];
    assert f in c.stages[0];
    assert UnderSeed(net, f, seed) && ControlsOf(net.cells[f]) == c.controls.value;
  }

  // ---- The pins ----------------------------------------------------------------------------

  /** A register on the RSTN pin: all but the one on the result. */
  ghost predicate OnRstn(own: Registers, cs: seq<Chain>, ns: seq<nat>, f: nat) {
    InBank(cs, ns, f) || own.m == Some(f) || own.ad == Some(f)
  }

  const ALWAYS := Pin(Const(true), true)

  /** The pins, each as the last register that sets it has it. */
  method WirePins(m: Module, own: Registers, cs: seq<Chain>, ns: seq<nat>, ghost order: seq<nat>)
      returns (clk: Option<Bit>, rst: Pin)
    requires RegistersOk(m.View(), own) && |ns| == |cs| && AllControlled(m.View(), own, cs)
    requires Granted(m.View(), own, cs, order, ns) && Compatible(m.View(), own, cs, ns)
    ensures clk == ClkWire(m.View(), own, cs, ns) && rst == RstWire(m.View(), own, cs, ns)
    ensures OneClock(m.View(), own, cs, ns, clk)
    ensures OneReset(m.View(), own, cs, ns, rst) <==> !ResetLost(m.View(), own, cs, ns)
    ensures forall a :: 0 <= a < |cs| && ns[a] > 0 ==> PinsServe(m.View(), own, cs, ns, a, clk, rst)
  {
    hide Canon, FlopBlocked, Compatible, Granted, AllControlled, OneClock, OneReset, ResetLost, PinsServe, ResetPin;
    clk, rst := None, TIED;
    var first := FirstTaken(ns);
    if first.Some? && cs[first.value].controls.Some? {
      var c := cs[first.value].controls.value;
      clk := Some(c.clk);
      if c.rst.net != Const(true) {
        rst := c.rst;
      }
    }
    if own.m.Some? {
      var ff := m.cells[own.m.value];
      clk := Some(ff.clk);
      if ff.srst.Some? {
        rst := ResetPin(ff);
      }
    }
    if own.p.Some? {
      clk := Some(m.cells[own.p.value].clk);
    }
    if own.ad.Some? {
      var ff := m.cells[own.ad.value];
      clk := Some(ff.clk);
      if ff.srst.Some? && rst == TIED {
        rst := ResetPin(ff);
      }
    }
    ClockServes(m.View(), own, cs, ns, order, clk);
    ResetServes(m.View(), own, cs, ns, order, rst);
    forall a | 0 <= a < |cs| && ns[a] > 0 ensures PinsServe(m.View(), own, cs, ns, a, clk, rst) {
      BankServed(m.View(), own, cs, ns, order, a, clk, rst);
    }
  }

  /** Every register the cell takes in is clocked from the net of the one pin. */
  ghost predicate OneClock(net: Net, own: Registers, cs: seq<Chain>, ns: seq<nat>, clk: Option<Bit>) {
    forall f: nat :: f < |net.cells| && net.cells[f].Flop? && (OnRstn(own, cs, ns, f) || own.p == Some(f)) ==>
      clk.Some? && Canon(net.conns, net.cells[f].clk) == Canon(net.conns, clk.value)
  }

  /** And every one but the result's is reset as RSTN is wired. */
  ghost predicate OneReset(net: Net, own: Registers, cs: seq<Chain>, ns: seq<nat>, rst: Pin) {
    forall f: nat :: f < |net.cells| && net.cells[f].Flop? && OnRstn(own, cs, ns, f) ==> ResetPin(net.cells[f]) == rst
  }

  /** A reset held active by a constant 1 is taken for none, unless M or the pre-adder's register has it as well. */
  ghost predicate ResetLost(net: Net, own: Registers, cs: seq<Chain>, ns: seq<nat>) {
    own.m.None? && own.ad.None? && exists f: nat :: f < |net.cells| && net.cells[f].Flop? && InBank(cs, ns, f) && ResetPin(net.cells[f]) == ALWAYS
  }

  /** The pins as the bank of one port has them. */
  ghost predicate PinsServe(net: Net, own: Registers, cs: seq<Chain>, ns: seq<nat>, a: nat, clk: Option<Bit>, rst: Pin)
    requires a < |cs|
  {
    && clk.Some? && cs[a].controls.Some?
    && (!ResetLost(net, own, cs, ns) ==>
          SamePins(net.conns, Controls(clk.value, cs[a].controls.value.en, rst), cs[a].controls.value))
  }

  function ClkWire(net: Net, own: Registers, cs: seq<Chain>, ns: seq<nat>): Option<Bit>
    requires RegistersOk(net, own) && |ns| == |cs|
  {
    if own.ad.Some? then Some(net.cells[own.ad.value].clk)
    else if own.p.Some? then Some(net.cells[own.p.value].clk)
    else if own.m.Some? then Some(net.cells[own.m.value].clk)
    else CellClock(net, own, cs, ns)
  }

  /** What a chain sets RSTN to. */
  function ChainWire(cs: seq<Chain>, ns: seq<nat>): Pin
    requires |ns| == |cs|
  {
    var first := FirstTaken(ns);
    if first.Some? && cs[first.value].controls.Some? && cs[first.value].controls.value.rst.net != Const(true)
    then cs[first.value].controls.value.rst else TIED
  }

  function RstWire(net: Net, own: Registers, cs: seq<Chain>, ns: seq<nat>): Pin
    requires RegistersOk(net, own) && |ns| == |cs|
  {
    var rst := if own.m.Some? && net.cells[own.m.value].srst.Some? then ResetPin(net.cells[own.m.value]) else ChainWire(cs, ns);
    if own.ad.Some? && net.cells[own.ad.value].srst.Some? && rst == TIED then ResetPin(net.cells[own.ad.value]) else rst
  }

  /** What is known of the registers in a bank, and of the first bank. */
  lemma BankFacts(net: Net, own: Registers, cs: seq<Chain>, ns: seq<nat>, order: seq<nat>, a: nat)
    requires RegistersOk(net, own) && |ns| == |cs| && AllControlled(net, own, cs) && Granted(net, own, cs, order, ns)
    requires a < |cs| && ns[a] > 0
    ensures ns[a] == |cs[a].stages| && cs[a].controls.Some? && FirstTaken(ns).Some?
    ensures var seed, c := SeedOf(net, own), cs[a].controls.value;
      && (seed.clk.Some? ==> c.clk == seed.clk.value) && (seed.rst.Some? ==> c.rst == seed.rst.value)
      && (own.ad.Some? ==> c.rst == ResetPin(net.cells[own.ad.value]))
    ensures var first := cs[FirstTaken(ns).value];
      && first.controls.Some? && first.controls.value.clk == cs[a].controls.value.clk
      && first.controls.value.rst == cs[a].controls.value.rst
  {
    hide Granted, FlopBlocked;
    GrantedAgree(net, own, cs, order, ns);
    var b := FirstTaken(ns).value;
    assert Controlled(net, cs[a], SeedOf(net, own)) && Controlled(net, cs[b], SeedOf(net, own));
    SeededControls(net, cs[a], SeedOf(net, own));
    if a != b { assert Agree(cs[a], cs[b]) || Agree(cs[b], cs[a]); }
  }

  lemma SeededControls(net: Net, c: Chain, seed: Seed)
    requires Controlled(net, c, seed) && |c.stages| > 0
    ensures c.controls.Some? && (seed.clk.Some? ==> c.controls.value.clk == seed.clk.value)
    ensures seed.rst.Some? ==> c.controls.value.rst == seed.rst.value
    ensures exists f: nat :: f < |net.cells| && net.cells[f].Flop? && f in c.stages[0] && ControlsOf(net.cells[f]) == c.controls.value
  {
    var f := c.stages[0][0];
    assert f in c.stages[0];
    assert UnderSeed(net, f, seed);
  }

  /** The register's own clock and reset are those of its chain. */
  lemma InBankFacts(net: Net, own: Registers, cs: seq<Chain>, ns: seq<nat>, f: nat) returns (a: nat)
    requires RegistersOk(net, own) && AllControlled(net, own, cs) && InBank(cs, ns, f)
    ensures a < |cs| == |ns| && ns[a] > 0 && f < |net.cells| && net.cells[f].Flop? && cs[a].controls.Some?
    ensures net.cells[f].clk == cs[a].controls.value.clk && ResetPin(net.cells[f]) == cs[a].controls.value.rst
    ensures EnablePin(net.cells[f]) == cs[a].controls.value.en
  {
    var k: nat;
    a, k :| 0 <= a < |cs| && 0 <= k < ns[a] && k < |cs[a].stages| && f in cs[a].stages[k];
    assert Controlled(net, cs[a], SeedOf(net, own));
    assert UnderSeed(net, f, SeedOf(net, own)) && ControlsOf(net.cells[f]) == cs[a].controls.value;
  }

  /** M's own guard on the chains never fires: they were all walked under its controls. */
  lemma MAgrees(net: Net, own: Registers, cs: seq<Chain>, ns: seq<nat>, order: seq<nat>, a: nat)
    requires RegistersOk(net, own) && |ns| == |cs| && AllControlled(net, own, cs) && Granted(net, own, cs, order, ns)
    requires own.m.Some? && a < |cs| && ns[a] > 0
    ensures cs[a].controls.Some? && cs[a].controls.value.clk == net.cells[own.m.value].clk
    ensures cs[a].controls.value.rst == ResetPin(net.cells[own.m.value])
  {
    hide Granted, AllControlled, ResetPin;
    BankFacts(net, own, cs, ns, order, a);
  }

  lemma ChainClock(net: Net, own: Registers, cs: seq<Chain>, ns: seq<nat>, order: seq<nat>, a: nat)
    requires RegistersOk(net, own) && |ns| == |cs| && AllControlled(net, own, cs)
    requires Granted(net, own, cs, order, ns) && Compatible(net, own, cs, ns) && a < |cs| && ns[a] > 0
    ensures cs[a].controls.Some? && ClkWire(net, own, cs, ns).Some?
    ensures Canon(net.conns, cs[a].controls.value.clk) == Canon(net.conns, ClkWire(net, own, cs, ns).value)
  {
    hide Canon, Granted, AllControlled, ResetPin, FlopBlocked, ResetsToZero;
    BankFacts(net, own, cs, ns, order, a);
  }

  lemma ClockServes(net: Net, own: Registers, cs: seq<Chain>, ns: seq<nat>, order: seq<nat>, clk: Option<Bit>)
    requires RegistersOk(net, own) && |ns| == |cs| && AllControlled(net, own, cs)
    requires Granted(net, own, cs, order, ns) && Compatible(net, own, cs, ns) && clk == ClkWire(net, own, cs, ns)
    ensures OneClock(net, own, cs, ns, clk)
  {
    hide Canon, Granted, AllControlled, ResetPin, FlopBlocked, ResetsToZero, InBank;
    forall f: nat | f < |net.cells| && net.cells[f].Flop? && (OnRstn(own, cs, ns, f) || own.p == Some(f))
      ensures clk.Some? && Canon(net.conns, net.cells[f].clk) == Canon(net.conns, clk.value)
    {
      if InBank(cs, ns, f) {
        var a := InBankFacts(net, own, cs, ns, f);
        ChainClock(net, own, cs, ns, order, a);
      } else if own.ad.Some? && FirstTaken(ns).Some? {
        BankFacts(net, own, cs, ns, order, FirstTaken(ns).value);
      }
    }
  }

  /** RSTN is right for a chain that is taken, unless its reset is lost. */
  lemma ChainReset(net: Net, own: Registers, cs: seq<Chain>, ns: seq<nat>, order: seq<nat>, a: nat)
    requires RegistersOk(net, own) && |ns| == |cs| && AllControlled(net, own, cs)
    requires Granted(net, own, cs, order, ns) && Compatible(net, own, cs, ns) && a < |cs| && ns[a] > 0
    ensures cs[a].controls.Some?
    ensures RstWire(net, own, cs, ns) == cs[a].controls.value.rst <==>
      !(own.m.None? && own.ad.None? && cs[a].controls.value.rst == ALWAYS)
  {
    hide Canon, Granted, AllControlled, FlopBlocked, ResetsToZero;
    BankFacts(net, own, cs, ns, order, a);
  }

  lemma OwnReset(net: Net, own: Registers, cs: seq<Chain>, ns: seq<nat>, order: seq<nat>)
    requires RegistersOk(net, own) && |ns| == |cs| && AllControlled(net, own, cs)
    requires Granted(net, own, cs, order, ns) && Compatible(net, own, cs, ns)
    ensures own.m.Some? ==> RstWire(net, own, cs, ns) == ResetPin(net.cells[own.m.value])
    ensures own.ad.Some? ==> RstWire(net, own, cs, ns) == ResetPin(net.cells[own.ad.value])
  {
    hide Canon, Granted, AllControlled, FlopBlocked, ResetsToZero;
    if FirstTaken(ns).Some? { BankFacts(net, own, cs, ns, order, FirstTaken(ns).value); }
  }

  lemma LostChain(net: Net, own: Registers, cs: seq<Chain>, ns: seq<nat>, order: seq<nat>, a: nat)
    requires RegistersOk(net, own) && |ns| == |cs| && AllControlled(net, own, cs) && Granted(net, own, cs, order, ns)
    requires own.m.None? && own.ad.None? && a < |cs| && ns[a] > 0 && cs[a].controls.Some? && cs[a].controls.value.rst == ALWAYS
    ensures ResetLost(net, own, cs, ns)
  {
    hide Canon, Granted, FlopBlocked, UnderSeed;
    BankFacts(net, own, cs, ns, order, a);
    assert Controlled(net, cs[a], SeedOf(net, own));
    SeededControls(net, cs[a], SeedOf(net, own));
    var f: nat :| f < |net.cells| && net.cells[f].Flop? && f in cs[a].stages[0] && ControlsOf(net.cells[f]) == cs[a].controls.value;
    assert InBank(cs, ns, f);
  }

  lemma ResetServes(net: Net, own: Registers, cs: seq<Chain>, ns: seq<nat>, order: seq<nat>, rst: Pin)
    requires RegistersOk(net, own) && |ns| == |cs| && AllControlled(net, own, cs)
    requires Granted(net, own, cs, order, ns) && Compatible(net, own, cs, ns) && rst == RstWire(net, own, cs, ns)
    ensures OneReset(net, own, cs, ns, rst) <==> !ResetLost(net, own, cs, ns)
  {
    hide Canon, Granted, AllControlled, FlopBlocked, ResetsToZero, InBank, ResetPin, RstWire, Compatible;
    OwnReset(net, own, cs, ns, order);
    forall f: nat | f < |net.cells| && net.cells[f].Flop? && InBank(cs, ns, f)
      ensures ResetPin(net.cells[f]) == rst <==> !(own.m.None? && own.ad.None? && ResetPin(net.cells[f]) == ALWAYS)
    {
      var a := InBankFacts(net, own, cs, ns, f);
      ChainReset(net, own, cs, ns, order, a);
    }
  }

  lemma BankServed(net: Net, own: Registers, cs: seq<Chain>, ns: seq<nat>, order: seq<nat>, a: nat, clk: Option<Bit>, rst: Pin)
    requires RegistersOk(net, own) && |ns| == |cs| && AllControlled(net, own, cs)
    requires Granted(net, own, cs, order, ns) && Compatible(net, own, cs, ns) && a < |cs| && ns[a] > 0
    requires clk == ClkWire(net, own, cs, ns) && rst == RstWire(net, own, cs, ns)
    ensures PinsServe(net, own, cs, ns, a, clk, rst)
  {
    hide Canon, Granted, AllControlled, FlopBlocked, Compatible, ResetLost, ClkWire, RstWire;
    ChainClock(net, own, cs, ns, order, a);
    ChainReset(net, own, cs, ns, order, a);
    if !ResetLost(net, own, cs, ns) && own.m.None? && own.ad.None? && cs[a].controls.value.rst == ALWAYS {
      LostChain(net, own, cs, ns, order, a);
      assert false;
    }
  }

  /**
   Every port of the one DSP: with all banks on the one CLK and the one RSTN, and
   the port's own CE, what leaves the operand path is the RTL's operand on every cycle.
   */
  lemma OnePinPathExact(
      net: Net, index: FlopIndex, users: multiset<Bit>, s: Sig, own: Registers, cs: seq<Chain>, order: seq<nat>, ns: seq<nat>,
      a: nat, absorbed: set<nat>, shared: set<nat>, width: nat, signed: bool, p: Path, run: Run, beh: Behaviour, t: nat)
    requires RegistersOk(net, own) && |ns| == |cs| && AllControlled(net, own, cs)
    requires Granted(net, own, cs, order, ns) && Compatible(net, own, cs, ns) && !ResetLost(net, own, cs, ns)
    requires IndexOk(net, index) && FlopsSized(net) && IsRun(net, run, beh) && t < |run|
    requires a < |cs| && ns[a] <= 2 && ChainOk(net, index, users, s, cs[a], SeedOf(net, own), absorbed, shared)
    requires ns[a] >= 1 ==> p.r2 == Eval(ExtendU0(s, width, signed), run[0])
    requires ns[a] >= 2 && |cs[a].stageD| > 0 ==> p.r1 == Eval(ExtendU0(cs[a].stageD[0], width, signed), run[0])
    ensures ns[a] <= |cs[a].stageD|
    ensures var input := ExtendU0(Source(s, cs[a], ns[a]), width, signed);
      PathOut(PathRun(p, input, ns[a] >= 2, PortPins(net, own, cs, ns, a), run, t), Eval(input, run[t]), ns[a] >= 1)
      == Eval(ExtendU0(s, width, signed), run[t])
  {
    hide Canon, IndexOk, FlopsSized, IsRun, StageOk, SolelyRead, PathRun, SamePins, ResetLost, Eval, ExtendU0, Granted, Compatible,
      AllControlled, ClkWire, RstWire;
    if ns[a] > 0 {
      BankFacts(net, own, cs, ns, order, a);
      BankServed(net, own, cs, ns, order, a, ClkWire(net, own, cs, ns), RstWire(net, own, cs, ns));
    }
    OperandPathExact(net, index, users, s, cs[a], ns[a], SeedOf(net, own), absorbed, shared, width, signed,
      PortPins(net, own, cs, ns, a), p, run, beh, t);
  }

  /** The shared CLK and RSTN, and the port's own CE, tied where nothing was taken. */
  function PortPins(net: Net, own: Registers, cs: seq<Chain>, ns: seq<nat>, a: nat): Controls
    requires RegistersOk(net, own) && |ns| == |cs| && a < |cs|
  {
    var clk := ClkWire(net, own, cs, ns);
    Controls(if clk.Some? then clk.value else Const(false),
             if ns[a] > 0 && cs[a].controls.Some? then cs[a].controls.value.en else TIED,
             RstWire(net, own, cs, ns))
  }

  /** With the reset lost the bank loads where the register is held at zero. */
  lemma LostResetLoads(net: Net, f: nat, q: seq<bool>, d: seq<bool>, e0: Env, e1: Env)
    requires f < |net.cells| && net.cells[f].Flop? && ResetPin(net.cells[f]) == ALWAYS && net.cells[f].rising
    requires ClockEdge(net.cells[f].clk, true, e0, e1) && PinHigh(EnablePin(net.cells[f]), e0)
    ensures FlopNext(net.cells[f], e0, e1) == net.cells[f].srst.value.value
    ensures BankNext(q, d, Controls(net.cells[f].clk, EnablePin(net.cells[f]), TIED), e0, e1) == d
  {
  }
}
