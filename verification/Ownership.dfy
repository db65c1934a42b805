/**
 Who removes a register that went into a DSP: the matcher, the queue drained
 after the matcher is gone, or the sweep of registers that were copied.
 */
module Ownership {
  import opened Bits
  import opened Operand
  import opened Netlist
  import opened FlopChains
  import opened CellControls

  // ---- Counting port bits ---------------------------------------------------------

  /** A bit of a cell port: the cell, and the position among its port bits. */
  type Place = (nat, nat)

  predicate IsPlace(cells: seq<Cell>, pl: Place) {
    pl.0 < |cells| && pl.1 < |AllBits(cells[pl.0])|
  }

  function BitAt(cells: seq<Cell>, conns: Conns, pl: Place): Bit
    requires IsPlace(cells, pl)
  {
    Canon(conns, AllBits(cells[pl.0])[pl.1])
  }

  lemma {:induction false} PositionsCount(conns: Conns, s: Sig, ps: set<nat>, c: Bit)
    requires forall p :: p in ps ==> p < |s| && Canon(conns, s[p]) == c
    ensures CanonBits(conns, s)[c] >= |ps|
    decreases |s|
  {
    hide Canon;
    if s == [] {
      assert ps == {};
    } else {
      var n := |s| - 1;
      PositionsCount(conns, s[..n], ps - {n}, c);
      assert s == s[..n] + [s[n]];
      CountSplit(conns, s[..n], [s[n]]);
      if n in ps { CountOf(conns, [s[n]], s[n]); }
    }
  }

  /** The places in the last cell, and those before it. */
  lemma SplitPlaces(ps: set<Place>, n: nat) returns (positions: set<nat>, rest: set<Place>)
    ensures positions == (set pl | pl in ps && pl.0 == n :: pl.1) && rest == (set pl | pl in ps && pl.0 != n)
    ensures |ps| == |positions| + |rest|
  {
    var here := set pl | pl in ps && pl.0 == n;
    rest := set pl | pl in ps && pl.0 != n;
    positions := set pl | pl in here :: pl.1;
    assert ps == here + rest;
    SameSize(here, positions, n);
  }

  lemma {:induction false} PlacesInCells(cells: seq<Cell>, conns: Conns, ps: set<Place>, c: Bit)
    requires forall pl :: pl in ps ==> IsPlace(cells, pl) && BitAt(cells, conns, pl) == c
    ensures PortBits(cells, conns)[c] >= |ps|
    decreases |cells|
  {
    hide Canon, AllBits, CanonBits;
    if cells == [] {
      assert ps == {};
    } else {
      var n := |cells| - 1;
      var positions, rest := SplitPlaces(ps, n);
      forall pl | pl in rest ensures IsPlace(cells[..n], pl) && BitAt(cells[..n], conns, pl) == c {
        assert IsPlace(cells, pl) && BitAt(cells, conns, pl) == c;
      }
      PlacesInCells(cells[..n], conns, rest, c);
      forall p | p in positions ensures p < |AllBits(cells[n])| && Canon(conns, AllBits(cells[n])[p]) == c {
        assert IsPlace(cells, (n, p)) && BitAt(cells, conns, (n, p)) == c;
      }
      PositionsCount(conns, AllBits(cells[n]), positions, c);
    }
  }

  lemma {:induction false} SameSize(here: set<Place>, positions: set<nat>, n: nat)
    requires (forall pl :: pl in here ==> pl.0 == n) && positions == set pl | pl in here :: pl.1
    ensures |here| == |positions|
  {
    if here == {} {
      assert positions == {};
    } else {
      var pl :| pl in here;
      assert positions - {pl.1} == set q | q in here - {pl} :: q.1;
      SameSize(here - {pl}, positions - {pl.1}, n);
    }
  }

  /** A net with so many places on cell ports has at least so many users. */
  lemma PlacesCount(net: Net, ps: set<Place>, c: Bit)
    requires forall pl :: pl in ps ==> IsPlace(net.cells, pl) && BitAt(net.cells, net.conns, pl) == c
    ensures Users(net)[c] >= |ps|
  {
    hide Canon, PortBits, AllBits;
    PlacesInCells(net.cells, net.conns, ps, c);
  }

  // ---- What one chain reads --------------------------------------------------------------

  /** An operand: a run of port bits of a matched arithmetic cell. */
  datatype Root = Root(cell: nat, at: nat, sig: Sig)

  predicate RootOk(net: Net, r: Root) {
    && r.cell < |net.cells| && !net.cells[r.cell].Flop?
    && r.sig != [] && r.at + |r.sig| <= |AllBits(net.cells[r.cell])|
    && forall p :: 0 <= p < |r.sig| ==> Canon(net.conns, r.sig[p]) == BitAt(net.cells, net.conns, (r.cell, r.at + p))
  }

  predicate Apart(r: Root, r': Root) {
    r.cell == r'.cell ==> r.at + |r.sig| <= r'.at || r'.at + |r'.sig| <= r.at
  }

  predicate RootsOk(net: Net, roots: seq<Root>) {
    && (forall x :: 0 <= x < |roots| ==> RootOk(net, roots[x]))
    && (forall x, y :: 0 <= x < y < |roots| ==> Apart(roots[x], roots[y]))
  }

  /** The context of the walks of one match. */
  datatype Walk = Walk(net: Net, index: FlopIndex, absorbed: set<nat>, shared: set<nat>)

  ghost predicate Walked(w: Walk, r: Root, c: Chain) {
    && IndexOk(w.net, w.index) && FlopsSized(w.net) && RootOk(w.net, r)
    && exists seed :: ChainOk(w.net, w.index, Users(w.net), r.sig, c, seed, w.absorbed, w.shared)
  }

  /** The same, with what the cell had fixed. */
  ghost predicate WalkedUnder(w: Walk, r: Root, c: Chain, seed: Seed) {
    && IndexOk(w.net, w.index) && FlopsSized(w.net) && RootOk(w.net, r)
    && ChainOk(w.net, w.index, Users(w.net), r.sig, c, seed, w.absorbed, w.shared)
  }

  /** Bit `p` of what stage `k` of a chain is seen through. */
  datatype Read = Read(k: nat, p: nat)

  ghost predicate InChain(r: Root, c: Chain, x: Read) {
    |c.stages| == |c.stageD| && x.k < |c.stages| && |Source(r.sig, c, x.k)| == |r.sig| && x.p < |r.sig|
  }

  function NetRead(w: Walk, r: Root, c: Chain, x: Read): Bit
    requires x.k <= |c.stageD| && x.p < |Source(r.sig, c, x.k)|
  {
    Canon(w.net.conns, Source(r.sig, c, x.k)[x.p])
  }

  /** One bit a chain reads: the flop bit it comes from, and what is read one stage further. */
  lemma ReadFacts(w: Walk, r: Root, c: Chain, x: Read) returns (f: nat, o: nat)
    requires Walked(w, r, c) && |c.stages| == |c.stageD| && x.k < |c.stages| && x.p < |r.sig|
    ensures InChain(r, c, x)
    ensures NetRead(w, r, c, x) in w.index && w.index[NetRead(w, r, c, x)] == (f, o)
    ensures f in c.stages[x.k] && f < |w.net.cells| && w.net.cells[f].Flop?
    ensures o < |w.net.cells[f].q| && o < |w.net.cells[f].d|
    ensures Canon(w.net.conns, w.net.cells[f].q[o]) == NetRead(w, r, c, x)
    ensures |Source(r.sig, c, x.k + 1)| == |r.sig| && Source(r.sig, c, x.k + 1)[x.p] == w.net.cells[f].d[o]
    ensures !c.copied ==> Users(w.net)[NetRead(w, r, c, x)] <= 2
    ensures !c.copied ==> f !in w.shared
    ensures f in w.absorbed ==> f in w.shared
  {
    hide Canon, Users, FlopBlocked, UseCount, AllBits, RootOk;
    var net, users := w.net, Users(w.net);
    var seed :| ChainOk(net, w.index, users, r.sig, c, seed, w.absorbed, w.shared);
    SourceSize(w, r, c, seed, x.k);
    ChainStage(net, w.index, users, r.sig, c, x.k, seed, w.absorbed, w.shared);
    var src := Source(r.sig, c, x.k);
    assert src[x.p] in src;
    var d := Drivers(net, w.index, src)[x.p];
    f, o := d.0, d.1;
    assert TakesD(net, d, c.stages[x.k], c.stageD[x.k][x.p]);
    assert FlopFits(net, f, w.absorbed, w.shared);
    assert net.cells[f] in net.cells;
    assert net.cells[f].q[o] in net.cells[f].q;
  }

  lemma {:induction false} SourceSize(w: Walk, r: Root, c: Chain, seed: Seed, k: nat)
    requires ChainOk(w.net, w.index, Users(w.net), r.sig, c, seed, w.absorbed, w.shared)
    requires k <= |c.stages| == |c.stageD|
    ensures |Source(r.sig, c, k)| == |r.sig|
  {
    hide *;
    if k > 0 {
      SourceSize(w, r, c, seed, k - 1);
      ChainStage(w.net, w.index, Users(w.net), r.sig, c, k - 1, seed, w.absorbed, w.shared);
      StageSize(w.net, w.index, Source(r.sig, c, k - 1), c.stages[k - 1], c.stageD[k - 1], c.controls.value,
                w.absorbed, w.shared);
      SourceNext(r.sig, c, k - 1);
    } else {
      SourceFirst(r.sig, c);
    }
  }

  lemma SourceFirst(s: Sig, c: Chain)
    ensures Source(s, c, 0) == s
  {
  }

  /** The port bit a chain reads through: a bit of the operand, or of the previous stage's D. */
  ghost predicate ReadAt(w: Walk, r: Root, c: Chain, x: Read, pl: Place)
    requires InChain(r, c, x)
  {
    && IsPlace(w.net.cells, pl) && BitAt(w.net.cells, w.net.conns, pl) == NetRead(w, r, c, x)
    && (x.k == 0 ==> pl == (r.cell, r.at + x.p) && !w.net.cells[pl.0].Flop?)
    && (x.k > 0 ==> (
          && w.net.cells[pl.0].Flop? && pl.1 < |w.net.cells[pl.0].d| && pl.1 < |w.net.cells[pl.0].q|
          && InChain(r, c, Read(x.k - 1, x.p))
          && Canon(w.net.conns, w.net.cells[pl.0].q[pl.1]) == NetRead(w, r, c, Read(x.k - 1, x.p))))
  }

  lemma PlaceOf(w: Walk, r: Root, c: Chain, x: Read) returns (pl: Place)
    requires Walked(w, r, c) && |c.stages| == |c.stageD| && x.k < |c.stages| && x.p < |r.sig|
    ensures InChain(r, c, x) && ReadAt(w, r, c, x, pl)
  {
    hide Canon, Users, AllBits, ChainOk, IndexOk, FlopsSized;
    var _, _ := ReadFacts(w, r, c, x);
    if x.k == 0 {
      pl := (r.cell, r.at + x.p);
    } else {
      var f, o := ReadFacts(w, r, c, Read(x.k - 1, x.p));
      pl := (f, o);
      DataPlace(w.net, f, o);
    }
  }

  lemma DataPlace(net: Net, f: nat, o: nat)
    requires f < |net.cells| && net.cells[f].Flop? && o < |net.cells[f].d|
    ensures IsPlace(net.cells, (f, o)) && AllBits(net.cells[f])[o] == net.cells[f].d[o]
  {
  }

  lemma OutputPlace(net: Net, f: nat, o: nat) returns (pl: Place)
    requires f < |net.cells| && net.cells[f].Flop? && o < |net.cells[f].q|
    ensures IsPlace(net.cells, pl) && pl.0 == f && pl.1 >= |net.cells[f].d|
    ensures AllBits(net.cells[f])[pl.1] == net.cells[f].q[o]
  {
    pl := (f, |Inputs(net.cells[f])| + o);
  }

  /**
   A chain that is moved is the only reader of what it reads: no other bit of
   it, nor any bit of another chain of the same match, reads one of its nets.
   */
  lemma {:induction false} ReadOnce(w: Walk, roots: seq<Root>, cs: seq<Chain>, a: nat, b: nat, x: Read, y: Read)
    requires |roots| == |cs| && a < |cs| && b < |cs| && RootsOk(w.net, roots) && !cs[a].copied
    requires Walked(w, roots[a], cs[a]) && Walked(w, roots[b], cs[b])
    requires InChain(roots[a], cs[a], x) && InChain(roots[b], cs[b], y)
    requires NetRead(w, roots[a], cs[a], x) == NetRead(w, roots[b], cs[b], y)
    ensures a == b && x == y
    decreases x.k + y.k
  {
    hide Canon, Users, AllBits, Walked, InChain, NetRead;
    var net := w.net;
    InChainSizes(roots[a], cs[a], x);
    InChainSizes(roots[b], cs[b], y);
    var pa := PlaceOf(w, roots[a], cs[a], x);
    var pb := PlaceOf(w, roots[b], cs[b], y);
    var f, o := ReadFacts(w, roots[a], cs[a], x);
    var q := OutputPlace(net, f, o);
    if pa != pb {
      PlacesCount(net, {pa, pb, q}, NetRead(w, roots[a], cs[a], x));
      assert false;
    } else if x.k > 0 && y.k > 0 {
      ReadOnce(w, roots, cs, a, b, Read(x.k - 1, x.p), Read(y.k - 1, y.p));
    }
  }

  lemma InChainSizes(r: Root, c: Chain, x: Read)
    requires InChain(r, c, x)
    ensures |c.stages| == |c.stageD| && x.k < |c.stages| && x.p < |r.sig| && x.p < |Source(r.sig, c, x.k)|
    ensures x.k > 0 ==> x.k - 1 < |c.stages|
  {
  }

  // ---- Moved flops -----------------------------------------------------------------------------

  function UsesOf(perBit: seq<(nat, nat)>, f: nat): set<nat> {
    set p | 0 <= p < |perBit| && perBit[p].0 == f
  }

  lemma UsesSnoc(perBit: seq<(nat, nat)>, f: nat)
    requires perBit != []
    ensures var n := |perBit| - 1;
      UsesOf(perBit, f) == UsesOf(perBit[..n], f) + (if perBit[n].0 == f then {n} else {}) && n !in UsesOf(perBit[..n], f)
  {
  }

  lemma {:induction false} UseCountIs(perBit: seq<(nat, nat)>, f: nat)
    ensures UseCount(perBit, f) == |UsesOf(perBit, f)|
  {
    if perBit == [] {
      assert UsesOf(perBit, f) == {};
    } else {
      hide UsesOf;
      UseCountIs(perBit[..|perBit| - 1], f);
      UsesSnoc(perBit, f);
    }
  }

  lemma {:induction false} SetUpTo(s: set<nat>, n: nat)
    requires forall o :: o in s ==> o < n
    ensures |s| <= n && (|s| == n ==> forall o :: 0 <= o < n ==> o in s)
    decreases n
  {
    if n == 0 {
      assert s == {};
    } else {
      SetUpTo(s - {n - 1}, n - 1);
      if |s| == n {
        assert n - 1 in s;
        assert |s - {n - 1}| == n - 1;
        forall o | 0 <= o < n ensures o in s {
          if o < n - 1 { assert o in s - {n - 1}; }
        }
      }
    }
  }

  lemma {:induction false} ImageSize(perBit: seq<(nat, nat)>, ps: set<nat>, os: set<nat>)
    requires forall p :: p in ps ==> p < |perBit|
    requires os == set p | p in ps :: perBit[p].1
    requires forall p, p' :: p in ps && p' in ps && perBit[p].1 == perBit[p'].1 ==> p == p'
    ensures |os| == |ps|
    decreases |ps|
  {
    if ps == {} {
      assert os == {};
    } else {
      var p :| p in ps;
      assert os - {perBit[p].1} == set q | q in ps - {p} :: perBit[q].1;
      ImageSize(perBit, ps - {p}, os - {perBit[p].1});
    }
  }

  /** As many uses as bits, none twice: every bit is used. */
  lemma EveryBitUsed(perBit: seq<(nat, nat)>, f: nat, n: nat, o: nat) returns (p: nat)
    requires UseCount(perBit, f) == n && o < n
    requires forall p :: 0 <= p < |perBit| && perBit[p].0 == f ==> perBit[p].1 < n
    requires forall p, p' :: 0 <= p < |perBit| && 0 <= p' < |perBit| && perBit[p] == perBit[p'] && perBit[p].0 == f ==> p == p'
    ensures p < |perBit| && perBit[p] == (f, o)
  {
    var ps := set p: nat | 0 <= p < |perBit| && perBit[p].0 == f;
    var os := set p | p in ps :: perBit[p].1;
    UseCountIs(perBit, f);
    assert ps == UsesOf(perBit, f);
    ImageSize(perBit, ps, os);
    SetUpTo(os, n);
    assert o in os;
    p :| p in ps && perBit[p].1 == o;
  }

  ghost predicate Takes(c: Chain, f: nat, n: nat) {
    n <= |c.stages| && exists k :: 0 <= k < n && f in c.stages[k]
  }

  /** What a stage of a walked chain says of its flops. */
  lemma StageFacts(w: Walk, r: Root, c: Chain, k: nat, f: nat) returns (perBit: seq<(nat, nat)>)
    requires Walked(w, r, c) && k < |c.stages| && f in c.stages[k]
    ensures |c.stages| == |c.stageD| && |perBit| == |r.sig| && |Source(r.sig, c, k)| == |r.sig|
    ensures exists p :: 0 <= p < |perBit| && perBit[p].0 == f
    ensures f < |w.net.cells| && w.net.cells[f].Flop? && (f in w.absorbed ==> f in w.shared)
    ensures !c.copied ==> UseCount(perBit, f) == |w.net.cells[f].q| && f !in w.shared
    ensures forall p :: 0 <= p < |perBit| ==>
      var b := Canon(w.net.conns, Source(r.sig, c, k)[p]);
      b in w.index && perBit[p] == w.index[b]
  {
    hide Canon, Users, FlopBlocked, UseCount, AllBits, RootOk, IndexOk, FlopsSized;
    var seed :| ChainOk(w.net, w.index, Users(w.net), r.sig, c, seed, w.absorbed, w.shared);
    SourceSize(w, r, c, seed, k);
    ChainStage(w.net, w.index, Users(w.net), r.sig, c, k, seed, w.absorbed, w.shared);
    var src := Source(r.sig, c, k);
    perBit := Drivers(w.net, w.index, src);
    assert FlopFits(w.net, f, w.absorbed, w.shared);
    forall p | 0 <= p < |perBit| ensures Canon(w.net.conns, src[p]) in w.index {
      assert src[p] in src;
    }
  }

  /** A register that is moved belongs to one chain: no other chain of the match takes it. */
  lemma MovedAlone(w: Walk, roots: seq<Root>, cs: seq<Chain>, a: nat, b: nat, i: nat, j: nat, f: nat)
    requires |roots| == |cs| && a < |cs| && b < |cs| && RootsOk(w.net, roots) && !cs[a].copied
    requires Walked(w, roots[a], cs[a]) && Walked(w, roots[b], cs[b])
    requires i < |cs[a].stages| && j < |cs[b].stages| && f in cs[a].stages[i] && f in cs[b].stages[j]
    ensures a == b && i == j
  {
    hide Canon, Users, AllBits, Walked, UseCount, RootsOk;
    var perA := StageFacts(w, roots[a], cs[a], i, f);
    var perB := StageFacts(w, roots[b], cs[b], j, f);
    var r: nat :| r < |perB| && perB[r].0 == f;
    var y := Read(j, r);
    var f', o := ReadFacts(w, roots[b], cs[b], y);
    var n := |w.net.cells[f].q|;
    forall p | 0 <= p < |perA| && perA[p].0 == f ensures perA[p].1 < n {
      var _, _ := ReadFacts(w, roots[a], cs[a], Read(i, p));
    }
    forall p, p' | 0 <= p < |perA| && 0 <= p' < |perA| && perA[p] == perA[p'] && perA[p].0 == f ensures p == p' {
      var _, _ := ReadFacts(w, roots[a], cs[a], Read(i, p));
      var _, _ := ReadFacts(w, roots[a], cs[a], Read(i, p'));
      ReadOnce(w, roots, cs, a, a, Read(i, p), Read(i, p'));
    }
    var p := EveryBitUsed(perA, f, n, o);
    var _, _ := ReadFacts(w, roots[a], cs[a], Read(i, p));
    ReadOnce(w, roots, cs, a, b, Read(i, p), y);
  }

  /** Nothing else reads a moved flop: not another port bit, not a module output. */
  lemma MovedUnread(w: Walk, r: Root, c: Chain, x: Read, own: Place, other: Place)
    requires Walked(w, r, c) && !c.copied && InChain(r, c, x)
    requires IsPlace(w.net.cells, own) && BitAt(w.net.cells, w.net.conns, own) == NetRead(w, r, c, x)
    requires own.0 < |w.net.cells| && w.net.cells[own.0].Flop? && own.1 >= |w.net.cells[own.0].d|
    requires IsPlace(w.net.cells, other) && other != own && !ReadAt(w, r, c, x, other)
    ensures BitAt(w.net.cells, w.net.conns, other) != NetRead(w, r, c, x)
  {
    hide Canon, Users, AllBits, Walked, NetRead;
    var pl := PlaceOf(w, r, c, x);
    var _, _ := ReadFacts(w, r, c, x);
    if BitAt(w.net.cells, w.net.conns, other) == NetRead(w, r, c, x) {
      PlacesCount(w.net, {own, pl, other}, NetRead(w, r, c, x));
      assert false;
    }
  }

  lemma MovedNotOutput(w: Walk, r: Root, c: Chain, x: Read, b: Bit)
    requires Walked(w, r, c) && !c.copied && InChain(r, c, x) && b in w.net.wires.outputs
    ensures Canon(w.net.conns, b) != NetRead(w, r, c, x)
  {
    hide Canon, AllBits, Walked, NetRead, PortBits, CanonBits;
    var pl := PlaceOf(w, r, c, x);
    var f, o := ReadFacts(w, r, c, x);
    var own := OutputPlace(w.net, f, o);
    if Canon(w.net.conns, b) == NetRead(w, r, c, x) {
      PlacesInCells(w.net.cells, w.net.conns, {own, pl}, NetRead(w, r, c, x));
      CountOf(w.net.conns, w.net.wires.outputs, b);
      assert false;
    }
  }

  // ---- The pools ---------------------------------------------------------------------------------

  /** The flops of the first `n` stages. */
  function Taken(c: Chain, n: nat): set<nat>
    requires n <= |c.stages|
  {
    set k, f | 0 <= k < n && f in c.stages[k] :: f
  }

  ghost predicate Depths(cs: seq<Chain>, ns: seq<nat>) {
    |cs| == |ns| && forall a :: 0 <= a < |cs| ==> ns[a] <= |cs[a].stages|
  }

  /** What the first chains take, moved or copied. */
  ghost function TakenBy(cs: seq<Chain>, ns: seq<nat>, copied: bool): (s: set<nat>)
    requires Depths(cs, ns)
  {
    if cs == [] then {}
    else
      var n := |cs| - 1;
      TakenBy(cs[..n], ns[..n], copied) + if cs[n].copied == copied then Taken(cs[n], ns[n]) else {}
  }

  lemma {:induction false} TakenWhere(cs: seq<Chain>, ns: seq<nat>, copied: bool, f: nat) returns (a: nat, k: nat)
    requires Depths(cs, ns) && f in TakenBy(cs, ns, copied)
    ensures a < |cs| && k < ns[a] && cs[a].copied == copied && f in cs[a].stages[k]
    decreases |cs|
  {
    var n := |cs| - 1;
    if f in TakenBy(cs[..n], ns[..n], copied) {
      a, k := TakenWhere(cs[..n], ns[..n], copied, f);
    } else {
      a := n;
      k :| 0 <= k < ns[a] && f in cs[a].stages[k];
    }
  }

  ghost predicate AllWalked(w: Walk, roots: seq<Root>, cs: seq<Chain>) {
    |roots| == |cs| && forall a :: 0 <= a < |cs| ==> Walked(w, roots[a], cs[a])
  }

  /** Within one match, what is moved and what is copied never meet. */
  lemma MovedOrCopied(w: Walk, roots: seq<Root>, cs: seq<Chain>, ns: seq<nat>)
    requires AllWalked(w, roots, cs) && RootsOk(w.net, roots) && Depths(cs, ns)
    ensures TakenBy(cs, ns, false) !! TakenBy(cs, ns, true)
    ensures TakenBy(cs, ns, false) !! w.absorbed
    ensures TakenBy(cs, ns, true) * w.absorbed <= w.shared
  {
    hide Walked, RootsOk;
    forall f | f in TakenBy(cs, ns, false) ensures f !in TakenBy(cs, ns, true) && f !in w.absorbed {
      var a, i := TakenWhere(cs, ns, false, f);
      var _ := StageFacts(w, roots[a], cs[a], i, f);
      if f in TakenBy(cs, ns, true) {
        var b, j := TakenWhere(cs, ns, true, f);
        MovedAlone(w, roots, cs, a, b, i, j, f);
        assert false;
      }
    }
    forall f | f in TakenBy(cs, ns, true) && f in w.absorbed ensures f in w.shared {
      var a, i := TakenWhere(cs, ns, true, f);
      var _ := StageFacts(w, roots[a], cs[a], i, f);
    }
  }

  ghost predicate NoRepeats(s: seq<nat>) {
    forall i, j :: 0 <= i < j < |s| ==> s[i] != s[j]
  }

  ghost function Elems(s: seq<nat>): set<nat> {
    set f | f in s
  }

  /** One offer of the matcher. */
  datatype Match = Match(
    offered: seq<nat>,      // every register in the match
    held: set<nat>,         // those of them the DSP takes in
    roots: seq<Root>,       // the operands, in port order
    depths: seq<nat>,       // how many registers each port has
    order: seq<nat>,        // the ports, narrowest first
    own: Registers,         // the registers of the match by their place in the DSP
    cRoot: Option<nat>,     // the C operand, if there is one
    result: Sig,            // what the DSP produces
    refused: bool)          // some other rule refuses the offer

  ghost predicate MatchOk(net: Net, mt: Match) {
    && RootsOk(net, mt.roots) && mt.held <= Elems(mt.offered) && RegistersOk(net, mt.own)
    && (forall f :: mt.own.m == Some(f) || mt.own.p == Some(f) || mt.own.ad == Some(f) ==> f in mt.held)
    && |mt.roots| == |mt.depths| && Covers(mt.order, |mt.roots|)
  }

  lemma {:induction false} TakenPart(cs: seq<Chain>, ns: seq<nat>, n: nat, copied: bool)
    requires Depths(cs, ns) && n <= |cs|
    ensures Depths(cs[..n], ns[..n]) && TakenBy(cs[..n], ns[..n], copied) <= TakenBy(cs, ns, copied)
    decreases |cs|
  {
    hide Taken;
    if n == |cs| {
      assert cs[..n] == cs && ns[..n] == ns;
    } else {
      var z := |cs| - 1;
      TakenPart(cs[..z], ns[..z], n, copied);
      assert cs[..z][..n] == cs[..n] && ns[..z][..n] == ns[..n];
    }
  }

  lemma NoneTaken(cs: seq<Chain>, ns: seq<nat>)
    requires Depths(cs, ns)
    ensures Depths(cs[..0], ns[..0]) && TakenBy(cs[..0], ns[..0], false) == TakenBy(cs[..0], ns[..0], true) == {}
  {
  }

  lemma TakenNext(cs: seq<Chain>, ns: seq<nat>, a: nat, copied: bool)
    requires Depths(cs, ns) && a < |cs|
    ensures Depths(cs[..a], ns[..a]) && Depths(cs[..a + 1], ns[..a + 1])
    ensures TakenBy(cs[..a + 1], ns[..a + 1], copied)
         == TakenBy(cs[..a], ns[..a], copied) + if cs[a].copied == copied then Taken(cs[a], ns[a]) else {}
  {
    hide Taken;
    assert cs[..a + 1][..a] == cs[..a] && ns[..a + 1][..a] == ns[..a];
  }

  ghost predicate Apart3(p: set<nat>, s: set<nat>, a: set<nat>) {
    p !! s && p !! a && s !! a
  }

  /** The pools stay apart exactly when no register of the match is copied into one of its own banks. */
  lemma OwnerAfter(was: seq<nat>, shared: set<nat>, auto: set<nat>, now: seq<nat>, held: set<nat>, moved: set<nat>, copied: set<nat>)
    requires Apart3(Elems(was), shared, auto) && held !! Elems(was) + shared + auto
    requires moved !! copied && moved !! Elems(was) + shared + auto
    requires copied * (Elems(was) + shared + auto) <= shared
    requires Elems(now) == Elems(was) + (moved - held)
    ensures Apart3(Elems(now), shared + copied, auto + held) <==> held !! copied
    ensures Elems(now) + (shared + copied) + (auto + held) == Elems(was) + shared + auto + held + moved + copied
  {
    hide Elems;
    if f :| f in held * copied {
      assert f in shared + copied && f in auto + held;
    }
  }

  // ---- Registers behind an operand ---------------------------------------------------------

  /** What is `k` registers behind a signal, whether or not a walk may go there. */
  function Back(net: Net, index: FlopIndex, s: Sig, k: nat): Option<Sig>
    requires IndexOk(net, index) && FlopsSized(net)
  {
    if k == 0 then Some(s)
    else
      var prev := Back(net, index, s, k - 1);
      if prev.Some? && forall b :: b in prev.value ==> Canon(net.conns, b) in index then
        Some(seq(|prev.value|, p requires 0 <= p < |prev.value| => DataBit(net, index, prev.value[p])))
      else None
  }

  function DataBit(net: Net, index: FlopIndex, b: Bit): Bit
    requires IndexOk(net, index) && FlopsSized(net) && Canon(net.conns, b) in index
  {
    var (f, o) := index[Canon(net.conns, b)];
    assert net.cells[f] in net.cells;
    net.cells[f].d[o]
  }

  ghost predicate Behind(net: Net, index: FlopIndex, s: Sig, depth: nat, f: nat)
    requires IndexOk(net, index) && FlopsSized(net)
  {
    exists k :: 0 <= k < depth && DrivesSome(net, index, Back(net, index, s, k), f)
  }

  predicate DrivesSome(net: Net, index: FlopIndex, s: Option<Sig>, f: nat) {
    s.Some? && exists b :: b in s.value && Canon(net.conns, b) in index && index[Canon(net.conns, b)].0 == f
  }

  lemma {:induction false} SourceIsBack(w: Walk, r: Root, c: Chain, k: nat)
    requires Walked(w, r, c) && k <= |c.stages| == |c.stageD|
    ensures Back(w.net, w.index, r.sig, k) == Some(Source(r.sig, c, k))
  {
    hide Canon, Walked, AllBits, IndexOk, FlopsSized;
    WalkedOk(w, r, c);
    if k > 0 {
      SourceIsBack(w, r, c, k - 1);
      var prev, next := Source(r.sig, c, k - 1), Source(r.sig, c, k);
      var _, _ := ReadFacts(w, r, c, Read(k - 1, 0));
      forall b | b in prev ensures Canon(w.net.conns, b) in w.index {
        var p: nat :| p < |prev| && prev[p] == b;
        var _, _ := ReadFacts(w, r, c, Read(k - 1, p));
      }
      var back := Back(w.net, w.index, r.sig, k).value;
      forall p: nat | p < |next| ensures next[p] == back[p] {
        var _, _ := ReadFacts(w, r, c, Read(k - 1, p));
      }
      assert next == back;
    }
  }

  lemma WalkedOk(w: Walk, r: Root, c: Chain)
    requires Walked(w, r, c)
    ensures IndexOk(w.net, w.index) && FlopsSized(w.net) && r.sig != []
    ensures |c.stages| == |c.stageD|
  {
    hide Canon, Users;
  }

  lemma TakenIsBehind(w: Walk, r: Root, c: Chain, k: nat, f: nat, depth: nat)
    requires Walked(w, r, c) && k < |c.stages| <= depth && f in c.stages[k]
    requires IndexOk(w.net, w.index) && FlopsSized(w.net)
    ensures Behind(w.net, w.index, r.sig, depth, f)
  {
    hide Canon, Walked, AllBits, IndexOk, FlopsSized, Back;
    WalkedOk(w, r, c);
    var perBit := StageFacts(w, r, c, k, f);
    SourceIsBack(w, r, c, k);
    var p: nat :| p < |perBit| && perBit[p].0 == f;
    assert Source(r.sig, c, k)[p] in Source(r.sig, c, k);
    assert DrivesSome(w.net, w.index, Back(w.net, w.index, r.sig, k), f);
  }

  /** A register of the DSP's own result; a C chain that has one is the accumulator's feedback, and is dropped. */
  predicate IsFeedback(net: Net, f: nat, result: Sig) {
    f < |net.cells| && net.cells[f].Flop? && CanonSig(net.conns, net.cells[f].d) == CanonSig(net.conns, result)
  }

  /** Bit by bit: some register of the chain has the result on its D. */
  ghost predicate TakesResult(net: Net, c: Chain, result: Sig) {
    exists k, f :: 0 <= k < |c.stages| && f in c.stages[k] && f < |net.cells| && net.cells[f].Flop? && OneNet(net.conns, net.cells[f].d, result)
  }

  lemma FeedbackIff(net: Net, c: Chain, result: Sig)
    ensures HasFeedback(net, c, result) <==> TakesResult(net, c, result)
  {
    hide Canon, CanonSig, OneNet;
    forall k, f | 0 <= k < |c.stages| && f in c.stages[k]
      ensures IsFeedback(net, f, result) <==> f < |net.cells| && net.cells[f].Flop? && OneNet(net.conns, net.cells[f].d, result)
    {
      if f < |net.cells| && net.cells[f].Flop? { OneNetCanon(net.conns, net.cells[f].d, result); }
    }
  }

  predicate HasFeedback(net: Net, c: Chain, result: Sig) {
    exists k, f :: 0 <= k < |c.stages| && f in c.stages[k] && IsFeedback(net, f, result)
  }

  function WithoutFeedback(net: Net, c: Chain, result: Sig): Chain {
    if HasFeedback(net, c, result) then Chain([], [], c.copied, None) else c
  }

  lemma WithoutFeedbackWalked(w: Walk, r: Root, c: Chain, result: Sig, seed: Seed)
    requires WalkedUnder(w, r, c, seed)
    ensures var left := WithoutFeedback(w.net, c, result);
      WalkedUnder(w, r, left, seed) && !HasFeedback(w.net, left, result) && |left.stages| <= |c.stages|
  {
    hide Users, IndexOk, FlopsSized, RootOk, Agrees, StageOk, SolelyRead;
    var none := Chain([], [], c.copied, None);
    assert ChainOk(w.net, w.index, Users(w.net), r.sig, none, seed, w.absorbed, w.shared);
  }

  /** The walk went as far as the port or the registers let it. */
  ghost predicate Maximal(w: Walk, r: Root, c: Chain, depth: nat, seed: Seed) {
    |c.stages| == |c.stageD|
    && (|c.stages| == depth
        || !Takable(w.net, w.index, Source(r.sig, c, |c.stages|), c.controls, seed, w.absorbed, w.shared))
  }

  /** So it did from every operand, but for a C chain that was dropped for the feedback it ended in. */
  ghost predicate WalkedOut(w: Walk, mt: Match, a: nat, c: Chain)
    requires a < |mt.roots| == |mt.depths| && RegistersOk(w.net, mt.own)
  {
    || Maximal(w, mt.roots[a], c, mt.depths[a], SeedOf(w.net, mt.own))
    || (Some(a) == mt.cRoot && c.stages == [] && exists found :: IsDropped(w, mt, a, found))
  }

  ghost predicate IsDropped(w: Walk, mt: Match, a: nat, found: Chain)
    requires a < |mt.roots| == |mt.depths| && RegistersOk(w.net, mt.own)
  {
    && Walked(w, mt.roots[a], found) && Maximal(w, mt.roots[a], found, mt.depths[a], SeedOf(w.net, mt.own))
    && TakesResult(w.net, found, mt.result)
  }

  ghost predicate AllMaximal(w: Walk, mt: Match, cs: seq<Chain>)
    requires RegistersOk(w.net, mt.own)
  {
    |cs| == |mt.roots| == |mt.depths|
    && forall a :: 0 <= a < |cs| ==> WalkedOut(w, mt, a, cs[a])
  }

  /**
   None of the registers the DSP takes in with the match is behind one of its
   operands, except behind C where it registers the DSP's own result.
   */
  ghost predicate OwnClear(net: Net, index: FlopIndex, mt: Match)
    requires IndexOk(net, index) && FlopsSized(net) && MatchOk(net, mt)
  {
    forall a: nat, f :: a < |mt.roots| && f in mt.held && Behind(net, index, mt.roots[a].sig, mt.depths[a], f) ==>
      Some(a) == mt.cRoot && IsFeedback(net, f, mt.result)
  }

  /** No C chain is left with the accumulator's feedback in it. */
  ghost predicate NoFeedback(net: Net, mt: Match, cs: seq<Chain>) {
    forall a: nat :: a < |cs| && Some(a) == mt.cRoot ==> !HasFeedback(net, cs[a], mt.result)
  }

  // ---- One offer -----------------------------------------------------------------------------

  /** The pools of registers, by what becomes of them. */
  datatype Pools = Pools(absorbed: set<nat>, shared: set<nat>, pending: set<nat>, auto: set<nat>)

  /** The chains the walks of a match find, and what the shared controls leave of them. */
  ghost predicate Found(net: Net, index: FlopIndex, mt: Match, was: Pools, cs: seq<Chain>, ns: seq<nat>)
    requires MatchOk(net, mt)
  {
    var w := Walk(net, index, was.absorbed, was.shared);
    && AllWalked(w, mt.roots, cs) && AllMaximal(w, mt, cs) && NoFeedback(net, mt, cs)
    && (forall a :: 0 <= a < |cs| ==> WalkedUnder(w, mt.roots[a], cs[a], SeedOf(net, mt.own)) && |cs[a].stages| <= mt.depths[a])
    && Depths(cs, ns) && Granted(net, mt.own, cs, mt.order, ns)
  }

  predicate Offered(mt: Match, was: Pools) {
    !mt.refused && forall f :: f in mt.offered ==> f !in was.absorbed
  }

  /** The pools with the match's own registers and its chains' shares. */
  ghost predicate Claimed(mt: Match, was: Pools, now: Pools, cs: seq<Chain>, ns: seq<nat>)
    requires Depths(cs, ns)
  {
    && mt.held !! was.absorbed
    && now.auto == was.auto + mt.held
    && now.absorbed == was.absorbed + mt.held + TakenBy(cs, ns, false) + TakenBy(cs, ns, true)
    && now.shared == was.shared + TakenBy(cs, ns, true)
    && now.pending == was.pending + (TakenBy(cs, ns, false) - mt.held)
  }

  /** What an offer comes to, and what it does to the pools. */
  ghost predicate Outcome(net: Net, index: FlopIndex, mt: Match, was: Pools, now: Pools, ok: bool, cs: seq<Chain>, ns: seq<nat>)
    requires MatchOk(net, mt)
  {
    && (ok ==> Offered(mt, was)) && (!ok ==> now == was)
    && (Offered(mt, was) ==> Found(net, index, mt, was, cs, ns) && (ok <==> Compatible(net, mt.own, cs, ns)))
    && (ok ==> Claimed(mt, was, now, cs, ns))
  }

  ghost predicate SomeOutcome(net: Net, index: FlopIndex, mt: Match, was: Pools, now: Pools, ok: bool)
    requires MatchOk(net, mt)
  {
    exists cs, ns :: Outcome(net, index, mt, was, now, ok, cs, ns)
  }

  lemma FoundControlled(net: Net, index: FlopIndex, mt: Match, was: Pools, cs: seq<Chain>, ns: seq<nat>)
    requires MatchOk(net, mt) && Found(net, index, mt, was, cs, ns)
    ensures AllControlled(net, mt.own, cs)
  {
    hide Controlled, ChainOk, Granted, AllMaximal, NoFeedback, Walked;
    var w := Walk(net, index, was.absorbed, was.shared);
    forall a | 0 <= a < |cs| ensures Controlled(net, cs[a], SeedOf(net, mt.own)) {
      assert WalkedUnder(w, mt.roots[a], cs[a], SeedOf(net, mt.own));
      ChainControlled(net, index, Users(net), mt.roots[a].sig, cs[a], SeedOf(net, mt.own), w.absorbed, w.shared);
    }
  }

  /**
   Of an accepted match, every register in a bank is one a bank can be, and has the clock of M or of the
   result's register if there is one, and the reset of M if there is one.
   */
  lemma TakenUnderSeed(net: Net, index: FlopIndex, mt: Match, was: Pools, cs: seq<Chain>, ns: seq<nat>, f: nat)
    requires MatchOk(net, mt) && Found(net, index, mt, was, cs, ns) && InBank(cs, ns, f)
    ensures f < |net.cells| && net.cells[f].Flop? && Unmarked(net, net.cells[f])
    ensures mt.own.m.Some? ==>
      net.cells[f].clk == net.cells[mt.own.m.value].clk && ResetPin(net.cells[f]) == ResetPin(net.cells[mt.own.m.value])
    ensures mt.own.m.None? && mt.own.p.Some? ==> net.cells[f].clk == net.cells[mt.own.p.value].clk
  {
    hide Found, RootsOk;
    FoundControlled(net, index, mt, was, cs, ns);
    var a, k: nat :| 0 <= a < |cs| && 0 <= k < ns[a] && k < |cs[a].stages| && f in cs[a].stages[k];
    assert Controlled(net, cs[a], SeedOf(net, mt.own));
    assert UnderSeed(net, f, SeedOf(net, mt.own));
    FoundWalked(net, index, mt, was, cs, ns, a);
    StageUnmarked(Walk(net, index, was.absorbed, was.shared), mt.roots[a], cs[a], SeedOf(net, mt.own), k, f);
  }

  lemma FoundWalked(net: Net, index: FlopIndex, mt: Match, was: Pools, cs: seq<Chain>, ns: seq<nat>, a: nat)
    requires MatchOk(net, mt) && Found(net, index, mt, was, cs, ns) && a < |cs|
    ensures |cs| == |mt.roots|
    ensures WalkedUnder(Walk(net, index, was.absorbed, was.shared), mt.roots[a], cs[a], SeedOf(net, mt.own))
  {
    hide WalkedUnder, Granted, AllMaximal, NoFeedback, Walked, RootsOk;
  }

  /** A rising-edge register that resets to zero, powers up unknown or at zero, and carries no `keep`. */
  predicate Unmarked(net: Net, c: Cell)
    requires c.Flop?
  {
    && c.rising && !c.keep && (c.srst.Some? ==> forall v :: v in c.srst.value.value ==> v == false)
    && forall b :: b in c.q && b.Wire? ==> b.id !in net.wires.keep && (b.id in net.wires.init ==> !net.wires.init[b.id])
  }

  lemma StageUnmarked(w: Walk, r: Root, c: Chain, seed: Seed, k: nat, f: nat)
    requires WalkedUnder(w, r, c, seed) && k < |c.stages| && f in c.stages[k]
    ensures f < |w.net.cells| && w.net.cells[f].Flop? && Unmarked(w.net, w.net.cells[f])
  {
    hide Canon, Users, SolelyRead, IndexOk, FlopsSized, RootOk;
    ChainStage(w.net, w.index, Users(w.net), r.sig, c, k, seed, w.absorbed, w.shared);
    assert FlopFits(w.net, f, w.absorbed, w.shared);
  }

  lemma ClearOfCopies(w: Walk, mt: Match, cs: seq<Chain>, ns: seq<nat>)
    requires IndexOk(w.net, w.index) && FlopsSized(w.net) && MatchOk(w.net, mt) && OwnClear(w.net, w.index, mt)
    requires AllWalked(w, mt.roots, cs) && Depths(cs, ns) && NoFeedback(w.net, mt, cs)
    requires forall a :: 0 <= a < |cs| ==> |cs[a].stages| <= mt.depths[a]
    ensures mt.held !! TakenBy(cs, ns, true)
  {
    hide Walked, IndexOk, FlopsSized, RootsOk, IsFeedback;
    if f :| f in mt.held && f in TakenBy(cs, ns, true) {
      var a, k := TakenWhere(cs, ns, true, f);
      TakenIsBehind(w, mt.roots[a], cs[a], k, f, mt.depths[a]);
      assert false;
    }
  }

  class Claims {
    var absorbed: set<nat>
    /** Copied into a bank, and left for their other readers. */
    var shared: set<nat>
    /** Moved into a bank: to be removed when the matcher is done. */
    var pending: seq<nat>
    /** Removed by the matcher itself. */
    var auto: set<nat>

    /** Every absorbed flop is up for removal in exactly one place, and there once. */
    ghost predicate OneOwner()
      reads this
    {
      && NoRepeats(pending)
      && Elems(pending) !! shared && Elems(pending) !! auto && shared !! auto
      && absorbed == Elems(pending) + shared + auto
    }

    ghost function State(): Pools
      reads this
    {
      Pools(absorbed, shared, Elems(pending), auto)
    }

    constructor ()
      ensures OneOwner() && absorbed == {}
    {
      absorbed, shared, pending, auto := {}, {}, [], {};
    }

    method Claim(f: nat, copied: bool)
      modifies this
      ensures auto == old(auto) && absorbed == old(absorbed) + {f}
      ensures shared == old(shared) + if copied then {f} else {}
      ensures Elems(pending) == Elems(old(pending)) + if copied then {} else {f} - old(absorbed)
      ensures old(NoRepeats(pending) && Elems(pending) <= absorbed) ==> NoRepeats(pending)
    {
      if copied {
        absorbed, shared := absorbed + {f}, shared + {f};
      } else if f !in absorbed {
        absorbed := absorbed + {f};
        pending := pending + [f];
      }
    }

    method ClaimStage(stage: seq<nat>, copied: bool)
      modifies this
      ensures auto == old(auto) && absorbed == old(absorbed) + Elems(stage)
      ensures shared == old(shared) + if copied then Elems(stage) else {}
      ensures Elems(pending) == Elems(old(pending)) + if copied then {} else Elems(stage) - old(absorbed)
      ensures old(NoRepeats(pending) && Elems(pending) <= absorbed) ==> NoRepeats(pending)
    {
      for i := 0 to |stage|
        invariant auto == old(auto) && absorbed == old(absorbed) + Elems(stage[..i])
        invariant shared == old(shared) + if copied then Elems(stage[..i]) else {}
        invariant Elems(pending) == Elems(old(pending)) + if copied then {} else Elems(stage[..i]) - old(absorbed)
        invariant old(NoRepeats(pending) && Elems(pending) <= absorbed) ==> NoRepeats(pending)
      {
        Claim(stage[i], copied);
        assert stage[..i + 1] == stage[..i] + [stage[i]];
      }
      assert stage[..|stage|] == stage;
    }

    method ClaimStages(c: Chain, n: nat)
      requires n <= |c.stages|
      modifies this
      ensures auto == old(auto) && absorbed == old(absorbed) + Taken(c, n)
      ensures shared == old(shared) + if c.copied then Taken(c, n) else {}
      ensures Elems(pending) == Elems(old(pending)) + if c.copied then {} else Taken(c, n) - old(absorbed)
      ensures old(NoRepeats(pending) && Elems(pending) <= absorbed) ==> NoRepeats(pending)
    {
      hide NoRepeats;
      for i := 0 to n
        invariant auto == old(auto) && absorbed == old(absorbed) + Taken(c, i)
        invariant shared == old(shared) + if c.copied then Taken(c, i) else {}
        invariant Elems(pending) == Elems(old(pending)) + if c.copied then {} else Taken(c, i) - old(absorbed)
        invariant old(NoRepeats(pending) && Elems(pending) <= absorbed) ==> NoRepeats(pending)
      {
        ClaimStage(c.stages[i], c.copied);
        assert Taken(c, i + 1) == Taken(c, i) + Elems(c.stages[i]);
      }
    }

    /** One accepted or refused offer. */
    method Emit(m: Module, index: FlopIndex, mt: Match) returns (ok: bool, cs: seq<Chain>, ns: seq<nat>)
      requires IndexOk(m.View(), index) && FlopsSized(m.View()) && MatchOk(m.View(), mt)
      modifies this
      ensures Outcome(m.View(), index, mt, old(State()), State(), ok, cs, ns)
      ensures !ok ==> pending == old(pending)
      ensures ok && old(OneOwner()) ==> (OneOwner() <==> mt.held !! TakenBy(cs, ns, true))
    {
      hide Walked, RootsOk, IndexOk, FlopsSized, NoRepeats, Compatible, Granted, AllMaximal, NoFeedback, WalkedUnder;
      cs, ns := [], [];
      ok := false;
      if mt.refused {
        return;
      }
      for i := 0 to |mt.offered|
        invariant forall f :: f in mt.offered[..i] ==> f !in absorbed
      {
        if mt.offered[i] in absorbed {
          assert mt.offered[i] in mt.offered;
          return;
        }
      }
      assert mt.offered[..|mt.offered|] == mt.offered;
      cs := Walks(m, index, mt);
      ok, ns := ShareControls(m, mt.own, cs, mt.order);
      GrantedDepths(m.View(), mt.own, cs, mt.order, ns);
      if !ok {
        return;
      }
      auto := auto + mt.held;
      absorbed := absorbed + mt.held;
      MovedOrCopied(Walk(m.View(), index, old(absorbed), old(shared)), mt.roots, cs, ns);
      ClaimChains(cs, ns);
      if old(OneOwner()) {
        OwnerAfter(old(pending), old(shared), old(auto), pending, mt.held, TakenBy(cs, ns, false), TakenBy(cs, ns, true));
      }
    }

    /** Every chain's share, in port order. */
    method ClaimChains(cs: seq<Chain>, ns: seq<nat>)
      requires Depths(cs, ns)
      requires TakenBy(cs, ns, false) !! TakenBy(cs, ns, true)
      modifies this
      ensures auto == old(auto)
      ensures absorbed == old(absorbed) + TakenBy(cs, ns, false) + TakenBy(cs, ns, true)
      ensures shared == old(shared) + TakenBy(cs, ns, true)
      ensures Elems(pending) == Elems(old(pending)) + (TakenBy(cs, ns, false) - old(absorbed))
      ensures old(NoRepeats(pending) && Elems(pending) <= absorbed) ==> NoRepeats(pending)
    {
      hide NoRepeats, Taken, Elems, TakenBy;
      NoneTaken(cs, ns);
      for a := 0 to |cs|
        invariant auto == old(auto)
        invariant Depths(cs[..a], ns[..a])
        invariant absorbed == old(absorbed) + TakenBy(cs[..a], ns[..a], false) + TakenBy(cs[..a], ns[..a], true)
        invariant shared == old(shared) + TakenBy(cs[..a], ns[..a], true)
        invariant Elems(pending) == Elems(old(pending)) + (TakenBy(cs[..a], ns[..a], false) - old(absorbed))
        invariant old(NoRepeats(pending) && Elems(pending) <= absorbed) ==> NoRepeats(pending)
      {
        ClaimStages(cs[a], ns[a]);
        TakenNext(cs, ns, a, false);
        TakenNext(cs, ns, a, true);
        TakenPart(cs, ns, a + 1, false);
        TakenPart(cs, ns, a + 1, true);
      }
      assert cs[..|cs|] == cs && ns[..|ns|] == ns;
    }

    /** The walk back from one operand; a C chain with the accumulator's feedback in it is dropped. */
    method WalkRoot(m: Module, index: FlopIndex, users: multiset<Bit>, mt: Match, a: nat) returns (c: Chain)
      requires IndexOk(m.View(), index) && FlopsSized(m.View()) && MatchOk(m.View(), mt) && a < |mt.roots|
      requires users == Users(m.View())
      ensures WalkedUnder(Walk(m.View(), index, absorbed, shared), mt.roots[a], c, SeedOf(m.View(), mt.own))
      ensures WalkedOut(Walk(m.View(), index, absorbed, shared), mt, a, c) && |c.stages| <= mt.depths[a]
      ensures Some(a) == mt.cRoot ==> !HasFeedback(m.View(), c, mt.result) && !TakesResult(m.View(), c, mt.result)
    {
      hide IndexOk, FlopsSized, Users, ChainOk, Takable, HasFeedback, TakesResult, Canon, ReadElsewhere, Controlled;
      ghost var w := Walk(m.View(), index, absorbed, shared);
      var seed := SeedOf(m.View(), mt.own);
      c := CollectFlops(m, index, users, mt.roots[a].sig, mt.depths[a], seed, absorbed, shared);
      WithoutFeedbackWalked(w, mt.roots[a], c, mt.result, seed);
      UnderIsWalked(w, mt.roots[a], c, seed);
      if Some(a) == mt.cRoot {
        FeedbackIff(m.View(), c, mt.result);
        assert HasFeedback(m.View(), c, mt.result) ==> IsDropped(w, mt, a, c);
        c := WithoutFeedback(m.View(), c, mt.result);
        FeedbackIff(m.View(), c, mt.result);
      }
    }

    /** The walks back from every operand of a match. */
    method Walks(m: Module, index: FlopIndex, mt: Match) returns (chains: seq<Chain>)
      requires IndexOk(m.View(), index) && FlopsSized(m.View()) && MatchOk(m.View(), mt)
      ensures var w := Walk(m.View(), index, absorbed, shared);
        AllWalked(w, mt.roots, chains) && AllMaximal(w, mt, chains) && NoFeedback(m.View(), mt, chains)
      ensures forall a :: 0 <= a < |chains| ==> |chains[a].stages| <= mt.depths[a]
      ensures forall a :: 0 <= a < |chains| ==>
        WalkedUnder(Walk(m.View(), index, absorbed, shared), mt.roots[a], chains[a], SeedOf(m.View(), mt.own))
    {
      hide IndexOk, FlopsSized, Users, Walked, WalkedOut, WalkedUnder, HasFeedback, RootsOk;
      chains := [];
      var users := Users(m.View());
      ghost var w := Walk(m.View(), index, absorbed, shared);
      for a := 0 to |mt.roots|
        invariant |chains| == a
        invariant forall b :: 0 <= b < a ==> |chains[b].stages| <= mt.depths[b]
        invariant forall b :: 0 <= b < a ==> WalkedUnder(w, mt.roots[b], chains[b], SeedOf(w.net, mt.own))
        invariant forall b :: 0 <= b < a ==> WalkedOut(w, mt, b, chains[b])
        invariant NoFeedback(m.View(), mt, chains)
      {
        var c := WalkRoot(m, index, users, mt, a);
        chains := chains + [c];
      }
      forall a | 0 <= a < |chains| ensures Walked(w, mt.roots[a], chains[a]) {
        UnderIsWalked(w, mt.roots[a], chains[a], SeedOf(w.net, mt.own));
      }
    }

    /**
     A whole run of the matcher: what every offer in turn comes to and makes of the
     pools, and one owner for every register throughout.
     */
    method EmitAll(m: Module, index: FlopIndex, offers: seq<Match>) returns (accepted: seq<bool>, ghost trace: seq<Pools>)
      requires IndexOk(m.View(), index) && FlopsSized(m.View()) && OneOwner()
      requires forall i :: 0 <= i < |offers| ==> MatchOk(m.View(), offers[i]) && OwnClear(m.View(), index, offers[i])
      modifies this
      ensures OneOwner()
      ensures |accepted| == |offers| && |trace| == |offers| + 1 && trace[0] == old(State()) && trace[|offers|] == State()
      ensures forall i :: 0 <= i < |offers| ==> SomeOutcome(m.View(), index, offers[i], trace[i], trace[i + 1], accepted[i])
      ensures old(auto) <= auto && old(shared) <= shared && Elems(old(pending)) <= Elems(pending)
    {
      hide OwnClear, MatchOk, IndexOk, FlopsSized, NoRepeats, Elems, Found, Compatible;
      accepted, trace := [], [State()];
      for i := 0 to |offers|
        invariant OneOwner()
        invariant |accepted| == i && |trace| == i + 1 && trace[0] == old(State()) && trace[i] == State()
        invariant forall j :: 0 <= j < i ==> SomeOutcome(m.View(), index, offers[j], trace[j], trace[j + 1], accepted[j])
        invariant old(auto) <= auto && old(shared) <= shared && Elems(old(pending)) <= Elems(pending)
      {
        ghost var was := State();
        var ok, cs, ns := Emit(m, index, offers[i]);
        if ok {
          FoundClear(m.View(), index, offers[i], was, cs, ns);
        }
        accepted, trace := accepted + [ok], trace + [State()];
      }
    }
  }

  lemma GrantedDepths(net: Net, own: Registers, cs: seq<Chain>, order: seq<nat>, ns: seq<nat>)
    requires RegistersOk(net, own) && |ns| == |cs| && Granted(net, own, cs, order, ns)
    ensures Depths(cs, ns)
  {
    hide Granted;
    GrantedAgree(net, own, cs, order, ns);
  }

  lemma UnderIsWalked(w: Walk, r: Root, c: Chain, seed: Seed)
    requires WalkedUnder(w, r, c, seed)
    ensures Walked(w, r, c)
  {
    hide ChainOk, IndexOk, FlopsSized, RootOk, Users;
  }

  lemma FoundClear(net: Net, index: FlopIndex, mt: Match, was: Pools, cs: seq<Chain>, ns: seq<nat>)
    requires IndexOk(net, index) && FlopsSized(net) && MatchOk(net, mt) && OwnClear(net, index, mt)
    requires Found(net, index, mt, was, cs, ns)
    ensures mt.held !! TakenBy(cs, ns, true)
  {
    hide OwnClear, IndexOk, FlopsSized, Walked, WalkedUnder, Granted, AllMaximal, NoFeedback, RootsOk;
    ClearOfCopies(Walk(net, index, was.absorbed, was.shared), mt, cs, ns);
  }

  // ---- A register copied into its own bank ------------------------------------------------------

  /** `p <= p * b`, one bit wide, with `p` a module output. */
  function SelfFed(): Net {
    Net([Mul(Operand([Wire(0)], false), Operand([Wire(1)], false), [Wire(2)]),
         Flop([Wire(2)], [Wire(0)], Wire(3), true, None, None, false)],
        [], Wires([Wire(0)], {}, map[]))
  }

  function SelfFedIndex(): FlopIndex {
    map[Wire(0) := (1, 0)]
  }

  /** The product with its register, offered with one operand on the register itself. */
  function SelfFedMatch(): Match {
    Match([1], {1}, [Root(0, 0, [Wire(0)]), Root(0, 1, [Wire(1)])], [2, 2], [1, 0], Registers(None, Some(1), None), None,
          [Wire(2)], false)
  }

  lemma SelfFedOk()
    ensures IndexOk(SelfFed(), SelfFedIndex()) && FlopsSized(SelfFed()) && MatchOk(SelfFed(), SelfFedMatch())
  {
    var net, mt := SelfFed(), SelfFedMatch();
    assert AllBits(net.cells[0]) == [Wire(0), Wire(1), Wire(2)];
    assert RootOk(net, mt.roots[0]) && RootOk(net, mt.roots[1]);
    assert 1 in mt.offered;
  }

  /** The register has three users: itself, the operand and the output. */
  lemma SelfFedUsers()
    ensures Users(SelfFed())[Wire(0)] >= 3
  {
    var net := SelfFed();
    var all := AllBits(net.cells[1]);
    assert all == [Wire(2), Wire(3), Wire(0)];
    assert AllBits(net.cells[0]) == [Wire(0), Wire(1), Wire(2)];
    PlacesInCells(net.cells, net.conns, {(0, 0), (1, 2)}, Wire(0));
    CountOf(net.conns, net.wires.outputs, Wire(0));
  }

  /** The register can be taken. */
  lemma SelfFedTakable()
    ensures Takable(SelfFed(), SelfFedIndex(), [Wire(0)], None, Seed(Some(Wire(3)), None), {}, {})
  {
    var net, index := SelfFed(), SelfFedIndex();
    var c := ControlsOf(net.cells[1]);
    assert Drivers(net, index, [Wire(0)]) == [(1, 0)];
    assert !FlopBlocked(net, net.cells[1]);
    assert FitsUnder(net, 1, c, {}, {});
    assert Agrees(Seed(Some(Wire(3)), None), None, c);
  }

  /** So the walk from the operand takes it, as a copy. */
  lemma SelfFedCopied(c: Chain)
    requires Walked(Walk(SelfFed(), SelfFedIndex(), {}, {}), SelfFedMatch().roots[0], c)
    requires Maximal(Walk(SelfFed(), SelfFedIndex(), {}, {}), SelfFedMatch().roots[0], c, 2, Seed(Some(Wire(3)), None))
    ensures c.copied && |c.stages| >= 1 && 1 in c.stages[0]
  {
    hide Users, Takable, Canon;
    var net, index, r := SelfFed(), SelfFedIndex(), SelfFedMatch().roots[0];
    var w := Walk(net, index, {}, {});
    SelfFedTakable();
    assert |c.stages| == 0 ==> c.controls.None? by { NoStageNoControls(w, r, c); }
    assert |c.stages| >= 1;
    var f, o := ReadFacts(w, r, c, Read(0, 0));
    assert Canon(net.conns, Wire(0)) == Wire(0) by { NoConn(Wire(0)); }
    SelfFedUsers();
  }

  lemma NoStageNoControls(w: Walk, r: Root, c: Chain)
    requires Walked(w, r, c)
    ensures |c.stages| == 0 ==> c.controls.None?
  {
    hide Users, StageOk, SolelyRead, IndexOk, FlopsSized, RootOk;
  }

  /** The shared controls leave the first chain alone: it has no earlier one to disagree with, and no enable. */
  lemma FirstChainStays(net: Net, own: Registers, cs: seq<Chain>, order: seq<nat>, ns: seq<nat>)
    requires RegistersOk(net, own) && |cs| == |ns| == 2 && Granted(net, own, cs, order, ns) && own.ad.None?
    requires Enables(net, own, cs, [|cs[0].stages|, 0]) == {} && cs[1].stages == []
    ensures ns[0] == |cs[0].stages|
  {
    hide Enables, Agree;
    var agreed, routed := GrantedParts(net, own, cs, order, ns);
    assert agreed == [|cs[0].stages|, 0];
    var k :| 0 <= k <= |order| && routed == Without(agreed, order, k)
      && forall j :: 0 <= j < k ==> |Enables(net, own, cs, Without(agreed, order, j))| > MAX_ENABLES;
    assert Without(agreed, order, 0) == agreed;
    assert k == 0;
  }

  /** An accepted offer after which a register is up for removal in two places. */
  lemma OwnRegisterCopied(cs: seq<Chain>, ns: seq<nat>)
    requires MatchOk(SelfFed(), SelfFedMatch())
    requires Found(SelfFed(), SelfFedIndex(), SelfFedMatch(), Pools({}, {}, {}, {}), cs, ns)
    ensures Offered(SelfFedMatch(), Pools({}, {}, {}, {})) && Compatible(SelfFed(), SelfFedMatch().own, cs, ns)
    ensures 1 in SelfFedMatch().held * TakenBy(cs, ns, true)
  {
    hide Users, Takable, Walked, Maximal, Granted, WalkedUnder;
    var w, mt := Walk(SelfFed(), SelfFedIndex(), {}, {}), SelfFedMatch();
    assert Walked(w, mt.roots[0], cs[0]) && Maximal(w, mt.roots[0], cs[0], mt.depths[0], SelfFedSeed());
    SelfFedCopied(cs[0]);
    SelfFedNoEnables(cs, ns);
    FirstChainStays(w.net, mt.own, cs, mt.order, ns);
    assert 1 in Taken(cs[0], ns[0]);
    TakenHas(cs, ns, 0, 1);
    assert !FlopBlocked(w.net, w.net.cells[1]);
  }

  function SelfFedSeed(): Seed {
    Seed(Some(Wire(3)), None)
  }

  /** The other operand has no register, and this one no enable. */
  lemma SelfFedNoEnables(cs: seq<Chain>, ns: seq<nat>)
    requires MatchOk(SelfFed(), SelfFedMatch())
    requires Found(SelfFed(), SelfFedIndex(), SelfFedMatch(), Pools({}, {}, {}, {}), cs, ns)
    ensures |cs| == |ns| == 2 && cs[1].stages == []
    ensures Enables(SelfFed(), SelfFedMatch().own, cs, [|cs[0].stages|, 0]) == {}
  {
    hide Users, Takable, Maximal, Granted, ChainOk, StageOk, AllMaximal, NoFeedback;
    var w, mt := Walk(SelfFed(), SelfFedIndex(), {}, {}), SelfFedMatch();
    FoundControlled(w.net, w.index, mt, Pools({}, {}, {}, {}), cs, ns);
    assert Controlled(w.net, cs[0], SelfFedSeed());
    WalkedOk(w, mt.roots[1], cs[1]);
    NoConn(Wire(1));
    if |cs[1].stages| > 0 {
      var _, _ := ReadFacts(w, mt.roots[1], cs[1], Read(0, 0));
      assert false;
    }
    if |cs[0].stages| > 0 {
      var f := cs[0].stages[0][0];
      assert f in cs[0].stages[0];
      assert UnderSeed(w.net, f, SelfFedSeed()) && f == 1;
      assert cs[0].controls.value.en == TIED;
    }
  }

  lemma {:induction false} TakenHas(cs: seq<Chain>, ns: seq<nat>, a: nat, f: nat)
    requires Depths(cs, ns) && a < |cs| && f in Taken(cs[a], ns[a])
    ensures f in TakenBy(cs, ns, cs[a].copied)
    decreases |cs|
  {
    var n := |cs| - 1;
    if a < n { TakenHas(cs[..n], ns[..n], a, f); }
  }

  // ---- A register only the operand reads ------------------------------------------------------

  /** A multiply with a register of its own on one operand, with enable, reset and power-up value. */
  function PrivateRegister(): Net {
    Net([Mul(Operand([Wire(0)], false), Operand([Wire(1)], false), [Wire(2)]),
         Flop([Wire(3)], [Wire(0)], Wire(4), true, Some(Control(Wire(5), false)), Some(Reset(Control(Wire(6), true), [false])), false)],
        [], Wires([Wire(2)], {}, map[0 := false]))
  }

  lemma PrivateRegisterBits()
    ensures AllBits(PrivateRegister().cells[0]) == [Wire(0), Wire(1), Wire(2)]
    ensures AllBits(PrivateRegister().cells[1]) == [Wire(3), Wire(4), Wire(5), Wire(6), Wire(0)]
  {
  }

  lemma PrivateRegisterRead()
    ensures SolelyRead(PrivateRegister(), [(1, 0)], 1, Users(PrivateRegister()), {})
  {
    hide Users, AllBits;
    PrivateRegisterBits();
    TwoCells(PrivateRegister(), Wire(0));
    NoConn(Wire(0));
    assert UseCount([(1, 0)][..0], 1) == 0;
  }

  /** It is taken, and moved: nothing else reads it. */
  lemma PrivateRegisterMoves()
    ensures var net, index, seed := PrivateRegister(), map[Wire(0) := (1, 0)], Seed(None, None);
      Takable(net, index, [Wire(0)], None, seed, {}, {}) && !ReadElsewhere(net, index, Users(net), [Wire(0)], {})
  {
    hide Users, SolelyRead;
    var net, index := PrivateRegister(), map[Wire(0) := (1, 0)];
    NoConn(Wire(0));
    PrivateRegisterRead();
    assert Drivers(net, index, [Wire(0)]) == [(1, 0)];
    assert !FlopBlocked(net, net.cells[1]);
    assert FitsUnder(net, 1, ControlsOf(net.cells[1]), {}, {}) && Agrees(Seed(None, None), None, ControlsOf(net.cells[1]));
  }
}
