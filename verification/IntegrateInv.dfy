/** Moving inverters into the pins they drive, by toggling the pins' inversion parameters. */
module IntegrateInv {
  import opened Bits
  import N = Netlist

  datatype Lit = L0 | L1 | Lx

  /** A port of an instance; `param` is the parameter its `invertible_pin` attribute names. */
  datatype Port = Port(input: bool, sig: Sig, param: Option<string>)

  datatype Cell =
    | Not(a: Bit, y: Bit)
    | Inst(ports: seq<Port>, params: map<string, seq<Lit>>)
    | Removed

  type Cells = seq<Cell>

  /** One bit of a cell's input port, or of a module output. */
  datatype Pin = CellPin(cell: nat, port: nat, bit: nat) | OutPin(wire: nat)

  // ---- Pins ---------------------------------------------------------------------------

  function InSig(c: Cell, port: nat): Sig {
    match c
    case Not(a, _) => if port == 0 then [a] else []
    case Inst(ports, _) => if port < |ports| && ports[port].input then ports[port].sig else []
    case Removed => []
  }

  predicate IsPin(cells: Cells, p: Pin) {
    p.CellPin? && p.cell < |cells| && p.bit < |InSig(cells[p.cell], p.port)|
  }

  function PinBit(cells: Cells, p: Pin): Bit
    requires IsPin(cells, p)
  {
    InSig(cells[p.cell], p.port)[p.bit]
  }

  /** A missing parameter is all zeros. */
  predicate Inverted(c: Cell, port: nat, bit: nat) {
    && c.Inst? && port < |c.ports| && c.ports[port].param.Some?
    && c.ports[port].param.value in c.params
    && var mask := c.params[c.ports[port].param.value]; bit < |mask| && mask[bit] == L1
  }

  /** What the cell behind a pin sees. */
  predicate Seen(cells: Cells, p: Pin, e: Env)
    requires IsPin(cells, p)
  {
    BitVal(PinBit(cells, p), e) != Inverted(cells[p.cell], p.port, p.bit)
  }

  /** No parameter controls two ports. */
  predicate DistinctParams(c: Cell) {
    c.Inst? ==> forall i, j :: 0 <= i < j < |c.ports| && c.ports[i].param.Some? ==> c.ports[i].param != c.ports[j].param
  }

  /** The values that connections and inverters allow. */
  predicate Consistent(cells: Cells, conns: N.Conns, e: Env) {
    && N.ConnsHold(conns, e)
    && forall c :: c in cells && c.Not? ==> BitVal(c.y, e) == !BitVal(c.a, e)
  }

  /** Every pin that remains sees what it saw. */
  ghost predicate SameSeen(before: Cells, after: Cells, e: Env) {
    forall p :: IsPin(after, p) ==> IsPin(before, p) && Seen(after, p, e) == Seen(before, p, e)
  }

  // ---- One pin ------------------------------------------------------------------------

  function Toggled(l: Lit): Lit {
    match l case L0 => L1 case L1 => L0 case Lx => Lx
  }

  predicate Invertible(cells: Cells, p: Pin) {
    IsPin(cells, p) && cells[p.cell].Inst? && cells[p.cell].ports[p.port].param.Some?
  }

  function MaskOf(c: Cell, port: nat): seq<Lit>
    requires c.Inst? && port < |c.ports| && c.ports[port].param.Some?
  {
    var name := c.ports[port].param.value;
    if name in c.params then c.params[name] else Repeat(L0, |c.ports[port].sig|)
  }

  /** The parameter is as wide as the port, and the pin's bit is 0 or 1. */
  predicate Togglable(cells: Cells, p: Pin)
    requires Invertible(cells, p)
  {
    var c := cells[p.cell];
    |MaskOf(c, p.port)| == |c.ports[p.port].sig| && MaskOf(c, p.port)[p.bit] != Lx
  }

  function Integrated(cells: Cells, p: Pin, a: Bit): Cells
    requires Invertible(cells, p) && Togglable(cells, p)
  {
    var c := cells[p.cell];
    var port, mask := c.ports[p.port], MaskOf(c, p.port);
    cells[p.cell := Inst(c.ports[p.port := Port(port.input, port.sig[p.bit := a], port.param)],
                         c.params[port.param.value := mask[p.bit := Toggled(mask[p.bit])]])]
  }

  lemma IntegratedPins(cells: Cells, p: Pin, a: Bit)
    requires Invertible(cells, p) && Togglable(cells, p)
    ensures var after := Integrated(cells, p, a);
      forall q :: IsPin(after, q) <==> IsPin(cells, q)
    ensures var after := Integrated(cells, p, a);
      forall q :: IsPin(after, q) ==> PinBit(after, q) == if q == p then a else PinBit(cells, q)
  {
  }

  /** Reading the other side of an inverter with the mask bit toggled looks the same, to all pins. */
  lemma IntegratedSeen(cells: Cells, p: Pin, a: Bit, e: Env)
    requires Invertible(cells, p) && Togglable(cells, p) && DistinctParams(cells[p.cell])
    requires BitVal(PinBit(cells, p), e) == !BitVal(a, e)
    ensures SameSeen(cells, Integrated(cells, p, a), e)
    ensures DistinctParams(Integrated(cells, p, a)[p.cell])
  {
    var after := Integrated(cells, p, a);
    var c, c' := cells[p.cell], after[p.cell];
    IntegratedPins(cells, p, a);
    forall q | IsPin(after, q) ensures Seen(after, q, e) == Seen(cells, q, e) {
      if q.cell == p.cell {
        assert c'.ports[q.port].param == c.ports[q.port].param;
        if q.port == p.port {
          if q.bit == p.bit { assert q == p; }
        } else {
          assert c.ports[q.port].param.Some? ==> c.ports[q.port].param != c.ports[p.port].param;
        }
      }
    }
  }

  lemma SameSeenTrans(a: Cells, b: Cells, c: Cells, e: Env)
    requires SameSeen(a, b, e) && SameSeen(b, c, e)
    ensures SameSeen(a, c, e)
  {
    hide Seen;
  }

  // ---- Which inverters ---------------------------------------------------------------------

  type InvMap = map<Bit, nat>
  type PinMap = map<nat, set<Pin>>

  ghost predicate InvMapOk(cells: Cells, conns: N.Conns, inv: InvMap) {
    && (forall b :: b in inv ==> inv[b] < |cells| && cells[inv[b]].Not? && N.Canon(conns, cells[inv[b]].y) == b)
    && (forall i :: 0 <= i < |cells| && cells[i].Not? ==>
          N.Canon(conns, cells[i].y) in inv && inv[N.Canon(conns, cells[i].y)] == i)
  }

  /** The pin is on the net of an inverter, and can invert for itself. */
  predicate Takes(cells: Cells, conns: N.Conns, selected: set<nat>, inv: InvMap, p: Pin, k: nat) {
    && Invertible(cells, p) && p.cell in selected && PinBit(cells, p).Wire?
    && N.Canon(conns, PinBit(cells, p)) in inv && inv[N.Canon(conns, PinBit(cells, p))] == k
  }

  ghost predicate Collected(cells: Cells, conns: N.Conns, selected: set<nat>, inv: InvMap, pins: PinMap) {
    && (forall k :: k in pins ==> pins[k] != {} && forall p :: p in pins[k] ==> Takes(cells, conns, selected, inv, p, k))
    && (forall p, k :: Takes(cells, conns, selected, inv, p, k) ==> k in pins && p in pins[k])
  }

  /** A module output is only found where some connection assigns to it. */
  predicate IsSink(cells: Cells, conns: N.Conns, outputs: set<nat>, y: Bit, p: Pin) {
    match p
    case CellPin(_, _, _) => IsPin(cells, p) && PinBit(cells, p).Wire? && N.Canon(conns, PinBit(cells, p)) == N.Canon(conns, y)
    case OutPin(w) => w in outputs && Assigned(conns, w) && N.Canon(conns, Wire(w)) == N.Canon(conns, y)
  }

  predicate Assigned(conns: N.Conns, w: nat) {
    exists q :: q in conns && q.0 == Wire(w)
  }

  // ---- After any number of integrations -----------------------------------------------------

  /** The module before, and what was found in it. */
  datatype Start = Start(cells: Cells, conns: N.Conns, outputs: set<nat>, selected: set<nat>, inv: InvMap, pins: PinMap)

  ghost predicate StartOk(s: Start) {
    && InvMapOk(s.cells, s.conns, s.inv) && Collected(s.cells, s.conns, s.selected, s.inv, s.pins)
    && forall c :: c in s.cells ==> DistinctParams(c)
  }

  predicate CellOk(was: Cell, now: Cell, gone: bool) {
    match was
    case Not(_, _) => now == if gone then Removed else was
    case Inst(ports, _) => now.Inst? && DistinctParams(now) && |now.ports| == |ports|
      && forall j :: 0 <= j < |ports| ==> now.ports[j].param == ports[j].param && now.ports[j].input == ports[j].input
    case Removed => now.Removed?
  }

  /** The inverter whose place a pin took, if it is gone. */
  predicate MovedTo(s: Start, gone: set<nat>, p: Pin, k: nat) {
    k in gone && k in s.pins && p in s.pins[k] && k < |s.cells| && s.cells[k].Not?
  }

  ghost predicate PinOk(s: Start, cells: Cells, gone: set<nat>, p: Pin) {
    IsPin(cells, p) ==>
      && IsPin(s.cells, p)
      && (forall k: nat :: MovedTo(s, gone, p, k) ==> PinBit(cells, p) == s.cells[k].a)
      && ((forall k: nat :: !MovedTo(s, gone, p, k)) ==> PinBit(cells, p) == PinBit(s.cells, p))
  }

  /** Nothing reads the net any more. */
  ghost predicate Unread(cells: Cells, conns: N.Conns, outputs: set<nat>, y: Bit) {
    && (forall p :: IsPin(cells, p) && PinBit(cells, p).Wire? ==> N.Canon(conns, PinBit(cells, p)) != N.Canon(conns, y))
    && (forall w :: w in outputs && Assigned(conns, w) ==> N.Canon(conns, Wire(w)) != N.Canon(conns, y))
  }

  ghost predicate Reached(s: Start, cells: Cells, gone: set<nat>) {
    && |cells| == |s.cells|
    && (forall k :: k in gone ==> k in s.pins && k < |s.cells| && s.cells[k].Not?)
    && (forall i :: 0 <= i < |cells| ==> CellOk(s.cells[i], cells[i], i in gone))
    && (forall p :: IsPin(s.cells, p) && s.cells[p.cell].Inst? ==> IsPin(cells, p))
    && (forall p :: PinOk(s, cells, gone, p))
    && (forall e :: Consistent(s.cells, s.conns, e) ==> SameSeen(s.cells, cells, e))
    && (forall k :: k in gone ==> Unread(cells, s.conns, s.outputs, s.cells[k].y))
  }

  lemma ReachedAtStart(s: Start)
    requires StartOk(s)
    ensures Reached(s, s.cells, {})
  {
  }

  /** Some pins of the inverter moved across it, none of the others touched. */
  ghost predicate Across(s: Start, before: Cells, after: Cells, moved: set<Pin>, a: Bit) {
    && |after| == |before| == |s.cells|
    && (forall i :: 0 <= i < |before| ==> CellOk(before[i], after[i], false))
    && (forall i :: 0 <= i < |before| && before[i].Inst? ==> DistinctParams(after[i]))
    && (forall p :: IsPin(after, p) <==> IsPin(before, p))
    && (forall p :: IsPin(after, p) ==> PinBit(after, p) == if p in moved then a else PinBit(before, p))
    && (forall e :: Consistent(s.cells, s.conns, e) ==> SameSeen(before, after, e))
  }

  lemma AcrossNone(s: Start, cells: Cells, gone: set<nat>, a: Bit)
    requires StartOk(s) && Reached(s, cells, gone)
    ensures Across(s, cells, cells, {}, a)
  {
    hide Seen, PinOk, Unread, Consistent;
  }

  /** The pin still reads the inverter's net, so its value is the inverse of the inverter's input. */
  lemma PinIsInverse(s: Start, cells: Cells, gone: set<nat>, k: nat, p: Pin, e: Env)
    requires StartOk(s) && Reached(s, cells, gone) && k in s.pins && k !in gone && p in s.pins[k]
    requires Consistent(s.cells, s.conns, e)
    ensures Invertible(cells, p) && k < |s.cells| && s.cells[k].Not?
    ensures BitVal(PinBit(cells, p), e) == !BitVal(s.cells[k].a, e)
  {
    PinUntouched(s, cells, gone, k, p);
    N.CanonValue(s.conns, PinBit(s.cells, p), e);
    N.CanonValue(s.conns, s.cells[k].y, e);
    assert s.cells[k] in s.cells;
  }

  lemma PinUntouched(s: Start, cells: Cells, gone: set<nat>, k: nat, p: Pin)
    requires StartOk(s) && Reached(s, cells, gone) && k in s.pins && k !in gone && p in s.pins[k]
    ensures k < |s.cells| && s.cells[k].Not? && IsPin(s.cells, p) && Invertible(cells, p)
    ensures PinBit(cells, p) == PinBit(s.cells, p) && PinBit(s.cells, p).Wire?
    ensures N.Canon(s.conns, PinBit(s.cells, p)) == N.Canon(s.conns, s.cells[k].y)
  {
    hide N.Canon, Seen, Unread, Consistent, DistinctParams;
    assert Takes(s.cells, s.conns, s.selected, s.inv, p, k);
    assert CellOk(s.cells[p.cell], cells[p.cell], p.cell in gone);
    assert PinOk(s, cells, gone, p);
    forall j: nat ensures !MovedTo(s, gone, p, j) {
      if MovedTo(s, gone, p, j) { assert false; }
    }
  }

  lemma AcrossOne(s: Start, before: Cells, cells: Cells, moved: set<Pin>, k: nat, gone: set<nat>, p: Pin)
    requires StartOk(s) && Reached(s, before, gone) && k in s.pins && k !in gone && p in s.pins[k] && p !in moved
    requires k < |s.cells| && s.cells[k].Not? && Across(s, before, cells, moved, s.cells[k].a)
    ensures Invertible(cells, p)
    ensures Togglable(cells, p) ==> Across(s, before, Integrated(cells, p, s.cells[k].a), moved + {p}, s.cells[k].a)
  {
    hide N.Canon, Unread, Consistent, PinOk, Reached, StartOk, Seen, Inverted;
    var a := s.cells[k].a;
    PinUntouched(s, before, gone, k, p);
    assert CellOk(before[p.cell], cells[p.cell], false);
    if Togglable(cells, p) {
      var after := Integrated(cells, p, a);
      IntegratedPins(cells, p, a);
      forall e | Consistent(s.cells, s.conns, e) ensures SameSeen(before, after, e) {
        PinIsInverse(s, before, gone, k, p, e);
        assert PinBit(cells, p) == PinBit(before, p);
        IntegratedSeen(cells, p, a, e);
        SameSeenTrans(before, cells, after, e);
      }
      forall i | 0 <= i < |before| ensures CellOk(before[i], after[i], false) {
        assert CellOk(before[i], cells[i], false);
        KeepsDistinct(cells, p, a);
      }
    }
  }

  lemma KeepsDistinct(cells: Cells, p: Pin, a: Bit)
    requires Invertible(cells, p) && Togglable(cells, p) && DistinctParams(cells[p.cell])
    ensures DistinctParams(Integrated(cells, p, a)[p.cell])
  {
  }

  // ---- Parameters that can change ---------------------------------------------------------

  /** The pin's parameter is not set, or is as wide as the port with a 0 or 1 for the pin. */
  predicate CanToggle(cells: Cells, p: Pin)
    requires Invertible(cells, p)
  {
    var c := cells[p.cell];
    var port := c.ports[p.port];
    port.param.value in c.params ==>
      var mask := c.params[port.param.value];
      |mask| == |port.sig| && (mask[p.bit] == L0 || mask[p.bit] == L1)
  }

  lemma TogglableIff(cells: Cells, p: Pin)
    requires Invertible(cells, p)
    ensures Togglable(cells, p) <==> CanToggle(cells, p)
  {
  }

  /** A change of one pin leaves it to all others whether they can change. */
  lemma OthersToggle(cells: Cells, p: Pin, a: Bit, q: Pin)
    requires Invertible(cells, p) && Togglable(cells, p) && DistinctParams(cells[p.cell]) && Invertible(cells, q) && q != p
    ensures Invertible(Integrated(cells, p, a), q)
    ensures CanToggle(Integrated(cells, p, a), q) <==> CanToggle(cells, q)
  {
    var c, c' := cells[p.cell], Integrated(cells, p, a)[p.cell];
    if q.cell == p.cell {
      assert c'.ports[q.port].param == c.ports[q.port].param;
      if q.port != p.port { assert c.ports[q.port].param != c.ports[p.port].param; }
    }
  }

  /** Pins not moved yet can change exactly when they could in the module before. */
  ghost predicate ToggleKept(s: Start, cells: Cells, moved: set<Pin>) {
    forall q :: Invertible(s.cells, q) && q !in moved ==> Invertible(cells, q) && (CanToggle(cells, q) <==> CanToggle(s.cells, q))
  }

  lemma ToggleKeptOne(s: Start, cells: Cells, moved: set<Pin>, p: Pin, a: Bit)
    requires ToggleKept(s, cells, moved) && Invertible(cells, p) && Togglable(cells, p) && DistinctParams(cells[p.cell])
    ensures ToggleKept(s, Integrated(cells, p, a), moved + {p})
  {
    hide CanToggle, Togglable, Integrated, DistinctParams, Invertible;
    forall q | Invertible(s.cells, q) && q !in moved + {p}
      ensures Invertible(Integrated(cells, p, a), q) && (CanToggle(Integrated(cells, p, a), q) <==> CanToggle(s.cells, q))
    {
      OthersToggle(cells, p, a, q);
    }
  }

  lemma ToggleKeptRemoved(s: Start, cells: Cells, moved: set<Pin>, k: nat)
    requires ToggleKept(s, cells, moved) && k < |cells| && cells[k].Not?
    ensures ToggleKept(s, cells[k := Removed], moved)
  {
    forall q | Invertible(s.cells, q) && q !in moved
      ensures Invertible(cells[k := Removed], q) && (CanToggle(cells[k := Removed], q) <==> CanToggle(s.cells, q))
    {
      assert Invertible(cells, q) && q.cell != k;
    }
  }

  ghost predicate AllToggle(cells: Cells, pins: set<Pin>) {
    forall p :: p in pins ==> Invertible(cells, p) && CanToggle(cells, p)
  }

  /** Every pin the inverter drives has a parameter that can change, where it has one at all. */
  ghost predicate Changeable(cells: Cells, conns: N.Conns, outputs: set<nat>, k: nat)
    requires k < |cells| && cells[k].Not?
  {
    forall p :: IsSink(cells, conns, outputs, cells[k].y, p) && Invertible(cells, p) ==> CanToggle(cells, p)
  }

  /** Nothing stops the pass: one inverter a net, and parameters that can change where they have to. */
  ghost predicate Runs(cells: Cells, conns: N.Conns, outputs: set<nat>, selected: set<nat>) {
    && (forall i, j :: 0 <= i < j < |cells| ==> !SameNet(cells[i], cells[j], conns))
    && (forall k :: Integrable(cells, conns, outputs, selected, k) ==> Changeable(cells, conns, outputs, k))
  }

  lemma RunsIff(s: Start)
    requires StartOk(s)
    ensures Runs(s.cells, s.conns, s.outputs, s.selected) <==>
      forall k :: k in s.pins && k < |s.cells| && s.cells[k].Not? && OnlySinks(s, s.cells, k) ==> AllToggle(s.cells, s.pins[k])
  {
    hide N.Canon, IsSink, StartOk, CanToggle, Invertible, OnlySinks, Integrable;
    OneInverterANet(s);
    forall k: nat | k in s.pins && k < |s.cells| && s.cells[k].Not? && OnlySinks(s, s.cells, k)
      ensures Integrable(s.cells, s.conns, s.outputs, s.selected, k)
      ensures Changeable(s.cells, s.conns, s.outputs, k) <==> AllToggle(s.cells, s.pins[k])
    {
      IntegrableIff(s, k);
      ChangeableIff(s, k);
    }
    forall k: nat | Integrable(s.cells, s.conns, s.outputs, s.selected, k)
      ensures k in s.pins && k < |s.cells| && s.cells[k].Not? && OnlySinks(s, s.cells, k)
    {
      assert k < |s.cells| && s.cells[k].Not? by { IntegrableInverter(s, k); }
      IntegrableHasPins(s, k);
      IntegrableIff(s, k);
    }
  }

  lemma IntegrableInverter(s: Start, k: nat)
    requires Integrable(s.cells, s.conns, s.outputs, s.selected, k)
    ensures k < |s.cells| && s.cells[k].Not?
  {
  }

  lemma OneInverterANet(s: Start)
    requires StartOk(s)
    ensures forall i, j :: 0 <= i < j < |s.cells| ==> !SameNet(s.cells[i], s.cells[j], s.conns)
  {
    hide N.Canon, Collected, DistinctParams;
  }

  lemma ChangeableIff(s: Start, k: nat)
    requires StartOk(s) && k in s.pins && k < |s.cells| && s.cells[k].Not? && OnlySinks(s, s.cells, k)
    ensures Changeable(s.cells, s.conns, s.outputs, k) <==> AllToggle(s.cells, s.pins[k])
  {
    hide N.Canon, IsSink, StartOk, CanToggle, Invertible;
    forall p | p in s.pins[k] ensures Invertible(s.cells, p) && IsSink(s.cells, s.conns, s.outputs, s.cells[k].y, p) {
      PinIff(s, k, p);
    }
  }

  ghost predicate OnlySinks(s: Start, cells: Cells, k: nat)
    requires k < |s.cells| && s.cells[k].Not? && k in s.pins
  {
    forall p :: IsSink(cells, s.conns, s.outputs, s.cells[k].y, p) <==> p in s.pins[k]
  }

  /** One inverter integrated: its pins moved across, its cell removed. */
  ghost predicate StepOk(s: Start, before: Cells, cells: Cells, gone: set<nat>, k: nat) {
    && StartOk(s) && Reached(s, before, gone)
    && k in s.pins && k !in gone && k < |s.cells| && s.cells[k].Not? && OnlySinks(s, before, k)
    && Across(s, before, cells, s.pins[k], s.cells[k].a)
  }

  lemma StepPinBit(s: Start, before: Cells, cells: Cells, gone: set<nat>, k: nat, p: Pin)
    requires StepOk(s, before, cells, gone, k) && IsPin(cells[k := Removed], p)
    ensures IsPin(before, p) && IsPin(cells, p)
    ensures PinBit(cells[k := Removed], p) == if p in s.pins[k] then s.cells[k].a else PinBit(before, p)
  {
    hide N.Canon, CellOk, SameSeen, Consistent, DistinctParams, OnlySinks, StartOk, Reached;
    assert p.cell != k;
    assert cells[k := Removed][p.cell] == cells[p.cell];
    assert IsPin(cells, p);
  }

  lemma StepPins(s: Start, before: Cells, cells: Cells, gone: set<nat>, k: nat, p: Pin)
    requires StepOk(s, before, cells, gone, k) && IsPin(cells[k := Removed], p)
    ensures IsPin(before, p) && IsPin(cells, p) && IsPin(s.cells, p)
    ensures PinBit(cells[k := Removed], p) == if p in s.pins[k] then s.cells[k].a else PinBit(before, p)
    ensures PinOk(s, cells[k := Removed], gone + {k}, p)
  {
    hide N.Canon, StartOk, OnlySinks, Across, CellOk, SameSeen, Unread, Consistent, IsPin, PinBit;
    StepPinBit(s, before, cells, gone, k, p);
    assert PinOk(s, before, gone, p);
    if p in s.pins[k] {
      forall j: nat | MovedTo(s, gone + {k}, p, j) ensures j == k {
        OneOwner(s, k, j, p);
      }
      assert MovedTo(s, gone + {k}, p, k);
    } else {
      forall j: nat ensures MovedTo(s, gone + {k}, p, j) <==> MovedTo(s, gone, p, j) {
      }
    }
  }

  /** The inverter's own input is a pin that is not moved, so it is not on its own net. */
  lemma InputElsewhere(s: Start, before: Cells, cells: Cells, gone: set<nat>, k: nat)
    requires StepOk(s, before, cells, gone, k)
    ensures |cells| == |before| == |s.cells|
    ensures before[k] == s.cells[k] && IsPin(before, CellPin(k, 0, 0)) && PinBit(before, CellPin(k, 0, 0)) == s.cells[k].a
    ensures s.cells[k].a.Wire? ==> N.Canon(s.conns, s.cells[k].a) != N.Canon(s.conns, s.cells[k].y)
  {
    hide N.Canon, Seen, Unread, Consistent, DistinctParams, Inverted, PinOk;
    assert CellOk(s.cells[k], before[k], k in gone);
    var q := CellPin(k, 0, 0);
    if q in s.pins[k] { assert false; }
    assert !IsSink(before, s.conns, s.outputs, s.cells[k].y, q);
  }

  lemma StepUnread(s: Start, before: Cells, cells: Cells, gone: set<nat>, k: nat, j: nat)
    requires StepOk(s, before, cells, gone, k) && j in gone + {k}
    ensures j < |s.cells| && s.cells[j].Not?
    ensures Unread(cells[k := Removed], s.conns, s.outputs, s.cells[j].y)
  {
    hide N.Canon, Seen, Consistent, DistinctParams, Inverted, PinOk, Across, InvMapOk, Assigned;
    InputElsewhere(s, before, cells, gone, k);
    var after, y := cells[k := Removed], s.cells[j].y;
    forall p | IsPin(after, p) && PinBit(after, p).Wire? ensures N.Canon(s.conns, PinBit(after, p)) != N.Canon(s.conns, y) {
      StepPins(s, before, cells, gone, k, p);
      if j == k && p !in s.pins[k] {
        assert !IsSink(before, s.conns, s.outputs, y, p);
      }
    }
    if j == k {
      forall w | w in s.outputs && Assigned(s.conns, w) ensures N.Canon(s.conns, Wire(w)) != N.Canon(s.conns, y) {
        assert OutPin(w) !in s.pins[k];
        assert !IsSink(before, s.conns, s.outputs, y, OutPin(w));
      }
    }
  }

  lemma StepReached(s: Start, before: Cells, cells: Cells, gone: set<nat>, k: nat)
    requires StepOk(s, before, cells, gone, k)
    ensures Reached(s, cells[k := Removed], gone + {k})
  {
    hide N.Canon, Seen, Consistent, Inverted, PinOk, InvMapOk, Assigned, Unread, OnlySinks, PinBit, Takes;
    var after := cells[k := Removed];
    forall j | j in gone + {k}
      ensures j in s.pins && j < |s.cells| && s.cells[j].Not? && Unread(after, s.conns, s.outputs, s.cells[j].y)
    {
      StepUnread(s, before, cells, gone, k, j);
    }
    forall i | 0 <= i < |after| ensures CellOk(s.cells[i], after[i], i in gone + {k}) {
      assert CellOk(s.cells[i], before[i], i in gone);
      assert CellOk(before[i], cells[i], false);
    }
    forall p ensures PinOk(s, after, gone + {k}, p) {
      if IsPin(after, p) {
        StepPins(s, before, cells, gone, k, p);
      } else {
        NoPinOk(s, after, gone + {k}, p);
      }
    }
    forall e | Consistent(s.cells, s.conns, e) ensures SameSeen(s.cells, after, e) {
      SameSeenTrans(s.cells, before, cells, e);
      RemovedSeen(s.cells, cells, k, e);
    }
  }

  lemma NoPinOk(s: Start, cells: Cells, gone: set<nat>, p: Pin)
    requires !IsPin(cells, p)
    ensures PinOk(s, cells, gone, p)
  {
  }

  lemma RemovedSeen(before: Cells, cells: Cells, k: nat, e: Env)
    requires SameSeen(before, cells, e) && k < |cells|
    ensures SameSeen(before, cells[k := Removed], e)
  {
    forall p | IsPin(cells[k := Removed], p)
      ensures IsPin(before, p) && Seen(cells[k := Removed], p, e) == Seen(before, p, e)
    {
      assert p.cell != k && IsPin(cells, p);
    }
  }

  // ---- Exactly which inverters go ------------------------------------------------------------

  /** The inverter drives something, and only pins that can invert for themselves. */
  ghost predicate Integrable(cells: Cells, conns: N.Conns, outputs: set<nat>, selected: set<nat>, k: nat) {
    && k < |cells| && cells[k].Not?
    && (exists p :: IsSink(cells, conns, outputs, cells[k].y, p))
    && forall p :: IsSink(cells, conns, outputs, cells[k].y, p) ==> Invertible(cells, p) && p.cell in selected
  }

  lemma PinIff(s: Start, k: nat, p: Pin)
    requires StartOk(s) && k in s.pins && k < |s.cells| && s.cells[k].Not?
    ensures p in s.pins[k] <==>
      IsSink(s.cells, s.conns, s.outputs, s.cells[k].y, p) && Invertible(s.cells, p) && p.cell in s.selected
  {
    hide N.Canon, DistinctParams, Assigned;
    assert p in s.pins[k] <==> Takes(s.cells, s.conns, s.selected, s.inv, p, k);
  }

  lemma HasPin(s: Start, k: nat) returns (p: Pin)
    requires StartOk(s) && k in s.pins
    ensures p in s.pins[k]
  {
    hide N.Canon, DistinctParams, InvMapOk, Takes;
    p :| p in s.pins[k];
  }

  lemma IntegrableIff(s: Start, k: nat)
    requires StartOk(s) && k in s.pins && k < |s.cells| && s.cells[k].Not?
    ensures OnlySinks(s, s.cells, k) <==> Integrable(s.cells, s.conns, s.outputs, s.selected, k)
  {
    hide N.Canon, StartOk, IsSink;
    forall p ensures p in s.pins[k] <==>
      IsSink(s.cells, s.conns, s.outputs, s.cells[k].y, p) && Invertible(s.cells, p) && p.cell in s.selected
    {
      PinIff(s, k, p);
    }
    var p := HasPin(s, k);
  }

  lemma IntegrableHasPins(s: Start, k: nat)
    requires StartOk(s) && Integrable(s.cells, s.conns, s.outputs, s.selected, k)
    ensures k in s.pins
  {
    hide N.Canon, DistinctParams;
    var p :| IsSink(s.cells, s.conns, s.outputs, s.cells[k].y, p);
    assert Takes(s.cells, s.conns, s.selected, s.inv, p, k);
  }

  /** What a sink of a still present inverter was before: the same pin, or a removed inverter on the net. */
  lemma SinkWas(s: Start, cells: Cells, gone: set<nat>, k: nat, p: Pin)
    requires StartOk(s) && Reached(s, cells, gone) && k in s.pins && k !in gone && k < |s.cells| && s.cells[k].Not?
    requires IsSink(cells, s.conns, s.outputs, s.cells[k].y, p) && OnlySinks(s, s.cells, k)
    ensures p in s.pins[k]
  {
    hide N.Canon, StartOk, Reached, Assigned, PinBit, Invertible, IsPin;
    if p.CellPin? {
      PinWas(s, cells, gone, p);
      if j: nat :| MovedTo(s, gone, p, j) {
        InverterPin(s, j);
        assert IsSink(s.cells, s.conns, s.outputs, s.cells[k].y, CellPin(j, 0, 0));
        NoInverterPin(s, k, CellPin(j, 0, 0));
        assert false;
      } else {
        assert IsSink(s.cells, s.conns, s.outputs, s.cells[k].y, p);
      }
    } else {
      assert IsSink(s.cells, s.conns, s.outputs, s.cells[k].y, p);
    }
  }

  /** What a pin reads now: what it read, or the other side of a removed inverter. */
  lemma PinWas(s: Start, cells: Cells, gone: set<nat>, p: Pin)
    requires Reached(s, cells, gone) && IsPin(cells, p)
    ensures IsPin(s.cells, p)
    ensures forall j: nat :: MovedTo(s, gone, p, j) ==> j < |s.cells| && s.cells[j].Not? && PinBit(cells, p) == s.cells[j].a
    ensures (forall j: nat :: !MovedTo(s, gone, p, j)) ==> PinBit(cells, p) == PinBit(s.cells, p)
  {
    hide CellOk, SameSeen, Unread, Consistent, PinBit, IsPin;
    assert PinOk(s, cells, gone, p);
  }

  lemma InverterPin(s: Start, j: nat)
    requires j < |s.cells| && s.cells[j].Not?
    ensures IsPin(s.cells, CellPin(j, 0, 0)) && PinBit(s.cells, CellPin(j, 0, 0)) == s.cells[j].a
  {
  }

  lemma NoInverterPin(s: Start, k: nat, q: Pin)
    requires StartOk(s) && k in s.pins && q in s.pins[k]
    ensures IsPin(s.cells, q) && s.cells[q.cell].Inst?
  {
    hide N.Canon, DistinctParams;
    assert Takes(s.cells, s.conns, s.selected, s.inv, q, k);
  }

  lemma OneOwner(s: Start, k: nat, j: nat, p: Pin)
    requires StartOk(s) && k in s.pins && j in s.pins && p in s.pins[k] && p in s.pins[j]
    ensures j == k
  {
    hide N.Canon, DistinctParams;
    assert Takes(s.cells, s.conns, s.selected, s.inv, p, k) && Takes(s.cells, s.conns, s.selected, s.inv, p, j);
  }

  /** A sink that was, and whose own cell is left, is one still. */
  lemma SinkStays(s: Start, cells: Cells, gone: set<nat>, k: nat, p: Pin)
    requires StartOk(s) && Reached(s, cells, gone) && k in s.pins && k !in gone && k < |s.cells| && s.cells[k].Not?
    requires IsSink(s.cells, s.conns, s.outputs, s.cells[k].y, p)
    requires p.CellPin? && (s.cells[p.cell].Inst? || p.cell !in gone)
    ensures IsSink(cells, s.conns, s.outputs, s.cells[k].y, p)
  {
    hide N.Canon, DistinctParams, Unread, SameSeen, Assigned, Invertible;
    assert CellOk(s.cells[p.cell], cells[p.cell], p.cell in gone);
    assert IsPin(cells, p) && PinOk(s, cells, gone, p);
    forall j: nat ensures !MovedTo(s, gone, p, j) {
      if MovedTo(s, gone, p, j) {
        SinkOwner(s, k, j, p);
        assert false;
      }
    }
  }

  lemma SinkOwner(s: Start, k: nat, j: nat, p: Pin)
    requires StartOk(s) && k < |s.cells| && s.cells[k].Not? && j in s.pins && p in s.pins[j]
    requires IsSink(s.cells, s.conns, s.outputs, s.cells[k].y, p)
    ensures j == k
  {
    hide N.Canon, DistinctParams;
    assert Takes(s.cells, s.conns, s.selected, s.inv, p, j);
    assert p.CellPin?;
  }

  /** A sink of the inverter before is one still, or its own inverter is gone and left a pin in its place. */
  lemma SinkIs(s: Start, cells: Cells, gone: set<nat>, k: nat, p: Pin)
    requires StartOk(s) && Reached(s, cells, gone) && k in s.pins && k !in gone && k < |s.cells| && s.cells[k].Not?
    requires IsSink(s.cells, s.conns, s.outputs, s.cells[k].y, p) && OnlySinks(s, cells, k)
    ensures p in s.pins[k]
  {
    hide N.Canon, DistinctParams, Unread, SameSeen, Assigned, InvMapOk, Invertible, Collected, CellOk, PinOk;
    var y := s.cells[k].y;
    if p.CellPin? && p.cell in gone {
      var q := InputPin(s, cells, gone, p.cell);
      assert IsSink(cells, s.conns, s.outputs, y, q);
      OneOwner(s, k, p.cell, q);
      assert false;
    } else if p.CellPin? {
      SinkStays(s, cells, gone, k, p);
    } else {
      assert IsSink(cells, s.conns, s.outputs, y, p);
    }
  }

  /** Integrating others does not make an inverter integrable, nor stop it from being so. */
  lemma SinksSettled(s: Start, cells: Cells, gone: set<nat>, k: nat)
    requires StartOk(s) && Reached(s, cells, gone) && k in s.pins && k !in gone && k < |s.cells| && s.cells[k].Not?
    ensures OnlySinks(s, cells, k) <==> OnlySinks(s, s.cells, k)
  {
    hide N.Canon, DistinctParams, StartOk, Reached, IsSink;
    var y := s.cells[k].y;
    forall p | p in s.pins[k]
      ensures IsSink(cells, s.conns, s.outputs, y, p) && IsSink(s.cells, s.conns, s.outputs, y, p)
    {
      PinIsSink(s, cells, gone, k, p);
    }
    if OnlySinks(s, s.cells, k) {
      forall p | IsSink(cells, s.conns, s.outputs, y, p) ensures p in s.pins[k] {
        SinkWas(s, cells, gone, k, p);
      }
    }
    if OnlySinks(s, cells, k) {
      forall p | IsSink(s.cells, s.conns, s.outputs, y, p) ensures p in s.pins[k] {
        SinkIs(s, cells, gone, k, p);
      }
    }
  }

  lemma PinIsSink(s: Start, cells: Cells, gone: set<nat>, k: nat, p: Pin)
    requires StartOk(s) && Reached(s, cells, gone) && k in s.pins && k !in gone && p in s.pins[k]
    requires k < |s.cells| && s.cells[k].Not?
    ensures IsSink(cells, s.conns, s.outputs, s.cells[k].y, p) && IsSink(s.cells, s.conns, s.outputs, s.cells[k].y, p)
  {
    hide N.Canon, DistinctParams;
    PinUntouched(s, cells, gone, k, p);
    assert Takes(s.cells, s.conns, s.selected, s.inv, p, k);
  }

  // ---- What the pass promises ----------------------------------------------------------------

  /** Inverters are removed and nothing else; instances keep their ports. */
  ghost predicate OnlyGone(before: Cells, after: Cells, gone: set<nat>) {
    && |after| == |before|
    && (forall k :: k in gone ==> k < |before| && before[k].Not?)
    && (forall i :: 0 <= i < |before| && before[i].Not? ==> after[i] == if i in gone then Removed else before[i])
    && (forall p :: IsPin(before, p) && before[p.cell].Inst? ==> IsPin(after, p))
  }

  ghost predicate NothingChanged(before: Cells, after: Cells, conns: N.Conns) {
    forall e :: Consistent(before, conns, e) ==> Consistent(after, conns, e) && SameSeen(before, after, e)
  }

  /** No inverter drives a constant. */
  ghost predicate Untied(cells: Cells, conns: N.Conns) {
    forall c :: c in cells && c.Not? ==> N.Canon(conns, c.y).Wire?
  }

  ghost predicate AgreeElsewhere(before: Cells, conns: N.Conns, gone: set<nat>, e: Env, e': Env) {
    forall w: nat :: (forall k :: k in gone && k < |before| && before[k].Not? ==> N.Canon(conns, Wire(w)) != N.Canon(conns, before[k].y)) ==>
      e(w) == e'(w)
  }

  /** Values the new module allows are values of the old one, but for the nets of removed inverters. */
  ghost predicate CanRestore(before: Cells, after: Cells, conns: N.Conns, gone: set<nat>) {
    forall e' :: Consistent(after, conns, e') ==> exists e :: Consistent(before, conns, e) && AgreeElsewhere(before, conns, gone, e, e')
  }

  lemma ReachedKeeps(s: Start, cells: Cells, gone: set<nat>)
    requires Reached(s, cells, gone)
    ensures OnlyGone(s.cells, cells, gone) && NothingChanged(s.cells, cells, s.conns)
    ensures forall k :: k in gone ==> Unread(cells, s.conns, s.outputs, s.cells[k].y)
  {
    hide PinOk, Unread, Seen, N.Canon;
    forall e | Consistent(s.cells, s.conns, e) ensures Consistent(cells, s.conns, e) {
      forall c | c in cells && c.Not? ensures c in s.cells {
        var i :| 0 <= i < |cells| && cells[i] == c;
        assert CellOk(s.cells[i], cells[i], i in gone);
      }
    }
    forall i | 0 <= i < |cells| && s.cells[i].Not? ensures cells[i] == if i in gone then Removed else s.cells[i] {
      assert CellOk(s.cells[i], cells[i], i in gone);
    }
  }

  predicate LostNet(s: Start, gone: set<nat>, c: Bit) {
    c in s.inv && s.inv[c] in gone && s.inv[c] < |s.cells| && s.cells[s.inv[c]].Not?
  }

  /** The nets of removed inverters, given back the values the inverters drove. */
  function Restored(s: Start, gone: set<nat>, e': Env): Env {
    (w: nat) =>
      var c := N.Canon(s.conns, Wire(w));
      if LostNet(s, gone, c) then !BitVal(s.cells[s.inv[c]].a, e') else e'(w)
  }

  lemma RestoredBit(s: Start, gone: set<nat>, e': Env, b: Bit)
    requires StartOk(s) && Untied(s.cells, s.conns)
    ensures var c := N.Canon(s.conns, b);
            BitVal(b, Restored(s, gone, e')) == if LostNet(s, gone, c) then !BitVal(s.cells[s.inv[c]].a, e') else BitVal(b, e')
  {
    hide N.Canon, DistinctParams, Collected;
    if b.Const? {
      N.CanonConst(s.conns, b.v);
    }
  }

  lemma ReadIsKept(s: Start, cells: Cells, gone: set<nat>, p: Pin, e': Env)
    requires StartOk(s) && Untied(s.cells, s.conns) && Reached(s, cells, gone) && IsPin(cells, p)
    ensures BitVal(PinBit(cells, p), Restored(s, gone, e')) == BitVal(PinBit(cells, p), e')
  {
    hide N.Canon, DistinctParams, Collected, CellOk, PinOk, SameSeen, Restored;
    var b := PinBit(cells, p);
    if b.Wire? {
      RestoredBit(s, gone, e', b);
      var c := N.Canon(s.conns, b);
      if LostNet(s, gone, c) { assert false; }
    }
  }

  /** The input of an inverter is read: by the inverter if it is left, by its pins if not. */
  lemma InputPin(s: Start, cells: Cells, gone: set<nat>, k: nat) returns (p: Pin)
    requires StartOk(s) && Reached(s, cells, gone) && k < |s.cells| && s.cells[k].Not?
    ensures IsPin(cells, p) && PinBit(cells, p) == s.cells[k].a
    ensures k in gone ==> k in s.pins && p in s.pins[k]
  {
    hide N.Canon, DistinctParams, Unread, SameSeen;
    if k in gone {
      p :| p in s.pins[k];
      assert Takes(s.cells, s.conns, s.selected, s.inv, p, k);
      assert MovedTo(s, gone, p, k) && PinOk(s, cells, gone, p);
    } else {
      assert CellOk(s.cells[k], cells[k], k in gone);
      p := CellPin(k, 0, 0);
    }
  }

  lemma ReachedRestores(s: Start, cells: Cells, gone: set<nat>)
    requires StartOk(s) && Untied(s.cells, s.conns) && Reached(s, cells, gone)
    ensures CanRestore(s.cells, cells, s.conns, gone)
  {
    forall e' | Consistent(cells, s.conns, e')
      ensures exists e :: Consistent(s.cells, s.conns, e) && AgreeElsewhere(s.cells, s.conns, gone, e, e')
    {
      RestoredIsConsistent(s, cells, gone, e');
      RestoredAgrees(s, gone, e');
    }
  }

  lemma RestoredAgrees(s: Start, gone: set<nat>, e': Env)
    requires StartOk(s)
    ensures AgreeElsewhere(s.cells, s.conns, gone, Restored(s, gone, e'), e')
  {
    hide N.Canon, DistinctParams, Collected;
  }

  lemma RestoredIsConsistent(s: Start, cells: Cells, gone: set<nat>, e': Env)
    requires StartOk(s) && Untied(s.cells, s.conns) && Reached(s, cells, gone) && Consistent(cells, s.conns, e')
    ensures Consistent(s.cells, s.conns, Restored(s, gone, e'))
  {
    hide N.Canon, DistinctParams, Collected, PinOk, Unread, SameSeen, Restored, Untied;
    var e := Restored(s, gone, e');
    forall q | q in s.conns ensures BitVal(q.0, e) == BitVal(q.1, e) {
      N.CanonConnected(s.conns, q);
      RestoredBit(s, gone, e', q.0);
      RestoredBit(s, gone, e', q.1);
    }
    forall c | c in s.cells && c.Not? ensures BitVal(c.y, e) == !BitVal(c.a, e) {
      var k :| 0 <= k < |s.cells| && s.cells[k] == c;
      var p := InputPin(s, cells, gone, k);
      ReadIsKept(s, cells, gone, p, e');
      RestoredBit(s, gone, e', c.y);
      assert CellOk(s.cells[k], cells[k], k in gone);
      if k !in gone { assert cells[k] in cells; }
    }
  }

  /** In the module before: no output is on the net of an inverter that will be integrated. */
  ghost predicate OutputsClear(before: Cells, conns: N.Conns, outputs: set<nat>, selected: set<nat>) {
    forall k: nat, w: nat :: Integrable(before, conns, outputs, selected, k) && w in outputs ==>
      N.Canon(conns, Wire(w)) != N.Canon(conns, before[k].y)
  }

  /** Whatever values the result allows, the outputs have them in the module before as well. */
  ghost predicate OutputsKept(before: Cells, after: Cells, conns: N.Conns, outputs: set<nat>, gone: set<nat>) {
    forall e' :: Consistent(after, conns, e') ==> exists e :: Consistent(before, conns, e) && Outputs(before, conns, outputs, gone, e, e')
  }

  ghost predicate Outputs(before: Cells, conns: N.Conns, outputs: set<nat>, gone: set<nat>, e: Env, e': Env) {
    AgreeElsewhere(before, conns, gone, e, e') && forall w: nat :: w in outputs ==> e(w) == e'(w)
  }

  ghost predicate Satisfiable(cells: Cells, conns: N.Conns) {
    exists e :: Consistent(cells, conns, e)
  }

  lemma ClearKeeps(s: Start, cells: Cells, gone: set<nat>)
    requires StartOk(s) && Untied(s.cells, s.conns) && Reached(s, cells, gone)
    requires forall k :: k in gone <==> Integrable(s.cells, s.conns, s.outputs, s.selected, k)
    requires OutputsClear(s.cells, s.conns, s.outputs, s.selected)
    ensures OutputsKept(s.cells, cells, s.conns, s.outputs, gone)
  {
    hide N.Canon, Integrable, StartOk, Reached, Consistent, Untied, Restored;
    forall e' | Consistent(cells, s.conns, e')
      ensures exists e :: Consistent(s.cells, s.conns, e) && Outputs(s.cells, s.conns, s.outputs, gone, e, e')
    {
      var e := Restored(s, gone, e');
      RestoredIsConsistent(s, cells, gone, e');
      RestoredAgrees(s, gone, e');
      assert Outputs(s.cells, s.conns, s.outputs, gone, e, e');
    }
  }

  /** The values with one net the other way round. */
  function Flipped(conns: N.Conns, c: Bit, e: Env): Env {
    (w: nat) => if N.Canon(conns, Wire(w)) == c then !e(w) else e(w)
  }

  lemma FlippedBit(conns: N.Conns, c: Bit, e: Env, b: Bit)
    requires c.Wire?
    ensures BitVal(b, Flipped(conns, c, e)) == if N.Canon(conns, b) == c then !BitVal(b, e) else BitVal(b, e)
  {
    hide N.Canon;
    if b.Const? { N.CanonConst(conns, b.v); }
  }

  /** With its inverter gone the net takes either value. */
  lemma FlippedIsConsistent(s: Start, cells: Cells, gone: set<nat>, k: nat, e: Env)
    requires StartOk(s) && Untied(s.cells, s.conns) && Reached(s, cells, gone) && k in gone && Consistent(cells, s.conns, e)
    ensures k < |s.cells| && s.cells[k].Not?
    ensures Consistent(cells, s.conns, Flipped(s.conns, N.Canon(s.conns, s.cells[k].y), e))
  {
    hide N.Canon, DistinctParams, Collected, PinOk, SameSeen, Flipped;
    assert s.cells[k] in s.cells;
    var c := N.Canon(s.conns, s.cells[k].y);
    forall q | q in s.conns ensures BitVal(q.0, Flipped(s.conns, c, e)) == BitVal(q.1, Flipped(s.conns, c, e)) {
      N.CanonConnected(s.conns, q);
      FlippedBit(s.conns, c, e, q.0);
      FlippedBit(s.conns, c, e, q.1);
    }
    forall n | n in cells && n.Not? ensures BitVal(n.y, Flipped(s.conns, c, e)) == !BitVal(n.a, Flipped(s.conns, c, e)) {
      var j :| 0 <= j < |cells| && cells[j] == n;
      assert CellOk(s.cells[j], cells[j], j in gone);
      FlippedBit(s.conns, c, e, n.y);
      FlippedBit(s.conns, c, e, n.a);
      InputReadElsewhere(s, cells, gone, k, j);
    }
  }

  /** No input of a remaining or removed inverter is on a removed inverter's net. */
  lemma InputReadElsewhere(s: Start, cells: Cells, gone: set<nat>, k: nat, j: nat)
    requires StartOk(s) && Untied(s.cells, s.conns) && Reached(s, cells, gone) && k in gone && j < |s.cells| && s.cells[j].Not?
    ensures k < |s.cells| && s.cells[k].Not?
    ensures N.Canon(s.conns, s.cells[j].a) != N.Canon(s.conns, s.cells[k].y)
  {
    hide N.Canon, DistinctParams, Collected, PinOk, SameSeen, InvMapOk;
    assert s.cells[k] in s.cells;
    var p := InputPin(s, cells, gone, j);
    assert Unread(cells, s.conns, s.outputs, s.cells[k].y);
    if s.cells[j].a.Const? { N.CanonConst(s.conns, s.cells[j].a.v); }
  }

  /** So an output on that net is no longer what the inverter made it. */
  lemma LostOutput(s: Start, cells: Cells, gone: set<nat>, k: nat, w: nat, e0: Env)
    requires StartOk(s) && Untied(s.cells, s.conns) && Reached(s, cells, gone)
    requires k in gone && k < |s.cells| && s.cells[k].Not? && w in s.outputs
    requires N.Canon(s.conns, Wire(w)) == N.Canon(s.conns, s.cells[k].y) && Consistent(s.cells, s.conns, e0)
    ensures !OutputsKept(s.cells, cells, s.conns, s.outputs, gone)
  {
    hide N.Canon, StartOk, Reached, Untied, Consistent, Flipped;
    var y, a, c := s.cells[k].y, s.cells[k].a, N.Canon(s.conns, s.cells[k].y);
    ReachedKeeps(s, cells, gone);
    var e' := Flipped(s.conns, c, e0);
    assert Consistent(cells, s.conns, e0);
    FlippedIsConsistent(s, cells, gone, k, e0);
    forall e | Consistent(s.cells, s.conns, e) ensures !Outputs(s.cells, s.conns, s.outputs, gone, e, e') {
      SameNetValue(s, k, w, e);
      SameNetValue(s, k, w, e0);
      NetIsWire(s, k);
      FlippedBit(s.conns, c, e0, Wire(w));
      FlippedBit(s.conns, c, e0, a);
      InputReadElsewhere(s, cells, gone, k, k);
      if a.Wire? {
        InputAgrees(s, cells, gone, k);
      }
    }
  }

  lemma NetIsWire(s: Start, k: nat)
    requires Untied(s.cells, s.conns) && k < |s.cells| && s.cells[k].Not?
    ensures N.Canon(s.conns, s.cells[k].y).Wire?
  {
    assert s.cells[k] in s.cells;
  }

  lemma SameNetValue(s: Start, k: nat, w: nat, e: Env)
    requires k < |s.cells| && s.cells[k].Not? && Consistent(s.cells, s.conns, e)
    requires N.Canon(s.conns, Wire(w)) == N.Canon(s.conns, s.cells[k].y)
    ensures e(w) == !BitVal(s.cells[k].a, e)
  {
    hide N.Canon;
    N.CanonValue(s.conns, Wire(w), e);
    N.CanonValue(s.conns, s.cells[k].y, e);
    assert s.cells[k] in s.cells;
  }

  /** The inverter's input is one of the nets on which old and new values agree. */
  lemma InputAgrees(s: Start, cells: Cells, gone: set<nat>, k: nat)
    requires StartOk(s) && Untied(s.cells, s.conns) && Reached(s, cells, gone) && k < |s.cells| && s.cells[k].Not?
    ensures forall j :: j in gone && j < |s.cells| && s.cells[j].Not? ==> N.Canon(s.conns, s.cells[k].a) != N.Canon(s.conns, s.cells[j].y)
  {
    hide N.Canon, StartOk, Untied, Reached;
    forall j | j in gone && j < |s.cells| && s.cells[j].Not?
      ensures N.Canon(s.conns, s.cells[k].a) != N.Canon(s.conns, s.cells[j].y)
    {
      InputReadElsewhere(s, cells, gone, j, k);
    }
  }

  /**
   Outputs are found through connections only. All outputs keep what drove
   them, for all values, exactly if none was on the net of an integrable
   inverter to begin with.
   */
  lemma OutputsKeptIff(s: Start, cells: Cells, gone: set<nat>)
    requires StartOk(s) && Untied(s.cells, s.conns) && Reached(s, cells, gone) && Satisfiable(s.cells, s.conns)
    requires forall k :: k in gone <==> Integrable(s.cells, s.conns, s.outputs, s.selected, k)
    ensures OutputsKept(s.cells, cells, s.conns, s.outputs, gone) <==> OutputsClear(s.cells, s.conns, s.outputs, s.selected)
  {
    hide N.Canon, StartOk, Untied, Reached, Consistent, OutputsKept;
    if OutputsClear(s.cells, s.conns, s.outputs, s.selected) {
      ClearKeeps(s, cells, gone);
    } else {
      var e0 :| Consistent(s.cells, s.conns, e0);
      var k: nat, w: nat :| Integrable(s.cells, s.conns, s.outputs, s.selected, k) && w in s.outputs
        && N.Canon(s.conns, Wire(w)) == N.Canon(s.conns, s.cells[k].y);
      LostOutput(s, cells, gone, k, w, e0);
    }
  }

  /** It is enough that every output is reached by a connection. */
  lemma AssignedOutputsClear(cells: Cells, conns: N.Conns, outputs: set<nat>, selected: set<nat>)
    requires forall w :: w in outputs ==> Assigned(conns, w)
    ensures OutputsClear(cells, conns, outputs, selected)
  {
    hide N.Canon, Assigned;
    forall k: nat, w: nat | Integrable(cells, conns, outputs, selected, k) && w in outputs
      ensures N.Canon(conns, Wire(w)) != N.Canon(conns, cells[k].y)
    {
      assert !Invertible(cells, OutPin(w));
      assert !IsSink(cells, conns, outputs, cells[k].y, OutPin(w));
    }
  }

  /** An output is found where a connection drives it from the inverter's net, and not where it is the driving side. */
  lemma DrivenOutputFound()
    ensures var cells, outputs := [Not(Wire(0), Wire(1))], {2};
      && IsSink(cells, [(Wire(2), Wire(1))], outputs, Wire(1), OutPin(2))
      && !IsSink(cells, [(Wire(1), Wire(2))], outputs, Wire(1), OutPin(2))
  {
    var conns: N.Conns := [(Wire(2), Wire(1))];
    N.CanonConnected(conns, conns[0]);
    assert conns[0].0 == Wire(2);
  }

  /** An output that is the inverter's own wire is not seen: the inverter goes, and the output is left undriven. */
  lemma DirectOutputLost() returns (s: Start)
    ensures StartOk(s) && |s.cells| > 0 && s.cells[0] == Not(Wire(0), Wire(1)) && 0 in s.pins && OnlySinks(s, s.cells, 0)
    ensures 1 in s.outputs && N.Canon(s.conns, Wire(1)) == N.Canon(s.conns, s.cells[0].y)
    ensures Untied(s.cells, s.conns) && Satisfiable(s.cells, s.conns) && !OutputsClear(s.cells, s.conns, s.outputs, s.selected)
  {
    var pin := CellPin(1, 0, 0);
    var none: N.Conns := [];
    s := Start([Not(Wire(0), Wire(1)), Inst([Port(true, [Wire(1)], Some("INV"))], map[])], none, {1}, {1},
               map[Wire(1) := 0], map[0 := {pin}]);
    forall p, k | Takes(s.cells, s.conns, s.selected, s.inv, p, k) ensures k == 0 && p == pin {
    }
    assert Takes(s.cells, s.conns, s.selected, s.inv, pin, 0);
    forall p ensures IsSink(s.cells, s.conns, s.outputs, Wire(1), p) <==> p == pin {
    }
    IntegrableIff(s, 0);
    var e: Env := w => w == 1;
    assert Consistent(s.cells, s.conns, e);
  }

  // ---- The pass -----------------------------------------------------------------------------

  /** The pin comes before a place in the cells, their ports and the ports' bits. */
  predicate Earlier(p: Pin, i: nat, j: nat, b: nat) {
    p.CellPin? && (p.cell < i || (p.cell == i && (p.port < j || (p.port == j && p.bit < b))))
  }

  /** The pins found up to a place. */
  ghost predicate CollectedTo(cells: Cells, conns: N.Conns, selected: set<nat>, inv: InvMap, pins: PinMap, i: nat, j: nat, b: nat) {
    && (forall k :: k in pins ==> pins[k] != {})
    && (forall k, p :: k in pins && p in pins[k] ==> Takes(cells, conns, selected, inv, p, k) && Earlier(p, i, j, b))
    && (forall p, k :: Takes(cells, conns, selected, inv, p, k) && Earlier(p, i, j, b) ==> k in pins && p in pins[k])
  }

  predicate SameNet(c: Cell, c': Cell, conns: N.Conns) {
    c.Not? && c'.Not? && N.Canon(conns, c.y) == N.Canon(conns, c'.y)
  }

  class Pass {
    var cells: Cells
    const conns: N.Conns
    const outputs: set<nat>
    var invMap: InvMap
    var inverters: PinMap

    constructor (cells: Cells, conns: N.Conns, outputs: set<nat>)
      ensures this.cells == cells && this.conns == conns && this.outputs == outputs
    {
      this.cells, this.conns, this.outputs := cells, conns, outputs;
      invMap, inverters := map[], map[];
    }

    /** Refused when two inverters drive one net. */
    method BuildInverterMap() returns (ok: bool)
      modifies `invMap
      ensures ok ==> InvMapOk(cells, conns, invMap)
      ensures !ok ==> exists i, j :: 0 <= i < j < |cells| && SameNet(cells[i], cells[j], conns)
    {
      hide N.Canon;
      invMap := map[];
      for i := 0 to |cells|
        invariant forall b :: b in invMap ==>
          invMap[b] < i && cells[invMap[b]].Not? && N.Canon(conns, cells[invMap[b]].y) == b
        invariant forall j :: 0 <= j < i && cells[j].Not? ==>
          N.Canon(conns, cells[j].y) in invMap && invMap[N.Canon(conns, cells[j].y)] == j
      {
        if cells[i].Not? {
          var y := N.Canon(conns, cells[i].y);
          if y in invMap {
            assert SameNet(cells[invMap[y]], cells[i], conns);
            return false;
          }
          invMap := invMap[y := i];
        }
      }
      return true;
    }

    method CollectInverters(selected: set<nat>)
      modifies `inverters
      ensures Collected(cells, conns, selected, invMap, inverters)
    {
      hide N.Canon, Takes, CollectedTo;
      inverters := map[];
      CollectedNone(cells, conns, selected, invMap);
      for i := 0 to |cells|
        invariant CollectedTo(cells, conns, selected, invMap, inverters, i, 0, 0)
      {
        var n := if cells[i].Inst? then |cells[i].ports| else 0;
        for j := 0 to n
          invariant CollectedTo(cells, conns, selected, invMap, inverters, i, j, 0)
        {
          for b := 0 to |InSig(cells[i], j)|
            invariant CollectedTo(cells, conns, selected, invMap, inverters, i, j, b)
          {
            var pin := CellPin(i, j, b);
            var bit := PinBit(cells, pin);
            var k := N.Canon(conns, bit);
            CollectedPin(cells, conns, selected, invMap, inverters, i, j, b);
            if i in selected && cells[i].ports[j].param.Some? && bit.Wire? && k in invMap {
              inverters := WithPin(inverters, invMap[k], pin);
            }
          }
          CollectedPort(cells, conns, selected, invMap, inverters, i, j);
        }
        CollectedCell(cells, conns, selected, invMap, inverters, i, n);
      }
      CollectedAll(cells, conns, selected, invMap, inverters);
    }

    /** Whatever reads the net of `y`. */
    method SinksOf(y: Bit) returns (sinks: set<Pin>)
      ensures forall p :: p in sinks <==> IsSink(cells, conns, outputs, y, p)
    {
      hide N.Canon, IsSink, Assigned;
      sinks := {};
      for i := 0 to |cells|
        invariant forall p :: p in sinks <==> SinkTo(cells, conns, outputs, y, p, i, 0)
      {
        var n := PortCount(cells[i]);
        for j := 0 to n
          invariant forall p :: p in sinks <==> SinkTo(cells, conns, outputs, y, p, i, j)
        {
          SinkPort(cells, conns, outputs, y, i, j);
          sinks := sinks + SinkPins(cells[i], conns, y, i, j);
        }
        SinkCell(cells, conns, outputs, y, i);
      }
      SinksFound(cells, conns, outputs, y);
      sinks := sinks + set w | w in outputs && Assigned(conns, w) && N.Canon(conns, Wire(w)) == N.Canon(conns, y) :: OutPin(w);
    }

    method IntegratePins(k: nat, ghost s: Start, ghost gone: set<nat>, ghost moved: set<Pin>) returns (ok: bool)
      requires StartOk(s) && Reached(s, cells, gone) && s.pins == inverters && k in inverters && k !in gone
      requires k < |s.cells| && s.cells[k].Not? && ToggleKept(s, cells, moved) && moved !! inverters[k]
      modifies `cells
      ensures ok <==> AllToggle(s.cells, inverters[k])
      ensures ok ==> Across(s, old(cells), cells, inverters[k], s.cells[k].a) && ToggleKept(s, cells, moved + inverters[k])
    {
      hide N.Canon, StartOk, Reached, Across, Invertible, Togglable, Integrated, CanToggle, ToggleKept;
      ghost var before := cells;
      StillThere(s, cells, gone, k);
      var a := cells[k].a;
      var todo := inverters[k];
      AcrossNone(s, cells, gone, a);
      assert inverters[k] - todo == {} && moved + (inverters[k] - todo) == moved;
      while todo != {}
        invariant todo <= inverters[k] && Across(s, before, cells, inverters[k] - todo, a)
        invariant ToggleKept(s, cells, moved + (inverters[k] - todo)) && AllToggle(s.cells, inverters[k] - todo)
        decreases |todo|
      {
        var p :| p in todo;
        AcrossOne(s, before, cells, inverters[k] - todo, k, gone, p);
        PinUntouched(s, before, gone, k, p);
        StillTogglable(s, cells, moved + (inverters[k] - todo), k, p);
        if !Togglable(cells, p) {
          return false;
        }
        assert inverters[k] - todo + {p} == inverters[k] - (todo - {p});
        AcrossDistinct(s, before, cells, inverters[k] - todo, a, p);
        ToggleKeptOne(s, cells, moved + (inverters[k] - todo), p, a);
        assert moved + (inverters[k] - todo) + {p} == moved + (inverters[k] - (todo - {p}));
        cells := Integrated(cells, p, a);
        todo := todo - {p};
      }
      assert inverters[k] - todo == inverters[k];
      return true;
    }

    /** Fails on a parameter that is not as wide as its port or holds no 0 or 1 where it has to change. */
    method IntegrateInverters(ghost s: Start) returns (ok: bool, gone: set<nat>)
      requires StartOk(s) && s.pins == inverters && s.cells == cells && s.conns == conns && s.outputs == outputs
      modifies `cells
      ensures ok ==> Reached(s, cells, gone)
      ensures ok ==> forall k :: k in inverters && k < |s.cells| && s.cells[k].Not? ==> (k in gone <==> OnlySinks(s, s.cells, k))
      ensures ok <==> Runs(s.cells, s.conns, s.outputs, s.selected)
    {
      hide N.Canon, StartOk, Reached, Across, IsSink, OnlySinks, Invertible, CanToggle, ToggleKept, AllToggle, Runs;
      gone := {};
      ghost var moved: set<Pin> := {};
      ReachedAtStart(s);
      ToggleAtStart(s);
      RunsIff(s);
      var todo := inverters.Keys;
      while todo != {}
        invariant todo <= inverters.Keys && gone <= inverters.Keys - todo && Reached(s, cells, gone)
        invariant forall k :: k in inverters.Keys - todo && k < |s.cells| && s.cells[k].Not? ==> (k in gone <==> OnlySinks(s, s.cells, k))
        invariant forall k :: k in gone ==> AllToggle(s.cells, inverters[k])
        invariant ToggleKept(s, cells, moved) && forall p :: p in moved ==> exists k :: k in gone && p in inverters[k]
        decreases |todo|
      {
        var k :| k in todo;
        todo := todo - {k};
        InverterThere(s, k);
        StillThere(s, cells, gone, k);
        var sinks := SinksOf(cells[k].y);
        SinksSettled(s, cells, gone, k);
        SinksAre(s, cells, k, sinks);
        if sinks == inverters[k] {
          ghost var before := cells;
          PinsApart(s, gone, moved, k);
          var done := IntegratePins(k, s, gone, moved);
          if !done {
            return false, gone;
          }
          StepIsOk(s, before, cells, gone, k);
          StepReached(s, before, cells, gone, k);
          StepInverter(s, before, cells, gone, k);
          moved := moved + inverters[k];
          ToggleKeptRemoved(s, cells, moved, k);
          cells := cells[k := Removed];
          gone := gone + {k};
        }
      }
      return true, gone;
    }

    /**
     Every remaining pin sees what it saw, whatever values connections and
     inverters allow, and nothing is left on the net of a removed inverter.
     */
    method Execute(selected: set<nat>) returns (ok: bool, gone: set<nat>)
      requires forall c :: c in cells ==> DistinctParams(c)
      modifies this
      ensures ok <==> Runs(old(cells), conns, outputs, selected)
      ensures ok ==> OnlyGone(old(cells), cells, gone) && NothingChanged(old(cells), cells, conns)
      ensures ok ==> forall k :: k in gone ==> Unread(cells, conns, outputs, old(cells)[k].y)
      ensures ok ==> forall k :: k in gone <==> Integrable(old(cells), conns, outputs, selected, k)
      ensures ok && Untied(old(cells), conns) ==> CanRestore(old(cells), cells, conns, gone)
      ensures ok && Untied(old(cells), conns) && Satisfiable(old(cells), conns) ==>
        (OutputsKept(old(cells), cells, conns, outputs, gone) <==> OutputsClear(old(cells), conns, outputs, selected))
    {
      hide Reached, StartOk, Untied, Satisfiable, OnlyGone, NothingChanged, CanRestore, OutputsKept, OutputsClear, Unread,
        Integrable, InvMapOk, Collected, OnlySinks, DistinctParams;
      gone := {};
      ok := BuildInverterMap();
      if !ok {
        NotRuns(cells, conns, outputs, selected);
        return;
      }
      CollectInverters(selected);
      ghost var s := Start(cells, conns, outputs, selected, invMap, inverters);
      Started(s);
      ok, gone := IntegrateInverters(s);
      if ok {
        ReachedKeeps(s, cells, gone);
        GoneInverters(s, cells, gone);
        ExactlyIntegrable(s, gone);
        if Untied(s.cells, conns) {
          ReachedRestores(s, cells, gone);
          if Satisfiable(s.cells, conns) {
            OutputsKeptIff(s, cells, gone);
          }
        }
      }
    }
  }

  lemma NotRuns(cells: Cells, conns: N.Conns, outputs: set<nat>, selected: set<nat>)
    requires exists i, j :: 0 <= i < j < |cells| && SameNet(cells[i], cells[j], conns)
    ensures !Runs(cells, conns, outputs, selected)
  {
  }

  lemma ToggleAtStart(s: Start)
    ensures ToggleKept(s, s.cells, {})
  {
  }

  /** No pin has two inverters. */
  lemma PinsApart(s: Start, gone: set<nat>, moved: set<Pin>, k: nat)
    requires StartOk(s) && k in s.pins && k !in gone && (forall j :: j in gone ==> j in s.pins)
    requires forall p :: p in moved ==> exists j :: j in gone && p in s.pins[j]
    ensures moved !! s.pins[k]
  {
    hide StartOk;
    if p :| p in moved && p in s.pins[k] {
      var j :| j in gone && p in s.pins[j];
      OneOwner(s, k, j, p);
      assert false;
    }
  }

  lemma StillTogglable(s: Start, cells: Cells, moved: set<Pin>, k: nat, p: Pin)
    requires StartOk(s) && k in s.pins && p in s.pins[k] && p !in moved && ToggleKept(s, cells, moved) && Invertible(cells, p)
    ensures Invertible(s.cells, p) && (Togglable(cells, p) <==> CanToggle(s.cells, p))
  {
    hide N.Canon, CanToggle, Togglable, DistinctParams;
    assert Takes(s.cells, s.conns, s.selected, s.inv, p, k);
    TogglableIff(cells, p);
  }

  lemma AcrossDistinct(s: Start, before: Cells, cells: Cells, moved: set<Pin>, a: Bit, p: Pin)
    requires Across(s, before, cells, moved, a) && Invertible(cells, p)
    ensures DistinctParams(cells[p.cell])
  {
    hide SameSeen, Consistent, DistinctParams;
    assert CellOk(before[p.cell], cells[p.cell], false);
  }

  lemma StepInverter(s: Start, before: Cells, cells: Cells, gone: set<nat>, k: nat)
    requires StepOk(s, before, cells, gone, k)
    ensures k < |cells| && cells[k].Not?
  {
    hide StartOk, OnlySinks, SameSeen, Consistent, PinOk, Unread;
    StillThere(s, before, gone, k);
    assert CellOk(before[k], cells[k], false);
  }

  lemma SinksAre(s: Start, cells: Cells, k: nat, sinks: set<Pin>)
    requires k in s.pins && k < |s.cells| && s.cells[k].Not?
    requires forall p :: p in sinks <==> IsSink(cells, s.conns, s.outputs, s.cells[k].y, p)
    ensures sinks == s.pins[k] <==> OnlySinks(s, cells, k)
  {
    hide IsSink;
  }

  lemma Started(s: Start)
    requires InvMapOk(s.cells, s.conns, s.inv) && Collected(s.cells, s.conns, s.selected, s.inv, s.pins)
    requires forall c :: c in s.cells ==> DistinctParams(c)
    ensures StartOk(s)
  {
    hide InvMapOk, Collected, DistinctParams;
  }

  lemma GoneInverters(s: Start, cells: Cells, gone: set<nat>)
    requires Reached(s, cells, gone)
    ensures forall k :: k in gone ==> k in s.pins && k < |s.cells| && s.cells[k].Not?
  {
    hide CellOk, PinOk, SameSeen, Unread, Consistent;
  }

  lemma CollectedNone(cells: Cells, conns: N.Conns, selected: set<nat>, inv: InvMap)
    ensures CollectedTo(cells, conns, selected, inv, map[], 0, 0, 0)
  {
  }

  function WithPin(pins: PinMap, k: nat, pin: Pin): PinMap {
    pins[k := (if k in pins then pins[k] else {}) + {pin}]
  }

  lemma CollectedPin(cells: Cells, conns: N.Conns, selected: set<nat>, inv: InvMap, pins: PinMap, i: nat, j: nat, b: nat)
    requires CollectedTo(cells, conns, selected, inv, pins, i, j, b)
    requires i < |cells| && cells[i].Inst? && j < |cells[i].ports| && b < |InSig(cells[i], j)|
    ensures
      var pin := CellPin(i, j, b);
      var net := N.Canon(conns, PinBit(cells, pin));
      if i in selected && cells[i].ports[j].param.Some? && PinBit(cells, pin).Wire? && net in inv then
        CollectedTo(cells, conns, selected, inv, WithPin(pins, inv[net], pin), i, j, b + 1)
      else CollectedTo(cells, conns, selected, inv, pins, i, j, b + 1)
  {
    hide N.Canon;
    var pin := CellPin(i, j, b);
    var net := N.Canon(conns, PinBit(cells, pin));
    var takes := i in selected && cells[i].ports[j].param.Some? && PinBit(cells, pin).Wire? && net in inv;
    forall k: nat ensures Takes(cells, conns, selected, inv, pin, k) <==> takes && inv[net] == k {
    }
    OnePlaceOn(i, j, b);
    hide Takes, Earlier;
    if takes {
      var k := inv[net];
      var more := WithPin(pins, k, pin);
      forall l: nat, p | Takes(cells, conns, selected, inv, p, l) && Earlier(p, i, j, b + 1) ensures l in more && p in more[l] {
        if p != pin { assert l in pins && p in pins[l]; }
      }
      forall l, p | l in more && p in more[l] ensures Takes(cells, conns, selected, inv, p, l) && Earlier(p, i, j, b + 1) {
        if l == k && p == pin {
        } else {
          assert l in pins && p in pins[l];
        }
      }
    } else {
      CollectedOn(cells, conns, selected, inv, pins, Spot(i, j, b), Spot(i, j, b + 1));
    }
  }

  lemma OnePlaceOn(i: nat, j: nat, b: nat)
    ensures forall p :: Earlier(p, i, j, b + 1) <==> Earlier(p, i, j, b) || p == CellPin(i, j, b)
  {
  }

  function PortCount(c: Cell): nat {
    match c case Not(_, _) => 1 case Inst(ports, _) => |ports| case Removed => 0
  }

  function SinkPins(c: Cell, conns: N.Conns, y: Bit, i: nat, j: nat): set<Pin> {
    var sig := InSig(c, j);
    set b | 0 <= b < |sig| && sig[b].Wire? && N.Canon(conns, sig[b]) == N.Canon(conns, y) :: CellPin(i, j, b)
  }

  predicate SinkTo(cells: Cells, conns: N.Conns, outputs: set<nat>, y: Bit, p: Pin, i: nat, j: nat) {
    IsSink(cells, conns, outputs, y, p) && Earlier(p, i, j, 0)
  }

  lemma SinkPort(cells: Cells, conns: N.Conns, outputs: set<nat>, y: Bit, i: nat, j: nat)
    requires i < |cells|
    ensures forall p :: SinkTo(cells, conns, outputs, y, p, i, j + 1) <==>
      SinkTo(cells, conns, outputs, y, p, i, j) || p in SinkPins(cells[i], conns, y, i, j)
  {
    hide N.Canon;
  }

  lemma SinkCell(cells: Cells, conns: N.Conns, outputs: set<nat>, y: Bit, i: nat)
    requires i < |cells|
    ensures forall p :: SinkTo(cells, conns, outputs, y, p, i + 1, 0) <==> SinkTo(cells, conns, outputs, y, p, i, PortCount(cells[i]))
  {
    hide N.Canon;
  }

  lemma SinksFound(cells: Cells, conns: N.Conns, outputs: set<nat>, y: Bit)
    ensures forall p :: IsSink(cells, conns, outputs, y, p) <==>
      SinkTo(cells, conns, outputs, y, p, |cells|, 0)
      || (p.OutPin? && p.wire in outputs && Assigned(conns, p.wire) && N.Canon(conns, Wire(p.wire)) == N.Canon(conns, y))
  {
    hide N.Canon, Assigned;
  }

  lemma StillThere(s: Start, cells: Cells, gone: set<nat>, k: nat)
    requires Reached(s, cells, gone) && k < |s.cells| && s.cells[k].Not? && k !in gone
    ensures k < |cells| && cells[k] == s.cells[k]
  {
    hide PinOk, Unread, SameSeen, Consistent;
    assert CellOk(s.cells[k], cells[k], k in gone);
  }

  lemma InverterThere(s: Start, k: nat)
    requires StartOk(s) && k in s.pins
    ensures k < |s.cells| && s.cells[k].Not?
  {
    hide N.Canon, Invertible;
    var p :| p in s.pins[k];
    assert Takes(s.cells, s.conns, s.selected, s.inv, p, k);
  }

  lemma StepIsOk(s: Start, before: Cells, cells: Cells, gone: set<nat>, k: nat)
    requires StartOk(s) && Reached(s, before, gone) && k in s.pins && k !in gone && k < |s.cells| && s.cells[k].Not?
    requires forall p :: p in s.pins[k] <==> IsSink(before, s.conns, s.outputs, s.cells[k].y, p)
    requires Across(s, before, cells, s.pins[k], s.cells[k].a)
    ensures StepOk(s, before, cells, gone, k) && k < |cells|
  {
    hide StartOk, IsSink, CellOk, PinOk, SameSeen, Unread, Consistent;
  }

  lemma ExactlyIntegrable(s: Start, gone: set<nat>)
    requires StartOk(s) && forall k :: k in gone ==> k in s.pins && k < |s.cells| && s.cells[k].Not?
    requires forall k :: k in s.pins && k < |s.cells| && s.cells[k].Not? ==> (k in gone <==> OnlySinks(s, s.cells, k))
    ensures forall k :: k in gone <==> Integrable(s.cells, s.conns, s.outputs, s.selected, k)
  {
    hide StartOk, IsSink, OnlySinks;
    forall k: nat ensures k in gone <==> Integrable(s.cells, s.conns, s.outputs, s.selected, k) {
      if k in s.pins && k < |s.cells| && s.cells[k].Not? {
        IntegrableIff(s, k);
      } else if Integrable(s.cells, s.conns, s.outputs, s.selected, k) {
        IntegrableHasPins(s, k);
        assert false;
      }
    }
  }

  datatype Spot = Spot(cell: nat, port: nat, bit: nat)

  /** Moving on past places that hold no pin to collect. */
  lemma CollectedOn(cells: Cells, conns: N.Conns, selected: set<nat>, inv: InvMap, pins: PinMap, a: Spot, b: Spot)
    requires CollectedTo(cells, conns, selected, inv, pins, a.cell, a.port, a.bit)
    requires forall p :: Earlier(p, a.cell, a.port, a.bit) ==> Earlier(p, b.cell, b.port, b.bit)
    requires forall p, k: nat :: Takes(cells, conns, selected, inv, p, k) && Earlier(p, b.cell, b.port, b.bit) ==>
      Earlier(p, a.cell, a.port, a.bit)
    ensures CollectedTo(cells, conns, selected, inv, pins, b.cell, b.port, b.bit)
  {
    hide Takes, Earlier;
    forall k, p | k in pins && p in pins[k]
      ensures Takes(cells, conns, selected, inv, p, k) && Earlier(p, b.cell, b.port, b.bit)
    {
      assert Takes(cells, conns, selected, inv, p, k) && Earlier(p, a.cell, a.port, a.bit);
    }
  }

  lemma CollectedPort(cells: Cells, conns: N.Conns, selected: set<nat>, inv: InvMap, pins: PinMap, i: nat, j: nat)
    requires i < |cells| && CollectedTo(cells, conns, selected, inv, pins, i, j, |InSig(cells[i], j)|)
    ensures CollectedTo(cells, conns, selected, inv, pins, i, j + 1, 0)
  {
    hide N.Canon, CollectedTo;
    CollectedOn(cells, conns, selected, inv, pins, Spot(i, j, |InSig(cells[i], j)|), Spot(i, j + 1, 0));
  }

  lemma CollectedCell(cells: Cells, conns: N.Conns, selected: set<nat>, inv: InvMap, pins: PinMap, i: nat, n: nat)
    requires i < |cells| && CollectedTo(cells, conns, selected, inv, pins, i, n, 0)
    requires n == if cells[i].Inst? then |cells[i].ports| else 0
    ensures CollectedTo(cells, conns, selected, inv, pins, i + 1, 0, 0)
  {
    hide N.Canon, CollectedTo;
    CollectedOn(cells, conns, selected, inv, pins, Spot(i, n, 0), Spot(i + 1, 0, 0));
  }

  lemma CollectedAll(cells: Cells, conns: N.Conns, selected: set<nat>, inv: InvMap, pins: PinMap)
    requires CollectedTo(cells, conns, selected, inv, pins, |cells|, 0, 0)
    ensures Collected(cells, conns, selected, inv, pins)
  {
    hide N.Canon;
  }
}
