/** Dropping LUT inputs that repeat another input of the same LUT. */
module LutDedup {
  import opened Bits
  import N = Netlist

  datatype State = S0 | S1 | Sx

  datatype Lut = Lut(width: nat, table: seq<State>, a: Sig)

  predicate WellFormed(l: Lut) {
    |l.a| == l.width && |l.table| == Pow2(l.width)
  }

  /** The table entry the inputs select. */
  function Output(l: Lut, e: Env): State
    requires WellFormed(l)
  {
    l.table[UVal(Eval(l.a, e))]
  }

  ghost predicate SameFunction(l: Lut, l': Lut, conns: N.Conns) {
    WellFormed(l) && WellFormed(l') && forall e :: N.ConnsHold(conns, e) ==> Output(l', e) == Output(l, e)
  }

  predicate SameNet(conns: N.Conns, b: Bit, b': Bit) {
    N.Canon(conns, b) == N.Canon(conns, b')
  }

  predicate NoDuplicates(l: Lut, conns: N.Conns) {
    forall i, j :: 0 <= i < j < |l.a| ==> N.Canon(conns, l.a[i]) != N.Canon(conns, l.a[j])
  }

  /** The first pair of inputs on one net. */
  method FindDuplicate(l: Lut, conns: N.Conns) returns (r: Option<(nat, nat)>)
    requires WellFormed(l)
    ensures r.None? <==> NoDuplicates(l, conns)
    ensures r.Some? ==> r.value.0 < r.value.1 < l.width && SameNet(conns, l.a[r.value.0], l.a[r.value.1])
  {
    hide N.Canon;
    for i := 0 to l.width
      invariant forall k, j :: 0 <= k < i && k < j < l.width ==> !SameNet(conns, l.a[k], l.a[j])
    {
      for j := i + 1 to l.width
        invariant forall k :: i < k < j ==> !SameNet(conns, l.a[i], l.a[k])
      {
        if SameNet(conns, l.a[i], l.a[j]) {
          return Some((i, j));
        }
      }
    }
    return None;
  }

  // ---- One input less ------------------------------------------------------------------

  function Dropped<T>(s: seq<T>, remove: nat): (r: seq<T>)
    requires remove < |s|
    ensures |r| == |s| - 1
  {
    s[..remove] + s[remove + 1..]
  }

  /** The inputs before, from the inputs left: the removed one repeats the kept one. */
  function Restored(v: seq<bool>, keep: nat, remove: nat): (r: seq<bool>)
    requires keep < remove <= |v|
    ensures |r| == |v| + 1
  {
    seq(|v| + 1, b requires 0 <= b < |v| + 1 => if b < remove then v[b] else if b == remove then v[keep] else v[b - 1])
  }

  lemma UValSnoc(v: seq<bool>, b: bool)
    ensures UVal(v + [b]) == UVal(v) + if b then Pow2(|v|) else 0
  {
    assert (v + [b])[..|v|] == v;
  }

  /** The old table index of a new one, bit by bit. */
  method OldIndex(newIdx: nat, width: nat, keep: nat, remove: nat) returns (oldIdx: nat)
    requires keep < remove < width
    ensures oldIdx == UVal(Restored(BitsOf(newIdx, width - 1), keep, remove)) < Pow2(width)
  {
    hide UVal, Pow2, BitAt;
    ghost var v := Restored(BitsOf(newIdx, width - 1), keep, remove);
    oldIdx := 0;
    assert UVal([]) == 0 by { EmptyUVal(); }
    assert v[..0] == [];
    for bit := 0 to width
      invariant oldIdx == UVal(v[..bit])
    {
      var val := if bit < remove then BitAt(newIdx, bit) else if bit == remove then BitAt(newIdx, keep) else BitAt(newIdx, bit - 1);
      assert val == v[bit] && v[..bit + 1] == v[..bit] + [v[bit]];
      UValSnoc(v[..bit], v[bit]);
      if val {
        oldIdx := oldIdx + Pow2(bit);
      }
    }
    assert v[..width] == v;
    var bound := UVal(v);
  }

  method RemoveInput(l: Lut, keep: nat, remove: nat) returns (r: Lut)
    requires WellFormed(l) && keep < remove < l.width
    ensures WellFormed(r) && r.width == l.width - 1 && r.a == Dropped(l.a, remove)
    ensures Reindexed(l, r, keep, remove)
  {
    hide UVal, Pow2, BitsOf;
    var newWidth := l.width - 1;
    var newSize := Pow2(newWidth);
    var table: seq<State> := [];
    for newIdx := 0 to newSize
      invariant |table| == newIdx
      invariant forall x :: 0 <= x < newIdx ==> EntryOk(l, table[x], x, keep, remove)
    {
      var oldIdx := OldIndex(newIdx, l.width, keep, remove);
      table := table + [l.table[oldIdx]];
      assert EntryOk(l, table[newIdx], newIdx, keep, remove);
    }
    r := Lut(newWidth, table, Dropped(l.a, remove));
  }

  predicate EntryOk(l: Lut, s: State, x: nat, keep: nat, remove: nat)
    requires keep < remove < l.width
  {
    var old_ := UVal(Restored(BitsOf(x, l.width - 1), keep, remove));
    old_ < |l.table| && s == l.table[old_]
  }

  predicate Reindexed(l: Lut, r: Lut, keep: nat, remove: nat)
    requires keep < remove < l.width
  {
    forall x :: 0 <= x < |r.table| ==> EntryOk(l, r.table[x], x, keep, remove)
  }

  /** Where the removed input repeats the kept one, the narrower LUT computes what the wider one did. */
  lemma NarrowedSame(l: Lut, r: Lut, keep: nat, remove: nat, conns: N.Conns)
    requires WellFormed(l) && WellFormed(r) && keep < remove < l.width && r.width == l.width - 1
    requires r.a == Dropped(l.a, remove) && Reindexed(l, r, keep, remove) && SameNet(conns, l.a[keep], l.a[remove])
    ensures SameFunction(l, r, conns)
  {
    hide UVal, Pow2, BitsOf, N.Canon, N.ConnsHold;
    forall e | N.ConnsHold(conns, e) ensures Output(r, e) == Output(l, e) {
      N.CanonValue(conns, l.a[keep], e);
      N.CanonValue(conns, l.a[remove], e);
      var v, v' := Eval(l.a, e), Eval(r.a, e);
      assert v' == Dropped(v, remove);
      assert Restored(v', keep, remove) == v;
      BitsOfUVal(v');
      assert EntryOk(l, r.table[UVal(v')], UVal(v'), keep, remove);
    }
  }

  // ---- The pass ---------------------------------------------------------------------------

  function TotalInputs(luts: seq<Lut>): nat {
    if luts == [] then 0 else TotalInputs(luts[..|luts| - 1]) + luts[|luts| - 1].width
  }

  lemma {:induction false} FewerInputs(luts: seq<Lut>, i: nat, r: Lut)
    requires i < |luts| && r.width < luts[i].width
    ensures TotalInputs(luts[i := r]) < TotalInputs(luts)
  {
    var n := |luts| - 1;
    if i == n {
      assert luts[i := r][..n] == luts[..n];
    } else {
      FewerInputs(luts[..n], i, r);
      assert luts[i := r][..n] == luts[..n][i := r];
    }
  }

  lemma SameTrans(a: Lut, b: Lut, c: Lut, conns: N.Conns)
    requires SameFunction(a, b, conns) && SameFunction(b, c, conns)
    ensures SameFunction(a, c, conns)
  {
    hide Output, N.ConnsHold;
  }

  class Module {
    var luts: seq<Lut>
    const conns: N.Conns

    /** Every LUT computes what it did, and none is left with two inputs on one net. */
    method DedupInputs()
      requires forall i :: 0 <= i < |luts| ==> WellFormed(luts[i])
      modifies `luts
      ensures |luts| == |old(luts)|
      ensures forall i :: 0 <= i < |luts| ==> SameFunction(old(luts)[i], luts[i], conns) && NoDuplicates(luts[i], conns)
    {
      hide SameFunction, NoDuplicates, Output, SameNet, Reindexed, UVal, Pow2, Dropped;
      ghost var start := luts;
      forall i | 0 <= i < |luts| ensures SameFunction(start[i], luts[i], conns) { SameSelf(luts[i], conns); }
      var anyChanged := true;
      while anyChanged
        invariant |luts| == |start| && forall i :: 0 <= i < |luts| ==> WellFormed(luts[i]) && SameFunction(start[i], luts[i], conns)
        invariant !anyChanged ==> forall i :: 0 <= i < |luts| ==> NoDuplicates(luts[i], conns)
        decreases TotalInputs(luts), anyChanged
      {
        ghost var before := luts;
        anyChanged := false;
        for i := 0 to |luts|
          invariant |luts| == |start| && forall k :: 0 <= k < |luts| ==> WellFormed(luts[k]) && SameFunction(start[k], luts[k], conns)
          invariant if anyChanged then TotalInputs(luts) < TotalInputs(before) else luts == before
          invariant !anyChanged ==> forall k :: 0 <= k < i ==> NoDuplicates(luts[k], conns)
        {
          var dup := FindDuplicate(luts[i], conns);
          if dup.Some? {
            var (keep, remove) := dup.value;
            var r := RemoveInput(luts[i], keep, remove);
            NarrowedSame(luts[i], r, keep, remove, conns);
            SameTrans(start[i], luts[i], r, conns);
            FewerInputs(luts, i, r);
            luts := luts[i := r];
            anyChanged := true;
          }
        }
      }
    }
  }

  lemma SameSelf(l: Lut, conns: N.Conns)
    requires WellFormed(l)
    ensures SameFunction(l, l, conns)
  {
  }
}
