/** Two-valued bits, signals, and the integers their bit patterns stand for. */
module Bits {

  /** A bit of a signal: a constant, or one bit of a wire. */
  datatype Bit = Const(v: bool) | Wire(id: nat)

  /** A signal, least significant bit first. */
  type Sig = seq<Bit>

  /** The value of every wire bit at one moment. */
  type Env = nat -> bool

  datatype Option<+T> = None | Some(value: T)

  function BitVal(b: Bit, e: Env): bool {
    match b
    case Const(v) => v
    case Wire(w) => e(w)
  }

  function Eval(s: Sig, e: Env): (v: seq<bool>)
    ensures |v| == |s|
  {
    seq(|s|, i requires 0 <= i < |s| => BitVal(s[i], e))
  }

  function Repeat<T>(x: T, n: nat): seq<T> {
    seq(n, _ => x)
  }

  function Min(a: int, b: int): int {
    if a < b then a else b
  }

  function Max(a: int, b: int): int {
    if a < b then b else a
  }

  function Pow2(n: nat): (p: int)
    ensures p > 0
  {
    if n == 0 then 1 else 2 * Pow2(n - 1)
  }

  lemma {:induction false} Pow2Mono(a: nat, b: nat)
    requires a <= b
    ensures Pow2(a) <= Pow2(b)
    ensures a < b ==> 2 * Pow2(a) <= Pow2(b)
  {
    if a < b { Pow2Mono(a, b - 1); }
  }

  lemma {:induction false} Pow2Add(a: nat, b: nat)
    ensures Pow2(a + b) == Pow2(a) * Pow2(b)
  {
    if b > 0 {
      Pow2Add(a, b - 1);
      assert Pow2(a + b) == 2 * Pow2(a + (b - 1));
      assert 2 * (Pow2(a) * Pow2(b - 1)) == Pow2(a) * (2 * Pow2(b - 1));
    }
  }

  // ---- Residues ---------------------------------------------------------

  /** The residue of `x`, always in `0 .. m`. */
  function Res(x: int, m: int): int
    requires m > 0
  {
    x % m
  }

  lemma MulAtLeast(k: int, m: int)
    requires k >= 1 && m > 0
    ensures k * m >= m
  {
    assert (k - 1) * m >= 0;
  }

  lemma ResUnique(x: int, m: int, q: int, r: int)
    requires m > 0 && x == q * m + r && 0 <= r < m
    ensures Res(x, m) == r
  {
    var q', r' := x / m, x % m;
    assert x == q' * m + r';
    if q - q' >= 1 {
      MulAtLeast(q - q', m);
      assert false;
    } else if q' - q >= 1 {
      MulAtLeast(q' - q, m);
      assert false;
    }
  }

  lemma ResSplit(x: int, m: int) returns (q: int)
    requires m > 0
    ensures x == q * m + Res(x, m) && 0 <= Res(x, m) < m
  {
    q := x / m;
  }

  lemma ResSmall(x: int, m: int)
    requires 0 <= x < m
    ensures Res(x, m) == x
  {
    ResUnique(x, m, 0, x);
  }

  /** `a` and `b` have the same low bits: they differ by a multiple of `m`. */
  ghost predicate Cong(a: int, b: int, m: int)
    requires m > 0
  {
    Res(a, m) == Res(b, m)
  }

  lemma CongShift(x: int, m: int, k: int)
    requires m > 0
    ensures Cong(x + k * m, x, m)
  {
    hide Res;
    var q := ResSplit(x, m);
    assert x + k * m == (q + k) * m + Res(x, m);
    ResUnique(x + k * m, m, q + k, Res(x, m));
  }

  lemma CongMultiple(a: int, b: int, m: int) returns (k: int)
    requires m > 0 && Cong(a, b, m)
    ensures a == b + k * m
  {
    hide Res;
    var i := ResSplit(a, m);
    var j := ResSplit(b, m);
    k := i - j;
    assert k * m == i * m - j * m;
  }

  lemma CongRes(a: int, m: int)
    requires m > 0
    ensures Cong(Res(a, m), a, m)
  {
    hide Res;
    var q := ResSplit(a, m);
    ResSmall(Res(a, m), m);
  }

  lemma CongAdd(a: int, a': int, b: int, b': int, m: int)
    requires m > 0 && Cong(a, a', m) && Cong(b, b', m)
    ensures Cong(a + b, a' + b', m) && Cong(a - b, a' - b', m)
  {
    hide Res;
    var i := CongMultiple(a, a', m);
    var j := CongMultiple(b, b', m);
    assert (i + j) * m == i * m + j * m && (i - j) * m == i * m - j * m;
    CongShift(a' + b', m, i + j);
    CongShift(a' - b', m, i - j);
  }

  lemma CongScale(a: int, a': int, b: int, m: int)
    requires m > 0 && Cong(a, a', m)
    ensures Cong(a * b, a' * b, m) && Cong(b * a, b * a', m)
  {
    hide Res;
    var i := CongMultiple(a, a', m);
    assert (a' + i * m) * b == a' * b + (i * b) * m;
    assert a * b == b * a && a' * b == b * a';
    CongShift(a' * b, m, i * b);
  }

  lemma CongMul(a: int, a': int, b: int, b': int, m: int)
    requires m > 0 && Cong(a, a', m) && Cong(b, b', m)
    ensures Cong(a * b, a' * b', m)
  {
    hide Res;
    CongScale(a, a', b, m);
    CongScale(b, b', a', m);
  }

  /** Fewer low bits agree when more do. */
  lemma CongWeaken(a: int, b: int, k: nat, n: nat)
    requires k <= n && Cong(a, b, Pow2(n))
    ensures Cong(a, b, Pow2(k))
  {
    hide Res, Pow2;
    var i := CongMultiple(a, b, Pow2(n));
    Pow2Add(k, n - k);
    assert i * (Pow2(k) * Pow2(n - k)) == (i * Pow2(n - k)) * Pow2(k);
    CongShift(b, Pow2(k), i * Pow2(n - k));
  }

  // ---- Bit patterns as integers -------------------------------------------

  function UVal(v: seq<bool>): (u: nat)
    ensures u < Pow2(|v|)
  {
    if |v| == 0 then 0
    else
      var n := |v| - 1;
      UVal(v[..n]) + if v[n] then Pow2(n) else 0
  }

  function SVal(v: seq<bool>): int {
    if |v| > 0 && v[|v| - 1] then UVal(v) - Pow2(|v|) else UVal(v)
  }

  function IVal(v: seq<bool>, signed: bool): int {
    if signed then SVal(v) else UVal(v)
  }

  /** The low `n` bits of `x` in two's complement. */
  function ToBits(x: int, n: nat): (v: seq<bool>)
    ensures |v| == n
    ensures UVal(v) == Res(x, Pow2(n))
  {
    if n == 0 then []
    else
      var m := Pow2(n - 1);
      HalfRes(x, m);
      var v := ToBits(x, n - 1) + [Res(x, 2 * m) >= m];
      assert v[..n - 1] == ToBits(x, n - 1);
      v
  }

  lemma HalfRes(x: int, m: int)
    requires m > 0
    ensures Res(x, 2 * m) == Res(x, m) + (if Res(x, 2 * m) >= m then m else 0)
  {
    hide Res;
    var q := ResSplit(x, 2 * m);
    var r := Res(x, 2 * m);
    assert q * (2 * m) == (2 * q) * m && (2 * q + 1) * m == (2 * q) * m + m;
    if r < m {
      ResUnique(x, m, 2 * q, r);
    } else {
      ResUnique(x, m, 2 * q + 1, r - m);
    }
  }

  lemma {:induction false} UValInjective(v: seq<bool>, w: seq<bool>)
    requires |v| == |w| && UVal(v) == UVal(w)
    ensures v == w
  {
    if |v| > 0 {
      var n := |v| - 1;
      assert v[n] == w[n];
      UValInjective(v[..n], w[..n]);
      assert v == v[..n] + [v[n]];
      assert w == w[..n] + [w[n]];
    }
  }

  /** Patterns are the low bits of exactly the values congruent to them. */
  lemma ToBitsOfCong(a: int, b: int, n: nat)
    requires Cong(a, b, Pow2(n))
    ensures ToBits(a, n) == ToBits(b, n)
  {
    hide Pow2, UVal, ToBits, Res;
    UValInjective(ToBits(a, n), ToBits(b, n));
  }

  lemma ToBitsUVal(v: seq<bool>, x: int)
    requires Cong(UVal(v), x, Pow2(|v|))
    ensures v == ToBits(x, |v|)
  {
    hide Pow2, UVal, ToBits, Res;
    ResSmall(UVal(v), Pow2(|v|));
    UValInjective(v, ToBits(x, |v|));
  }

  lemma ToBitsCong(x: int, n: nat)
    ensures Cong(UVal(ToBits(x, n)), x, Pow2(n))
  {
    hide Pow2, UVal, ToBits, Res;
    CongRes(x, Pow2(n));
  }

  /** Either reading of a pattern has that pattern as its low bits. */
  lemma IValCong(v: seq<bool>, signed: bool)
    ensures Cong(IVal(v, signed), UVal(v), Pow2(|v|))
    ensures ToBits(IVal(v, signed), |v|) == v
  {
    hide Pow2, UVal, ToBits, Res;
    CongShift(UVal(v), Pow2(|v|), -1);
    assert IVal(v, signed) == UVal(v) || IVal(v, signed) == UVal(v) + -1 * Pow2(|v|);
    ToBitsUVal(v, IVal(v, signed));
  }

  lemma SValRange(v: seq<bool>)
    requires |v| > 0
    ensures -Pow2(|v| - 1) <= SVal(v) < Pow2(|v| - 1)
  {
    hide Pow2;
    var n := |v| - 1;
    Doubling(n);
    assert UVal(v) == UVal(v[..n]) + if v[n] then Pow2(n) else 0;
  }

  lemma IValRange(v: seq<bool>, signed: bool)
    requires |v| > 0
    ensures signed ==> -Pow2(|v| - 1) <= IVal(v, signed) < Pow2(|v| - 1)
    ensures !signed ==> 0 <= IVal(v, signed) < Pow2(|v|)
  {
    SValRange(v);
  }

  /** A value in range survives being cut to `n` bits and read back. */
  lemma ReadBackSigned(x: int, n: nat)
    requires n > 0 && -Pow2(n - 1) <= x < Pow2(n - 1)
    ensures SVal(ToBits(x, n)) == x
  {
    hide Res, ToBits;
    var m := Pow2(n);
    ResUnique(x, m, if x >= 0 then 0 else -1, if x >= 0 then x else x + m);
    TopBit(ToBits(x, n));
  }

  lemma TopBit(v: seq<bool>)
    requires |v| > 0
    ensures v[|v| - 1] <==> UVal(v) >= Pow2(|v| - 1)
  {
  }

  lemma ReadBackUnsigned(x: int, n: nat)
    requires 0 <= x < Pow2(n)
    ensures UVal(ToBits(x, n)) == x
  {
    hide Pow2, UVal, ToBits, Res;
    ResSmall(x, Pow2(n));
  }

  lemma Distribute(p: int, u: int, q: int)
    ensures p * (u + q) == p * u + p * q
  {
  }

  lemma {:induction false} UValConcat(v: seq<bool>, w: seq<bool>)
    ensures UVal(v + w) == UVal(v) + Pow2(|v|) * UVal(w)
    decreases |w|
  {
    hide Pow2;
    if |w| == 0 {
      assert v + w == v;
    } else {
      var n := |w| - 1;
      UValConcat(v, w[..n]);
      assert (v + w)[..|v| + n] == v + w[..n];
      Pow2Add(|v|, n);
      assert (v + w)[|v| + n] == w[n];
      if w[n] {
        Distribute(Pow2(|v|), UVal(w[..n]), Pow2(n));
      }
    }
  }

  /** Taking the low bits is taking the residue. */
  lemma LowBits(v: seq<bool>, k: nat)
    requires k <= |v|
    ensures Cong(UVal(v[..k]), UVal(v), Pow2(k))
  {
    hide Pow2, UVal, Res;
    assert v == v[..k] + v[k..];
    UValConcat(v[..k], v[k..]);
    CongShift(UVal(v[..k]), Pow2(k), UVal(v[k..]));
    assert Pow2(k) * UVal(v[k..]) == UVal(v[k..]) * Pow2(k);
  }

  lemma ToBitsLow(x: int, k: nat, n: nat)
    requires k <= n
    ensures ToBits(x, n)[..k] == ToBits(x, k)
  {
    hide Pow2, UVal, ToBits, Res;
    var v := ToBits(x, n);
    LowBits(v, k);
    ToBitsCong(x, n);
    CongWeaken(UVal(v), x, k, n);
    ToBitsUVal(v[..k], x);
  }

  // ---- Extension ------------------------------------------------------------

  /** What a width change does to a signal: cut it, or pad it with its sign or zero. */
  function ExtendU0(s: Sig, width: nat, signed: bool): Sig {
    if |s| >= width then s[..width]
    else s + Repeat(if signed && |s| > 0 then s[|s| - 1] else Const(false), width - |s|)
  }

  /** The same on a bit pattern. */
  function ExtendBits(v: seq<bool>, width: nat, signed: bool): (w: seq<bool>)
    ensures |w| == width
  {
    if |v| >= width then v[..width]
    else v + Repeat(signed && |v| > 0 && v[|v| - 1], width - |v|)
  }

  lemma EvalExtend(s: Sig, width: nat, signed: bool, e: Env)
    ensures Eval(ExtendU0(s, width, signed), e) == ExtendBits(Eval(s, e), width, signed)
  {
  }

  lemma {:induction false} UValPad(v: seq<bool>, b: bool, k: nat)
    ensures UVal(v + Repeat(b, k)) == UVal(v) + if b then Pow2(|v| + k) - Pow2(|v|) else 0
    decreases k
  {
    if k == 0 {
      assert v + Repeat(b, 0) == v;
    } else {
      UValPad(v, b, k - 1);
      var w := v + Repeat(b, k);
      assert w[..|w| - 1] == v + Repeat(b, k - 1);
      assert w[|w| - 1] == b;
    }
  }

  lemma PadValue(v: seq<bool>, w: seq<bool>, b: bool, k: nat)
    requires k > 0 && |w| == |v| + k && w[|w| - 1] == b
    requires UVal(w) == UVal(v) + if b then Pow2(|v| + k) - Pow2(|v|) else 0
    ensures SVal(w) == UVal(v) - if b then Pow2(|v|) else 0
  {
  }

  lemma NoValue()
    ensures UVal([]) == 0
  {
  }

  /** Widening keeps the value: by sign for a signed pattern, by zero otherwise. */
  lemma WidenKeepsValue(v: seq<bool>, width: nat, signed: bool)
    requires |v| <= width
    ensures IVal(ExtendBits(v, width, signed), signed) == IVal(v, signed)
    ensures !signed && |v| < width ==> SVal(ExtendBits(v, width, false)) == UVal(v)
  {
    if |v| == width {
      assert v[..width] == v;
    } else {
      hide Pow2, UVal;
      var b, k := signed && |v| > 0 && v[|v| - 1], width - |v|;
      UValPad(v, b, k);
      PadValue(v, v + Repeat(b, k), b, k);
      if v == [] { NoValue(); }
    }
  }

  /** Any width change keeps the low bits. */
  lemma ExtendCong(v: seq<bool>, width: nat, signed: bool)
    ensures Cong(UVal(ExtendBits(v, width, signed)), IVal(v, signed), Pow2(width))
  {
    hide Pow2, UVal, Res, IVal;
    IValCong(v, signed);
    if |v| > width {
      LowBits(v, width);
      CongWeaken(IVal(v, signed), UVal(v), width, |v|);
    } else {
      WidenKeepsValue(v, width, signed);
      IValCong(ExtendBits(v, width, signed), signed);
    }
  }

  // ---- Bits of numbers --------------------------------------------------------

  /** `(x >> j) & 1`. */
  function BitAt(x: nat, j: nat): bool {
    if j == 0 then x % 2 == 1 else BitAt(x / 2, j - 1)
  }

  function BitsOf(x: nat, n: nat): seq<bool> {
    seq(n, j requires 0 <= j < n => BitAt(x, j))
  }

  lemma {:induction false} BitsDetermine(x: nat, y: nat, n: nat)
    requires x < Pow2(n) && y < Pow2(n) && forall j :: 0 <= j < n ==> BitAt(x, j) == BitAt(y, j)
    ensures x == y
  {
    if n > 0 {
      assert BitAt(x, 0) == BitAt(y, 0);
      forall j | 0 <= j < n - 1 ensures BitAt(x / 2, j) == BitAt(y / 2, j) {
        assert BitAt(x, j + 1) == BitAt(y, j + 1);
      }
      BitsDetermine(x / 2, y / 2, n - 1);
    }
  }

  lemma {:induction false} BitAtUVal(v: seq<bool>, j: nat)
    requires j < |v|
    ensures BitAt(UVal(v), j) == v[j]
  {
    var low, rest := [v[0]], v[1..];
    assert v == low + rest;
    UValConcat(low, rest);
    assert UVal(low) == if v[0] then 1 else 0 by {
      assert low[..0] == [];
      assert Pow2(0) == 1;
    }
    assert Pow2(1) == 2 * Pow2(0);
    if j > 0 { BitAtUVal(rest, j - 1); }
  }

  /** A number below `2^n` is its `n` bits. */
  lemma BitsOfUVal(v: seq<bool>)
    ensures BitsOf(UVal(v), |v|) == v
  {
    hide UVal, Pow2;
    forall j | 0 <= j < |v| ensures BitAt(UVal(v), j) == v[j] {
      BitAtUVal(v, j);
    }
  }

  // ---- Values in the range of a width -------------------------------------------

  predicate InRange(x: int, n: nat, signed: bool)
    requires n > 0
  {
    if signed then -Pow2(n - 1) <= x < Pow2(n - 1) else 0 <= x < Pow2(n)
  }

  lemma ReadBack(x: int, n: nat, signed: bool)
    requires n > 0 && InRange(x, n, signed)
    ensures IVal(ToBits(x, n), signed) == x
  {
    hide Pow2, UVal, SVal, ToBits, Res;
    if signed { ReadBackSigned(x, n); } else { ReadBackUnsigned(x, n); }
  }

  /** Two values whose difference is one power of two have different low bits above it. */
  lemma OffByPower(x: int, y: nat, z: nat)
    requires y < z
    ensures !Cong(x + Pow2(y), x, Pow2(z)) && !Cong(x - Pow2(y), x, Pow2(z))
  {
    hide Res;
    Pow2Mono(y, z);
    if Cong(x + Pow2(y), x, Pow2(z)) {
      var k := CongMultiple(x + Pow2(y), x, Pow2(z));
      NoMultiple(k, Pow2(y), Pow2(z));
    }
    if Cong(x - Pow2(y), x, Pow2(z)) {
      var k := CongMultiple(x - Pow2(y), x, Pow2(z));
      NoMultiple(-k, Pow2(y), Pow2(z));
    }
  }

  lemma NoMultiple(k: int, x: int, m: int)
    requires 0 < x && 2 * x <= m
    ensures k * m != x
  {
    if k >= 1 {
      MulAtLeast(k, m);
    } else {
      assert k * m <= 0;
    }
  }

  /** A value out of the cut's range by no more than one turn is read wrong, and `z` bits show it. */
  lemma CutShows(x: int, n: nat, signed: bool, z: nat)
    requires 0 < n < z
    requires InRange(x - Pow2(n), n, signed) || InRange(x + Pow2(n), n, signed)
    ensures !Cong(IVal(ToBits(x, n), signed), x, Pow2(z))
  {
    hide Res, UVal, SVal, ToBits, Pow2;
    OffByPower(x, n, z);
    if InRange(x - Pow2(n), n, signed) {
      CongShift(x, Pow2(n), -1);
      ToBitsOfCong(x, x - Pow2(n), n);
      ReadBack(x - Pow2(n), n, signed);
    } else {
      CongShift(x, Pow2(n), 1);
      ToBitsOfCong(x, x + Pow2(n), n);
      ReadBack(x + Pow2(n), n, signed);
    }
  }

  lemma Doubling(n: nat)
    ensures Pow2(n + 1) == 2 * Pow2(n)
  {
  }

  lemma Zero(n: nat, signed: bool)
    requires n > 0
    ensures IVal(ToBits(0, n), signed) == 0
  {
    hide Res, UVal, ToBits, SVal, Pow2;
    ReadBack(0, n, signed);
  }

  lemma EmptyUVal()
    ensures UVal([]) == 0
  {
  }
}
