/** The sum-of-minterms text of a LUT, read back. */
module LutEqn {
  import opened Bits

  const NAMES: seq<string> := ["I0", "I1", "I2", "I3", "I4"]

  // ---- Printing ------------------------------------------------------------------------

  function LiteralText(i: nat, j: nat): string
    requires j < 5
  {
    if BitAt(i, j) then NAMES[j] else "~" + NAMES[j]
  }

  /** `"(I0*~I1)+"`, from literal `j` on. */
  function LiteralsText(i: nat, j: nat, inputs: nat): string
    requires j <= inputs <= 5
    decreases inputs - j
  {
    if j == inputs then ""
    else LiteralText(i, j) + (if j != inputs - 1 then "*" else "") + LiteralsText(i, j + 1, inputs)
  }

  function TermText(i: nat, inputs: nat): string
    requires inputs <= 5
  {
    "(" + LiteralsText(i, 0, inputs) + ")"
  }

  /** Entry `i` of the table, in the text of INIT: its first `2^inputs` characters, the last of them entry 0. */
  predicate Entry(init: string, inputs: nat, i: nat)
    requires i < Pow2(inputs) <= |init|
  {
    init[Pow2(inputs) - 1 - i] == '1'
  }

  /** The minterms from `i` on, each followed by a plus. */
  function SumText(init: string, inputs: nat, i: nat): string
    requires inputs <= 5 && i <= Pow2(inputs) <= |init|
    decreases Pow2(inputs) - i
  {
    if i == Pow2(inputs) then ""
    else (if Entry(init, inputs, i) then TermText(i, inputs) + "+" else "") + SumText(init, inputs, i + 1)
  }

  function EqnText(init: string, inputs: nat): string
    requires inputs <= 5 && Pow2(inputs) <= |init|
  {
    var s := SumText(init, inputs, 0);
    if s == "" then "0" else s[..|s| - 1]
  }

  lemma Regroup(a: string, b: string, c: string, d: string)
    ensures a + (b + c + d) == a + b + c + d
  {
  }

  method AppendTerm(eqn: string, i: nat, inputs: nat) returns (r: string)
    requires inputs <= 5
    ensures r == eqn + (TermText(i, inputs) + "+")
  {
    hide BitAt, LiteralsText;
    r := eqn + "(";
    for j := 0 to inputs
      invariant r + LiteralsText(i, j, inputs) == eqn + "(" + LiteralsText(i, 0, inputs)
    {
      LiteralsStep(i, j, inputs);
      Regroup(r, LiteralText(i, j), if j != inputs - 1 then "*" else "", LiteralsText(i, j + 1, inputs));
      if BitAt(i, j) {
        r := r + NAMES[j];
      } else {
        r := r + ("~" + NAMES[j]);
      }
      r := r + if j != inputs - 1 then "*" else "";
    }
    NoLiterals(i, inputs);
    assert r + "" == r;
    r := r + ")+";
    Regroup(eqn, "(", LiteralsText(i, 0, inputs), ")");
    Regroup(eqn, "", TermText(i, inputs), "+");
    assert r == eqn + "(" + LiteralsText(i, 0, inputs) + ")" + "+";
  }

  lemma LiteralsStep(i: nat, j: nat, inputs: nat)
    requires j < inputs <= 5
    ensures LiteralsText(i, j, inputs) == LiteralText(i, j) + (if j != inputs - 1 then "*" else "") + LiteralsText(i, j + 1, inputs)
  {
  }

  lemma NoLiterals(i: nat, inputs: nat)
    requires inputs <= 5
    ensures LiteralsText(i, inputs, inputs) == ""
  {
  }

  lemma SumStep(init: string, inputs: nat, i: nat)
    requires inputs <= 5 && i < Pow2(inputs) <= |init|
    ensures SumText(init, inputs, i)
         == (if Entry(init, inputs, i) then TermText(i, inputs) + "+" else "") + SumText(init, inputs, i + 1)
    ensures Entry(init, inputs, i) ==> SumText(init, inputs, i) == TermText(i, inputs) + "+" + SumText(init, inputs, i + 1)
    ensures !Entry(init, inputs, i) ==> SumText(init, inputs, i) == SumText(init, inputs, i + 1)
  {
    hide Pow2;
  }

  method Init2Eqn(init: string, inputs: nat) returns (eqn: string)
    requires inputs <= 5 && Pow2(inputs) <= |init|
    ensures eqn == EqnText(init, inputs)
  {
    hide Pow2, TermText, SumText;
    eqn := "";
    var width := Pow2(inputs);
    assert "" + SumText(init, inputs, 0) == SumText(init, inputs, 0);
    for i := 0 to width
      invariant eqn + SumText(init, inputs, i) == SumText(init, inputs, 0)
    {
      SumStep(init, inputs, i);
      Regroup(eqn, "", if Entry(init, inputs, i) then TermText(i, inputs) + "+" else "", SumText(init, inputs, i + 1));
      assert eqn + "" == eqn;
      if init[width - 1 - i] == '1' {
        eqn := AppendTerm(eqn, i, inputs);
      }
    }
    NoSum(init, inputs);
    if eqn == "" {
      return "0";
    }
    eqn := eqn[..|eqn| - 1];
  }

  lemma NoSum(init: string, inputs: nat)
    requires inputs <= 5 && Pow2(inputs) <= |init|
    ensures SumText(init, inputs, Pow2(inputs)) == ""
  {
  }

  // ---- Reading -----------------------------------------------------------------------------

  datatype Literal = Literal(index: nat, negated: bool)

  type Term = seq<Literal>

  /** What is read from the front of a text, and what is left. */
  datatype Read<T> = Read(value: T, rest: string)

  predicate IsDigit(c: char) {
    '0' <= c <= '9'
  }

  function ReadLiteral(s: string): (r: Option<Read<Literal>>)
    ensures r.Some? ==> |r.value.rest| < |s|
  {
    if |s| >= 2 && s[0] == 'I' && IsDigit(s[1]) then Some(Read(Literal(s[1] as int - '0' as int, false), s[2..]))
    else if |s| >= 3 && s[0] == '~' && s[1] == 'I' && IsDigit(s[2]) then Some(Read(Literal(s[2] as int - '0' as int, true), s[3..]))
    else None
  }

  /** Literals between stars, up to the closing bracket. */
  function ReadLiterals(s: string): (r: Option<Read<Term>>)
    ensures r.Some? ==> |r.value.rest| < |s|
    decreases |s|
  {
    var first := ReadLiteral(s);
    if first.None? || first.value.rest == "" then None
    else
      var l, rest := first.value.value, first.value.rest;
      if rest[0] == ')' then Some(Read([l], rest[1..]))
      else if rest[0] != '*' then None
      else
        var more := ReadLiterals(rest[1..]);
        if more.None? then None else Some(Read([l] + more.value.value, more.value.rest))
  }

  function ReadTerm(s: string): (r: Option<Read<Term>>)
    ensures r.Some? ==> |r.value.rest| < |s|
  {
    if |s| < 2 || s[0] != '(' then None
    else if s[1] == ')' then Some(Read([], s[2..]))
    else ReadLiterals(s[1..])
  }

  /** Terms between pluses, up to the end. */
  function ReadSum(s: string): Option<seq<Term>>
    decreases |s|
  {
    var first := ReadTerm(s);
    if first.None? then None
    else
      var t, rest := first.value.value, first.value.rest;
      if rest == "" then Some([t])
      else if rest[0] != '+' then None
      else
        var more := ReadSum(rest[1..]);
        if more.None? then None else Some([t] + more.value)
  }

  function Parse(s: string): Option<seq<Term>> {
    if s == "0" then Some([]) else ReadSum(s)
  }

  /** What a text says of the input assignment with the bits of `k`. */
  predicate LiteralHolds(l: Literal, k: nat) {
    BitAt(k, l.index) != l.negated
  }

  predicate TermHolds(t: Term, k: nat) {
    forall l :: l in t ==> LiteralHolds(l, k)
  }

  predicate SumHolds(ts: seq<Term>, k: nat) {
    exists t :: t in ts && TermHolds(t, k)
  }

  // ---- Reading back what was printed -----------------------------------------------------------

  function LiteralsFrom(i: nat, j: nat, inputs: nat): Term
    requires j <= inputs
    decreases inputs - j
  {
    if j == inputs then [] else [Literal(j, !BitAt(i, j))] + LiteralsFrom(i, j + 1, inputs)
  }

  function TermsFrom(init: string, inputs: nat, i: nat): seq<Term>
    requires i <= Pow2(inputs) <= |init|
    decreases Pow2(inputs) - i
  {
    if i == Pow2(inputs) then []
    else (if Entry(init, inputs, i) then [LiteralsFrom(i, 0, inputs)] else []) + TermsFrom(init, inputs, i + 1)
  }

  lemma ReadsLiteral(i: nat, j: nat, rest: string)
    requires j < 5
    ensures ReadLiteral(LiteralText(i, j) + rest) == Some(Read(Literal(j, !BitAt(i, j)), rest))
  {
    var s := LiteralText(i, j) + rest;
    assert NAMES[j] == ['I', ('0' as int + j) as char];
    if BitAt(i, j) {
      assert s[0] == 'I' && s[1] == NAMES[j][1] && s[2..] == rest;
    } else {
      assert s[0] == '~' && s[1] == 'I' && s[2] == NAMES[j][1] && s[3..] == rest;
    }
  }

  lemma {:induction false} ReadsLiterals(i: nat, j: nat, inputs: nat, rest: string)
    requires j < inputs <= 5
    ensures ReadLiterals(LiteralsText(i, j, inputs) + ")" + rest) == Some(Read(LiteralsFrom(i, j, inputs), rest))
    decreases inputs - j
  {
    hide ReadLiteral, LiteralText;
    var s := LiteralsText(i, j, inputs) + ")" + rest;
    var next := LiteralsText(i, j + 1, inputs) + ")" + rest;
    if j == inputs - 1 {
      assert s == LiteralText(i, j) + (")" + rest);
      ReadsLiteral(i, j, ")" + rest);
      assert LiteralsFrom(i, j, inputs) == [Literal(j, !BitAt(i, j))];
      assert (")" + rest)[1..] == rest;
    } else {
      assert s == LiteralText(i, j) + ("*" + next);
      ReadsLiteral(i, j, "*" + next);
      assert ("*" + next)[1..] == next;
      ReadsLiterals(i, j + 1, inputs, rest);
    }
  }

  lemma ReadsTerm(i: nat, inputs: nat, rest: string)
    requires inputs <= 5
    ensures ReadTerm(TermText(i, inputs) + rest) == Some(Read(LiteralsFrom(i, 0, inputs), rest))
  {
    hide ReadLiterals, ReadLiteral;
    var s := TermText(i, inputs) + rest;
    var inner := LiteralsText(i, 0, inputs) + ")" + rest;
    assert s == "(" + inner && s[1..] == inner;
    if inputs == 0 {
      assert s == "()" + rest && s[2..] == rest;
    } else {
      assert inner[0] == LiteralText(i, 0)[0];
      ReadsLiterals(i, 0, inputs, rest);
    }
  }

  lemma TermText0(i: nat, inputs: nat)
    requires inputs <= 5
    ensures |TermText(i, inputs)| >= 2 && TermText(i, inputs)[0] == '('
  {
  }

  lemma DropLast(t: string, more: string)
    requires t != ""
    ensures var s := t + "+" + more;
      && s[0] == t[0] && s[|s| - 1] == (if more == "" then '+' else more[|more| - 1])
      && s[..|s| - 1] == if more == "" then t else t + "+" + more[..|more| - 1]
  {
  }

  lemma TermsStep(init: string, inputs: nat, i: nat)
    requires i < Pow2(inputs) <= |init|
    ensures Entry(init, inputs, i) ==> TermsFrom(init, inputs, i) == [LiteralsFrom(i, 0, inputs)] + TermsFrom(init, inputs, i + 1)
    ensures !Entry(init, inputs, i) ==> TermsFrom(init, inputs, i) == TermsFrom(init, inputs, i + 1)
  {
    hide Pow2;
  }

  lemma ReadsLast(i: nat, inputs: nat)
    requires inputs <= 5
    ensures ReadSum(TermText(i, inputs)) == Some([LiteralsFrom(i, 0, inputs)])
  {
    hide ReadTerm, TermText, LiteralsFrom;
    var t := TermText(i, inputs);
    assert t + "" == t;
    ReadsTerm(i, inputs, "");
  }

  lemma ReadsNext(i: nat, inputs: nat, tail: string, more: seq<Term>)
    requires inputs <= 5 && ReadSum(tail) == Some(more)
    ensures ReadSum(TermText(i, inputs) + "+" + tail) == Some([LiteralsFrom(i, 0, inputs)] + more)
  {
    hide ReadTerm, TermText, LiteralsFrom;
    var t := TermText(i, inputs);
    assert t + "+" + tail == t + ("+" + tail);
    assert ("+" + tail)[1..] == tail;
    ReadsTerm(i, inputs, "+" + tail);
  }

  /** The text without its last plus reads back as these terms. */
  predicate ReadsAs(s: string, ts: seq<Term>) {
    s != "" && s[|s| - 1] == '+' && s[0] == '(' && ReadSum(s[..|s| - 1]) == Some(ts)
  }

  lemma OneTermMore(i: nat, inputs: nat, more: string, ts: seq<Term>)
    requires inputs <= 5 && if more == "" then ts == [] else ReadsAs(more, ts)
    ensures ReadsAs(TermText(i, inputs) + "+" + more, [LiteralsFrom(i, 0, inputs)] + ts)
  {
    hide ReadSum, TermText, LiteralsFrom;
    var t := TermText(i, inputs);
    TermText0(i, inputs);
    DropLast(t, more);
    if more == "" {
      ReadsLast(i, inputs);
      assert [LiteralsFrom(i, 0, inputs)] + ts == [LiteralsFrom(i, 0, inputs)];
    } else {
      ReadsNext(i, inputs, more[..|more| - 1], ts);
    }
  }

  /** What is printed reads back as the minterms. */
  lemma {:induction false} ReadsSum(init: string, inputs: nat, i: nat)
    requires inputs <= 5 && i <= Pow2(inputs) <= |init| && SumText(init, inputs, i) != ""
    ensures ReadsAs(SumText(init, inputs, i), TermsFrom(init, inputs, i))
    decreases Pow2(inputs) - i
  {
    NoSum(init, inputs);
    hide Pow2, ReadsAs, TermText, LiteralsFrom, SumText, TermsFrom, Entry;
    var more, ts := SumText(init, inputs, i + 1), TermsFrom(init, inputs, i + 1);
    SumStep(init, inputs, i);
    TermsStep(init, inputs, i);
    if more != "" {
      ReadsSum(init, inputs, i + 1);
    } else {
      NoMoreTerms(init, inputs, i + 1);
    }
    if Entry(init, inputs, i) {
      OneTermMore(i, inputs, more, ts);
    }
  }

  lemma {:induction false} NoMoreTerms(init: string, inputs: nat, i: nat)
    requires inputs <= 5 && i <= Pow2(inputs) <= |init| && SumText(init, inputs, i) == ""
    ensures TermsFrom(init, inputs, i) == []
    decreases Pow2(inputs) - i
  {
    hide Pow2, TermText;
    if i < Pow2(inputs) {
      NoMoreTerms(init, inputs, i + 1);
    }
  }

  lemma ReadsBack(init: string, inputs: nat)
    requires inputs <= 5 && Pow2(inputs) <= |init|
    ensures Parse(EqnText(init, inputs)) == Some(TermsFrom(init, inputs, 0))
  {
    hide Pow2, ReadSum, SumText, TermsFrom;
    var s := SumText(init, inputs, 0);
    if s == "" {
      NoMoreTerms(init, inputs, 0);
    } else {
      ReadsSum(init, inputs, 0);
      if |s| > 1 {
        assert s[..|s| - 1][0] == '(';
      }
    }
  }

  // ---- What the text says -------------------------------------------------------------------------

  ghost predicate SameBits(i: nat, k: nat, from: nat, inputs: nat) {
    forall b: nat :: from <= b < inputs ==> BitAt(k, b) == BitAt(i, b)
  }

  lemma {:induction false} MintermLiterals(i: nat, j: nat, inputs: nat, k: nat)
    requires j <= inputs
    ensures TermHolds(LiteralsFrom(i, j, inputs), k) <==> SameBits(i, k, j, inputs)
    decreases inputs - j
  {
    hide BitAt;
    if j < inputs {
      MintermLiterals(i, j + 1, inputs, k);
      var first, t, rest := Literal(j, !BitAt(i, j)), LiteralsFrom(i, j, inputs), LiteralsFrom(i, j + 1, inputs);
      assert forall l :: l in t <==> l == first || l in rest;
      assert TermHolds(t, k) <==> LiteralHolds(first, k) && TermHolds(rest, k);
      assert SameBits(i, k, j, inputs) <==> BitAt(k, j) == BitAt(i, j) && SameBits(i, k, j + 1, inputs);
    }
  }

  /** A minterm holds of its own assignment only. */
  lemma MintermIsOne(i: nat, inputs: nat, k: nat)
    requires i < Pow2(inputs) && k < Pow2(inputs)
    ensures TermHolds(LiteralsFrom(i, 0, inputs), k) <==> k == i
  {
    hide BitAt, Pow2, TermHolds;
    MintermLiterals(i, 0, inputs, k);
    if SameBits(i, k, 0, inputs) {
      BitsDetermine(k, i, inputs);
    }
  }

  lemma {:induction false} TermsSay(init: string, inputs: nat, i: nat, k: nat)
    requires i <= Pow2(inputs) <= |init| && k < Pow2(inputs)
    ensures SumHolds(TermsFrom(init, inputs, i), k) <==> k >= i && Entry(init, inputs, k)
    decreases Pow2(inputs) - i
  {
    hide Pow2, TermHolds, LiteralsFrom;
    if i < Pow2(inputs) {
      TermsSay(init, inputs, i + 1, k);
      MintermIsOne(i, inputs, k);
      var ts, rest, t := TermsFrom(init, inputs, i), TermsFrom(init, inputs, i + 1), LiteralsFrom(i, 0, inputs);
      assert forall x :: x in ts <==> (Entry(init, inputs, i) && x == t) || x in rest;
    }
  }

  /** Reading the printed text on the assignment `k` gives entry `k` of the table. */
  lemma TextMeansTable(init: string, inputs: nat, k: nat)
    requires inputs <= 5 && k < Pow2(inputs) <= |init|
    ensures var p := Parse(EqnText(init, inputs));
      p.Some? && (SumHolds(p.value, k) <==> Entry(init, inputs, k))
  {
    hide Pow2, Parse, EqnText, SumHolds, TermsFrom;
    ReadsBack(init, inputs);
    TermsSay(init, inputs, 0, k);
  }

  /** Bit `k` of INIT, whose text has its most significant bit first. */
  predicate InitBit(init: string, k: nat)
    requires k < |init|
  {
    init[|init| - 1 - k] == '1'
  }

  /** The text stands for INIT, whatever INIT is, exactly if INIT is no longer than the table. */
  lemma TextMeansInitIff(inputs: nat, length: nat)
    requires inputs <= 5 && Pow2(inputs) <= length
    ensures (forall init: string, k :: |init| == length && 0 <= k < Pow2(inputs) ==>
               (SumHolds(Terms(init, inputs), k) <==> InitBit(init, k)))
      <==> length == Pow2(inputs)
  {
    hide Pow2, Parse, EqnText, SumHolds;
    if length == Pow2(inputs) {
      forall init: string, k | |init| == length && 0 <= k < Pow2(inputs)
        ensures SumHolds(Terms(init, inputs), k) <==> InitBit(init, k)
      {
        TextMeansTable(init, inputs, k);
      }
    } else {
      var init: string := Repeat('0', length - 1) + "1";
      TextMeansTable(init, inputs, 0);
      assert InitBit(init, 0) && !Entry(init, inputs, 0);
      assert !(SumHolds(Terms(init, inputs), 0) <==> InitBit(init, 0));
    }
  }

  function Terms(init: string, inputs: nat): seq<Term>
    requires inputs <= 5 && Pow2(inputs) <= |init|
  {
    var p := Parse(EqnText(init, inputs));
    if p.Some? then p.value else []
  }

  predicate TwoValued(init: string) {
    forall i :: 0 <= i < |init| ==> init[i] == '0' || init[i] == '1'
  }

  /** Different tables have different texts. */
  lemma TextDeterminesInit(init: string, init': string, inputs: nat)
    requires inputs <= 5 && Pow2(inputs) == |init| == |init'| && TwoValued(init) && TwoValued(init')
    requires EqnText(init, inputs) == EqnText(init', inputs)
    ensures init == init'
  {
    hide Pow2, Parse, EqnText, SumHolds;
    var n := Pow2(inputs);
    forall i | 0 <= i < n ensures init[i] == init'[i] {
      var k := n - 1 - i;
      TextMeansTable(init, inputs, k);
      TextMeansTable(init', inputs, k);
      assert Entry(init, inputs, k) <==> Entry(init', inputs, k);
    }
  }
}
