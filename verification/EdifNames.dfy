/** The names the EDIF backend gives to identifiers. */
module EdifNames {

  // ---- id%05d --------------------------------------------------------------------------

  function Digit(d: nat): (c: char)
    requires d < 10
    ensures '0' <= c <= '9' && (c as int) - ('0' as int) == d
  {
    ('0' as int + d) as char
  }

  function Decimal(n: nat): (s: string)
    ensures |s| > 0
  {
    if n < 10 then [Digit(n)] else Decimal(n / 10) + [Digit(n % 10)]
  }

  function Padded(s: string): (p: string)
    decreases 5 - |s|
    ensures |p| >= |s|
  {
    if |s| >= 5 then s else Padded(['0'] + s)
  }

  function GenName(n: nat): string {
    "id" + Padded(Decimal(n))
  }

  /** What a string of digits stands for. */
  function Parsed(s: string): int {
    if s == [] then 0 else Parsed(s[..|s| - 1]) * 10 + (s[|s| - 1] as int - '0' as int)
  }

  lemma {:induction false} ParsedDecimal(n: nat)
    ensures Parsed(Decimal(n)) == n
  {
    var s := Decimal(n);
    if n >= 10 {
      ParsedDecimal(n / 10);
      assert s[..|s| - 1] == Decimal(n / 10);
    } else {
      assert s[..0] == [];
    }
  }

  lemma {:induction false} ParsedZero(s: string)
    ensures Parsed(['0'] + s) == Parsed(s)
  {
    if s == [] {
      assert (['0'] + s)[..0] == [];
    } else {
      ParsedZero(s[..|s| - 1]);
      assert (['0'] + s)[..|s|] == ['0'] + s[..|s| - 1];
    }
  }

  lemma {:induction false} ParsedPadded(s: string)
    ensures Parsed(Padded(s)) == Parsed(s)
    decreases 5 - |s|
  {
    if |s| < 5 {
      ParsedZero(s);
      ParsedPadded(['0'] + s);
    }
  }

  /** Padded decimal printing tells all counters apart. */
  lemma GenNameInjective(m: nat, n: nat)
    requires GenName(m) == GenName(n)
    ensures m == n
  {
    hide Padded, Decimal, Parsed;
    ParsedDecimal(m);
    ParsedDecimal(n);
    ParsedPadded(Decimal(m));
    ParsedPadded(Decimal(n));
    assert GenName(m)[2..] == Padded(Decimal(m)) && GenName(n)[2..] == Padded(Decimal(n));
  }

  lemma {:induction false} DecimalTop(n: nat)
    ensures n >= 10 ==> Decimal(n)[0] != '0'
  {
    if n >= 10 {
      assert Decimal(n)[0] == Decimal(n / 10)[0];
      DecimalTop(n / 10);
    }
  }

  lemma {:induction false} PaddedTop(s: string)
    ensures |Padded(s)| >= 5 && (|s| > 5 || |Padded(s)| > 5 ==> Padded(s) == s)
    decreases 5 - |s|
  {
    if |s| < 5 { PaddedTop(['0'] + s); }
  }

  /** `id` and the counter in at least five digits, with no zero on top of more. */
  lemma GenNameShape(n: nat)
    ensures var s := GenName(n);
      |s| >= 7 && s[0] == 'i' && s[1] == 'd' && AllDigits(s[2..]) && Parsed(s[2..]) == n && (|s| > 7 ==> s[2] != '0')
  {
    hide Padded, Decimal, Parsed;
    var d := Decimal(n);
    assert GenName(n)[2..] == Padded(d);
    DecimalDigits(n);
    PaddedDigits(d);
    ParsedDecimal(n);
    ParsedPadded(d);
    PaddedTop(d);
    DecimalTop(n);
    if |d| > 5 { ShortDecimal(n); }
  }

  lemma ShortDecimal(n: nat)
    requires |Decimal(n)| > 5
    ensures n >= 10
  {
  }

  // ---- Names that are kept -----------------------------------------------------------------

  predicate OkAt(id: string, i: nat)
    requires i < |id|
  {
    || 'A' <= id[i] <= 'Z' || 'a' <= id[i] <= 'z'
    || ('0' <= id[i] <= '9' && i > 0)
    || (id[i] == '_' && i > 0 && i != |id| - 1)
  }

  /** Letters, digits after the first place, and underscores inside; not a name EDIF writers use for power and ground. */
  predicate IsLegal(id: string) {
    id != "GND" && id != "VCC" && forall i :: 0 <= i < |id| ==> OkAt(id, i)
  }

  predicate AllDigits(s: string) {
    forall i :: 0 <= i < |s| ==> '0' <= s[i] <= '9'
  }

  lemma {:induction false} DecimalDigits(n: nat)
    ensures AllDigits(Decimal(n))
  {
    if n >= 10 { DecimalDigits(n / 10); }
  }

  lemma {:induction false} PaddedDigits(s: string)
    requires AllDigits(s)
    ensures AllDigits(Padded(s))
    decreases 5 - |s|
  {
    if |s| < 5 { PaddedDigits(['0'] + s); }
  }

  lemma GenNameLegal(n: nat)
    ensures IsLegal(GenName(n))
  {
    hide Padded, Decimal;
    DecimalDigits(n);
    PaddedDigits(Decimal(n));
    var id := GenName(n);
    assert id[0] == 'i' && id[1] == 'd';
    forall i | 0 <= i < |id| ensures OkAt(id, i) {
      if i >= 2 { assert id[i] == Padded(Decimal(n))[i - 2]; }
    }
  }

  // ---- The names so far --------------------------------------------------------------------

  /** Taken names that the counter has not passed yet. */
  ghost function Ahead(taken: set<string>, counter: nat): set<string> {
    set s | s in taken && forall n: nat :: n < counter ==> GenName(n) != s
  }

  lemma AheadShrinks(taken: set<string>, counter: nat)
    requires GenName(counter) in taken
    ensures |Ahead(taken, counter + 1)| < |Ahead(taken, counter)|
  {
    hide GenName;
    var a, b := Ahead(taken, counter + 1), Ahead(taken, counter);
    forall n: nat | n < counter ensures GenName(n) != GenName(counter) {
      if GenName(n) == GenName(counter) { GenNameInjective(n, counter); }
    }
    assert GenName(counter) in b && GenName(counter) !in a;
    assert a <= b - {GenName(counter)};
    Fewer(a, b - {GenName(counter)});
  }

  lemma {:induction false} Fewer(a: set<string>, b: set<string>)
    requires a <= b
    ensures |a| <= |b|
  {
    assert b == a + (b - a);
  }

  class EdifNames {
    var counter: nat
    var generated: set<string>
    var used: set<string>
    var nameMap: map<string, string>

    /** Kept names are legal, generated ones lie behind the counter, and no two identifiers share a name. */
    ghost predicate Valid()
      reads this
    {
      && used !! generated && used !! nameMap.Keys
      && (forall id :: id in nameMap ==> nameMap[id] in generated)
      && (forall id, id' :: id in nameMap && id' in nameMap && nameMap[id] == nameMap[id'] ==> id == id')
      && (forall id :: id in used ==> IsLegal(id))
      && (forall g :: g in generated ==> exists n: nat :: n < counter && GenName(n) == g)
    }

    /** The name an identifier has been given. */
    ghost predicate Named(id: string, name: string)
      reads this
    {
      if id in nameMap then nameMap[id] == name else id in used && name == id
    }

    constructor ()
      ensures Valid() && forall id, name :: !Named(id, name)
    {
      counter, generated, used, nameMap := 1, {}, {}, map[];
    }

    method IsKeepable(id: string) returns (ok: bool)
      ensures ok <==> IsLegal(id)
    {
      if id == "GND" || id == "VCC" {
        return false;
      }
      for i := 0 to |id|
        invariant forall j :: 0 <= j < i ==> OkAt(id, j)
      {
        if !OkAt(id, i) {
          return false;
        }
      }
      return true;
    }

    method FreshName() returns (name: string)
      requires Valid()
      modifies `counter
      ensures name !in generated && name !in used && old(counter) < counter
      ensures exists n: nat :: n < counter && GenName(n) == name
    {
      hide GenName;
      var n := counter;
      while true
        decreases |Ahead(generated + used, n)|
        invariant n >= counter == old(counter)
      {
        name := GenName(n);
        n := n + 1;
        if name !in generated && name !in used {
          break;
        }
        AheadShrinks(generated + used, n - 1);
      }
      counter := n;
    }

    /** The same identifier keeps its name; a new one gets a name nobody has. */
    method Name(id: string) returns (name: string)
      requires Valid()
      modifies this
      ensures Valid() && Named(id, name) && IsLegal(name)
      ensures forall x, y :: old(Named(x, y)) ==> Named(x, y)
      ensures forall x, y :: Named(x, y) ==> old(Named(x, y)) || (x, y) == (id, name)
      ensures id !in old(nameMap) ==> (name == id <==> IsLegal(id) && id !in old(generated))
    {
      hide GenName, IsLegal;
      if id in nameMap {
        name := nameMap[id];
        var n: nat :| GenName(n) == name;
        GenNameLegal(n);
        return;
      }
      if id !in generated {
        var keep := IsKeepable(id);
        if keep {
          used := used + {id};
          return id;
        }
      }
      name := FreshName();
      generated := generated + {name};
      nameMap := nameMap[id := name];
      var n: nat :| GenName(n) == name;
      GenNameLegal(n);
    }

    /** Over any sequence of calls: one name per identifier, and no name twice. */
    method NameAll(ids: seq<string>) returns (names: seq<string>)
      requires Valid()
      modifies this
      ensures Valid() && |names| == |ids|
      ensures forall i :: 0 <= i < |ids| ==> IsLegal(names[i])
      ensures forall i, j :: 0 <= i < |ids| && 0 <= j < |ids| ==> (names[i] == names[j] <==> ids[i] == ids[j])
    {
      hide GenName, IsLegal;
      names := [];
      for i := 0 to |ids|
        invariant Valid() && |names| == i
        invariant forall j :: 0 <= j < i ==> Named(ids[j], names[j]) && IsLegal(names[j])
      {
        var name := Name(ids[i]);
        names := names + [name];
      }
      forall i, j | 0 <= i < |ids| && 0 <= j < |ids| ensures names[i] == names[j] <==> ids[i] == ids[j] {
        NamesApart(ids[i], ids[j], names[i], names[j]);
      }
    }

    lemma NamesApart(x: string, y: string, nameX: string, nameY: string)
      requires Valid() && Named(x, nameX) && Named(y, nameY)
      ensures nameX == nameY <==> x == y
    {
    }
  }
}
