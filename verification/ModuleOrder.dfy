/** The order in which the EDIF backend writes modules: every module after the ones it instantiates. */
module ModuleOrder {
  import opened Bits

  /** The design's modules, and for each the design modules it instantiates. */
  type Deps = map<nat, set<nat>>

  predicate Within(deps: Deps) {
    forall m :: m in deps ==> deps[m] <= deps.Keys
  }

  /** From the module at `i` to one it instantiates. */
  predicate Step(deps: Deps, p: seq<nat>, i: nat) {
    i + 1 < |p| && p[i] in deps && p[i + 1] in deps[p[i]]
  }

  predicate IsPath(deps: Deps, p: seq<nat>) {
    && (forall i :: 0 <= i < |p| ==> p[i] in deps)
    && forall i :: 0 <= i < |p| - 1 ==> Step(deps, p, i)
  }

  lemma SubPath(deps: Deps, p: seq<nat>, i: nat, j: nat)
    requires IsPath(deps, p) && i <= j <= |p|
    ensures IsPath(deps, p[i..j])
  {
    var q := p[i..j];
    forall k | 0 <= k < |q| - 1 ensures Step(deps, q, k) {
      assert Step(deps, p, i + k);
    }
  }

  ghost predicate HasCycle(deps: Deps) {
    exists p :: IsPath(deps, p) && |p| >= 2 && p[0] == p[|p| - 1]
  }

  predicate NoRepeats(s: seq<nat>) {
    forall i, j :: 0 <= i < j < |s| ==> s[i] != s[j]
  }

  /** All of the modules once each, dependencies first. */
  ghost predicate IsOrder(deps: Deps, s: seq<nat>) {
    && NoRepeats(s) && (forall m :: m in s <==> m in deps)
    && forall i, d :: 0 <= i < |s| && d in deps[s[i]] ==> d in s[..i]
  }

  function Elems(s: seq<nat>): set<nat> {
    set m | m in s
  }

  /** What the rounds so far have sorted. */
  ghost predicate Sorted(deps: Deps, s: seq<nat>, rest: Deps) {
    && NoRepeats(s) && Elems(s) + rest.Keys == deps.Keys && Elems(s) !! rest.Keys
    && (forall m :: m in rest ==> rest[m] == deps[m])
    && forall i, d :: 0 <= i < |s| && d in deps[s[i]] ==> d in s[..i]
  }

  predicate IsReady(rest: Deps, m: nat)
    requires m in rest
  {
    rest[m] !! rest.Keys
  }

  /** One round: the modules that wait for nothing left at its start. */
  method Round(rest: Deps, s: seq<nat>, ghost deps: Deps) returns (more: seq<nat>)
    requires Within(deps) && Sorted(deps, s, rest)
    ensures NoRepeats(more) && forall m :: m in more <==> m in rest && IsReady(rest, m)
  {
    more := [];
    var todo := rest.Keys;
    while todo != {}
      invariant todo <= rest.Keys && NoRepeats(more)
      invariant forall m :: m in more <==> m in rest && m !in todo && IsReady(rest, m)
      decreases |todo|
    {
      var m :| m in todo;
      todo := todo - {m};
      if IsReady(rest, m) {
        more := more + [m];
      }
    }
  }

  lemma RoundSorts(deps: Deps, s: seq<nat>, rest: Deps, more: seq<nat>)
    requires Within(deps) && Sorted(deps, s, rest) && NoRepeats(more)
    requires forall m :: m in more <==> m in rest && IsReady(rest, m)
    ensures Sorted(deps, s + more, rest - Elems(more))
  {
    var s' := s + more;
    forall i, d | 0 <= i < |s'| && d in deps[s'[i]] ensures d in s'[..i] {
      if i < |s| {
        assert s'[..i] == s[..i];
      } else {
        assert s'[i] in more;
        assert d in Elems(s);
        assert d in s && s'[..i] == s + more[..i - |s|];
      }
    }
    assert forall i, j :: 0 <= i < |s| && 0 <= j < |more| ==> s[i] in Elems(s) && more[j] in rest;
    assert Elems(s') == Elems(s) + Elems(more);
  }

  /** The rounds end, and fail exactly when the instantiations have a cycle. */
  method SortModules(deps: Deps) returns (r: Option<seq<nat>>)
    requires Within(deps)
    ensures r.Some? ==> IsOrder(deps, r.value)
    ensures r.None? <==> HasCycle(deps)
  {
    hide Sorted, HasCycle, IsReady, NoRepeats, IsOrder, Within;
    var s, rest := [], deps;
    NothingSorted(deps);
    while rest.Keys != {}
      invariant Sorted(deps, s, rest)
      decreases |rest.Keys|
    {
      var more := Round(rest, s, deps);
      if more == [] {
        StuckHasCycle(deps, s, rest);
        return None;
      }
      RoundSorts(deps, s, rest, more);
      assert more[0] in Elems(more) && more[0] in rest.Keys;
      Shrinks(rest, Elems(more), more[0]);
      s, rest := s + more, rest - Elems(more);
    }
    AllSorted(deps, s, rest);
    OrderHasNoCycle(deps, s);
    return Some(s);
  }

  lemma NothingSorted(deps: Deps)
    ensures Sorted(deps, [], deps)
  {
  }

  lemma Shrinks(rest: Deps, gone: set<nat>, m: nat)
    requires m in rest && m in gone
    ensures |(rest - gone).Keys| < |rest.Keys|
  {
    assert (rest - gone).Keys == rest.Keys - gone;
    assert rest.Keys == (rest.Keys - gone) + (rest.Keys * gone);
    assert m in rest.Keys * gone;
  }

  lemma AllSorted(deps: Deps, s: seq<nat>, rest: Deps)
    requires Sorted(deps, s, rest) && rest.Keys == {}
    ensures IsOrder(deps, s)
  {
    forall m ensures m in s <==> m in deps {
      assert m in s <==> m in Elems(s);
    }
  }

  lemma {:induction false} Earlier(deps: Deps, s: seq<nat>, p: seq<nat>, i: nat, k: nat)
    requires IsOrder(deps, s) && IsPath(deps, p) && 0 < k < |p| && i < |s| && s[i] == p[0]
    ensures exists j :: 0 <= j < i && s[j] == p[k]
  {
    assert Step(deps, p, 0);
    var j :| 0 <= j < |s[..i]| && s[..i][j] == p[1];
    if k > 1 {
      var rest := p[1..];
      SubPath(deps, p, 1, |p|);
      assert rest == p[1..|p|];
      Earlier(deps, s, rest, j, k - 1);
    }
  }

  lemma OrderHasNoCycle(deps: Deps, s: seq<nat>)
    requires IsOrder(deps, s)
    ensures !HasCycle(deps)
  {
    forall p | IsPath(deps, p) && |p| >= 2 ensures p[0] != p[|p| - 1] {
      assert p[0] in s;
      var i :| 0 <= i < |s| && s[i] == p[0];
      Earlier(deps, s, p, i, |p| - 1);
    }
  }

  // ---- No progress means a cycle ----------------------------------------------------------

  /** With every module waiting for another, a path can be made as long as one likes. */
  lemma {:induction false} LongPath(deps: Deps, left: set<nat>, m: nat, n: nat) returns (p: seq<nat>)
    requires left <= deps.Keys && m in left && forall x :: x in left ==> deps[x] * left != {}
    ensures IsPath(deps, p) && |p| == n + 1 && p[0] == m && forall i :: 0 <= i < |p| ==> p[i] in left
    decreases n
  {
    if n == 0 {
      p := [m];
    } else {
      var d :| d in deps[m] * left;
      var rest := LongPath(deps, left, d, n - 1);
      p := [m] + rest;
      forall i | 0 <= i < |p| - 1 ensures Step(deps, p, i) {
        if i > 0 { assert Step(deps, rest, i - 1); }
      }
    }
  }

  lemma {:induction false} Pigeonhole(p: seq<nat>, s: set<nat>) returns (i: nat, j: nat)
    requires (forall k :: 0 <= k < |p| ==> p[k] in s) && |p| > |s|
    ensures i < j < |p| && p[i] == p[j]
  {
    var n := |p| - 1;
    if k :| 0 <= k < n && p[k] == p[n] {
      i, j := k, n;
    } else {
      i, j := Pigeonhole(p[..n], s - {p[n]});
    }
  }

  lemma StuckHasCycle(deps: Deps, s: seq<nat>, rest: Deps)
    requires Sorted(deps, s, rest) && rest.Keys != {} && forall m :: m in rest ==> !IsReady(rest, m)
    ensures HasCycle(deps)
  {
    EachWaits(deps, s, rest);
    hide Sorted, IsPath, IsReady;
    WaitingCycle(deps, rest.Keys);
  }

  lemma EachWaits(deps: Deps, s: seq<nat>, rest: Deps)
    requires Sorted(deps, s, rest) && forall m :: m in rest ==> !IsReady(rest, m)
    ensures rest.Keys <= deps.Keys && forall x :: x in rest.Keys ==> deps[x] * rest.Keys != {}
  {
    forall x | x in rest ensures deps[x] * rest.Keys != {} {
      assert !IsReady(rest, x) && rest[x] == deps[x];
      var d :| d in rest[x] && d in rest.Keys;
      assert d in deps[x] * rest.Keys;
    }
  }

  lemma WaitingCycle(deps: Deps, left: set<nat>)
    requires left <= deps.Keys && left != {} && forall x :: x in left ==> deps[x] * left != {}
    ensures HasCycle(deps)
  {
    hide IsPath;
    var m :| m in left;
    var p := LongPath(deps, left, m, |left|);
    var i, j := Pigeonhole(p, left);
    SubPath(deps, p, i, j + 1);
    var cycle := p[i..j + 1];
    assert cycle[0] == cycle[|cycle| - 1];
  }
}
