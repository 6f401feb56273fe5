/** The relaxation loop of the outline, and when it ends. */
module OutlineLoop {
  import opened Optional
  import opened Outline

  /** Least depth among the first `n` symbols that may hold `i`. */
  function BestAmong(symbols: seq<Symbol>, d: seq<nat>, i: nat, n: nat): (best: Option<nat>)
    requires |d| == |symbols| && i < |symbols| && n <= |symbols|
    ensures best.None? <==> forall j :: 0 <= j < n ==> !MayHold(symbols, j, i)
    ensures best.Some? ==> exists j :: 0 <= j < n && MayHold(symbols, j, i) && d[j] == best.value
    ensures best.Some? ==> forall j :: 0 <= j < n && MayHold(symbols, j, i) ==> best.value <= d[j]
  {
    if n == 0 then None
    else
      var best := BestAmong(symbols, d, i, n - 1);
      if !MayHold(symbols, n - 1, i) then best
      else if best.None? || d[n - 1] < best.value then Some(d[n - 1])
      else best
  }

  /** One symbol's depth raised to one above its holder's, if it is not there yet. */
  function Relaxed(symbols: seq<Symbol>, d: seq<nat>, i: nat): (r: seq<nat>)
    requires |d| == |symbols| && i < |symbols|
    ensures |r| == |d|
    ensures r == d <==> Satisfied(symbols, d, i)
    ensures forall k :: 0 <= k < |d| ==> if k == i then d[k] <= r[k] else d[k] == r[k]
  {
    var best := BestAmong(symbols, d, i, |symbols|);
    if best.Some? && d[i] < best.value + 1 then
      assert d[i := best.value + 1][i] != d[i];
      d[i := best.value + 1]
    else d
  }

  /** The first `n` symbols relaxed in turn, each seeing what the ones before it became. */
  function Swept(symbols: seq<Symbol>, d: seq<nat>, n: nat): (r: seq<nat>)
    requires |d| == |symbols| && n <= |symbols|
    ensures |r| == |d| && forall k :: 0 <= k < |d| ==> d[k] <= r[k]
  {
    if n == 0 then d else Relaxed(symbols, Swept(symbols, d, n - 1), n - 1)
  }

  /** `k` whole sweeps from all zeroes. */
  function Sweeps(symbols: seq<Symbol>, k: nat): (r: seq<nat>)
    ensures |r| == |symbols|
  {
    if k == 0 then seq(|symbols|, _ => 0) else Swept(symbols, Sweeps(symbols, k - 1), |symbols|)
  }

  function Sum(d: seq<nat>): nat {
    if d == [] then 0 else d[0] + Sum(d[1..])
  }

  lemma {:induction false} SumGrows(a: seq<nat>, b: seq<nat>)
    requires |a| == |b| && forall k :: 0 <= k < |a| ==> a[k] <= b[k]
    ensures Sum(a) <= Sum(b) && (a != b ==> Sum(a) < Sum(b))
    decreases |a|
  {
    if a != [] {
      SumGrows(a[1..], b[1..]);
      assert a == [a[0]] + a[1..] && b == [b[0]] + b[1..];
    }
  }

  /** A sweep that moves nothing has found every inequality satisfied, and the other way round. */
  lemma {:induction false} SweepStandsStill(symbols: seq<Symbol>, d: seq<nat>, n: nat)
    requires |d| == |symbols| && n <= |symbols|
    ensures Swept(symbols, d, n) == d <==> forall i :: 0 <= i < n ==> Satisfied(symbols, d, i)
  {
    if n > 0 {
      SweepStandsStill(symbols, d, n - 1);
      var before := Swept(symbols, d, n - 1);
      if before != d {
        SumGrows(d, before);
        SumGrows(before, Swept(symbols, d, n));
      }
    }
  }

  ghost predicate Below(a: seq<nat>, b: seq<nat>) {
    |a| == |b| && forall k :: 0 <= k < |a| ==> a[k] <= b[k]
  }

  /** No relaxation overshoots a solution. */
  lemma RelaxStaysBelow(symbols: seq<Symbol>, d: seq<nat>, i: nat, solution: seq<nat>)
    requires Solution(symbols, solution) && Below(d, solution) && i < |symbols|
    ensures Below(Relaxed(symbols, d, i), solution)
  {
    assert Satisfied(symbols, solution, i);
    var best := BestAmong(symbols, d, i, |symbols|);
    if best.Some? {
      var j :| MayHold(symbols, j, i) && solution[j] < solution[i];
      assert best.value <= d[j] <= solution[j];
    }
  }

  lemma {:induction false} SweepStaysBelow(symbols: seq<Symbol>, d: seq<nat>, n: nat, solution: seq<nat>)
    requires Solution(symbols, solution) && Below(d, solution) && n <= |symbols|
    ensures Below(Swept(symbols, d, n), solution)
  {
    hide Satisfied, Relaxed;
    if n > 0 {
      SweepStaysBelow(symbols, d, n - 1, solution);
      RelaxStaysBelow(symbols, Swept(symbols, d, n - 1), n - 1, solution);
    }
  }

  lemma {:induction false} SweepsStayBelow(symbols: seq<Symbol>, k: nat, solution: seq<nat>)
    requires Solution(symbols, solution)
    ensures Below(Sweeps(symbols, k), solution)
  {
    if k > 0 {
      SweepsStayBelow(symbols, k - 1, solution);
      SweepStaysBelow(symbols, Sweeps(symbols, k - 1), |symbols|, solution);
    }
  }

  /** Sweep number `k + 1` moves nothing. */
  ghost predicate StillAt(symbols: seq<Symbol>, k: nat) {
    Swept(symbols, Sweeps(symbols, k), |symbols|) == Sweeps(symbols, k)
  }

  ghost predicate Ends(symbols: seq<Symbol>) {
    exists k: nat :: StillAt(symbols, k)
  }

  lemma OneMoreSweep(symbols: seq<Symbol>, k: nat)
    ensures !StillAt(symbols, k) ==> Sum(Sweeps(symbols, k)) < Sum(Sweeps(symbols, k + 1))
  {
    hide Sum;
    SumGrows(Sweeps(symbols, k), Sweeps(symbols, k + 1));
  }

  lemma {:induction false} EverySweepCosts(symbols: seq<Symbol>, k: nat)
    requires !Ends(symbols)
    ensures Sum(Sweeps(symbols, k)) >= k
  {
    hide Sweeps, Sum;
    if k > 0 {
      assert !StillAt(symbols, k - 1);
      EverySweepCosts(symbols, k - 1);
      OneMoreSweep(symbols, k - 1);
    }
  }

  lemma StandingStillSolves(symbols: seq<Symbol>, d: seq<nat>)
    requires |d| == |symbols|
    ensures Swept(symbols, d, |symbols|) == d <==> Solution(symbols, d)
  {
    hide Satisfied;
    SweepStandsStill(symbols, d, |symbols|);
  }

  lemma SettlingEnds(symbols: seq<Symbol>)
    requires Settles(symbols)
    ensures Ends(symbols)
  {
    hide Settles, Sweeps, Sum, Solution;
    if !Ends(symbols) {
      DepthsAreASolution(symbols);
      var bound := Sum(Depths(symbols)) + 1;
      SweepsStayBelow(symbols, bound, Depths(symbols));
      SumGrows(Sweeps(symbols, bound), Depths(symbols));
      EverySweepCosts(symbols, bound);
    }
  }

  /** The loop ends if and only if every symbol is grounded; symbols that only hold one another keep it going forever. */
  lemma EndsIffSettles(symbols: seq<Symbol>)
    ensures Ends(symbols) <==> Settles(symbols)
  {
    hide Settles, Sweeps, Solution;
    SolvableIffSettles(symbols);
    if k: nat :| StillAt(symbols, k) {
      StandingStillSolves(symbols, Sweeps(symbols, k));
    }
    if Settles(symbols) {
      SettlingEnds(symbols);
    }
  }

  /** Two declarations, each named as the other's parent: the loop never ends. */
  lemma MutualParentsNeverEnd()
    ensures !Ends([Symbol("a", Some("b")), Symbol("b", Some("a"))])
  {
    var symbols := [Symbol("a", Some("b")), Symbol("b", Some("a"))];
    EndsIffSettles(symbols);
    assert MayHold(symbols, 1, 0) && MayHold(symbols, 0, 1);
    assert !Grounded(symbols, 0, 0) && !Grounded(symbols, 1, 0);
    assert !Grounded(symbols, 0, 1) && !Grounded(symbols, 1, 1);
    assert !Grounded(symbols, 0, 2);
  }

  /** Depths only rise, so a pass has changed something exactly when its end differs from its start. */
  lemma RisesStay(a: seq<nat>, b: seq<nat>, c: seq<nat>)
    requires Below(a, b) && Below(b, c)
    ensures Below(a, c) && (a != c <==> a != b || b != c)
  {
    if b != c {
      var k :| 0 <= k < |b| && b[k] != c[k];
      assert a[k] < c[k];
    } else if a != b {
      assert a != c;
    }
  }

  /** One pass over the symbols, in place. */
  method Sweep(symbols: seq<Symbol>, depths: array<nat>) returns (changed: bool)
    requires depths.Length == |symbols|
    modifies depths
    ensures depths[..] == Swept(symbols, old(depths[..]), |symbols|)
    ensures changed <==> depths[..] != old(depths[..])
  {
    hide MayHold, Satisfied, Relaxed;
    changed := false;
    ghost var was := depths[..];
    for index := 0 to |symbols|
      invariant depths[..] == Swept(symbols, was, index)
      invariant changed <==> depths[..] != was
    {
      ghost var before := depths[..];
      var moved := RelaxOne(symbols, depths, index);
      RisesStay(was, before, depths[..]);
      changed := changed || moved;
    }
  }

  /** One symbol, in place. */
  method RelaxOne(symbols: seq<Symbol>, depths: array<nat>, index: nat) returns (moved: bool)
    requires depths.Length == |symbols| && index < |symbols|
    modifies depths
    ensures depths[..] == Relaxed(symbols, old(depths[..]), index) && Below(old(depths[..]), depths[..])
    ensures moved <==> depths[..] != old(depths[..])
  {
    hide MayHold, Satisfied;
    ghost var before := depths[..];
    moved := false;
    if symbols[index].parent.Some? {
      var best := Best(symbols, depths, index);
      if best.Some? && depths[index] < best.value + 1 {
        depths[index] := best.value + 1;
        moved := true;
        assert depths[..] == before[index := best.value + 1];
        assert depths[..][index] != before[index];
      }
    } else {
      NoParentNoHolder(symbols, before, index);
    }
  }

  lemma NoParentNoHolder(symbols: seq<Symbol>, d: seq<nat>, i: nat)
    requires |d| == |symbols| && i < |symbols| && symbols[i].parent.None?
    ensures BestAmong(symbols, d, i, |symbols|).None?
  {
  }

  method Best(symbols: seq<Symbol>, depths: array<nat>, index: nat) returns (best: Option<nat>)
    requires depths.Length == |symbols| && index < |symbols| && symbols[index].parent.Some?
    ensures best == BestAmong(symbols, depths[..], index, |symbols|)
  {
    best := None;
    for other := 0 to |symbols|
      invariant best == BestAmong(symbols, depths[..], index, other)
    {
      if other != index && symbols[other].name == symbols[index].parent.value {
        best := if best.None? || depths[other] < best.value then Some(depths[other]) else best;
      }
    }
  }

  /** Each declaration with its depth: the length of its shortest chain of parents within the file. */
  method OutlineOf(symbols: seq<Symbol>) returns (entries: seq<Entry>)
    requires Settles(symbols)
    ensures |entries| == |symbols|
    ensures forall i :: 0 <= i < |entries| ==> entries[i] == Entry(symbols[i], Depth(symbols, i))
  {
    hide Settles, Solution, Satisfied;
    var depths := new nat[|symbols|](_ => 0);
    ghost var limit := Depths(symbols);
    DepthsAreASolution(symbols);
    var changed := true;
    while changed
      invariant Below(depths[..], limit)
      invariant !changed ==> Swept(symbols, depths[..], |symbols|) == depths[..]
      decreases Sum(limit) - Sum(depths[..]), changed
    {
      ghost var before := depths[..];
      SweepStaysBelow(symbols, before, |symbols|, limit);
      changed := Sweep(symbols, depths);
      SumGrows(before, depths[..]);
      SumGrows(depths[..], limit);
    }
    ghost var final := depths[..];
    StandingStillIsLeast(symbols, final, limit);
    entries := seq(|symbols|, i requires 0 <= i < |symbols| reads depths => Entry(symbols[i], depths[i]));
  }

  lemma StandingStillIsLeast(symbols: seq<Symbol>, d: seq<nat>, limit: seq<nat>)
    requires Settles(symbols) && limit == Depths(symbols)
    requires Below(d, limit) && Swept(symbols, d, |symbols|) == d
    ensures d == limit
  {
    hide Settles, Satisfied;
    StandingStillSolves(symbols, d);
    forall i: nat | i < |symbols| ensures d[i] == limit[i] {
      DepthsAreLeast(symbols, d, i);
    }
  }
}
