/** The outline of one file: nesting depths by parent name, relaxed until nothing moves. */
module Outline {
  import opened Optional

  datatype Symbol = Symbol(name: string, parent: Option<string>)

  datatype Entry = Entry(symbol: Symbol, depth: nat)

  /** `j` is another symbol with the name that `i` gives as its parent. */
  predicate MayHold(symbols: seq<Symbol>, j: int, i: nat)
    requires i < |symbols|
  {
    0 <= j < |symbols| && j != i && symbols[i].parent == Some(symbols[j].name)
  }

  // ----- what the loop should reach -----

  /** At most `n` steps from symbol to named parent lead from `i` to one whose parent names nothing here. */
  predicate Grounded(symbols: seq<Symbol>, i: nat, n: nat)
    requires i < |symbols|
    decreases n
  {
    || (forall j :: 0 <= j < |symbols| ==> !MayHold(symbols, j, i))
    || (n > 0 && exists j :: 0 <= j < |symbols| && MayHold(symbols, j, i) && Grounded(symbols, j, n - 1))
  }

  /** Every symbol is nested finitely deep: no group of symbols is held only by its own members. */
  predicate Settles(symbols: seq<Symbol>) {
    forall i :: 0 <= i < |symbols| ==> Grounded(symbols, i, |symbols|)
  }

  /** Each depth is more than the least among the symbols that may hold it. */
  ghost predicate Satisfied(symbols: seq<Symbol>, d: seq<nat>, i: nat)
    requires |d| == |symbols| && i < |symbols|
  {
    (forall j :: 0 <= j < |symbols| ==> !MayHold(symbols, j, i)) || exists j :: MayHold(symbols, j, i) && d[j] < d[i]
  }

  ghost predicate Solution(symbols: seq<Symbol>, d: seq<nat>) {
    |d| == |symbols| && forall i :: 0 <= i < |symbols| ==> Satisfied(symbols, d, i)
  }

  lemma {:induction false} GroundedLonger(symbols: seq<Symbol>, i: nat, n: nat, m: nat)
    requires i < |symbols| && Grounded(symbols, i, n) && n <= m
    ensures Grounded(symbols, i, m)
    decreases n
  {
    if j :| 0 <= j < |symbols| && MayHold(symbols, j, i) && n > 0 && Grounded(symbols, j, n - 1) {
      GroundedLonger(symbols, j, n - 1, m - 1);
    }
  }

  /** A finite assignment bounds the chain of every symbol. */
  lemma {:induction false} SolutionGrounds(symbols: seq<Symbol>, d: seq<nat>, i: nat)
    requires Solution(symbols, d) && i < |symbols|
    ensures Grounded(symbols, i, d[i])
    decreases d[i]
  {
    assert Satisfied(symbols, d, i);
    if j :| MayHold(symbols, j, i) && d[j] < d[i] {
      SolutionGrounds(symbols, d, j);
      GroundedLonger(symbols, j, d[j], d[i] - 1);
    }
  }

  // ----- chains longer than the file add nothing -----

  ghost function Ground(symbols: seq<Symbol>, n: nat): (g: set<nat>)
    ensures forall i: nat :: i in g <==> i < |symbols| && Grounded(symbols, i, n)
  {
    set i: nat | i < |symbols| && Grounded(symbols, i, n)
  }

  lemma GroundGrows(symbols: seq<Symbol>, n: nat)
    ensures Ground(symbols, n) <= Ground(symbols, n + 1)
  {
    forall i: nat | i in Ground(symbols, n) ensures i in Ground(symbols, n + 1) {
      GroundedLonger(symbols, i, n, n + 1);
    }
  }

  lemma StaysStable(symbols: seq<Symbol>, n: nat)
    requires Ground(symbols, n) == Ground(symbols, n + 1)
    ensures Ground(symbols, n + 1) == Ground(symbols, n + 2)
  {
    GroundGrows(symbols, n + 1);
    var (g, next) := (Ground(symbols, n + 1), Ground(symbols, n + 2));
    forall i | i in next ensures i in g {
      if j :| 0 <= j < |symbols| && MayHold(symbols, j, i) && Grounded(symbols, j, n + 1) {
        assert j in Ground(symbols, n);
        assert Grounded(symbols, i, n + 1);
      }
    }
  }

  lemma SmallerThanFile(g: set<nat>, n: nat)
    requires forall i :: i in g ==> i < n
    ensures |g| <= n
  {
    if n == 0 {
      assert g == {};
    } else {
      SmallerThanFile(g - {n - 1}, n - 1);
    }
  }

  lemma StrictlyMore(a: set<nat>, b: set<nat>)
    requires a < b
    ensures |a| < |b|
  {
    var x :| x in b && x !in a;
    SubsetIsNoLarger(a, b - {x});
  }

  lemma {:induction false} SubsetIsNoLarger(a: set<nat>, b: set<nat>)
    requires a <= b
    ensures |a| <= |b|
  {
    if x :| x in a {
      SubsetIsNoLarger(a - {x}, b - {x});
    }
  }

  lemma NothingNew(symbols: seq<Symbol>, i: nat, n: nat)
    requires i < |symbols| && forall j: nat :: j < |symbols| ==> !Grounded(symbols, j, n)
    ensures !Grounded(symbols, i, n + 1)
  {
    assert !Grounded(symbols, i, n);
  }

  /** Each round of chains grounds one more symbol, until a round grounds none. */
  lemma {:induction false} GrowsOrStops(symbols: seq<Symbol>, n: nat)
    ensures Ground(symbols, n) == Ground(symbols, n + 1) || |Ground(symbols, n)| > n
  {
    GroundGrows(symbols, n);
    if n == 0 {
      if Ground(symbols, 0) == {} {
        var none := Ground(symbols, 0);
        assert forall j: nat :: j < |symbols| ==> !Grounded(symbols, j, 0) || j in none;
        forall i: nat | i < |symbols| ensures !Grounded(symbols, i, 1) {
          NothingNew(symbols, i, 0);
        }
      }
    } else {
      GrowsOrStops(symbols, n - 1);
      GroundGrows(symbols, n - 1);
      if Ground(symbols, n - 1) == Ground(symbols, n) {
        StaysStable(symbols, n - 1);
      } else {
        StrictlyMore(Ground(symbols, n - 1), Ground(symbols, n));
      }
    }
  }

  lemma {:induction false} StableFromFileSize(symbols: seq<Symbol>, n: nat)
    requires n >= |symbols|
    ensures Ground(symbols, n) == Ground(symbols, |symbols|)
    decreases n
  {
    GrowsOrStops(symbols, n);
    SmallerThanFile(Ground(symbols, n), |symbols|);
    if n > |symbols| {
      GrowsOrStops(symbols, n - 1);
      SmallerThanFile(Ground(symbols, n - 1), |symbols|);
      StableFromFileSize(symbols, n - 1);
    }
  }

  /** Some finite assignment satisfies the inequalities exactly when no chain is longer than the file. */
  lemma ShortChainsSuffice(symbols: seq<Symbol>, i: nat, n: nat)
    requires i < |symbols| && Grounded(symbols, i, n)
    ensures Grounded(symbols, i, |symbols|)
  {
    if n <= |symbols| {
      GroundedLonger(symbols, i, n, |symbols|);
    } else {
      StableFromFileSize(symbols, n);
      assert i in Ground(symbols, n);
    }
  }

  // ----- the least solution -----

  /** Length of the shortest chain. */
  ghost function Depth(symbols: seq<Symbol>, i: nat): (d: nat)
    requires i < |symbols| && Settles(symbols)
    ensures Grounded(symbols, i, d) && d <= |symbols| && forall n: nat :: n < d ==> !Grounded(symbols, i, n)
  {
    Shortest(symbols, i, |symbols|)
  }

  ghost function Shortest(symbols: seq<Symbol>, i: nat, n: nat): (d: nat)
    requires i < |symbols| && Grounded(symbols, i, n)
    ensures d <= n && Grounded(symbols, i, d) && forall m: nat :: m < d ==> !Grounded(symbols, i, m)
    decreases n
  {
    if n > 0 && Grounded(symbols, i, n - 1) then Shortest(symbols, i, n - 1)
    else
      assert forall m: nat :: m < n ==> !Grounded(symbols, i, m) by {
        forall m: nat | m < n ensures !Grounded(symbols, i, m) {
          if Grounded(symbols, i, m) {
            GroundedLonger(symbols, i, m, n - 1);
          }
        }
      }
      n
  }

  ghost function Depths(symbols: seq<Symbol>): (d: seq<nat>)
    requires Settles(symbols)
    ensures |d| == |symbols| && forall i :: 0 <= i < |d| ==> d[i] == Depth(symbols, i)
  {
    seq(|symbols|, i requires 0 <= i < |symbols| => Depth(symbols, i))
  }

  /** Depth is one more than the least depth among the symbols that may hold this one, and zero when there is none. */
  lemma DepthEquation(symbols: seq<Symbol>, i: nat)
    requires Settles(symbols) && i < |symbols|
    ensures Depth(symbols, i) == 0 <==> forall j :: 0 <= j < |symbols| ==> !MayHold(symbols, j, i)
    ensures Depth(symbols, i) > 0 ==> exists j :: MayHold(symbols, j, i) && Depth(symbols, i) == Depth(symbols, j) + 1
    ensures forall j :: MayHold(symbols, j, i) ==> Depth(symbols, i) <= Depth(symbols, j) + 1
  {
    var d := Depth(symbols, i);
    assert Grounded(symbols, i, d);
    forall j | MayHold(symbols, j, i) ensures d <= Depth(symbols, j) + 1 {
      assert Grounded(symbols, i, Depth(symbols, j) + 1);
    }
    if d > 0 {
      assert !Grounded(symbols, i, 0);
      var j :| 0 <= j < |symbols| && MayHold(symbols, j, i) && Grounded(symbols, j, d - 1);
      assert Depth(symbols, j) <= d - 1;
    }
  }

  lemma DepthsAreASolution(symbols: seq<Symbol>)
    requires Settles(symbols)
    ensures Solution(symbols, Depths(symbols))
  {
    forall i: nat | i < |symbols| ensures Satisfied(symbols, Depths(symbols), i) {
      DepthEquation(symbols, i);
    }
  }

  /** No finite assignment that satisfies the inequalities is anywhere below the depths. */
  lemma DepthsAreLeast(symbols: seq<Symbol>, d: seq<nat>, i: nat)
    requires Settles(symbols) && Solution(symbols, d) && i < |symbols|
    ensures Depth(symbols, i) <= d[i]
  {
    SolutionGrounds(symbols, d, i);
  }

  /** Some finite assignment satisfies the inequalities if and only if every symbol is grounded. */
  lemma SolvableIffSettles(symbols: seq<Symbol>)
    ensures (exists d :: Solution(symbols, d)) <==> Settles(symbols)
  {
    if Settles(symbols) {
      DepthsAreASolution(symbols);
    }
    if d :| Solution(symbols, d) {
      forall i: nat | i < |symbols| ensures Grounded(symbols, i, |symbols|) {
        SolutionGrounds(symbols, d, i);
        ShortChainsSuffice(symbols, i, d[i]);
      }
    }
  }

  /** The depth of a symbol in the source's own terms: zero when no other symbol has its parent's name, and otherwise one more than the least depth among those that do. */
  lemma DepthIsNesting(symbols: seq<Symbol>, i: nat)
    requires Settles(symbols) && i < |symbols|
    ensures Depth(symbols, i) == 0
            <==> symbols[i].parent.None? || forall j: nat :: j < |symbols| && j != i ==> symbols[j].name != symbols[i].parent.value
    ensures Depth(symbols, i) > 0 ==>
              exists j: nat :: j < |symbols| && j != i && symbols[i].parent == Some(symbols[j].name) && Depth(symbols, i) == Depth(symbols, j) + 1
    ensures forall j: nat :: j < |symbols| && j != i && symbols[i].parent == Some(symbols[j].name) ==> Depth(symbols, i) <= Depth(symbols, j) + 1
  {
    DepthEquation(symbols, i);
    hide Settles;
    forall j: nat ensures j < |symbols| && j != i && symbols[i].parent == Some(symbols[j].name) <==> MayHold(symbols, j, i) {
    }
  }
}
