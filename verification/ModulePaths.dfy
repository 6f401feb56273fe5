/** Module names: the one a file has, and the file a name resolves to. */
module ModulePaths {
  import opened Optional
  import opened Ordering

  // ----- the module of a file -----

  /** Index of the last dot, or none. */
  function LastDot(name: string): (i: Option<nat>)
    ensures i.Some? ==> i.value < |name| && name[i.value] == '.' && forall k :: i.value < k < |name| ==> name[k] != '.'
    ensures i.None? ==> '.' !in name
  {
    if name == "" then None
    else if name[|name| - 1] == '.' then Some(|name| - 1)
    else LastDot(name[..|name| - 1])
  }

  /** The file name up to its last dot; a name that only starts with a dot is all stem. */
  function Stem(name: string): string {
    match LastDot(name)
    case None => name
    case Some(i) => if i == 0 || name == ".." then name else name[..i]
  }

  function Join(parts: seq<string>): string {
    if parts == [] then ""
    else if |parts| == 1 then parts[0]
    else parts[0] + "::" + Join(parts[1..])
  }

  /** `a/b.rs` is `a::b`, and `a/mod.rs` and `a/__init__.py` are `a`. */
  function ModulePath(path: Path): Option<string> {
    if path == [] then None
    else
      var parent, stem := path[..|path| - 1], Stem(path[|path| - 1]);
      if stem == "mod" || stem == "__init__" then
        if parent == [] then None else Some(Join(parent))
      else Some(Join(parent + [stem]))
  }

  // ----- the file of a module name -----

  predicate CutAt(s: string, i: nat) {
    i + 2 <= |s| && s[i] == ':' && s[i + 1] == ':'
  }

  /** `rsplit_once("::")` on the first `n` characters: the last separator that fits. */
  function LastCut(s: string, n: nat): (i: Option<nat>)
    requires n <= |s|
    ensures i.Some? ==> i.value + 2 <= n && CutAt(s, i.value) && forall k: nat :: i.value < k && k + 2 <= n ==> !CutAt(s, k)
    ensures i.None? ==> forall k: nat :: k + 2 <= n ==> !CutAt(s, k)
  {
    if n < 2 then None
    else if CutAt(s, n - 2) then Some(n - 2)
    else LastCut(s, n - 1)
  }

  /** Segments stripped from the right until what is left is registered. */
  function ResolveFrom(modules: map<string, Path>, s: string, n: nat): Option<Path>
    requires n <= |s|
  {
    if s[..n] in modules then Some(modules[s[..n]])
    else
      match LastCut(s, n)
      case None => None
      case Some(i) => ResolveFrom(modules, s, i)
  }

  function Resolved(modules: map<string, Path>, s: string): Option<Path> {
    ResolveFrom(modules, s, |s|)
  }

  /** The whole name, or what stands before a separator in it. */
  predicate IsPrefix(s: string, n: nat) {
    n == |s| || CutAt(s, n)
  }

  /** The longest registered prefix of at most `n` characters. */
  function Longest(modules: map<string, Path>, s: string, n: nat): Option<Path>
    requires n <= |s|
  {
    if IsPrefix(s, n) && s[..n] in modules then Some(modules[s[..n]])
    else if n == 0 then None
    else Longest(modules, s, n - 1)
  }

  /** The prefix of length `k` is registered and none longer is, up to `n`. */
  ghost predicate LongestAt(modules: map<string, Path>, s: string, n: nat, k: nat) {
    && k <= n <= |s| && IsPrefix(s, k) && s[..k] in modules
    && forall j: nat :: k < j <= n && IsPrefix(s, j) ==> s[..j] !in modules
  }

  lemma {:induction false} LongestIsLongest(modules: map<string, Path>, s: string, n: nat)
    requires n <= |s|
    ensures Longest(modules, s, n).None? <==> forall k: nat :: k <= n && IsPrefix(s, k) ==> s[..k] !in modules
    ensures Longest(modules, s, n).Some? ==>
              exists k: nat :: LongestAt(modules, s, n, k) && Longest(modules, s, n).value == modules[s[..k]]
  {
    if IsPrefix(s, n) && s[..n] in modules {
      assert LongestAt(modules, s, n, n);
    } else if n > 0 {
      LongestIsLongest(modules, s, n - 1);
      if k: nat :| LongestAt(modules, s, n - 1, k) && Longest(modules, s, n - 1) == Some(modules[s[..k]]) {
        assert LongestAt(modules, s, n, k);
      }
    }
  }

  predicate TripleAt(s: string, j: nat) {
    j + 3 <= |s| && s[j] == ':' && s[j + 1] == ':' && s[j + 2] == ':'
  }

  lemma {:induction false} LongestSkips(modules: map<string, Path>, s: string, from: nat, n: nat)
    requires from <= n <= |s| && forall k: nat :: from < k <= n ==> !IsPrefix(s, k)
    ensures Longest(modules, s, n) == Longest(modules, s, from)
    decreases n
  {
    if from < n {
      LongestSkips(modules, s, from, n - 1);
    }
  }

  lemma {:induction false} ResolvesToLongest(modules: map<string, Path>, s: string, n: nat)
    requires n <= |s| && IsPrefix(s, n) && forall j: nat :: !TripleAt(s, j)
    ensures ResolveFrom(modules, s, n) == Longest(modules, s, n)
    decreases n
  {
    if s[..n] !in modules {
      if n > 0 {
        assert !TripleAt(s, n - 1);
        assert !IsPrefix(s, n - 1);
      }
      match LastCut(s, n)
      case None =>
        if n > 0 {
          LongestSkips(modules, s, 0, n - 1);
        }
      case Some(i) =>
        if n > 0 {
          LongestSkips(modules, s, i, n - 1);
        }
        ResolvesToLongest(modules, s, i);
    }
  }

  ghost predicate LastTriple(s: string, j: nat) {
    TripleAt(s, j) && forall k: nat :: k > j ==> !TripleAt(s, k)
  }

  lemma {:induction false} FindLastTriple(s: string, j: nat, n: nat) returns (last: nat)
    requires TripleAt(s, j) && n <= |s| && forall k: nat :: k > j && k > |s| - n ==> !TripleAt(s, k)
    ensures LastTriple(s, last)
    decreases |s| - n
  {
    if j >= |s| - n {
      return j;
    }
    var k := |s| - n;
    last := FindLastTriple(s, if TripleAt(s, k) then k else j, n + 1);
  }

  /** Stripping from the right steps over a separator that overlaps the one after it. */
  lemma {:induction false} TripleIsSteppedOver(s: string, j: nat, p: Path, n: nat)
    requires LastTriple(s, j) && j != n <= |s| && IsPrefix(s, n)
    ensures ResolveFrom(map[s[..j] := p], s, n).None?
    decreases n
  {
    assert |s[..n]| != |s[..j]|;
    if n > j {
      assert CutAt(s, j + 1) && !TripleAt(s, j + 1);
      assert n != j + 2;
    }
    match LastCut(s, n)
    case None =>
    case Some(i) =>
      assert i != j;
      TripleIsSteppedOver(s, j, p, i);
  }

  /** Resolution finds the longest registered prefix in every registry exactly when no three colons stand together in the name. */
  lemma ResolvesToLongestIffNoTriple(s: string)
    ensures (forall modules: map<string, Path> :: Resolved(modules, s) == Longest(modules, s, |s|))
            <==> forall j: nat :: !TripleAt(s, j)
  {
    if j: nat :| TripleAt(s, j) {
      var last := FindLastTriple(s, j, 0);
      var modules: map<string, Path> := map[s[..last] := []];
      TripleIsSteppedOver(s, last, [], |s|);
      LongestIsLongest(modules, s, |s|);
      assert CutAt(s, last) && IsPrefix(s, last);
      assert Resolved(modules, s) != Longest(modules, s, |s|);
    } else {
      forall modules: map<string, Path> ensures Resolved(modules, s) == Longest(modules, s, |s|) {
        ResolvesToLongest(modules, s, |s|);
      }
    }
  }

  /** Fewer modules resolve fewer names. */
  lemma {:induction false} ResolvingIsMonotone(small: map<string, Path>, large: map<string, Path>, s: string, n: nat)
    requires small.Keys <= large.Keys && n <= |s|
    ensures ResolveFrom(small, s, n).Some? ==> ResolveFrom(large, s, n).Some?
    decreases n
  {
    if s[..n] !in small {
      match LastCut(s, n)
      case None =>
      case Some(i) => ResolvingIsMonotone(small, large, s, i);
    }
  }

  lemma {:induction false} ResolvedIsRegistered(modules: map<string, Path>, s: string, n: nat)
    requires n <= |s|
    ensures ResolveFrom(modules, s, n).Some? ==> ResolveFrom(modules, s, n).value in modules.Values
    decreases n
  {
    if s[..n] !in modules {
      match LastCut(s, n)
      case None =>
      case Some(i) => ResolvedIsRegistered(modules, s, i);
    }
  }
}
