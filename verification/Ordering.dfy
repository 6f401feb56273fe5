/** Strict total orders and the sorted listing of a finite set under one. */
module Ordering {

  ghost predicate StrictTotalOrder<T(!new)>(less: (T, T) -> bool) {
    && (forall a :: !less(a, a))
    && (forall a, b, c :: less(a, b) && less(b, c) ==> less(a, c))
    && (forall a, b :: less(a, b) || a == b || less(b, a))
  }

  ghost predicate Ascending<T>(less: (T, T) -> bool, s: seq<T>) {
    forall i, j :: 0 <= i < j < |s| ==> less(s[i], s[j])
  }

  lemma {:induction false} LeastExists<T(!new)>(less: (T, T) -> bool, s: set<T>)
    requires StrictTotalOrder(less) && s != {}
    ensures exists m :: m in s && forall x :: x in s ==> x == m || less(m, x)
  {
    var e :| e in s;
    if s != {e} {
      LeastExists(less, s - {e});
      var m :| m in s - {e} && forall x :: x in s - {e} ==> x == m || less(m, x);
      var least := if less(e, m) then e else m;
      forall x | x in s ensures x == least || less(least, x) {
        assert x == e || x in s - {e};
      }
    }
  }

  /** The members of `s`, each once, in ascending order: how a sorted map or `ORDER BY` lists them. */
  function Sorted<T(!new)>(less: (T, T) -> bool, s: set<T>): (r: seq<T>)
    requires StrictTotalOrder(less)
    ensures Ascending(less, r) && |r| == |s|
    ensures forall x :: x in r <==> x in s
    decreases |s|
  {
    if s == {} then []
    else
      LeastExists(less, s);
      var m :| m in s && forall x :: x in s ==> x == m || less(m, x);
      [m] + Sorted(less, s - {m})
  }

  /** Nothing but `Sorted` lists a set in ascending order. */
  lemma {:induction false} AscendingIsUnique<T(!new)>(less: (T, T) -> bool, a: seq<T>, b: seq<T>)
    requires StrictTotalOrder(less) && Ascending(less, a) && Ascending(less, b)
    requires forall x :: x in a <==> x in b
    ensures a == b
    decreases |a|
  {
    assert forall i :: 0 <= i < |a| ==> a[i] in b;
    assert forall i :: 0 <= i < |b| ==> b[i] in a;
    if a != [] {
      assert a[0] in b && b != [] && b[0] in a;
      assert a[0] == b[0];
      forall x ensures x in a[1..] <==> x in b[1..] {
        assert x in a[1..] <==> x in a && x != a[0];
        assert x in b[1..] <==> x in b && x != b[0];
      }
      AscendingIsUnique(less, a[1..], b[1..]);
    }
  }

  lemma AscendingIsDistinct<T(!new)>(less: (T, T) -> bool, s: seq<T>)
    requires StrictTotalOrder(less) && Ascending(less, s)
    ensures forall i, j :: 0 <= i < j < |s| ==> s[i] != s[j]
  {
  }

  const NAT_LESS: (nat, nat) -> bool := (a, b) => a < b

  const CHAR_LESS: (char, char) -> bool := (a, b) => a < b

  const STRING_LESS: (string, string) -> bool := (a, b) => LexLess(CHAR_LESS, a, b)

  /** A path inside the repository: its directories, then the file name. */
  type Path = seq<string>

  const PATH_LESS: (Path, Path) -> bool := (a, b) => LexLess(STRING_LESS, a, b)

  /** Lexicographic order; a proper prefix comes first. */
  predicate LexLess<T(==)>(less: (T, T) -> bool, a: seq<T>, b: seq<T>) {
    if b == [] then false
    else if a == [] then true
    else less(a[0], b[0]) || (a[0] == b[0] && LexLess(less, a[1..], b[1..]))
  }

  lemma {:induction false} LexTransitive<T(!new)>(less: (T, T) -> bool, a: seq<T>, b: seq<T>, c: seq<T>)
    requires StrictTotalOrder(less) && LexLess(less, a, b) && LexLess(less, b, c)
    ensures LexLess(less, a, c)
    decreases |a|
  {
    if a != [] && a[0] == b[0] && b[0] == c[0] {
      LexTransitive(less, a[1..], b[1..], c[1..]);
    }
  }

  lemma {:induction false} LexTotal<T(!new)>(less: (T, T) -> bool, a: seq<T>, b: seq<T>)
    requires StrictTotalOrder(less)
    ensures LexLess(less, a, b) || a == b || LexLess(less, b, a)
    ensures !LexLess(less, a, a)
    decreases |a|
  {
    if a != [] {
      LexTotal(less, a[1..], if b == [] then [] else b[1..]);
      if b != [] && a[0] == b[0] && a[1..] == b[1..] {
        assert a == [a[0]] + a[1..] && b == [b[0]] + b[1..];
      }
    }
  }

  lemma NatOrder()
    ensures StrictTotalOrder(NAT_LESS)
  {
  }

  /** Ids in order: what `ORDER BY id` and a map keyed by id iterate over. */
  function SortedNats(s: set<nat>): (r: seq<nat>)
    ensures |r| == |s| && forall x :: x in r <==> x in s
  {
    NatOrder();
    Sorted(NAT_LESS, s)
  }

  lemma StringOrder()
    ensures StrictTotalOrder(STRING_LESS)
  {
    assert StrictTotalOrder(CHAR_LESS);
    LexOrder(CHAR_LESS, STRING_LESS);
  }

  lemma PathOrder()
    ensures StrictTotalOrder(PATH_LESS)
  {
    StringOrder();
    LexOrder(STRING_LESS, PATH_LESS);
  }

  lemma LexOrder<T(!new)>(less: (T, T) -> bool, lex: (seq<T>, seq<T>) -> bool)
    requires StrictTotalOrder(less) && forall a, b :: lex(a, b) == LexLess(less, a, b)
    ensures StrictTotalOrder(lex)
  {
    forall a, b, c | lex(a, b) && lex(b, c) ensures lex(a, c) {
      LexTransitive(less, a, b, c);
    }
    forall a, b ensures (lex(a, b) || a == b || lex(b, a)) && !lex(a, a) {
      LexTotal(less, a, b);
    }
  }
}
