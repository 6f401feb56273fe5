/** A rename across files: every occurrence rewritten, or nothing. */
module Rename {
  import opened Octets
  import opened SyntaxTree
  import opened Mentions
  import opened Splicing

  // ----- many replacements in one file -----

  /** All offsets at once: each stretch between them copied, each occurrence exchanged. */
  function Substituted(s: Bytes, offsets: seq<nat>, width: nat, new': Bytes, from: nat): Bytes
    requires from <= |s| && Spaced(offsets, width, from, |s|)
  {
    if offsets == [] then s[from..]
    else s[from..offsets[0]] + new' + Substituted(s, offsets[1..], width, new', offsets[0] + width)
  }

  /** One at a time, the last first. */
  function BackToFront(s: Bytes, offsets: seq<nat>, width: nat, new': Bytes): Bytes
    requires Spaced(offsets, width, 0, |s|)
    decreases |offsets|
  {
    if offsets == [] then s
    else
      var n := |offsets| - 1;
      BackToFront(Splice(s, offsets[n], offsets[n] + width, new'), offsets[..n], width, new')
  }

  lemma SubstitutedUnfolds(s: Bytes, offsets: seq<nat>, width: nat, new': Bytes, from: nat)
    requires from <= |s| && Spaced(offsets, width, from, |s|)
    ensures offsets == [] ==> Substituted(s, offsets, width, new', from) == s[from..]
    ensures offsets != [] ==>
              && from <= offsets[0] && offsets[0] + width <= |s| && Spaced(offsets[1..], width, offsets[0] + width, |s|)
              && Substituted(s, offsets, width, new', from)
                 == s[from..offsets[0]] + new' + Substituted(s, offsets[1..], width, new', offsets[0] + width)
  {
  }

  lemma SpacedRest(offsets: seq<nat>, width: nat, from: nat, upto: nat)
    requires Spaced(offsets, width, from, upto) && offsets != []
    ensures from <= offsets[0] && offsets[0] + width <= upto && Spaced(offsets[1..], width, offsets[0] + width, upto)
    ensures var n := |offsets| - 1; from <= offsets[n] && offsets[n] + width <= upto && (n > 0 ==> offsets[0] + width <= offsets[n])
  {
  }

  lemma SpacedFront(offsets: seq<nat>, width: nat, from: nat, upto: nat, longer: nat)
    requires Spaced(offsets, width, from, upto) && offsets != [] && longer >= offsets[|offsets| - 1]
    ensures Spaced(offsets[..|offsets| - 1], width, from, longer)
  {
  }

  lemma SameStretch(s: Bytes, t: Bytes, last: nat, i: nat, j: nat)
    requires i <= j <= last <= |s| && last <= |t| && s[..last] == t[..last]
    ensures s[i..j] == t[i..j]
  {
    assert s[i..j] == s[..last][i..j] && t[i..j] == t[..last][i..j];
  }

  lemma {:induction false} LastSpliceFirst(s: Bytes, offsets: seq<nat>, width: nat, new': Bytes, from: nat)
    requires from <= |s| && Spaced(offsets, width, from, |s|) && offsets != []
    ensures var n := |offsets| - 1;
            && from <= offsets[n] && offsets[n] + width <= |s|
            && var spliced := Splice(s, offsets[n], offsets[n] + width, new');
            && from <= |spliced| && Spaced(offsets[..n], width, from, |spliced|)
            && Substituted(s, offsets, width, new', from) == Substituted(spliced, offsets[..n], width, new', from)
    decreases |offsets|
  {
    hide Spaced, Substituted;
    var n := |offsets| - 1;
    SpacedRest(offsets, width, from, |s|);
    var last := offsets[n];
    var spliced := Splice(s, last, last + width, new');
    SpacedFront(offsets, width, from, |s|, |spliced|);
    SubstitutedUnfolds(s, offsets, width, new', from);
    SubstitutedUnfolds(spliced, offsets[..n], width, new', from);
    if n == 0 {
      SubstitutedUnfolds(s, offsets[1..], width, new', last + width);
      assert s[from..last] + new' + s[last + width..] == spliced[from..];
    } else {
      LastSpliceFirst(s, offsets[1..], width, new', offsets[0] + width);
      assert offsets[1..][..n - 1] == offsets[..n][1..];
      assert s[..last] == spliced[..last];
      SameStretch(s, spliced, last, from, offsets[0]);
    }
  }

  /** Splicing back to front is the simultaneous substitution. */
  lemma {:induction false} BackToFrontIsSimultaneous(s: Bytes, offsets: seq<nat>, width: nat, new': Bytes)
    requires Spaced(offsets, width, 0, |s|)
    ensures BackToFront(s, offsets, width, new') == Substituted(s, offsets, width, new', 0)
    decreases |offsets|
  {
    if offsets != [] {
      var n := |offsets| - 1;
      LastSpliceFirst(s, offsets, width, new', 0);
      BackToFrontIsSimultaneous(Splice(s, offsets[n], offsets[n] + width, new'), offsets[..n], width, new');
    }
  }

  lemma {:induction false} SubstitutedLength(s: Bytes, offsets: seq<nat>, width: nat, new': Bytes, from: nat)
    requires from <= |s| && Spaced(offsets, width, from, |s|)
    ensures |Substituted(s, offsets, width, new', from)| == |s| - from + |offsets| * (|new'| - width)
    decreases |offsets|
  {
    if offsets != [] {
      SubstitutedLength(s, offsets[1..], width, new', offsets[0] + width);
      assert |offsets| * (|new'| - width) == (|offsets| - 1) * (|new'| - width) + (|new'| - width);
    }
  }

  /** Where the occurrences stand afterwards, when everything from here on has moved by `shift`. */
  function Landed(offsets: seq<nat>, width: nat, newWidth: nat, shift: int): seq<int> {
    if offsets == [] then [] else [offsets[0] + shift] + Landed(offsets[1..], width, newWidth, shift + newWidth - width)
  }

  lemma LandedNone(width: nat, newWidth: nat, shift: int)
    ensures Landed([], width, newWidth, shift) == []
  {
  }

  lemma LandedRest(offsets: seq<nat>, width: nat, newWidth: nat, shift: int)
    requires offsets != []
    ensures var back := Landed(offsets, width, newWidth, shift);
            && back != [] && back[0] == offsets[0] + shift
            && back[1..] == Landed(offsets[1..], width, newWidth, shift + newWidth - width)
  {
  }

  /** Each occurrence moves by what the ones before it grew. */
  lemma {:induction false} LandedAt(offsets: seq<nat>, width: nat, newWidth: nat, shift: int, k: nat)
    requires k < |offsets|
    ensures |Landed(offsets, width, newWidth, shift)| == |offsets|
    ensures Landed(offsets, width, newWidth, shift)[k] == offsets[k] + shift + k * (newWidth - width)
    decreases |offsets|
  {
    if |offsets| > 1 {
      LandedAt(offsets[1..], width, newWidth, shift + newWidth - width, if k == 0 then 0 else k - 1);
    }
    if k > 0 {
      assert k * (newWidth - width) == (k - 1) * (newWidth - width) + (newWidth - width);
    }
  }

  ghost predicate AllRead(s: Bytes, offsets: seq<nat>, old': Bytes) {
    forall k :: 0 <= k < |offsets| ==> offsets[k] + |old'| <= |s| && s[offsets[k]..offsets[k] + |old'|] == old'
  }

  /** The file behind `head`: what substitution makes of the rest, and how substituting back undoes it. */
  lemma {:induction false} SubstitutionUndone(s: Bytes, offsets: seq<nat>, old': Bytes, new': Bytes, from: nat, head: Bytes, back: seq<nat>)
    requires from <= |s| && Spaced(offsets, |old'|, from, |s|) && AllRead(s, offsets, old')
    requires back == Landed(offsets, |old'|, |new'|, |head| - from)
    ensures var t := head + Substituted(s, offsets, |old'|, new', from);
            && Spaced(back, |new'|, |head|, |t|)
            && AllRead(t, back, new')
            && Substituted(t, back, |new'|, old', |head|) == s[from..]
    decreases |offsets|
  {
    hide Spaced, AllRead, Landed, Substituted;
    SubstitutedUnfolds(s, offsets, |old'|, new', from);
    var t := head + Substituted(s, offsets, |old'|, new', from);
    if offsets == [] {
      LandedNone(|old'|, |new'|, |head| - from);
      NoOccurrences(t, |head|, new');
      SubstitutedUnfolds(t, back, |new'|, old', |head|);
      assert t[|head|..] == s[from..];
    } else {
      var first, next := offsets[0], offsets[0] + |old'|;
      SpacedRest(offsets, |old'|, from, |s|);
      AllReadRest(s, offsets, old');
      var gap := s[from..first];
      var head' := head + gap + new';
      var rest := Substituted(s, offsets[1..], |old'|, new', next);
      Assembled(head, gap, new', rest);
      LandedRest(offsets, |old'|, |new'|, |head| - from);
      SubstitutionUndone(s, offsets[1..], old', new', next, head', back[1..]);
      FrontOccurrence(t, back, new', |head|);
      SubstitutedUnfolds(t, back, |new'|, old', |head|);
      StretchThenOccurrence(s, from, first, old');
    }
  }

  lemma Assembled(head: Bytes, gap: Bytes, new': Bytes, rest: Bytes)
    ensures var t := head + (gap + new' + rest);
            && t == (head + gap + new') + rest
            && t[|head|..|head| + |gap|] == gap
            && t[|head| + |gap|..|head| + |gap| + |new'|] == new'
  {
  }

  lemma StretchThenOccurrence(s: Bytes, from: nat, first: nat, old': Bytes)
    requires from <= first && first + |old'| <= |s| && s[first..first + |old'|] == old'
    ensures s[from..] == s[from..first] + old' + s[first + |old'|..]
  {
  }

  lemma NoOccurrences(t: Bytes, from: nat, new': Bytes)
    ensures Spaced([], |new'|, from, |t|) && AllRead(t, [], new')
  {
  }

  lemma AllReadRest(s: Bytes, offsets: seq<nat>, old': Bytes)
    requires AllRead(s, offsets, old') && offsets != []
    ensures offsets[0] + |old'| <= |s| && s[offsets[0]..offsets[0] + |old'|] == old' && AllRead(s, offsets[1..], old')
  {
  }

  lemma FrontOccurrence(t: Bytes, back: seq<nat>, new': Bytes, from: nat)
    requires back != [] && from <= back[0] && back[0] + |new'| <= |t| && t[back[0]..back[0] + |new'|] == new'
    requires Spaced(back[1..], |new'|, back[0] + |new'|, |t|) && AllRead(t, back[1..], new')
    ensures Spaced(back, |new'|, from, |t|) && AllRead(t, back, new')
  {
    assert back == [back[0]] + back[1..];
  }

  // ----- the gated splices of one file -----

  ghost function Renamed(grammar: Grammar, s: Bytes, offsets: seq<nat>, width: nat, new': Bytes): Result<Bytes>
    decreases |offsets|
  {
    if offsets == [] then Ok(s)
    else
      var n := |offsets| - 1;
      match Replaced(grammar, s, offsets[n], offsets[n] + width, new')
      case Err(error) => Err(error)
      case Ok(next) => Renamed(grammar, next, offsets[..n], width, new')
  }

  /** The file once the occurrences from number `k` on have been exchanged. */
  function Stage(s: Bytes, offsets: seq<nat>, k: nat, width: nat, new': Bytes): Bytes
    requires k <= |offsets| && Spaced(offsets[k..], width, 0, |s|)
  {
    Substituted(s, offsets[k..], width, new', 0)
  }

  lemma SpacedBack(offsets: seq<nat>, k: nat, width: nat, upto: nat)
    requires k <= |offsets| && Spaced(offsets, width, 0, upto)
    ensures Spaced(offsets[k..], width, 0, upto)
  {
  }

  ghost predicate PassesAt(grammar: Grammar, s: Bytes, offsets: seq<nat>, k: nat, width: nat, new': Bytes)
    requires k < |offsets| && Spaced(offsets, width, 0, |s|)
  {
    SpacedBack(offsets, k + 1, width, |s|);
    Admissible(grammar, Stage(s, offsets, k + 1, width, new'), offsets[k], offsets[k] + width, new')
  }

  ghost predicate AllPassGates(grammar: Grammar, s: Bytes, offsets: seq<nat>, width: nat, new': Bytes)
    requires Spaced(offsets, width, 0, |s|)
  {
    forall k :: 0 <= k < |offsets| ==> PassesAt(grammar, s, offsets, k, width, new')
  }

  lemma StageAfterLast(s: Bytes, offsets: seq<nat>, k: nat, width: nat, new': Bytes)
    requires Spaced(offsets, width, 0, |s|) && k < |offsets|
    ensures var n := |offsets| - 1;
            && offsets[n] + width <= |s|
            && var spliced := Splice(s, offsets[n], offsets[n] + width, new');
            && Spaced(offsets[..n], width, 0, |spliced|) && Spaced(offsets[..n][k..], width, 0, |spliced|)
            && Spaced(offsets[k..], width, 0, |s|)
            && Stage(s, offsets, k, width, new') == Stage(spliced, offsets[..n], k, width, new')
  {
    hide Spaced, Substituted;
    var n := |offsets| - 1;
    LastSpliceFirst(s, offsets, width, new', 0);
    SpacedBack(offsets, k, width, |s|);
    LastSpliceFirst(s, offsets[k..], width, new', 0);
    assert offsets[..n][k..] == offsets[k..][..n - k];
    assert offsets[k..][n - k] == offsets[n];
  }

  lemma GatesAfterLast(grammar: Grammar, s: Bytes, offsets: seq<nat>, width: nat, new': Bytes)
    requires Spaced(offsets, width, 0, |s|) && offsets != []
    ensures var n := |offsets| - 1;
            && offsets[n] + width <= |s|
            && var spliced := Splice(s, offsets[n], offsets[n] + width, new');
            && Spaced(offsets[..n], width, 0, |spliced|)
            && (AllPassGates(grammar, s, offsets, width, new')
                <==> Admissible(grammar, s, offsets[n], offsets[n] + width, new') && AllPassGates(grammar, spliced, offsets[..n], width, new'))
  {
    hide Spaced, PassesAt, Splice;
    var n := |offsets| - 1;
    LastSpliceFirst(s, offsets, width, new', 0);
    LastGate(grammar, s, offsets, width, new');
    var spliced := Splice(s, offsets[n], offsets[n] + width, new');
    forall k | 0 <= k < n
      ensures PassesAt(grammar, s, offsets, k, width, new') == PassesAt(grammar, spliced, offsets[..n], k, width, new')
    {
      SameGate(grammar, s, offsets, k, width, new');
    }
    assert AllPassGates(grammar, spliced, offsets[..n], width, new')
        == forall k :: 0 <= k < n ==> PassesAt(grammar, spliced, offsets[..n], k, width, new');
    assert AllPassGates(grammar, s, offsets, width, new')
        == (PassesAt(grammar, s, offsets, n, width, new') && forall k :: 0 <= k < n ==> PassesAt(grammar, s, offsets, k, width, new'));
  }

  lemma SameGate(grammar: Grammar, s: Bytes, offsets: seq<nat>, k: nat, width: nat, new': Bytes)
    requires Spaced(offsets, width, 0, |s|) && k < |offsets| - 1
    ensures var n := |offsets| - 1;
            && offsets[n] + width <= |s|
            && var spliced := Splice(s, offsets[n], offsets[n] + width, new');
            && Spaced(offsets[..n], width, 0, |spliced|)
            && PassesAt(grammar, s, offsets, k, width, new') == PassesAt(grammar, spliced, offsets[..n], k, width, new')
  {
    hide Spaced, Substituted, Stage, Admissible, Splice;
    StageAfterLast(s, offsets, k + 1, width, new');
  }

  lemma LastGate(grammar: Grammar, s: Bytes, offsets: seq<nat>, width: nat, new': Bytes)
    requires Spaced(offsets, width, 0, |s|) && offsets != []
    ensures PassesAt(grammar, s, offsets, |offsets| - 1, width, new')
            == Admissible(grammar, s, offsets[|offsets| - 1], offsets[|offsets| - 1] + width, new')
  {
    hide Admissible;
    var n := |offsets| - 1;
    SpacedBack(offsets, n + 1, width, |s|);
    assert offsets[n + 1..] == [];
    assert Stage(s, offsets, n + 1, width, new') == s;
  }

  /** A file is renamed exactly when each intermediate text passes the gate, and then it is the simultaneous substitution. */
  lemma {:induction false} RenamedIsSimultaneous(grammar: Grammar, s: Bytes, offsets: seq<nat>, width: nat, new': Bytes)
    requires Spaced(offsets, width, 0, |s|)
    ensures Renamed(grammar, s, offsets, width, new').Ok? <==> AllPassGates(grammar, s, offsets, width, new')
    ensures Renamed(grammar, s, offsets, width, new').Ok? ==>
              Renamed(grammar, s, offsets, width, new') == Ok(Substituted(s, offsets, width, new', 0))
    ensures Renamed(grammar, s, offsets, width, new').Err? ==>
              Renamed(grammar, s, offsets, width, new').error in {HasErrors, RangeIsNotANode, GateRefused}
    decreases |offsets|
  {
    hide Spaced, AllPassGates, Substituted, Admissible;
    if offsets == [] {
      SubstitutedUnfolds(s, offsets, width, new', 0);
      NoGates(grammar, s, offsets, width, new');
    } else {
      var n := |offsets| - 1;
      GatesAfterLast(grammar, s, offsets, width, new');
      LastSpliceFirst(s, offsets, width, new', 0);
      RenamedIsSimultaneous(grammar, Splice(s, offsets[n], offsets[n] + width, new'), offsets[..n], width, new');
    }
  }

  lemma NoGates(grammar: Grammar, s: Bytes, offsets: seq<nat>, width: nat, new': Bytes)
    requires Spaced(offsets, width, 0, |s|) && offsets == []
    ensures AllPassGates(grammar, s, offsets, width, new')
  {
  }
}
