/**
 * `generateCombinations` from `Utils.js`: every r-element selection of an
 * array, in the order the recursive `combine` produces them, each selection
 * joined with spaces and split again.
 */
module Combinations {

  // ---------------------------------------------------------------------
  // Index selections
  // ---------------------------------------------------------------------

  /** The selections `combine(input, r, start)` visits, as index sequences:
      the first index i runs from start up to n - r, and the remaining r - 1
      indices are chosen after it. */
  function Combos(n: nat, r: nat, start: nat): seq<seq<nat>>
    decreases r, n - start
  {
    if r == 0 then [[]]
    else if start + r > n then []
    else Prefix(start, Combos(n, r - 1, start + 1)) + Combos(n, r, start + 1)
  }

  /** Put index i in front of every selection. */
  function Prefix(i: nat, cs: seq<seq<nat>>): (r: seq<seq<nat>>)
    ensures |r| == |cs|
    ensures forall k :: 0 <= k < |r| ==> r[k] == [i] + cs[k]
  {
    if |cs| == 0 then [] else [[i] + cs[0]] + Prefix(i, cs[1..])
  }

  /** A selection of r indices from [start, n): strictly increasing. */
  predicate IsSelection(c: seq<nat>, n: nat, r: nat, start: nat) {
    && |c| == r
    && (forall k :: 0 <= k < |c| ==> start <= c[k] < n)
    && (forall j, k :: 0 <= j < k < |c| ==> c[j] < c[k])
  }

  /** n choose r by Pascal's rule. */
  function Binomial(n: nat, r: nat): nat {
    if r == 0 then 1
    else if n == 0 then 0
    else Binomial(n - 1, r - 1) + Binomial(n - 1, r)
  }

  /** Lexicographic order on index sequences. */
  predicate LexLess(a: seq<nat>, b: seq<nat>) {
    && |a| > 0 && |b| > 0
    && (a[0] < b[0] || (a[0] == b[0] && LexLess(a[1..], b[1..])))
  }

  /** Strictly ascending in lexicographic order, hence without repeats. */
  predicate LexSorted(cs: seq<seq<nat>>) {
    forall j, k :: 0 <= j < k < |cs| ==> LexLess(cs[j], cs[k])
  }

  lemma {:induction false} LexLessIrreflexive(a: seq<nat>)
    ensures !LexLess(a, a)
    decreases |a|
  {
    if |a| > 0 {
      LexLessIrreflexive(a[1..]);
    }
  }

  /** Every sequence visited is a valid selection. */
  lemma {:induction false} CombosAreSelections(n: nat, r: nat, start: nat)
    ensures forall c :: c in Combos(n, r, start) ==> IsSelection(c, n, r, start)
    ensures forall k :: 0 <= k < |Combos(n, r, start)| ==> IsSelection(Combos(n, r, start)[k], n, r, start)
    decreases r, n - start
  {
    if r > 0 && start + r <= n {
      CombosAreSelections(n, r - 1, start + 1);
      CombosAreSelections(n, r, start + 1);
      var p := Prefix(start, Combos(n, r - 1, start + 1));
      forall c | c in p
        ensures IsSelection(c, n, r, start)
      {
        var k :| 0 <= k < |p| && p[k] == c;
        var t := Combos(n, r - 1, start + 1)[k];
        assert c == [start] + t;
        assert IsSelection(t, n, r - 1, start + 1);
        forall j, m | 0 <= j < m < |c|
          ensures c[j] < c[m]
        {
          if j > 0 {
            assert c[j] == t[j - 1] && c[m] == t[m - 1];
          } else {
            assert c[m] == t[m - 1];
          }
        }
      }
    }
  }

  /** A non-empty selection of r indices fits only if r <= n - start. */
  lemma SelectionFits(c: seq<nat>, n: nat, r: nat, start: nat)
    requires IsSelection(c, n, r, start)
    ensures r > 0 ==> start + r <= n
  {
    if r > 0 {
      SelectionGrows(c, n, r, start, r - 1);
      assert c[r - 1] < n;
    }
  }

  lemma {:induction false} SelectionGrows(c: seq<nat>, n: nat, r: nat, start: nat, k: nat)
    requires IsSelection(c, n, r, start) && k < r
    ensures start + k <= c[k]
  {
    if k > 0 {
      SelectionGrows(c, n, r, start, k - 1);
      assert c[k - 1] < c[k];
    }
  }

  /** Every selection is visited. */
  lemma {:induction false} CombosComplete(c: seq<nat>, n: nat, r: nat, start: nat)
    requires IsSelection(c, n, r, start)
    ensures c in Combos(n, r, start)
    decreases r, n - start
  {
    if r == 0 {
      assert c == [];
    } else {
      SelectionFits(c, n, r, start);
      assert Combos(n, r, start) == Prefix(start, Combos(n, r - 1, start + 1)) + Combos(n, r, start + 1);
      if c[0] == start {
        TailSelection(c, n, r, start);
        CombosComplete(c[1..], n, r - 1, start + 1);
        InPrefix(start, Combos(n, r - 1, start + 1), c[1..]);
        assert c == [start] + c[1..];
      } else {
        LaterSelection(c, n, r, start);
        CombosComplete(c, n, r, start + 1);
      }
    }
  }

  /** Dropping the first index of a selection starting at `start` leaves a
      selection from start + 1. */
  lemma TailSelection(c: seq<nat>, n: nat, r: nat, start: nat)
    requires IsSelection(c, n, r, start) && r > 0 && c[0] == start
    ensures IsSelection(c[1..], n, r - 1, start + 1)
  {
    var t := c[1..];
    forall j, m | 0 <= j < m < |t|
      ensures t[j] < t[m]
    {
      assert t[j] == c[j + 1] && t[m] == c[m + 1];
    }
    forall k | 0 <= k < |t|
      ensures start + 1 <= t[k] < n
    {
      assert c[0] < c[k + 1];
    }
  }

  /** A selection that does not use `start` is a selection from start + 1. */
  lemma LaterSelection(c: seq<nat>, n: nat, r: nat, start: nat)
    requires IsSelection(c, n, r, start) && r > 0 && c[0] != start
    ensures IsSelection(c, n, r, start + 1)
  {
    forall k | 0 <= k < |c|
      ensures start + 1 <= c[k]
    {
      if k > 0 {
        assert c[0] < c[k];
      }
    }
  }

  lemma InPrefix(i: nat, cs: seq<seq<nat>>, t: seq<nat>)
    requires t in cs
    ensures [i] + t in Prefix(i, cs)
  {
    var k :| 0 <= k < |cs| && cs[k] == t;
    assert Prefix(i, cs)[k] == [i] + t;
  }

  lemma {:induction false} BinomialBeyond(n: nat, r: nat)
    requires n < r
    ensures Binomial(n, r) == 0
  {
    if n > 0 {
      BinomialBeyond(n - 1, r - 1);
      BinomialBeyond(n - 1, r);
    }
  }

  /** `combine` produces exactly C(n - start, r) selections. */
  lemma {:induction false} CombosCount(n: nat, r: nat, start: nat)
    requires start <= n
    ensures |Combos(n, r, start)| == Binomial(n - start, r)
    decreases r, n - start
  {
    if r == 0 {
    } else if start + r > n {
      BinomialBeyond(n - start, r);
    } else {
      CombosCount(n, r - 1, start + 1);
      CombosCount(n, r, start + 1);
    }
  }

  /** The selections come out in strictly ascending lexicographic order. */
  lemma {:induction false} CombosSorted(n: nat, r: nat, start: nat)
    ensures LexSorted(Combos(n, r, start))
    decreases r, n - start
  {
    if r > 0 && start + r <= n {
      var tail := Combos(n, r - 1, start + 1);
      var rest := Combos(n, r, start + 1);
      var p := Prefix(start, tail);
      CombosSorted(n, r - 1, start + 1);
      CombosSorted(n, r, start + 1);
      CombosAreSelections(n, r, start + 1);
      forall j, k | 0 <= j < k < |p|
        ensures LexLess(p[j], p[k])
      {
        assert p[j][1..] == tail[j] && p[k][1..] == tail[k];
      }
      forall j, k | 0 <= j < |p| && 0 <= k < |rest|
        ensures LexLess(p[j], rest[k])
      {
        assert rest[k] in rest;
        assert start + 1 <= rest[k][0];
      }
      ConcatSorted(p, rest);
    }
  }

  lemma ConcatSorted(a: seq<seq<nat>>, b: seq<seq<nat>>)
    requires LexSorted(a) && LexSorted(b)
    requires forall j, k :: 0 <= j < |a| && 0 <= k < |b| ==> LexLess(a[j], b[k])
    ensures LexSorted(a + b)
  {
    var s := a + b;
    forall j, k | 0 <= j < k < |s|
      ensures LexLess(s[j], s[k])
    {
      if k < |a| {
        assert s[j] == a[j] && s[k] == a[k];
      } else if j < |a| {
        assert s[j] == a[j] && s[k] == b[k - |a|];
      } else {
        assert s[j] == b[j - |a|] && s[k] == b[k - |a|];
      }
    }
  }

  /** No selection is visited twice. */
  lemma CombosDistinct(n: nat, r: nat, start: nat)
    ensures forall j, k :: 0 <= j < k < |Combos(n, r, start)| ==>
              Combos(n, r, start)[j] != Combos(n, r, start)[k]
  {
    CombosSorted(n, r, start);
    forall j, k | 0 <= j < k < |Combos(n, r, start)|
      ensures Combos(n, r, start)[j] != Combos(n, r, start)[k]
    {
      LexLessIrreflexive(Combos(n, r, start)[j]);
    }
  }

  // ---------------------------------------------------------------------
  // Joining with spaces and splitting again
  // ---------------------------------------------------------------------

  /** `Array.prototype.join(" ")`. */
  function Join(xs: seq<string>): string {
    if |xs| == 0 then ""
    else if |xs| == 1 then xs[0]
    else xs[0] + " " + Join(xs[1..])
  }

  /** Position of the first space, or |s| when there is none. */
  function FirstSpace(s: string): (i: nat)
    ensures i <= |s|
    ensures forall k :: 0 <= k < i ==> s[k] != ' '
    ensures i < |s| ==> s[i] == ' '
  {
    if |s| == 0 then 0
    else if s[0] == ' ' then 0
    else 1 + FirstSpace(s[1..])
  }

  /** `String.prototype.split(" ")`: the pieces between spaces, one more
      piece than there are spaces, so "" splits to [""]. */
  function Split(s: string): (pieces: seq<string>)
    ensures |pieces| >= 1
    decreases |s|
  {
    var i := FirstSpace(s);
    if i == |s| then [s] else [s[..i]] + Split(s[i + 1..])
  }

  predicate NoSpace(x: string) {
    forall k :: 0 <= k < |x| ==> x[k] != ' '
  }

  /** Splitting undoes joining when no value contains a space. */
  lemma {:induction false} SplitJoin(xs: seq<string>)
    requires |xs| >= 1
    requires forall k :: 0 <= k < |xs| ==> NoSpace(xs[k])
    ensures Split(Join(xs)) == xs
    decreases |xs|
  {
    if |xs| == 1 {
      assert FirstSpace(xs[0]) == |xs[0]|;
    } else {
      SplitFirst(xs[0], Join(xs[1..]));
      SplitJoin(xs[1..]);
      assert xs == [xs[0]] + xs[1..];
    }
  }

  /** A space-free piece followed by a space splits off as the first piece. */
  lemma SplitFirst(a: string, b: string)
    requires NoSpace(a)
    ensures Split(a + " " + b) == [a] + Split(b)
  {
    var s := a + " " + b;
    FirstSpaceAfter(a, b);
    assert s[..|a|] == a;
    assert s[|a| + 1..] == b;
  }

  lemma {:induction false} FirstSpaceAfter(a: string, b: string)
    requires NoSpace(a)
    ensures FirstSpace(a + " " + b) == |a|
    decreases |a|
  {
    var s := a + " " + b;
    if |a| > 0 {
      assert s[0] == a[0];
      assert s[1..] == a[1..] + " " + b;
      FirstSpaceAfter(a[1..], b);
    } else {
      assert s[0] == ' ';
    }
  }

  // ---------------------------------------------------------------------
  // generateCombinations
  // ---------------------------------------------------------------------

  /** The values at the chosen indices. */
  function Select(input: seq<string>, c: seq<nat>): (vs: seq<string>)
    requires forall k :: 0 <= k < |c| ==> c[k] < |input|
    ensures |vs| == |c|
    ensures forall k :: 0 <= k < |c| ==> vs[k] == input[c[k]]
  {
    if |c| == 0 then [] else [input[c[0]]] + Select(input, c[1..])
  }

  /** `generateCombinations(input, r)`: every visited selection, joined
      with spaces and split again. */
  function GenerateCombinations(input: seq<string>, r: nat): (out: seq<seq<string>>)
    ensures |out| == |Combos(|input|, r, 0)|
    ensures forall k :: 0 <= k < |out| ==> |out[k]| >= 1
  {
    var cs := Combos(|input|, r, 0);
    CombosAreSelections(|input|, r, 0);
    seq(|cs|, k requires 0 <= k < |cs| => Split(Join(Select(input, cs[k]))))
  }

  /** For r >= 1 and space-free values, each result is exactly the values
      at one increasing index selection; there are C(n, r) of them, each
      selection occurs, and the order is lexicographic by index. */
  lemma GenerateCombinationsSelects(input: seq<string>, r: nat)
    requires r >= 1
    requires forall k :: 0 <= k < |input| ==> NoSpace(input[k])
    ensures |GenerateCombinations(input, r)| == Binomial(|input|, r)
    ensures forall k :: 0 <= k < |GenerateCombinations(input, r)| ==>
              && IsSelection(Combos(|input|, r, 0)[k], |input|, r, 0)
              && GenerateCombinations(input, r)[k] == Select(input, Combos(|input|, r, 0)[k])
  {
    var cs := Combos(|input|, r, 0);
    CombosAreSelections(|input|, r, 0);
    CombosCount(|input|, r, 0);
    forall k | 0 <= k < |cs|
      ensures IsSelection(cs[k], |input|, r, 0)
      ensures GenerateCombinations(input, r)[k] == Select(input, cs[k])
    {
      var vs := Select(input, cs[k]);
      SplitJoin(vs);
    }
  }

  /** With r == 0 the single empty selection joins to "" and splits to [""]. */
  lemma GenerateCombinationsOfZero(input: seq<string>)
    ensures GenerateCombinations(input, 0) == [[""]]
  {
    assert Combos(|input|, 0, 0) == [[]];
    assert Join([]) == "";
    assert Split("") == [""];
  }

  /** With r > n nothing is selected. */
  lemma GenerateCombinationsTooMany(input: seq<string>, r: nat)
    requires r > |input|
    ensures GenerateCombinations(input, r) == []
  {
  }
}
