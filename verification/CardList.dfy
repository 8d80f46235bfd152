/** The ordered list of card ids (`st.session_state.cards`) as a value:
    id allocation by `max(cards, default=-1) + 1`, Python's `list.insert`
    position rule, and the list invariants (ids distinct, non-negative). */
module CardList {

  /** No id occurs twice. */
  ghost predicate Distinct(s: seq<int>)
  {
    forall j, k :: 0 <= j < k < |s| ==> s[j] != s[k]
  }

  /** Every id is non-negative. */
  ghost predicate NonNegative(s: seq<int>)
  {
    forall k :: 0 <= k < |s| ==> s[k] >= 0
  }

  /** Python's `max(s, default=d)`. */
  function MaxOr(s: seq<int>, d: int): (m: int)
    ensures |s| == 0 ==> m == d
    ensures |s| > 0 ==> m in s
    ensures forall k :: 0 <= k < |s| ==> s[k] <= m
    decreases |s|
  {
    if |s| == 0 then d
    else if |s| == 1 then s[0]
    else
      var rest := MaxOr(s[1..], d);
      if s[0] >= rest then s[0] else rest
  }

  /** The id `add_card` allocates: `max(cards, default=-1) + 1`. */
  function NextId(cards: seq<int>): (r: int)
    ensures |cards| == 0 ==> r == 0
    ensures forall k :: 0 <= k < |cards| ==> cards[k] < r
  {
    MaxOr(cards, -1) + 1
  }

  /** The allocated id is 0 for an empty list, is otherwise one above an
      existing id, is strictly above every id and so not already present,
      and is non-negative whenever the list is. */
  lemma NextIdFresh(cards: seq<int>)
    ensures |cards| == 0 ==> NextId(cards) == 0
    ensures |cards| > 0 ==> NextId(cards) - 1 in cards
    ensures forall k :: 0 <= k < |cards| ==> cards[k] < NextId(cards)
    ensures NextId(cards) !in cards
    ensures NonNegative(cards) ==> NextId(cards) >= 0
  {
    if |cards| > 0 && NonNegative(cards) {
      assert cards[0] >= 0;
    }
  }

  /** The position CPython's `list.insert(where, x)` actually uses on a list
      of length n: a negative `where` counts from the end, and the result is
      clamped to 0..n. */
  function InsertPos(where: int, n: nat): (p: nat)
    ensures p <= n
    ensures 0 <= where <= n ==> p == where
    ensures where > n ==> p == n
    ensures where < 0 ==> p == if where + n < 0 then 0 else where + n
  {
    if where < 0 then (if where + n < 0 then 0 else where + n)
    else if where > n then n
    else where
  }

  /** `s` with `x` placed at position `p`. */
  function Insert(s: seq<int>, p: nat, x: int): (r: seq<int>)
    requires p <= |s|
    ensures |r| == |s| + 1 && r[p] == x
  {
    s[..p] + [x] + s[p..]
  }

  /** What `insert` does to the list, element by element: the prefix is
      kept, `x` sits at `p`, the rest is shifted up by one. */
  lemma InsertShape(s: seq<int>, p: nat, x: int)
    requires p <= |s|
    ensures |Insert(s, p, x)| == |s| + 1
    ensures Insert(s, p, x)[p] == x
    ensures forall k :: 0 <= k < p ==> Insert(s, p, x)[k] == s[k]
    ensures forall k :: p < k <= |s| ==> Insert(s, p, x)[k] == s[k - 1]
    ensures Insert(s, p, x)[..p] == s[..p] && Insert(s, p, x)[p + 1..] == s[p..]
    ensures multiset(Insert(s, p, x)) == multiset(s) + multiset{x}
  {
    var r := Insert(s, p, x);
    assert r[p + 1..] == s[p..];
    assert s == s[..p] + s[p..];
  }

  /** Inserting the id `add_card` allocates keeps the list free of
      duplicates and of negative ids. */
  lemma InsertNextIdKeepsInvariant(s: seq<int>, p: nat)
    requires p <= |s|
    requires Distinct(s) && NonNegative(s)
    ensures Distinct(Insert(s, p, NextId(s)))
    ensures NonNegative(Insert(s, p, NextId(s)))
  {
    var x := NextId(s);
    var r := Insert(s, p, x);
    NextIdFresh(s);
    InsertShape(s, p, x);
    forall j, k | 0 <= j < k < |r| ensures r[j] != r[k] {
      if j == p {
        assert r[k] == s[k - 1];
      } else if k == p {
        assert r[j] == s[j];
      } else {
        var j' := if j < p then j else j - 1;
        var k' := if k < p then k else k - 1;
        assert r[j] == s[j'] && r[k] == s[k'] && j' < k';
      }
    }
    forall k | 0 <= k < |r| ensures r[k] >= 0 {
      if k < p { assert r[k] == s[k]; }
      else if k > p { assert r[k] == s[k - 1]; }
    }
  }

  /** Position of an id in the list. */
  function IndexOf(s: seq<int>, x: int): (i: nat)
    requires x in s
    ensures i < |s| && s[i] == x
    ensures x !in s[..i]
    decreases |s|
  {
    if s[0] == x then 0 else
      var j := IndexOf(s[1..], x);
      assert s[..j + 1] == [s[0]] + s[1..][..j];
      j + 1
  }

  /** In a duplicate-free list an id's position is the only one holding it. */
  lemma IndexOfUnique(s: seq<int>, k: nat)
    requires Distinct(s) && k < |s|
    ensures IndexOf(s, s[k]) == k
  {
  }

  /** The scenario of a fresh session: [0], add below index 0 gives [0, 1],
      add below index 0 again gives [0, 2, 1]. */
  lemma AddBelowScenario()
    ensures Insert([0], InsertPos(0 + 1, 1), NextId([0])) == [0, 1]
    ensures Insert([0, 1], InsertPos(0 + 1, 2), NextId([0, 1])) == [0, 2, 1]
  {
    assert NextId([0]) == 1;
    assert [0, 1][1..] == [1];
    assert NextId([0, 1]) == 2;
  }
}
