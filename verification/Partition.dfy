/** Three-way partitioning of a sequence around the elements equal to its middle one. */
module Partition {
  import opened Sequences
  import opened Words

  type Row = seq<Byte>
  type Compare = (Row, Row) -> int

  /** Comparison is a total preorder; elements may be equal without being the same. */
  ghost predicate Preorder(cmp: Compare) {
    && (forall x, y :: cmp(x, y) < 0 <==> cmp(y, x) > 0)
    && (forall x, y, z :: cmp(x, y) <= 0 && cmp(y, z) <= 0 ==> cmp(x, z) <= 0)
  }

  lemma Compares(cmp: Compare, x: Row, y: Row, z: Row)
    requires Preorder(cmp)
    ensures cmp(x, x) == 0
    ensures cmp(x, y) == 0 ==> cmp(y, x) == 0
    ensures cmp(y, z) == 0 ==> (cmp(x, y) < 0 <==> cmp(x, z) < 0) && (cmp(x, y) > 0 <==> cmp(x, z) > 0)
    ensures cmp(x, y) <= 0 && cmp(y, z) <= 0 ==> cmp(x, z) <= 0
    ensures cmp(x, y) < 0 <==> cmp(y, x) > 0
  {
    assert cmp(x, y) <= 0 && cmp(y, z) <= 0 ==> cmp(x, z) <= 0;
    assert cmp(x, z) <= 0 && cmp(z, y) <= 0 ==> cmp(x, y) <= 0;
    assert cmp(y, x) <= 0 && cmp(z, y) <= 0 ==> cmp(z, x) <= 0;
    assert cmp(z, x) <= 0 && cmp(y, z) <= 0 ==> cmp(y, x) <= 0;
  }

  /** a to i below p; lp to hp equal to p; past j above p; the rest not yet known. */
  ghost predicate Part(cmp: Compare, s: seq<Row>, a: nat, i: nat, lp: nat, hp: nat, j: nat, l: nat, p: Row) {
    && a <= i <= lp <= hp <= j < l <= |s|
    && (forall k :: a <= k < i ==> cmp(s[k], p) < 0)
    && (forall k :: lp <= k <= hp ==> cmp(s[k], p) == 0)
    && (forall k :: j < k < l ==> cmp(s[k], p) > 0)
  }

  /** Only the elements from a to l were moved. */
  ghost predicate Shuffled(s: seq<Row>, t: seq<Row>, a: nat, l: nat) {
    a <= l <= |s| == |t| && s[..a] == t[..a] && s[l..] == t[l..] && multiset(s[a..l]) == multiset(t[a..l])
  }

  lemma ShuffledSame(s: seq<Row>, a: nat, l: nat)
    requires a <= l <= |s|
    ensures Shuffled(s, s, a, l)
  {
  }

  lemma ShuffledThen(s: seq<Row>, t: seq<Row>, u: seq<Row>, a: nat, l: nat)
    requires Shuffled(s, t, a, l) && Shuffled(t, u, a, l)
    ensures Shuffled(s, u, a, l)
  {
  }

  lemma ShuffledSwap(s: seq<Row>, a: nat, l: nat, i: nat, j: nat)
    requires a <= i < l <= |s| && a <= j < l
    ensures Shuffled(s, Swap(s, i, j), a, l)
  {
    SwapMultiset(s[a..l], i - a, j - a);
    assert Swap(s, i, j)[a..l] == Swap(s[a..l], i - a, j - a);
  }

  /** The element at i moves to j, the one at j to k, the one at k to i. */
  function Rotate(s: seq<Row>, i: nat, j: nat, k: nat): seq<Row>
    requires i < |s| && j < |s| && k < |s|
  {
    Swap(Swap(s, i, k), j, k)
  }

  lemma ShuffledRotate(s: seq<Row>, a: nat, l: nat, i: nat, j: nat, k: nat)
    requires a <= i < l <= |s| && a <= j < l && a <= k < l
    ensures Shuffled(s, Rotate(s, i, j, k), a, l)
  {
    ShuffledSwap(s, a, l, i, k);
    ShuffledSwap(Swap(s, i, k), a, l, j, k);
    ShuffledThen(s, Swap(s, i, k), Rotate(s, i, j, k), a, l);
  }

  /** A wider window. */
  lemma ShuffledWider(s: seq<Row>, t: seq<Row>, a: nat, l: nat, a': nat, l': nat)
    requires Shuffled(s, t, a, l) && a' <= a <= l <= l' <= |s|
    ensures Shuffled(s, t, a', l')
  {
    assert s[a'..l'] == s[a'..a] + s[a..l] + s[l..l'];
    assert t[a'..l'] == t[a'..a] + t[a..l] + t[l..l'];
    assert s[a'..a] == s[..a][a'..] && t[a'..a] == t[..a][a'..];
    assert s[l..l'] == s[l..][..l' - l] && t[l..l'] == t[l..][..l' - l];
    assert s[..a'] == s[..a][..a'] && t[..a'] == t[..a][..a'];
    assert s[l'..] == s[l..][l' - l..] && t[l'..] == t[l..][l' - l..];
  }

  /** Where a moved element was before. */
  lemma ShuffledFrom(s: seq<Row>, t: seq<Row>, a: nat, l: nat, k: nat) returns (from: nat)
    requires Shuffled(s, t, a, l) && k < |s|
    ensures from < |s| && s[from] == t[k] && if a <= k < l then a <= from < l else from == k
  {
    if a <= k < l {
      assert t[k] == t[a..l][k - a];
      assert t[k] in multiset(t[a..l]);
      assert t[k] in s[a..l];
      var m :| 0 <= m < l - a && s[a..l][m] == t[k];
      from := a + m;
    } else {
      from := k;
      if k < a {
        assert s[k] == s[..a][k] && t[k] == t[..a][k];
      } else {
        assert s[k] == s[l..][k - l] && t[k] == t[l..][k - l];
      }
    }
  }

  // ----- the steps -----

  lemma EqualOnLeft(cmp: Compare, s: seq<Row>, a: nat, i: nat, lp: nat, hp: nat, j: nat, l: nat, p: Row)
    requires Preorder(cmp) && Part(cmp, s, a, i, lp, hp, j, l, p) && i < lp && cmp(s[i], s[lp]) == 0
    ensures Part(cmp, Swap(s, i, lp - 1), a, i, lp - 1, hp, j, l, p)
  {
    Compares(cmp, s[i], s[lp], p);
  }

  lemma BelowOnLeft(cmp: Compare, s: seq<Row>, a: nat, i: nat, lp: nat, hp: nat, j: nat, l: nat, p: Row)
    requires Preorder(cmp) && Part(cmp, s, a, i, lp, hp, j, l, p) && i < lp && cmp(s[i], s[lp]) < 0
    ensures Part(cmp, s, a, i + 1, lp, hp, j, l, p)
  {
    Compares(cmp, s[i], s[lp], p);
  }

  lemma AboveOnLeft(cmp: Compare, s: seq<Row>, a: nat, i: nat, lp: nat, hp: nat, j: nat, l: nat, p: Row)
    requires Preorder(cmp) && Part(cmp, s, a, i, lp, hp, j, l, p) && i < lp && cmp(s[i], s[lp]) > 0
    ensures cmp(s[i], p) > 0
  {
    Compares(cmp, s[i], s[lp], p);
  }

  lemma EqualOnRight(cmp: Compare, s: seq<Row>, a: nat, i: nat, lp: nat, hp: nat, j: nat, l: nat, p: Row)
    requires Preorder(cmp) && Part(cmp, s, a, i, lp, hp, j, l, p) && j > hp && cmp(s[hp], s[j]) == 0
    ensures Part(cmp, Swap(s, hp + 1, j), a, i, lp, hp + 1, j, l, p)
    ensures forall k :: 0 <= k <= hp ==> Swap(s, hp + 1, j)[k] == s[k]
  {
    Compares(cmp, s[hp], s[j], p);
    Compares(cmp, s[j], s[hp], p);
  }

  lemma AboveOnRight(cmp: Compare, s: seq<Row>, a: nat, i: nat, lp: nat, hp: nat, j: nat, l: nat, p: Row)
    requires Preorder(cmp) && Part(cmp, s, a, i, lp, hp, j, l, p) && j > hp && cmp(s[hp], s[j]) < 0
    ensures Part(cmp, s, a, i, lp, hp, j - 1, l, p)
  {
    Compares(cmp, s[hp], s[j], p);
    Compares(cmp, s[j], s[hp], p);
  }

  /** One below on the right, none left over on the left: the pivots move one up. */
  lemma BelowOnRight(cmp: Compare, s: seq<Row>, a: nat, lp: nat, hp: nat, j: nat, l: nat, p: Row)
    requires Preorder(cmp) && Part(cmp, s, a, lp, lp, hp, j, l, p) && j > hp && cmp(s[hp], s[j]) > 0
    ensures Part(cmp, Rotate(s, lp, hp + 1, j), a, lp + 1, lp + 1, hp + 1, j, l, p)
  {
    Compares(cmp, s[hp], s[j], p);
    Compares(cmp, s[j], s[hp], p);
  }

  /** One below on the right, one above on the left. */
  lemma BothWrong(cmp: Compare, s: seq<Row>, a: nat, i: nat, lp: nat, hp: nat, j: nat, l: nat, p: Row)
    requires Preorder(cmp) && Part(cmp, s, a, i, lp, hp, j, l, p) && i < lp && j > hp
    requires cmp(s[hp], s[j]) > 0 && cmp(s[i], p) > 0
    ensures Part(cmp, Swap(s, i, j), a, i + 1, lp, hp, j - 1, l, p)
  {
    Compares(cmp, s[hp], s[j], p);
    Compares(cmp, s[j], s[hp], p);
  }

  /** One above on the left, none left over on the right: the pivots move one down. */
  lemma AboveLeftOver(cmp: Compare, s: seq<Row>, a: nat, i: nat, lp: nat, hp: nat, l: nat, p: Row)
    requires Preorder(cmp) && Part(cmp, s, a, i, lp, hp, hp, l, p) && i < lp && cmp(s[i], p) > 0
    ensures Part(cmp, Rotate(s, hp, lp - 1, i), a, i, lp - 1, hp - 1, hp - 1, l, p)
  {
  }

  // ----- the same, along with what holds whatever the comparison -----

  /** Partitioning is under way. */
  ghost predicate Parting(cmp: Compare, s0: seq<Row>, s: seq<Row>, a: nat, i: nat, lp: nat, hp: nat, j: nat,
        l: nat, p: Row) {
    && a <= i <= lp <= hp <= j < l <= |s|
    && Shuffled(s0, s, a, l)
    && (Preorder(cmp) ==> Part(cmp, s, a, i, lp, hp, j, l, p))
  }

  /** An element seen to be above. */
  ghost predicate Above(cmp: Compare, s: seq<Row>, i: nat, p: Row) {
    i < |s| && (Preorder(cmp) ==> cmp(s[i], p) > 0)
  }

  lemma Begin(cmp: Compare, s: seq<Row>, a: nat, mid: nat, l: nat)
    requires a <= mid < l <= |s|
    ensures Parting(cmp, s, s, a, a, mid, mid, l - 1, l, s[mid])
  {
    ShuffledSame(s, a, l);
    if Preorder(cmp) {
      Compares(cmp, s[mid], s[mid], s[mid]);
    }
  }

  lemma StepEqualOnLeft(cmp: Compare, s0: seq<Row>, s: seq<Row>, a: nat, i: nat, lp: nat, hp: nat, j: nat,
        l: nat, p: Row)
    requires Parting(cmp, s0, s, a, i, lp, hp, j, l, p) && i < lp && cmp(s[i], s[lp]) == 0
    ensures Parting(cmp, s0, Swap(s, i, lp - 1), a, i, lp - 1, hp, j, l, p)
  {
    hide Part, Preorder, Shuffled;
    ShuffledSwap(s, a, l, i, lp - 1);
    ShuffledThen(s0, s, Swap(s, i, lp - 1), a, l);
    if Preorder(cmp) {
      EqualOnLeft(cmp, s, a, i, lp, hp, j, l, p);
    }
  }

  lemma StepOnLeft(cmp: Compare, s0: seq<Row>, s: seq<Row>, a: nat, i: nat, lp: nat, hp: nat, j: nat, l: nat, p: Row)
    requires Parting(cmp, s0, s, a, i, lp, hp, j, l, p) && i < lp
    ensures cmp(s[i], s[lp]) < 0 ==> Parting(cmp, s0, s, a, i + 1, lp, hp, j, l, p)
    ensures cmp(s[i], s[lp]) > 0 ==> Above(cmp, s, i, p)
  {
    hide Part, Preorder, Shuffled;
    if Preorder(cmp) {
      if cmp(s[i], s[lp]) < 0 {
        BelowOnLeft(cmp, s, a, i, lp, hp, j, l, p);
      } else if cmp(s[i], s[lp]) > 0 {
        AboveOnLeft(cmp, s, a, i, lp, hp, j, l, p);
      }
    }
  }

  lemma StepEqualOnRight(cmp: Compare, s0: seq<Row>, s: seq<Row>, a: nat, i: nat, lp: nat, hp: nat, j: nat,
        l: nat, p: Row)
    requires Parting(cmp, s0, s, a, i, lp, hp, j, l, p) && j > hp && cmp(s[hp], s[j]) == 0
    ensures Parting(cmp, s0, Swap(s, hp + 1, j), a, i, lp, hp + 1, j, l, p)
    ensures Above(cmp, s, i, p) ==> Above(cmp, Swap(s, hp + 1, j), i, p)
  {
    hide Part, Preorder, Shuffled;
    ShuffledSwap(s, a, l, hp + 1, j);
    ShuffledThen(s0, s, Swap(s, hp + 1, j), a, l);
    if Preorder(cmp) {
      EqualOnRight(cmp, s, a, i, lp, hp, j, l, p);
    }
  }

  lemma StepAboveOnRight(cmp: Compare, s0: seq<Row>, s: seq<Row>, a: nat, i: nat, lp: nat, hp: nat, j: nat,
        l: nat, p: Row)
    requires Parting(cmp, s0, s, a, i, lp, hp, j, l, p) && j > hp && cmp(s[hp], s[j]) < 0
    ensures Parting(cmp, s0, s, a, i, lp, hp, j - 1, l, p)
  {
    hide Part, Preorder, Shuffled;
    if Preorder(cmp) {
      AboveOnRight(cmp, s, a, i, lp, hp, j, l, p);
    }
  }

  lemma StepBelowOnRight(cmp: Compare, s0: seq<Row>, s: seq<Row>, a: nat, lp: nat, hp: nat, j: nat, l: nat, p: Row)
    requires Parting(cmp, s0, s, a, lp, lp, hp, j, l, p) && j > hp && cmp(s[hp], s[j]) > 0
    ensures Parting(cmp, s0, Rotate(s, lp, hp + 1, j), a, lp + 1, lp + 1, hp + 1, j, l, p)
  {
    hide Part, Preorder, Shuffled;
    ShuffledRotate(s, a, l, lp, hp + 1, j);
    ShuffledThen(s0, s, Rotate(s, lp, hp + 1, j), a, l);
    if Preorder(cmp) {
      BelowOnRight(cmp, s, a, lp, hp, j, l, p);
    }
  }

  lemma StepBothWrong(cmp: Compare, s0: seq<Row>, s: seq<Row>, a: nat, i: nat, lp: nat, hp: nat, j: nat, l: nat, p: Row)
    requires Parting(cmp, s0, s, a, i, lp, hp, j, l, p) && i < lp && j > hp
    requires cmp(s[hp], s[j]) > 0 && Above(cmp, s, i, p)
    ensures Parting(cmp, s0, Swap(s, i, j), a, i + 1, lp, hp, j - 1, l, p)
  {
    hide Part, Preorder, Shuffled;
    ShuffledSwap(s, a, l, i, j);
    ShuffledThen(s0, s, Swap(s, i, j), a, l);
    if Preorder(cmp) {
      BothWrong(cmp, s, a, i, lp, hp, j, l, p);
    }
  }

  lemma StepAboveLeftOver(cmp: Compare, s0: seq<Row>, s: seq<Row>, a: nat, i: nat, lp: nat, hp: nat, l: nat, p: Row)
    requires Parting(cmp, s0, s, a, i, lp, hp, hp, l, p) && i < lp && Above(cmp, s, i, p)
    ensures Parting(cmp, s0, Rotate(s, hp, lp - 1, i), a, i, lp - 1, hp - 1, hp - 1, l, p)
  {
    hide Part, Preorder, Shuffled;
    ShuffledRotate(s, a, l, hp, lp - 1, i);
    ShuffledThen(s0, s, Rotate(s, hp, lp - 1, i), a, l);
    if Preorder(cmp) {
      AboveLeftOver(cmp, s, a, i, lp, hp, l, p);
    }
  }

  // ----- putting the parts in order -----

  ghost predicate Sorted(cmp: Compare, s: seq<Row>, a: nat, l: nat) {
    a <= l <= |s| && forall x, y :: a <= x < y < l ==> cmp(s[x], s[y]) <= 0
  }

  /** Of a0 to l0, everything is in order but for what lies between a and l. */
  ghost predicate Fixed(cmp: Compare, s: seq<Row>, a0: nat, l0: nat, a: nat, l: nat) {
    && a0 <= a <= l <= l0 <= |s|
    && forall x, y :: a0 <= x < y < l0 && (x < a || l <= y) ==> cmp(s[x], s[y]) <= 0
  }

  lemma FixedEnd(cmp: Compare, s: seq<Row>, a0: nat, l0: nat, a: nat, l: nat)
    requires Fixed(cmp, s, a0, l0, a, l) && l - a <= 1
    ensures Sorted(cmp, s, a0, l0)
  {
  }

  lemma FixedShuffled(cmp: Compare, s: seq<Row>, t: seq<Row>, a0: nat, l0: nat, a: nat, l: nat)
    requires Fixed(cmp, s, a0, l0, a, l) && Shuffled(s, t, a, l)
    ensures Fixed(cmp, t, a0, l0, a, l)
  {
    hide Shuffled;
    ShuffledBounds(s, t, a, l);
    forall x, y | a0 <= x < y < l0 && (x < a || l <= y) ensures cmp(t[x], t[y]) <= 0 {
      var x' := ShuffledFrom(s, t, a, l, x);
      var y' := ShuffledFrom(s, t, a, l, y);
    }
  }

  lemma ShuffledBounds(s: seq<Row>, t: seq<Row>, a: nat, l: nat)
    requires Shuffled(s, t, a, l)
    ensures a <= l <= |s| == |t|
  {
  }

  lemma PartShuffledRight(cmp: Compare, s: seq<Row>, t: seq<Row>, a: nat, lp: nat, hp: nat, l: nat, p: Row)
    requires Part(cmp, s, a, lp, lp, hp, hp, l, p) && Shuffled(s, t, hp + 1, l)
    ensures Part(cmp, t, a, lp, lp, hp, hp, l, p)
  {
    hide Shuffled;
    ShuffledBounds(s, t, hp + 1, l);
    forall k | a <= k < l ensures cmp(t[k], p) == cmp(s[k], p) || (k > hp && cmp(t[k], p) > 0) {
      var from := ShuffledFrom(s, t, hp + 1, l, k);
    }
  }

  lemma PartShuffledLeft(cmp: Compare, s: seq<Row>, t: seq<Row>, a: nat, lp: nat, hp: nat, l: nat, p: Row)
    requires Part(cmp, s, a, lp, lp, hp, hp, l, p) && Shuffled(s, t, a, lp)
    ensures Part(cmp, t, a, lp, lp, hp, hp, l, p)
  {
    hide Shuffled;
    ShuffledBounds(s, t, a, lp);
    forall k | a <= k < l ensures cmp(t[k], p) == cmp(s[k], p) || (k < lp && cmp(t[k], p) < 0) {
      var from := ShuffledFrom(s, t, a, lp, k);
    }
  }

  /** Elements of different parts, or both equal to p, are in order. */
  lemma PartOrders(cmp: Compare, s: seq<Row>, a: nat, lp: nat, hp: nat, l: nat, p: Row, x: nat, y: nat)
    requires Preorder(cmp) && Part(cmp, s, a, lp, lp, hp, hp, l, p) && a <= x < y < l && x <= hp && lp <= y
    ensures cmp(s[x], s[y]) <= 0
  {
    Compares(cmp, s[x], p, s[y]);
    Compares(cmp, s[y], p, p);
    Compares(cmp, p, s[y], p);
  }

  lemma FixedRight(cmp: Compare, s: seq<Row>, t: seq<Row>, a0: nat, l0: nat, a: nat, lp: nat, hp: nat, l: nat, p: Row)
    requires Preorder(cmp) && Fixed(cmp, s, a0, l0, a, l) && Part(cmp, s, a, lp, lp, hp, hp, l, p)
    requires Shuffled(s, t, hp + 1, l) && Sorted(cmp, t, hp + 1, l)
    ensures Fixed(cmp, t, a0, l0, a, lp)
  {
    hide Shuffled, Preorder, Part;
    PartBounds(cmp, s, a, lp, hp, l, p);
    ShuffledBounds(s, t, hp + 1, l);
    ShuffledWider(s, t, hp + 1, l, a, l);
    FixedShuffled(cmp, s, t, a0, l0, a, l);
    PartShuffledRight(cmp, s, t, a, lp, hp, l, p);
    forall x, y | a0 <= x < y < l0 && (x < a || lp <= y) ensures cmp(t[x], t[y]) <= 0 {
      if a <= x && y < l && x <= hp {
        PartOrders(cmp, t, a, lp, hp, l, p, x, y);
      }
    }
  }

  lemma FixedLeft(cmp: Compare, s: seq<Row>, t: seq<Row>, a0: nat, l0: nat, a: nat, lp: nat, hp: nat, l: nat, p: Row)
    requires Preorder(cmp) && Fixed(cmp, s, a0, l0, a, l) && Part(cmp, s, a, lp, lp, hp, hp, l, p)
    requires Shuffled(s, t, a, lp) && Sorted(cmp, t, a, lp)
    ensures Fixed(cmp, t, a0, l0, hp + 1, l)
  {
    hide Shuffled, Preorder, Part;
    PartBounds(cmp, s, a, lp, hp, l, p);
    ShuffledBounds(s, t, a, lp);
    ShuffledWider(s, t, a, lp, a, l);
    FixedShuffled(cmp, s, t, a0, l0, a, l);
    PartShuffledLeft(cmp, s, t, a, lp, hp, l, p);
    forall x, y | a0 <= x < y < l0 && (x < hp + 1 || l <= y) ensures cmp(t[x], t[y]) <= 0 {
      if a <= x && y < l && lp <= y {
        PartOrders(cmp, t, a, lp, hp, l, p, x, y);
      }
    }
  }

  lemma PartBounds(cmp: Compare, s: seq<Row>, a: nat, lp: nat, hp: nat, l: nat, p: Row)
    requires Part(cmp, s, a, lp, lp, hp, hp, l, p)
    ensures a <= lp <= hp < l <= |s|
  {
  }

  // ----- one turn of the sort -----

  /** The sort of a0 to l0 has come down to a to l. */
  ghost predicate Sorting(cmp: Compare, s0: seq<Row>, s: seq<Row>, a0: nat, l0: nat, a: nat, l: nat) {
    && a0 <= a <= l <= l0 <= |s|
    && Shuffled(s0, s, a0, l0)
    && (Preorder(cmp) ==> Fixed(cmp, s, a0, l0, a, l))
  }

  /** What sorting a to l gives. */
  ghost predicate Sorts(cmp: Compare, s: seq<Row>, t: seq<Row>, a: nat, l: nat) {
    Shuffled(s, t, a, l) && (Preorder(cmp) ==> Sorted(cmp, t, a, l))
  }

  lemma SortingStart(cmp: Compare, s: seq<Row>, a: nat, l: nat)
    requires a <= l <= |s|
    ensures Sorting(cmp, s, s, a, l, a, l)
  {
    ShuffledSame(s, a, l);
  }

  lemma SortingEnd(cmp: Compare, s0: seq<Row>, s: seq<Row>, a0: nat, l0: nat, a: nat, l: nat)
    requires Sorting(cmp, s0, s, a0, l0, a, l) && l - a <= 1
    ensures Sorts(cmp, s0, s, a0, l0)
  {
    if Preorder(cmp) {
      FixedEnd(cmp, s, a0, l0, a, l);
    }
  }

  /** Partitioned to t, then one side sorted to u: the other side is left to do. */
  lemma SortingRight(cmp: Compare, s0: seq<Row>, s: seq<Row>, t: seq<Row>, u: seq<Row>,
      a0: nat, l0: nat, a: nat, lp: nat, hp: nat, l: nat, p: Row)
    requires Sorting(cmp, s0, s, a0, l0, a, l) && Parting(cmp, s, t, a, lp, lp, hp, hp, l, p)
    requires Sorts(cmp, t, u, hp + 1, l)
    ensures Sorting(cmp, s0, u, a0, l0, a, lp)
  {
    hide Shuffled, Preorder, Part, Fixed, Sorted;
    ShuffledBounds(t, u, hp + 1, l);
    ShuffledBounds(s, t, a, l);
    ShuffledBounds(s0, s, a0, l0);
    ShuffledWider(s, t, a, l, a0, l0);
    ShuffledWider(t, u, hp + 1, l, a0, l0);
    ShuffledThen(s0, s, t, a0, l0);
    ShuffledThen(s0, t, u, a0, l0);
    if Preorder(cmp) {
      FixedShuffled(cmp, s, t, a0, l0, a, l);
      FixedRight(cmp, t, u, a0, l0, a, lp, hp, l, p);
    }
  }

  lemma SortingLeft(cmp: Compare, s0: seq<Row>, s: seq<Row>, t: seq<Row>, u: seq<Row>,
      a0: nat, l0: nat, a: nat, lp: nat, hp: nat, l: nat, p: Row)
    requires Sorting(cmp, s0, s, a0, l0, a, l) && Parting(cmp, s, t, a, lp, lp, hp, hp, l, p)
    requires Sorts(cmp, t, u, a, lp)
    ensures Sorting(cmp, s0, u, a0, l0, hp + 1, l)
  {
    hide Shuffled, Preorder, Part, Fixed, Sorted;
    ShuffledBounds(t, u, a, lp);
    ShuffledBounds(s, t, a, l);
    ShuffledBounds(s0, s, a0, l0);
    ShuffledWider(s, t, a, l, a0, l0);
    ShuffledWider(t, u, a, lp, a0, l0);
    ShuffledThen(s0, s, t, a0, l0);
    ShuffledThen(s0, t, u, a0, l0);
    if Preorder(cmp) {
      FixedShuffled(cmp, s, t, a0, l0, a, l);
      FixedLeft(cmp, t, u, a0, l0, a, lp, hp, l, p);
    }
  }
}
