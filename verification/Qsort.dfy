/** The library's quicksort, on an array of records of equal width. */
module Qsort {
  import opened Bits
  import opened Partition
  import opened Sequences
  import opened Words

  function RowAt(m: array2<Byte>, i: nat): Row
    requires i < m.Length0
    reads m
  {
    seq(m.Length1, c requires 0 <= c < m.Length1 reads m => m[i, c])
  }

  ghost function Rows(m: array2<Byte>): (s: seq<Row>)
    reads m
    ensures |s| == m.Length0
  {
    seq(m.Length0, i requires 0 <= i < m.Length0 reads m => RowAt(m, i))
  }

  lemma RowsAt(m: array2<Byte>, s: seq<Row>)
    requires |s| == m.Length0
    requires forall i :: 0 <= i < |s| ==> |s[i]| == m.Length1
    requires forall i, c :: 0 <= i < |s| && 0 <= c < m.Length1 ==> m[i, c] == s[i][c]
    ensures Rows(m) == s
  {
    forall i | 0 <= i < |s| ensures Rows(m)[i] == s[i] {
      assert RowAt(m, i) == s[i];
    }
  }

  /** qsexc: exchanges two records byte by byte. */
  method Exchange(m: array2<Byte>, i: nat, j: nat)
    requires i < m.Length0 && j < m.Length0
    modifies m
    ensures Rows(m) == Swap(old(Rows(m)), i, j)
  {
    ghost var s := Rows(m);
    for n := 0 to m.Length1
      invariant forall r, c :: 0 <= r < m.Length0 && 0 <= c < m.Length1 ==>
        m[r, c] == if c >= n then s[r][c] else Swap(s, i, j)[r][c]
    {
      var c := m[i, n];
      m[i, n] := m[j, n];
      m[j, n] := c;
    }
    RowsAt(m, Swap(s, i, j));
  }

  /** qstexc: rotates three records byte by byte. */
  method RotateThree(m: array2<Byte>, i: nat, j: nat, k: nat)
    requires i < m.Length0 && j < m.Length0 && k < m.Length0 && i != j && i != k
    modifies m
    ensures Rows(m) == Rotate(old(Rows(m)), i, j, k)
  {
    ghost var s := Rows(m);
    for n := 0 to m.Length1
      invariant forall r, c :: 0 <= r < m.Length0 && 0 <= c < m.Length1 ==>
        m[r, c] == if c >= n then s[r][c] else Rotate(s, i, j, k)[r][c]
    {
      var c := m[i, n];
      m[i, n] := m[k, n];
      m[k, n] := m[j, n];
      m[j, n] := c;
    }
    RowsAt(m, Rotate(s, i, j, k));
  }

  /** The loop of qs1 that partitions a to l around its middle element. */
  method Split(m: array2<Byte>, cmp: Compare, a: nat, l: nat) returns (lp: nat, hp: nat, ghost p: Row)
    requires a + 1 < l <= m.Length0
    modifies m
    ensures Parting(cmp, old(Rows(m)), Rows(m), a, lp, lp, hp, hp, l, p)
  {
    hide Parting, Above, Rows, Swap, Rotate;
    ghost var s0 := Rows(m);
    var i, j, c := a, l - 1, 0;
    lp := a + (l - a) / 2;
    hp := lp;
    p := s0[lp];
    Begin(cmp, s0, a, lp, l);
    label Outer:
    while true
      invariant a <= i <= lp <= hp <= j < l && Parting(cmp, s0, Rows(m), a, i, lp, hp, j, l, p)
      decreases lp - i + j - hp
    {
      ghost var open := lp - i + j - hp;
      RowsEach(m);
      if i < lp {
        c := cmp(RowAt(m, i), RowAt(m, lp));
        StepOnLeft(cmp, s0, Rows(m), a, i, lp, hp, j, l, p);
        if c == 0 {
          StepEqualOnLeft(cmp, s0, Rows(m), a, i, lp, hp, j, l, p);
          lp := lp - 1;
          Exchange(m, i, lp);
          continue;
        }
        if c < 0 {
          i := i + 1;
          continue;
        }
      }
      while j > hp
        invariant a <= i <= lp <= hp <= j < l && Parting(cmp, s0, Rows(m), a, i, lp, hp, j, l, p)
        invariant i < lp ==> Above(cmp, Rows(m), i, p)
        invariant lp - i + j - hp <= open
        decreases j - hp
      {
        RowsEach(m);
        c := cmp(RowAt(m, hp), RowAt(m, j));
        if c == 0 {
          StepEqualOnRight(cmp, s0, Rows(m), a, i, lp, hp, j, l, p);
          hp := hp + 1;
          Exchange(m, hp, j);
        } else if c > 0 {
          if i == lp {
            StepBelowOnRight(cmp, s0, Rows(m), a, lp, hp, j, l, p);
            hp := hp + 1;
            RotateThree(m, i, hp, j);
            lp := lp + 1;
            i := lp;
          } else {
            StepBothWrong(cmp, s0, Rows(m), a, i, lp, hp, j, l, p);
            Exchange(m, i, j);
            j := j - 1;
            i := i + 1;
            continue Outer;
          }
        } else {
          StepAboveOnRight(cmp, s0, Rows(m), a, i, lp, hp, j, l, p);
          j := j - 1;
        }
      }
      if i == lp {
        return;
      }
      StepAboveLeftOver(cmp, s0, Rows(m), a, i, lp, hp, l, p);
      lp := lp - 1;
      RotateThree(m, j, lp, i);
      hp := hp - 1;
      j := hp;
    }
  }

  lemma RowsEach(m: array2<Byte>)
    ensures forall i :: 0 <= i < m.Length0 ==> Rows(m)[i] == RowAt(m, i)
  {
  }

  /** qs1: sorts a0 to l0.  Only the smaller part is sorted by recursion, so the
      number of calls open at once is at most one more than the logarithm. */
  method Qs1(m: array2<Byte>, cmp: Compare, a0: nat, l0: nat) returns (ghost frames: nat)
    requires a0 <= l0 <= m.Length0
    modifies m
    ensures Sorts(cmp, old(Rows(m)), Rows(m), a0, l0)
    ensures frames >= 1 && Pow2(frames - 1) <= l0 - a0 + 1
    decreases l0 - a0
  {
    hide Sorts, Sorting, Parting, Rows;
    ghost var s0 := Rows(m);
    var a, l := a0, l0;
    frames := 1;
    SortingStart(cmp, s0, a, l);
    while l - a > 1
      invariant a0 <= a <= l <= l0 && Sorting(cmp, s0, Rows(m), a0, l0, a, l)
      invariant frames >= 1 && Pow2(frames - 1) <= l0 - a0 + 1
      decreases l - a
    {
      ghost var s := Rows(m);
      var lp, hp, p := Split(m, cmp, a, l);
      ghost var t := Rows(m);
      PartingBounds(cmp, s, t, a, lp, hp, l, p);
      ghost var inner;
      if lp - a >= l - hp {
        inner := Qs1(m, cmp, hp + 1, l);
        SortingRight(cmp, s0, s, t, Rows(m), a0, l0, a, lp, hp, l, p);
        l := lp;
      } else {
        inner := Qs1(m, cmp, a, lp);
        SortingLeft(cmp, s0, s, t, Rows(m), a0, l0, a, lp, hp, l, p);
        a := hp + 1;
      }
      frames := if frames < inner + 1 then inner + 1 else frames;
    }
    SortingEnd(cmp, s0, Rows(m), a0, l0, a, l);
  }

  lemma PartingBounds(cmp: Compare, s: seq<Row>, t: seq<Row>, a: nat, lp: nat, hp: nat, l: nat, p: Row)
    requires Parting(cmp, s, t, a, lp, lp, hp, hp, l, p)
    ensures a <= lp <= hp < l
  {
  }

  /** qsort: always a permutation; in order when the comparison is a total preorder. */
  method Qsort(m: array2<Byte>, cmp: Compare) returns (ghost frames: nat)
    modifies m
    ensures multiset(Rows(m)) == multiset(old(Rows(m)))
    ensures Preorder(cmp) ==> Sorted(cmp, Rows(m), 0, m.Length0)
    ensures frames >= 1 && Pow2(frames - 1) <= m.Length0 + 1
  {
    hide Rows, Preorder, Sorted;
    ghost var s := Rows(m);
    frames := Qs1(m, cmp, 0, m.Length0);
    assert s[0..m.Length0] == s && Rows(m)[0..m.Length0] == Rows(m);
  }
}
