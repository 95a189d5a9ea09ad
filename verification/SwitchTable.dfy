/** The table of a switch: entries kept in increasing order of case value. */
module SwitchTable {
  import opened Machine

  predicate Increasing(t: seq<Entry>) {
    forall i, j :: 0 <= i < j < |t| ==> t[i].value < t[j].value
  }

  function Values(t: seq<Entry>): (vs: seq<int>)
    ensures |vs| == |t|
  {
    seq(|t|, i requires 0 <= i < |t| => t[i].value)
  }

  lemma ValuesNone()
    ensures Values([]) == []
  {
  }

  lemma ValuesOne(e: Entry)
    ensures Values([e]) == [e.value]
  {
  }

  lemma ValuesConcat(a: seq<Entry>, b: seq<Entry>)
    ensures Values(a + b) == Values(a) + Values(b)
  {
  }

  /** Where a new value goes among increasing ones. */
  function Insert(t: seq<Entry>, e: Entry): seq<Entry> {
    if t == [] || t[|t| - 1].value < e.value then t + [e]
    else Insert(t[..|t| - 1], e) + [t[|t| - 1]]
  }

  /** The table after the entries have been added in the order of the text. */
  function Table(entries: seq<Entry>): seq<Entry> {
    if entries == [] then [] else Insert(Table(entries[..|entries| - 1]), entries[|entries| - 1])
  }

  lemma {:induction false} InsertIncreasing(t: seq<Entry>, e: Entry)
    requires Increasing(t) && forall i :: 0 <= i < |t| ==> t[i].value != e.value
    ensures Increasing(Insert(t, e))
    ensures multiset(Insert(t, e)) == multiset(t) + multiset{e}
  {
    if t == [] || t[|t| - 1].value < e.value {
    } else {
      var t', l := t[..|t| - 1], t[|t| - 1];
      assert t == t' + [l];
      InsertIncreasing(t', e);
      InsertFrom(t', e);
      forall x | x in Insert(t', e) ensures x.value < l.value {
        if x != e {
          var i :| 0 <= i < |t'| && t'[i] == x;
          assert t[i].value < t[|t| - 1].value;
        }
      }
    }
  }

  lemma {:induction false} InsertFrom(t: seq<Entry>, e: Entry)
    ensures forall x :: x in Insert(t, e) ==> x == e || x in t
  {
    if t == [] || t[|t| - 1].value < e.value {
    } else {
      InsertFrom(t[..|t| - 1], e);
    }
  }

  /** Strictly increasing, and exactly the entries that were added. */
  lemma {:induction false} TableCorrect(entries: seq<Entry>)
    requires forall i, j :: 0 <= i < j < |entries| ==> entries[i].value != entries[j].value
    ensures Increasing(Table(entries)) && multiset(Table(entries)) == multiset(entries)
  {
    if entries != [] {
      var most, e := entries[..|entries| - 1], entries[|entries| - 1];
      TableCorrect(most);
      assert entries == most + [e];
      forall i | 0 <= i < |Table(most)| ensures Table(most)[i].value != e.value {
        assert Table(most)[i] in multiset(Table(most));
        assert Table(most)[i] in most;
      }
      InsertIncreasing(Table(most), e);
    }
  }

  /** The label of the last entry with value v, 0 if none. */
  function LastLabel(t: seq<Entry>, v: int): Label {
    if t == [] then 0
    else if t[|t| - 1].value == v then t[|t| - 1].lab
    else LastLabel(t[..|t| - 1], v)
  }

  lemma {:induction false} LastLabelConcat(a: seq<Entry>, b: seq<Entry>, v: int)
    ensures LastLabel(a + b, v) == if v in Values(b) then LastLabel(b, v) else LastLabel(a, v)
  {
    if b == [] {
      assert a + b == a;
    } else {
      var b', l := b[..|b| - 1], b[|b| - 1];
      assert (a + b)[..|a + b| - 1] == a + b';
      assert b == b' + [l];
      ValuesConcat(b', [l]);
      if l.value == v {
        assert Values(b)[|b| - 1] == v;
      } else {
        LastLabelConcat(a, b', v);
        assert forall i :: 0 <= i < |b'| ==> Values(b)[i] == Values(b')[i];
      }
    }
  }

  lemma {:induction false} LastLabelIn(t: seq<Entry>, v: int)
    requires v in Values(t)
    ensures Entry(v, LastLabel(t, v)) in t
  {
    var t', l := t[..|t| - 1], t[|t| - 1];
    assert t == t' + [l];
    if l.value != v {
      ValuesConcat(t', [l]);
      LastLabelIn(t', v);
    }
  }

  lemma {:induction false} SelectIn(t: seq<Entry>, dflt: Label, v: int)
    ensures v in Values(t) ==> Entry(v, Select(t, dflt, v)) in t
    ensures v !in Values(t) ==> Select(t, dflt, v) == dflt
  {
    if t != [] {
      SelectIn(t[1..], dflt, v);
      assert t == [t[0]] + t[1..];
      ValuesConcat([t[0]], t[1..]);
      assert Values(t)[0] == t[0].value;
    }
  }

  /** The switch operator finds in the sorted table the label the text gave. */
  lemma SelectCorrect(entries: seq<Entry>, dflt: Label, v: int)
    requires forall i, j :: 0 <= i < j < |entries| ==> entries[i].value != entries[j].value
    ensures Select(Table(entries), dflt, v) == if v in Values(entries) then LastLabel(entries, v) else dflt
  {
    var t := Table(entries);
    TableCorrect(entries);
    SelectIn(t, dflt, v);
    forall e: Entry ensures e in t <==> e in entries {
      assert e in t <==> e in multiset(t);
      assert e in entries <==> e in multiset(entries);
    }
    ValuesSubset(t, entries);
    ValuesSubset(entries, t);
    if v in Values(entries) {
      LastLabelIn(entries, v);
    }
  }

  lemma ValuesSubset(a: seq<Entry>, b: seq<Entry>)
    requires forall e :: e in a ==> e in b
    ensures forall v :: v in Values(a) ==> v in Values(b)
  {
    forall v | v in Values(a) ensures v in Values(b) {
      var i :| 0 <= i < |a| && Values(a)[i] == v;
      assert a[i] in b;
      var j :| 0 <= j < |b| && b[j] == a[i];
      assert Values(b)[j] == v;
    }
  }
}
