/** Group-and-sum: the `GROUP BY ... SUM(amount)` queries and the
    insertion-ordered dictionaries (`totals[label] = totals.get(label, 0) + value`)
    that both revisions build. A group is a labelled total; a dictionary that
    keeps insertion order is a sequence of groups with distinct labels. */
module Grouping {
  import opened Ledger

  /** A labelled amount: a (label, total) pair of a breakdown, a series or a
      zip of labels and data. */
  datatype Entry<K> = Entry(name: K, total: int)

  function EntryTotal<K>(e: Entry<K>): int
  {
    e.total
  }

  function Labels<K>(es: seq<Entry<K>>): (ls: seq<K>)
    ensures |ls| == |es|
  {
    seq(|es|, i requires 0 <= i < |es| => es[i].name)
  }

  function Totals<K>(es: seq<Entry<K>>): (ts: seq<int>)
    ensures |ts| == |es|
  {
    seq(|es|, i requires 0 <= i < |es| => es[i].total)
  }

  predicate DistinctLabels<K(==)>(es: seq<Entry<K>>)
  {
    forall i, j :: 0 <= i < j < |es| ==> es[i].name != es[j].name
  }

  /** The position of the first entry labelled `k`, or |es| when there is none. */
  function IndexOf<K(==)>(es: seq<Entry<K>>, k: K): (r: nat)
    ensures r <= |es|
    ensures r < |es| ==> es[r].name == k
    ensures forall j :: 0 <= j < r ==> es[j].name != k
  {
    if es == [] then 0
    else if es[0].name == k then 0
    else 1 + IndexOf(es[1..], k)
  }

  /** `totals.get(k, 0)`. */
  function TotalOf<K(==)>(es: seq<Entry<K>>, k: K): int
  {
    var i := IndexOf(es, k);
    if i < |es| then es[i].total else 0
  }

  /** The sum of all totals (of a breakdown, or of the values of a zip). */
  function SumTotals<K>(es: seq<Entry<K>>): int
  {
    if es == [] then 0 else SumTotals(es[..|es| - 1]) + es[|es| - 1].total
  }

  /** The sum of the values paired with label `k`. */
  function LabelSum<K(==)>(ps: seq<Entry<K>>, k: K): int
  {
    if ps == [] then 0
    else LabelSum(ps[..|ps| - 1], k) + (if ps[|ps| - 1].name == k then ps[|ps| - 1].total else 0)
  }

  /** `totals[k] = totals.get(k, 0) + a` on an insertion-ordered dict: an
      existing key keeps its place, a new key goes last. */
  function AddTo<K(==)>(es: seq<Entry<K>>, k: K, a: int): seq<Entry<K>>
  {
    var i := IndexOf(es, k);
    if i < |es| then es[i := Entry(k, es[i].total + a)] else es + [Entry(k, a)]
  }

  /** Adding every pair of `ps`, in order, to the dict `es`. */
  function Grouped<K(==)>(es: seq<Entry<K>>, ps: seq<Entry<K>>): seq<Entry<K>>
  {
    if ps == [] then es
    else AddTo(Grouped(es, ps[..|ps| - 1]), ps[|ps| - 1].name, ps[|ps| - 1].total)
  }

  /** Each row's amount labelled by a grouping key (`values("category__name")`,
      `TruncMonth("date")`, `ExtractDay("date")`, ...). */
  function Keyed<K>(rows: seq<Txn>, key: Txn -> K): (ps: seq<Entry<K>>)
    ensures |ps| == |rows|
  {
    seq(|rows|, i requires 0 <= i < |rows| => Entry(key(rows[i]), rows[i].amount))
  }

  /** `.values(key).annotate(total=Sum("amount"))`: one group per key, each
      with the sum of its rows. */
  function GroupTotals<K(==)>(rows: seq<Txn>, key: Txn -> K): seq<Entry<K>>
  {
    Grouped([], Keyed(rows, key))
  }

  /** The sum of the amounts of the rows whose key is `k`. */
  function KeySum<K(==)>(rows: seq<Txn>, key: Txn -> K, k: K): int
  {
    LabelSum(Keyed(rows, key), k)
  }

  /** The filter "the key of the row is `k`". */
  function HasKey<K(==)>(key: Txn -> K, k: K): Txn -> bool
  {
    t => key(t) == k
  }

  /** The labels seen, each once, in the order of first appearance. */
  function FirstSeen<K(==)>(ls: seq<K>): seq<K>
  {
    if ls == [] then []
    else if ls[|ls| - 1] in ls[..|ls| - 1] then FirstSeen(ls[..|ls| - 1])
    else FirstSeen(ls[..|ls| - 1]) + [ls[|ls| - 1]]
  }

  /** `zip(labels, data)` (strict=False): the pairs up to the shorter of the two. */
  function Zip<K>(labels: seq<K>, data: seq<int>): (ps: seq<Entry<K>>)
    ensures |ps| == if |labels| <= |data| then |labels| else |data|
  {
    var n := if |labels| <= |data| then |labels| else |data|;
    seq(n, i requires 0 <= i < n => Entry(labels[i], data[i]))
  }

  /** A Python dict that keeps insertion order, held as its keys in insertion
      order and the key-to-value map. */
  predicate OrderedDict<K(==)>(keys: seq<K>, totals: map<K, int>)
  {
    && (forall i, j :: 0 <= i < j < |keys| ==> keys[i] != keys[j])
    && (forall k :: k in keys ==> k in totals)
    && (forall k :: k in totals ==> k in keys)
  }

  /** The dict's items, in order. */
  function Items<K(==)>(keys: seq<K>, totals: map<K, int>): (es: seq<Entry<K>>)
    requires OrderedDict(keys, totals)
    ensures Labels(es) == keys
  {
    seq(|keys|, i requires 0 <= i < |keys| => Entry(keys[i], totals[keys[i]]))
  }

  /** The two loops `for label, value in zip(labels, data): totals[label] =
      totals.get(label, 0) + value`, run on the dict (keys, totals). */
  method AddPairs<K(==)>(keys: seq<K>, totals: map<K, int>, labels: seq<K>, data: seq<int>)
    returns (keys': seq<K>, totals': map<K, int>)
    requires OrderedDict(keys, totals)
    ensures OrderedDict(keys', totals')
    ensures Items(keys', totals') == Grouped(Items(keys, totals), Zip(labels, data))
  {
    var pairs := Zip(labels, data);
    keys', totals' := keys, totals;
    for i := 0 to |pairs|
      invariant OrderedDict(keys', totals')
      invariant Items(keys', totals') == Grouped(Items(keys, totals), pairs[..i])
    {
      var name, value := labels[i], data[i];
      assert pairs[i] == Entry(name, value);
      ghost var before := Items(keys', totals');
      var previous := if name in totals' then totals'[name] else 0;
      if name !in totals' {
        keys' := keys' + [name];
      }
      totals' := totals'[name := previous + value];
      DictAdd(before, keys', totals', name, value);
      assert pairs[..i + 1] == pairs[..i] + [pairs[i]];
      GroupedSnoc(Items(keys, totals), pairs[..i], pairs[i]);
    }
    assert pairs[..|pairs|] == pairs;
  }

  /** One dict assignment, as the pair of keys and map see it, is AddTo. */
  lemma DictAdd<K>(before: seq<Entry<K>>, keys: seq<K>, totals: map<K, int>, name: K, value: int)
    requires DistinctLabels(before)
    requires OrderedDict(keys, totals)
    requires name in Labels(before) ==> keys == Labels(before)
    requires name !in Labels(before) ==> keys == Labels(before) + [name]
    requires forall i :: 0 <= i < |before| && before[i].name != name ==>
      before[i].name in totals && totals[before[i].name] == before[i].total
    requires name in totals && totals[name] == TotalOf(before, name) + value
    ensures Items(keys, totals) == AddTo(before, name, value)
  {
    var p := IndexOf(before, name);
    var r := AddTo(before, name, value);
    var items := Items(keys, totals);
    if p < |before| {
      assert Labels(before)[p] == name;
      assert |items| == |r|;
      forall x | 0 <= x < |r|
        ensures items[x] == r[x]
      {
        assert keys[x] == Labels(before)[x] == before[x].name;
        if x != p {
          assert before[x].name != name;
        }
      }
    } else {
      assert |items| == |r|;
      forall x | 0 <= x < |r|
        ensures items[x] == r[x]
      {
        if x < |before| {
          assert keys[x] == Labels(before)[x] == before[x].name;
          assert before[x].name != name by { assert Labels(before)[x] == before[x].name; }
        }
      }
    }
  }

  // ---------------------------------------------------------------------
  // Lemmas

  lemma SumTotalsSnoc<K>(es: seq<Entry<K>>, e: Entry<K>)
    ensures SumTotals(es + [e]) == SumTotals(es) + e.total
  {
    assert (es + [e])[..|es|] == es;
  }

  lemma {:induction false} SumTotalsUpdate<K>(es: seq<Entry<K>>, p: nat, e: Entry<K>)
    requires p < |es|
    ensures SumTotals(es[p := e]) == SumTotals(es) - es[p].total + e.total
    decreases |es|
  {
    var n := |es| - 1;
    if p < n {
      assert es[p := e][..n] == es[..n][p := e];
      SumTotalsUpdate(es[..n], p, e);
    } else {
      assert es[p := e][..n] == es[..n];
    }
  }

  lemma LabelSumSnoc<K>(ps: seq<Entry<K>>, e: Entry<K>, k: K)
    ensures LabelSum(ps + [e], k) == LabelSum(ps, k) + (if e.name == k then e.total else 0)
  {
    assert (ps + [e])[..|ps|] == ps;
  }

  lemma GroupedSnoc<K>(es: seq<Entry<K>>, ps: seq<Entry<K>>, e: Entry<K>)
    ensures Grouped(es, ps + [e]) == AddTo(Grouped(es, ps), e.name, e.total)
  {
    assert (ps + [e])[..|ps|] == ps;
  }

  /** `IndexOf` is the only position that is the first one labelled `k`. */
  lemma IndexOfUnique<K>(es: seq<Entry<K>>, k: K, r: nat)
    requires r <= |es|
    requires r < |es| ==> es[r].name == k
    requires forall x :: 0 <= x < r ==> es[x].name != k
    ensures IndexOf(es, k) == r
  {
  }

  /** One dictionary update keeps the keys distinct and adds `k` last when
      it is new. */
  lemma AddToKeys<K>(es: seq<Entry<K>>, k: K, a: int)
    requires DistinctLabels(es)
    ensures DistinctLabels(AddTo(es, k, a))
    ensures Labels(AddTo(es, k, a)) == if k in Labels(es) then Labels(es) else Labels(es) + [k]
  {
    var i := IndexOf(es, k);
    var r := AddTo(es, k, a);
    assert forall x :: 0 <= x < |es| ==> r[x].name == es[x].name;
    if i < |es| {
      assert k in Labels(es) by { assert Labels(es)[i] == k; }
      assert Labels(r) == Labels(es);
    } else {
      assert k !in Labels(es);
      assert Labels(r) == Labels(es) + [k];
    }
  }

  /** One dictionary update adds `a` to k's total and leaves every other
      total as it was. */
  lemma AddToTotal<K>(es: seq<Entry<K>>, k: K, a: int, j: K)
    ensures TotalOf(AddTo(es, k, a), j) == TotalOf(es, j) + (if j == k then a else 0)
  {
    var i, q := IndexOf(es, k), IndexOf(es, j);
    var r := AddTo(es, k, a);
    assert forall x :: 0 <= x < |es| ==> r[x].name == es[x].name;
    if i < |es| {
      IndexOfUnique(r, j, q);
    } else {
      assert r[|es|] == Entry(k, a);
      if j == k {
        IndexOfUnique(r, k, |es|);
      } else if q < |es| {
        IndexOfUnique(r, j, q);
      } else {
        IndexOfUnique(r, j, |r|);
      }
    }
  }

  /** One dictionary update adds `a` to the grand total. */
  lemma AddToSum<K>(es: seq<Entry<K>>, k: K, a: int)
    ensures SumTotals(AddTo(es, k, a)) == SumTotals(es) + a
  {
    var i := IndexOf(es, k);
    if i < |es| {
      SumTotalsUpdate(es, i, Entry(k, es[i].total + a));
    } else {
      SumTotalsSnoc(es, Entry(k, a));
    }
  }

  /** What one dictionary update does: it keeps the keys distinct, adds `k`
      to the keys (last, when new), adds `a` to k's total and to the grand
      total, and changes nothing else. */
  lemma AddToSpec<K>(es: seq<Entry<K>>, k: K, a: int)
    requires DistinctLabels(es)
    ensures DistinctLabels(AddTo(es, k, a))
    ensures Labels(AddTo(es, k, a)) == if k in Labels(es) then Labels(es) else Labels(es) + [k]
    ensures forall j :: TotalOf(AddTo(es, k, a), j) == TotalOf(es, j) + (if j == k then a else 0)
    ensures SumTotals(AddTo(es, k, a)) == SumTotals(es) + a
  {
    AddToKeys(es, k, a);
    forall j
      ensures TotalOf(AddTo(es, k, a), j) == TotalOf(es, j) + (if j == k then a else 0)
    {
      AddToTotal(es, k, a, j);
    }
    AddToSum(es, k, a);
  }

  /** Folding pairs into a dict keeps the keys distinct, and a key is there
      exactly when it was there before or is a label of the pairs. */
  lemma {:induction false} GroupedKeys<K>(es: seq<Entry<K>>, ps: seq<Entry<K>>)
    requires DistinctLabels(es)
    ensures DistinctLabels(Grouped(es, ps))
    ensures forall j :: j in Labels(Grouped(es, ps)) <==> j in Labels(es) || j in Labels(ps)
    decreases |ps|
  {
    if ps != [] {
      var init, e := ps[..|ps| - 1], ps[|ps| - 1];
      assert ps == init + [e];
      GroupedKeys(es, init);
      AddToKeys(Grouped(es, init), e.name, e.total);
      assert Labels(ps) == Labels(init) + [e.name];
    }
  }

  /** Folding pairs into a dict adds to k's total exactly the values paired
      with `k`. */
  lemma {:induction false} GroupedTotal<K>(es: seq<Entry<K>>, ps: seq<Entry<K>>, k: K)
    ensures TotalOf(Grouped(es, ps), k) == TotalOf(es, k) + LabelSum(ps, k)
    decreases |ps|
  {
    if ps != [] {
      var init, e := ps[..|ps| - 1], ps[|ps| - 1];
      assert ps == init + [e];
      GroupedTotal(es, init, k);
      AddToTotal(Grouped(es, init), e.name, e.total, k);
      LabelSumSnoc(init, e, k);
    }
  }

  /** Folding pairs into a dict adds their values to the grand total. */
  lemma {:induction false} GroupedSum<K>(es: seq<Entry<K>>, ps: seq<Entry<K>>)
    ensures SumTotals(Grouped(es, ps)) == SumTotals(es) + SumTotals(ps)
    decreases |ps|
  {
    if ps != [] {
      var init, e := ps[..|ps| - 1], ps[|ps| - 1];
      assert ps == init + [e];
      GroupedSum(es, init);
      AddToSum(Grouped(es, init), e.name, e.total);
      SumTotalsSnoc(init, e);
    }
  }

  /** Folding pairs into a dict: the keys stay distinct, the keys are the
      old keys and the new labels, and every total and the grand total grow
      by exactly the values paired with them. */
  lemma GroupedSpec<K>(es: seq<Entry<K>>, ps: seq<Entry<K>>)
    requires DistinctLabels(es)
    ensures DistinctLabels(Grouped(es, ps))
    ensures forall j :: j in Labels(Grouped(es, ps)) <==> j in Labels(es) || j in Labels(ps)
    ensures forall j :: TotalOf(Grouped(es, ps), j) == TotalOf(es, j) + LabelSum(ps, j)
    ensures SumTotals(Grouped(es, ps)) == SumTotals(es) + SumTotals(ps)
  {
    GroupedKeys(es, ps);
    forall j
      ensures TotalOf(Grouped(es, ps), j) == TotalOf(es, j) + LabelSum(ps, j)
    {
      GroupedTotal(es, ps, j);
    }
    GroupedSum(es, ps);
  }

  /** Starting from an empty dict, the keys are the labels in first-seen order. */
  lemma {:induction false} GroupedOrder<K>(ps: seq<Entry<K>>)
    ensures Labels(Grouped([], ps)) == FirstSeen(Labels(ps))
    decreases |ps|
  {
    if ps != [] {
      var init, e := ps[..|ps| - 1], ps[|ps| - 1];
      assert ps == init + [e];
      assert Labels(ps) == Labels(init) + [e.name];
      assert Labels(ps)[..|ps| - 1] == Labels(init);
      GroupedOrder(init);
      GroupedSpec([], init);
      AddToSpec(Grouped([], init), e.name, e.total);
      assert e.name in Labels(Grouped([], init)) <==> e.name in Labels(init);
    }
  }

  /** Folding two batches one after the other is folding their concatenation. */
  lemma {:induction false} GroupedAppend<K>(es: seq<Entry<K>>, a: seq<Entry<K>>, b: seq<Entry<K>>)
    ensures Grouped(Grouped(es, a), b) == Grouped(es, a + b)
    decreases |b|
  {
    if b == [] {
      assert a + b == a;
    } else {
      var init, e := b[..|b| - 1], b[|b| - 1];
      assert b == init + [e];
      assert a + b == (a + init) + [e];
      GroupedAppend(es, a, init);
      GroupedSnoc(es, a + init, e);
    }
  }

  /** In a dict with distinct labels, looking up an entry's label gives its
      total. */
  lemma TotalOfMember<K>(es: seq<Entry<K>>, e: Entry<K>)
    requires DistinctLabels(es) && e in es
    ensures TotalOf(es, e.name) == e.total
  {
    var i :| 0 <= i < |es| && es[i] == e;
    assert IndexOf(es, e.name) == i;
  }

  /** Two dicts with distinct labels and the same entries agree on every
      lookup, whatever the order of their entries. */
  lemma TotalOfSameEntries<K>(a: seq<Entry<K>>, b: seq<Entry<K>>, k: K)
    requires DistinctLabels(a) && DistinctLabels(b)
    requires forall i :: 0 <= i < |a| ==> a[i] in b
    requires forall i :: 0 <= i < |b| ==> b[i] in a
    ensures TotalOf(a, k) == TotalOf(b, k)
  {
    var i := IndexOf(a, k);
    if i < |a| {
      TotalOfMember(a, a[i]);
      TotalOfMember(b, a[i]);
    } else {
      forall x | 0 <= x < |b| ensures Labels(b)[x] != k {
        assert b[x] in a;
      }
      TotalOfAbsent(a, k);
      TotalOfAbsent(b, k);
    }
  }

  /** A label absent from a dict looks up as 0. */
  lemma TotalOfAbsent<K>(es: seq<Entry<K>>, k: K)
    requires k !in Labels(es)
    ensures TotalOf(es, k) == 0
  {
    if IndexOf(es, k) < |es| {
      assert Labels(es)[IndexOf(es, k)] == k;
    }
  }

  lemma KeyedSnoc<K>(rows: seq<Txn>, t: Txn, key: Txn -> K)
    ensures Keyed(rows + [t], key) == Keyed(rows, key) + [Entry(key(t), t.amount)]
  {
  }

  /** A label occurs among the keyed rows exactly when some row has that key. */
  lemma KeyedLabels<K>(rows: seq<Txn>, key: Txn -> K, k: K)
    ensures k in Labels(Keyed(rows, key)) <==> exists t :: t in rows && key(t) == k
  {
    if k in Labels(Keyed(rows, key)) {
      var i :| 0 <= i < |rows| && Labels(Keyed(rows, key))[i] == k;
      assert rows[i] in rows && key(rows[i]) == k;
    }
    if t :| t in rows && key(t) == k {
      var i :| 0 <= i < |rows| && rows[i] == t;
      assert Labels(Keyed(rows, key))[i] == k;
    }
  }

  /** Keying rows does not change their grand total. */
  lemma {:induction false} KeyedSum<K>(rows: seq<Txn>, key: Txn -> K)
    ensures SumTotals(Keyed(rows, key)) == Sum(rows)
    decreases |rows|
  {
    if rows != [] {
      var init, t := rows[..|rows| - 1], rows[|rows| - 1];
      assert rows == init + [t];
      KeyedSum(init, key);
      KeyedSnoc(init, t, key);
      SumTotalsSnoc(Keyed(init, key), Entry(key(t), t.amount));
    }
  }

  /** A key's sum is the sum of the rows the key filter selects. */
  lemma {:induction false} KeySumIsWhere<K>(rows: seq<Txn>, key: Txn -> K, k: K)
    ensures KeySum(rows, key, k) == Sum(Where(rows, HasKey(key, k)))
    decreases |rows|
  {
    if rows != [] {
      var init, t := rows[..|rows| - 1], rows[|rows| - 1];
      assert rows == init + [t];
      var e := Entry(key(t), t.amount);
      KeySumIsWhere(init, key, k);
      KeyedSnoc(init, t, key);
      LabelSumSnoc(Keyed(init, key), e, k);
      assert KeySum(rows, key, k) == KeySum(init, key, k) + (if key(t) == k then t.amount else 0);
      var w := Where(init, HasKey(key, k));
      WhereSnoc(init, t, HasKey(key, k));
      assert HasKey(key, k)(t) == (key(t) == k);
      if key(t) == k {
        assert Where(rows, HasKey(key, k)) == w + [t];
        SumSnoc(w, t);
      } else {
        assert Where(rows, HasKey(key, k)) == w;
      }
    }
  }

  /** The groups of a GROUP BY: distinct labels, exactly the keys that occur,
      each with the sum of its rows, and together all the rows' amount. */
  lemma GroupTotalsSpec<K>(rows: seq<Txn>, key: Txn -> K)
    ensures DistinctLabels(GroupTotals(rows, key))
    ensures forall k :: k in Labels(GroupTotals(rows, key)) <==> exists t :: t in rows && key(t) == k
    ensures forall k :: TotalOf(GroupTotals(rows, key), k) == KeySum(rows, key, k)
    ensures SumTotals(GroupTotals(rows, key)) == Sum(rows)
  {
    GroupedSpec([], Keyed(rows, key));
    forall k ensures k in Labels(Keyed(rows, key)) <==> exists t :: t in rows && key(t) == k {
      KeyedLabels(rows, key, k);
    }
    forall k: K ensures TotalOf<K>([], k) == 0 {
      TotalOfAbsent<K>([], k);
    }
    KeyedSum(rows, key);
  }

  /** Looking up `k` in the groups of the filtered rows `Where(rows, f)` sums
      the rows that pass `f` and have key `k`, described here by `g`. */
  lemma GroupLookup<K>(rows: seq<Txn>, f: Txn -> bool, key: Txn -> K, k: K, g: Txn -> bool)
    requires forall t :: t in rows ==> (f(t) && key(t) == k) == g(t)
    ensures TotalOf(GroupTotals(Where(rows, f), key), k) == Sum(Where(rows, g))
  {
    GroupTotalsSpec(Where(rows, f), key);
    KeySumIsWhere(Where(rows, f), key, k);
    WhereWhere(rows, f, HasKey(key, k));
    forall t | t in rows ensures Both(f, HasKey(key, k))(t) == g(t) {
      assert HasKey(key, k)(t) == (key(t) == k);
    }
    WhereCongruent(rows, Both(f, HasKey(key, k)), g);
  }

  lemma {:induction false} SumTotalsAppend<K>(a: seq<Entry<K>>, b: seq<Entry<K>>)
    ensures SumTotals(a + b) == SumTotals(a) + SumTotals(b)
    decreases |b|
  {
    if b == [] {
      assert a + b == a;
    } else {
      var init, e := b[..|b| - 1], b[|b| - 1];
      assert b == init + [e];
      assert a + b == (a + init) + [e];
      SumTotalsAppend(a, init);
      SumTotalsSnoc(a + init, e);
      SumTotalsSnoc(init, e);
    }
  }

  /** Every label of a first-seen listing occurs in the input, and only once. */
  lemma {:induction false} FirstSeenSpec<K>(ls: seq<K>)
    ensures forall x :: x in FirstSeen(ls) <==> x in ls
    ensures forall i, j :: 0 <= i < j < |FirstSeen(ls)| ==> FirstSeen(ls)[i] != FirstSeen(ls)[j]
    decreases |ls|
  {
    if ls != [] {
      var init := ls[..|ls| - 1];
      assert ls == init + [ls[|ls| - 1]];
      FirstSeenSpec(init);
    }
  }

  /** First-seen order over a concatenation lists the first part's labels
      first, then the second part's new ones. */
  lemma {:induction false} FirstSeenAppend<K>(a: seq<K>, b: seq<K>)
    ensures |FirstSeen(a)| <= |FirstSeen(a + b)|
    ensures FirstSeen(a + b)[..|FirstSeen(a)|] == FirstSeen(a)
    ensures forall i :: |FirstSeen(a)| <= i < |FirstSeen(a + b)| ==> FirstSeen(a + b)[i] !in a
    decreases |b|
  {
    if b == [] {
      assert a + b == a;
    } else {
      var init, x := b[..|b| - 1], b[|b| - 1];
      assert a + b == (a + init) + [x];
      assert (a + b)[..|a + b| - 1] == a + init;
      FirstSeenAppend(a, init);
      FirstSeenSpec(a + init);
    }
  }

  /** The value paired with a label over a concatenation adds up. */
  lemma {:induction false} LabelSumAppend<K>(a: seq<Entry<K>>, b: seq<Entry<K>>, k: K)
    ensures LabelSum(a + b, k) == LabelSum(a, k) + LabelSum(b, k)
    decreases |b|
  {
    if b == [] {
      assert a + b == a;
    } else {
      var init, e := b[..|b| - 1], b[|b| - 1];
      assert b == init + [e];
      assert a + b == (a + init) + [e];
      LabelSumAppend(a, init, k);
      LabelSumSnoc(a + init, e, k);
      LabelSumSnoc(init, e, k);
    }
  }

  /** With distinct labels, the sum of the values paired with a label is its
      value. */
  lemma {:induction false} LabelSumDistinct<K>(es: seq<Entry<K>>, k: K)
    requires DistinctLabels(es)
    ensures LabelSum(es, k) == TotalOf(es, k)
    decreases |es|
  {
    if es != [] {
      var init, e := es[..|es| - 1], es[|es| - 1];
      assert es == init + [e];
      LabelSumDistinct(init, k);
      LabelSumSnoc(init, e, k);
      if k in Labels(init) {
        var i :| 0 <= i < |init| && Labels(init)[i] == k;
        TotalOfMember(init, init[i]);
        TotalOfMember(es, init[i]);
        assert e.name != k;
      } else {
        TotalOfAbsent(init, k);
        if e.name == k {
          TotalOfMember(es, e);
        } else {
          forall x | 0 <= x < |es| ensures Labels(es)[x] != k {
            if x < |init| {
              assert Labels(init)[x] == Labels(es)[x];
            }
          }
          TotalOfAbsent(es, k);
        }
      }
    }
  }

  /** A list with no repeats is its own first-seen order. */
  lemma {:induction false} FirstSeenDistinct<K>(ls: seq<K>)
    requires forall i, j :: 0 <= i < j < |ls| ==> ls[i] != ls[j]
    ensures FirstSeen(ls) == ls
    decreases |ls|
  {
    if ls != [] {
      var init := ls[..|ls| - 1];
      FirstSeenDistinct(init);
      assert ls == init + [ls[|ls| - 1]];
    }
  }

  /** Zipping a dict's labels with its totals gives the dict back. */
  lemma ZipUnzip<K>(es: seq<Entry<K>>)
    ensures Zip(Labels(es), Totals(es)) == es
  {
    var z := Zip(Labels(es), Totals(es));
    forall i | 0 <= i < |es| ensures z[i] == es[i] {
    }
  }

  /** Folding two lists of pairs into an empty dict gives a key exactly when
      one of the lists has it. */
  lemma GroupedLabels<K>(a: seq<Entry<K>>, b: seq<Entry<K>>, k: K)
    ensures k in Labels(Grouped([], a + b)) <==> k in Labels(a) || k in Labels(b)
  {
    GroupedSpec([], a + b);
    assert Labels(a + b) == Labels(a) + Labels(b);
    assert k !in Labels<K>([]);
  }
}
