/** A breakdown: groups ranked by total, largest first (`order_by("-total")`
    after a GROUP BY). */
module Breakdown {
  import opened Ledger
  import opened Grouping
  import opened Ranking

  /** The groups in non-increasing order of total. Groups with equal totals
      keep the order in which their labels were first seen. */
  function Ranked<K>(es: seq<Entry<K>>): seq<Entry<K>>
  {
    SortDesc(es, EntryTotal)
  }

  /** Ranking is a reordering: the same entries, largest first. */
  lemma RankedElements<K>(es: seq<Entry<K>>)
    ensures |Ranked(es)| == |es|
    ensures NonIncreasing(Ranked(es), EntryTotal)
    ensures forall i :: 0 <= i < |Ranked(es)| ==> Ranked(es)[i] in es
    ensures forall i :: 0 <= i < |es| ==> es[i] in Ranked(es)
  {
    SortDescSpec(es, EntryTotal);
    forall i | 0 <= i < |Ranked(es)| ensures Ranked(es)[i] in es {
      assert Ranked(es)[i] in multiset(Ranked(es));
    }
    forall i | 0 <= i < |es| ensures es[i] in Ranked(es) {
      assert es[i] in multiset(es);
    }
  }

  /** Reordering keeps the grand total. */
  lemma {:induction false} RankedSum<K>(es: seq<Entry<K>>)
    ensures SumTotals(Ranked(es)) == SumTotals(es)
    decreases |es|
  {
    if es != [] {
      var init, x := es[..|es| - 1], es[|es| - 1];
      assert es == init + [x];
      var r := Ranked(init);
      RankedSum(init);
      var j := InsertLastSplit(r, x, EntryTotal);
      assert r == r[..j] + r[j..];
      SumTotalsAppend(r[..j], r[j..]);
      SumTotalsAppend(r[..j] + [x], r[j..]);
      SumTotalsSnoc(r[..j], x);
      SumTotalsSnoc(init, x);
    }
  }

  /** Inserting an entry with a new label keeps the labels distinct. */
  lemma DistinctInsert<K>(r: seq<Entry<K>>, j: nat, x: Entry<K>)
    requires j <= |r|
    requires DistinctLabels(r)
    requires forall i :: 0 <= i < |r| ==> r[i].name != x.name
    ensures DistinctLabels(r[..j] + [x] + r[j..])
  {
    var s := r[..j] + [x] + r[j..];
    forall a, b | 0 <= a < b < |s| ensures s[a].name != s[b].name {
      if a < j && b < j {
        assert s[a] == r[a] && s[b] == r[b];
      } else if a < j && b == j {
        assert s[a] == r[a];
      } else if a < j {
        assert s[a] == r[a] && s[b] == r[b - 1];
      } else if a == j {
        assert s[b] == r[b - 1];
      } else {
        assert s[a] == r[a - 1] && s[b] == r[b - 1];
      }
    }
  }

  /** Ranking a dict keeps its labels distinct. */
  lemma {:induction false} RankedDistinct<K>(es: seq<Entry<K>>)
    requires DistinctLabels(es)
    ensures DistinctLabels(Ranked(es))
    decreases |es|
  {
    if es != [] {
      var init, x := es[..|es| - 1], es[|es| - 1];
      assert es == init + [x];
      var r := Ranked(init);
      RankedDistinct(init);
      RankedElements(init);
      forall i | 0 <= i < |r| ensures r[i].name != x.name {
        var i' :| 0 <= i' < |init| && init[i'] == r[i];
        assert es[i'] == r[i];
      }
      var j := InsertLastSplit(r, x, EntryTotal);
      DistinctInsert(r, j, x);
    }
  }

  /** Ranking a dict keeps its labels and every lookup. */
  lemma RankedLookup<K>(es: seq<Entry<K>>)
    requires DistinctLabels(es)
    ensures forall k :: TotalOf(Ranked(es), k) == TotalOf(es, k)
    ensures forall k :: k in Labels(Ranked(es)) <==> k in Labels(es)
  {
    RankedElements(es);
    RankedDistinct(es);
    var r := Ranked(es);
    forall k ensures TotalOf(r, k) == TotalOf(es, k) {
      TotalOfSameEntries(r, es, k);
    }
    forall k ensures k in Labels(r) <==> k in Labels(es) {
      if k in Labels(r) {
        var i :| 0 <= i < |r| && Labels(r)[i] == k;
        var i' :| 0 <= i' < |es| && es[i'] == r[i];
        assert Labels(es)[i'] == k;
      }
      if k in Labels(es) {
        var i :| 0 <= i < |es| && Labels(es)[i] == k;
        var i' :| 0 <= i' < |r| && r[i'] == es[i];
        assert Labels(r)[i'] == k;
      }
    }
  }

  /** The ranked GROUP BY: largest first, each key once, together all the
      rows. */
  lemma RankedGroupsSpec<K>(rows: seq<Txn>, key: Txn -> K)
    ensures NonIncreasing(Ranked(GroupTotals(rows, key)), EntryTotal)
    ensures DistinctLabels(Ranked(GroupTotals(rows, key)))
    ensures SumTotals(Ranked(GroupTotals(rows, key))) == Sum(rows)
  {
    var g := GroupTotals(rows, key);
    GroupTotalsSpec(rows, key);
    RankedElements(g);
    RankedSum(g);
    RankedDistinct(g);
  }

  /** In the ranked GROUP BY, `k` is a label exactly when some row has key
      `k`, and its total is the sum of those rows. */
  lemma RankedGroupAt<K>(rows: seq<Txn>, key: Txn -> K, k: K)
    ensures k in Labels(Ranked(GroupTotals(rows, key))) <==> exists t :: t in rows && key(t) == k
    ensures TotalOf(Ranked(GroupTotals(rows, key)), k) == Sum(Where(rows, HasKey(key, k)))
  {
    var g := GroupTotals(rows, key);
    GroupTotalsSpec(rows, key);
    RankedLookup(g);
    KeySumIsWhere(rows, key, k);
  }

  /** Looking up `k` in the ranked groups of the rows passing `f` sums the
      rows passing `g`, when `g` is `f` and "key is k" together. */
  lemma RankedGroupLookup<K>(rows: seq<Txn>, f: Txn -> bool, key: Txn -> K, k: K, g: Txn -> bool)
    requires forall t :: t in rows ==> (f(t) && key(t) == k) == g(t)
    ensures TotalOf(Ranked(GroupTotals(Where(rows, f), key)), k) == Sum(Where(rows, g))
  {
    GroupTotalsSpec(Where(rows, f), key);
    RankedLookup(GroupTotals(Where(rows, f), key));
    GroupLookup(rows, f, key, k, g);
  }
}
