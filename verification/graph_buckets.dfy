/** `assign_as_graph_propagation_ranks`: the ASes grouped by propagation
    rank, one ascending list per rank from 0 up to the highest. */
module GraphBuckets {
  import opened Wrappers
  import opened Seqs
  import opened GraphRanks

  /** Strictly ascending, which is what `sorted` gives on distinct ASNs. */
  predicate Ascending(s: seq<nat>) {
    forall i, j :: 0 <= i < j < |s| ==> s[i] < s[j]
  }

  /** Every element of `s` is above `x`. */
  predicate Above(x: nat, s: seq<nat>) {
    forall i :: 0 <= i < |s| ==> x < s[i]
  }

  lemma AboveElems(x: nat, s: seq<nat>, e: set<nat>)
    requires Elems(s) == e && forall y :: y in e ==> x < y
    ensures Above(x, s)
  {
    forall i | 0 <= i < |s| ensures x < s[i] {
      assert s[i] in Elems(s);
    }
  }

  lemma ConsAscending(x: nat, s: seq<nat>)
    requires Ascending(s) && Above(x, s)
    ensures Ascending([x] + s)
  {
    forall i, j | 0 <= i < j < |[x] + s| ensures ([x] + s)[i] < ([x] + s)[j] {
      if i > 0 { assert ([x] + s)[i] == s[i - 1]; }
      assert ([x] + s)[j] == s[j - 1];
    }
  }

  lemma TailAscending(s: seq<nat>)
    requires Ascending(s) && |s| > 0
    ensures Ascending(s[1..]) && Above(s[0], s[1..])
    ensures Elems(s) == {s[0]} + Elems(s[1..])
  {
    assert s == [s[0]] + s[1..];
  }

  /** Place `x` into an ascending list. */
  function Insert(x: nat, s: seq<nat>): (r: seq<nat>)
    requires Ascending(s) && x !in s
    ensures Ascending(r) && |r| == |s| + 1
    ensures Elems(r) == Elems(s) + {x}
    decreases |s|
  {
    if |s| == 0 then [x]
    else if x < s[0] then
      TailAscending(s);
      AboveElems(x, s, Elems(s));
      ConsAscending(x, s);
      [x] + s
    else
      TailAscending(s);
      var t := Insert(x, s[1..]);
      AboveElems(s[0], t, Elems(s[1..]) + {x});
      ConsAscending(s[0], t);
      [s[0]] + t
  }

  /** `sorted` on a list of distinct ASNs. */
  function Sort(s: seq<nat>): (r: seq<nat>)
    requires Distinct(s)
    ensures Ascending(r) && |r| == |s|
    ensures Elems(r) == Elems(s)
    decreases |s|
  {
    if |s| == 0 then []
    else
      assert s == [s[0]] + s[1..];
      assert Distinct(s[1..]) by {
        forall i, j | 0 <= i < j < |s[1..]| ensures s[1..][i] != s[1..][j] {
          assert s[1..][i] == s[i + 1] && s[1..][j] == s[j + 1];
        }
      }
      var t := Sort(s[1..]);
      assert s[0] !in Elems(s[1..]) by {
        forall i | 0 <= i < |s[1..]| ensures s[1..][i] != s[0] {
          assert s[1..][i] == s[i + 1];
        }
      }
      Insert(s[0], t)
  }

  lemma HeadIsLeast(s: seq<nat>)
    requires Ascending(s) && |s| > 0
    ensures forall x :: x in Elems(s) ==> s[0] <= x
  {
    forall x | x in Elems(s) ensures s[0] <= x {
      var i :| 0 <= i < |s| && s[i] == x;
      if i > 0 { assert s[0] < s[i]; }
    }
  }

  lemma AscendingCard(s: seq<nat>)
    requires Ascending(s)
    ensures |Elems(s)| == |s|
  {
    assert Distinct(s) by {
      forall i, j | 0 <= i < j < |s| ensures s[i] != s[j] { assert s[i] < s[j]; }
    }
    DistinctSeqCard(s);
  }

  /** Two ascending lists with the same elements start alike, and their
      tails again hold the same elements. */
  lemma SameHead(a: seq<nat>, b: seq<nat>)
    requires Ascending(a) && Ascending(b) && Elems(a) == Elems(b) && |a| > 0 && |b| > 0
    ensures a[0] == b[0] && Elems(a[1..]) == Elems(b[1..])
    ensures Ascending(a[1..]) && Ascending(b[1..])
  {
    TailAscending(a);
    TailAscending(b);
    HeadIsLeast(a);
    HeadIsLeast(b);
    assert a[0] in Elems(b) && b[0] in Elems(a);
    assert a[0] !in Elems(a[1..]) by {
      forall i | 0 <= i < |a[1..]| ensures a[1..][i] != a[0] { assert a[1..][i] == a[i + 1]; }
    }
    assert b[0] !in Elems(b[1..]) by {
      forall i | 0 <= i < |b[1..]| ensures b[1..][i] != b[0] { assert b[1..][i] == b[i + 1]; }
    }
  }

  /** An ascending list is fixed by its elements: `Sort` returns the one
      ascending arrangement of its input. */
  lemma {:induction false} AscendingUnique(a: seq<nat>, b: seq<nat>)
    requires Ascending(a) && Ascending(b) && Elems(a) == Elems(b)
    ensures a == b
    decreases |a|
  {
    AscendingCard(a);
    AscendingCard(b);
    if |a| > 0 {
      SameHead(a, b);
      AscendingUnique(a[1..], b[1..]);
      assert a == [a[0]] + a[1..] && b == [b[0]] + b[1..];
    }
  }

  lemma SortIsTheAscendingArrangement(s: seq<nat>, t: seq<nat>)
    requires Distinct(s) && Ascending(t) && Elems(t) == Elems(s)
    ensures Sort(s) == t
  {
    AscendingUnique(Sort(s), t);
  }

  /** The list built for rank `k`: the ASes of `order` ranked `k`, in the
      order the loop appends them. */
  function AtRank(order: seq<nat>, ranks: Ranks, k: nat): (r: seq<nat>)
    requires Elems(order) <= ranks.Keys
    ensures forall x :: x in r <==> x in order && ranks[x] == Some(k)
    ensures Distinct(order) ==> Distinct(r)
    decreases |order|
  {
    if |order| == 0 then []
    else
      assert order == [order[0]] + order[1..];
      var rest := AtRank(order[1..], ranks, k);
      assert Distinct(order) ==> Distinct(order[1..]) && order[0] !in rest by {
        if Distinct(order) {
          forall i, j | 0 <= i < j < |order[1..]| ensures order[1..][i] != order[1..][j] {
            assert order[1..][i] == order[i + 1] && order[1..][j] == order[j + 1];
          }
          forall i | 0 <= i < |order[1..]| ensures order[1..][i] != order[0] {
            assert order[1..][i] == order[i + 1];
          }
        }
      }
      if ranks[order[0]] == Some(k) then
        assert Distinct(order) ==> Distinct([order[0]] + rest) by {
          if Distinct(order) {
            forall i, j | 0 <= i < j < |[order[0]] + rest| ensures ([order[0]] + rest)[i] != ([order[0]] + rest)[j] {
              assert ([order[0]] + rest)[j] == rest[j - 1];
              if i > 0 { assert ([order[0]] + rest)[i] == rest[i - 1]; }
            }
          }
        }
        [order[0]] + rest
      else rest
  }

  /** Every AS in `order` carries a rank. */
  predicate AllRanked(order: seq<nat>, ranks: Ranks)
    requires Elems(order) <= ranks.Keys
  {
    forall i :: 0 <= i < |order| ==> ranks[order[i]].Some?
  }

  /** The highest rank over a non-empty, fully ranked `order`. */
  function Peak(order: seq<nat>, ranks: Ranks): (m: nat)
    requires Elems(order) <= ranks.Keys && |order| > 0 && AllRanked(order, ranks)
    ensures exists i :: 0 <= i < |order| && ranks[order[i]] == Some(m)
    ensures forall i :: 0 <= i < |order| ==> ranks[order[i]].value <= m
    decreases |order|
  {
    assert order[0] in Elems(order);
    if |order| == 1 then ranks[order[0]].value
    else
      assert Elems(order[1..]) <= Elems(order);
      assert forall i :: 0 <= i < |order[1..]| ==> order[1..][i] == order[i + 1];
      var m := Peak(order[1..], ranks);
      if ranks[order[0]].value >= m then ranks[order[0]].value else m
  }

  /** `max(x["propagation_rank"] for x in ases)`: an empty table has no
      maximum (ValueError); a missing rank is None, which cannot be
      compared with or added to an integer (TypeError). */
  function MaxRank(order: seq<nat>, ranks: Ranks): (r: Result<nat>)
    requires Elems(order) <= ranks.Keys
    ensures r.Ok? <==> |order| > 0 && AllRanked(order, ranks)
    ensures r == Err(ValueError) <==> |order| == 0
    ensures r.Err? ==> r.error == ValueError || r.error == TypeError
    ensures r.Ok? ==> (exists i :: 0 <= i < |order| && ranks[order[i]] == Some(r.value))
                      && forall i :: 0 <= i < |order| ==> ranks[order[i]].value <= r.value
  {
    if |order| == 0 then Err(ValueError)
    else if !AllRanked(order, ranks) then Err(TypeError)
    else Ok(Peak(order, ranks))
  }

  /** The `propagation_rank_asns` lists: one per rank up to the highest,
      each holding exactly the ASes of that rank in ascending order. */
  function Buckets(order: seq<nat>, ranks: Ranks): (r: Result<seq<seq<nat>>>)
    requires Distinct(order) && Elems(order) <= ranks.Keys
    ensures r.Err? <==> |order| == 0 || !AllRanked(order, ranks)
    ensures r.Err? ==> (r.error == ValueError <==> |order| == 0) && (r.error == ValueError || r.error == TypeError)
    ensures r.Ok? ==> forall k :: 0 <= k < |r.value| ==> forall x :: x in r.value[k] ==> x in order && ranks[x] == Some(k)
    ensures r.Ok? ==> forall x :: x in order ==> ranks[x].Some? && ranks[x].value < |r.value| && x in r.value[ranks[x].value]
    ensures r.Ok? ==> forall k :: 0 <= k < |r.value| ==> Ascending(r.value[k])
    ensures r.Ok? ==> |r.value| > 0 && |r.value[|r.value| - 1]| > 0
  {
    var m :- MaxRank(order, ranks);
    Ok(Layout(order, ranks, m))
  }

  /** There is one list per rank from 0 up to the highest rank. */
  lemma BucketsCount(order: seq<nat>, ranks: Ranks)
    requires Distinct(order) && Elems(order) <= ranks.Keys && Buckets(order, ranks).Ok?
    ensures MaxRank(order, ranks).Ok? && |Buckets(order, ranks).value| == MaxRank(order, ranks).value + 1
  {
  }

  /** A listed ASN is one of the order's, at the rank of its list. */
  lemma BucketsMember(order: seq<nat>, ranks: Ranks, b: seq<seq<nat>>, k: nat, x: nat)
    requires Distinct(order) && Elems(order) <= ranks.Keys && Buckets(order, ranks) == Ok(b)
    requires k < |b| && x in b[k]
    ensures x in order && x in ranks && ranks[x] == Some(k)
  {
  }

  /** `list(sorted(rank))` for the list built at rank `k`. */
  function Bucket(order: seq<nat>, ranks: Ranks, k: nat): (r: seq<nat>)
    requires Distinct(order) && Elems(order) <= ranks.Keys
    ensures Ascending(r)
  {
    Sort(AtRank(order, ranks, k))
  }

  /** One sorted list per rank from 0 to `m`. */
  function Layout(order: seq<nat>, ranks: Ranks, m: nat): (b: seq<seq<nat>>)
    requires Distinct(order) && Elems(order) <= ranks.Keys
    requires exists i :: 0 <= i < |order| && ranks[order[i]] == Some(m)
    requires forall i :: 0 <= i < |order| ==> ranks[order[i]].Some? && ranks[order[i]].value <= m
    ensures |b| == m + 1
    ensures forall k :: 0 <= k < |b| ==> forall x :: x in b[k] ==> x in order && ranks[x] == Some(k)
    ensures forall x :: x in order ==> ranks[x].Some? && ranks[x].value < |b| && x in b[ranks[x].value]
    ensures forall k :: 0 <= k < |b| ==> Ascending(b[k])
    ensures |b[|b| - 1]| > 0
  {
    var b := seq(m + 1, k requires 0 <= k <= m => Bucket(order, ranks, k));
    BucketsSound(order, ranks, m, b);
    BucketsComplete(order, ranks, m, b);
    BucketsTop(order, ranks, m, b);
    b
  }

  /** The facts Layout needs of its lists, one lemma each. */
  predicate LaidOut(order: seq<nat>, ranks: Ranks, m: nat, b: seq<seq<nat>>)
    requires Distinct(order) && Elems(order) <= ranks.Keys
  {
    |b| == m + 1 && forall k :: 0 <= k <= m ==> b[k] == Bucket(order, ranks, k)
  }

  lemma BucketsSound(order: seq<nat>, ranks: Ranks, m: nat, b: seq<seq<nat>>)
    requires Distinct(order) && Elems(order) <= ranks.Keys && LaidOut(order, ranks, m, b)
    ensures forall k :: 0 <= k < |b| ==> forall x :: x in b[k] ==> x in order && ranks[x] == Some(k)
  {
    forall k, x | 0 <= k < |b| && x in b[k] ensures x in order && ranks[x] == Some(k) {
      SortedAtRank(order, ranks, k, x);
    }
  }

  lemma BucketsComplete(order: seq<nat>, ranks: Ranks, m: nat, b: seq<seq<nat>>)
    requires Distinct(order) && Elems(order) <= ranks.Keys && LaidOut(order, ranks, m, b)
    requires forall i :: 0 <= i < |order| ==> ranks[order[i]].Some? && ranks[order[i]].value <= m
    ensures forall x :: x in order ==> ranks[x].Some? && ranks[x].value < |b| && x in b[ranks[x].value]
  {
    forall x | x in order ensures ranks[x].Some? && ranks[x].value < |b| && x in b[ranks[x].value] {
      var i :| 0 <= i < |order| && order[i] == x;
      SortedAtRank(order, ranks, ranks[x].value, x);
    }
  }

  lemma BucketsTop(order: seq<nat>, ranks: Ranks, m: nat, b: seq<seq<nat>>)
    requires Distinct(order) && Elems(order) <= ranks.Keys && LaidOut(order, ranks, m, b)
    requires exists i :: 0 <= i < |order| && ranks[order[i]] == Some(m)
    ensures |b[|b| - 1]| > 0
  {
    var i :| 0 <= i < |order| && ranks[order[i]] == Some(m);
    SortedAtRank(order, ranks, m, order[i]);
  }

  lemma SortedAtRank(order: seq<nat>, ranks: Ranks, k: nat, x: nat)
    requires Distinct(order) && Elems(order) <= ranks.Keys
    ensures x in Bucket(order, ranks, k) <==> x in order && ranks[x] == Some(k)
  {
    var a := AtRank(order, ranks, k);
    assert Bucket(order, ranks, k) == Sort(a);
    assert x in Sort(a) <==> x in Elems(Sort(a));
    assert x in a <==> x in Elems(a);
  }


  /** Each ranked AS lands in exactly one list: the one of its rank. */
  lemma BucketsPartition(order: seq<nat>, ranks: Ranks, x: nat)
    requires Distinct(order) && Elems(order) <= ranks.Keys
    requires Buckets(order, ranks).Ok? && x in order
    ensures var b := Buckets(order, ranks).value;
            ranks[x].Some? && ranks[x].value < |b| && x in b[ranks[x].value]
            && forall k :: 0 <= k < |b| && x in b[k] ==> k == ranks[x].value
  {
    var i :| 0 <= i < |order| && order[i] == x;
    assert x in Elems(order);
  }
}
