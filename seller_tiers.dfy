/** The seller-tier bar chart and the Platinum KPI card of the dashboard.
 *
 *  The chart counts sellers per `seller_tier` label (a pandas
 *  `groupby(...).size()`, which drops missing labels), turns the label column
 *  into an ordered categorical over Platinum, Gold, Silver, Bronze (a label
 *  outside that list becomes missing), and sorts by it, missing values last.
 *  The KPI card counts the sellers whose tier is exactly "Platinum". */
module SellerTiers {
  import opened Sql

  datatype Tier = Platinum | Gold | Silver | Bronze {
    /** Position in the display order, Platinum first. */
    function Rank(): (n: nat)
      ensures n < 4
    {
      match this
      case Platinum => 0
      case Gold => 1
      case Silver => 2
      case Bronze => 3
    }

    /** The label a seller row carries for this tier. */
    function Name(): string {
      match this
      case Platinum => "Platinum"
      case Gold => "Gold"
      case Silver => "Silver"
      case Bronze => "Bronze"
    }
  }

  /** The categories of the ordered categorical, in rank order. */
  const TierOrder: seq<string> := ["Platinum", "Gold", "Silver", "Bronze"]

  /** A label's category: its tier when the label is one of `TierOrder`,
   *  missing otherwise. */
  function Categorize(tierLabel: string): (r: Option<Tier>)
    ensures r.Some? <==> tierLabel in TierOrder
    ensures r.Some? ==> r.value.Name() == tierLabel && TierOrder[r.value.Rank()] == tierLabel
  {
    if tierLabel == "Platinum" then Some(Platinum)
    else if tierLabel == "Gold" then Some(Gold)
    else if tierLabel == "Silver" then Some(Silver)
    else if tierLabel == "Bronze" then Some(Bronze)
    else None
  }

  /** Every tier's own label is read back as that tier, at its rank. */
  lemma CategorizeName(t: Tier)
    ensures Categorize(t.Name()) == Some(t)
    ensures TierOrder[t.Rank()] == t.Name()
  {
  }

  /** How many sellers carry the tier label `tierLabel`. */
  function CountOf(tiers: seq<Option<string>>, tierLabel: string): (n: nat)
    ensures n <= |tiers|
    ensures n > 0 <==> Some(tierLabel) in tiers
    ensures n == multiset(tiers)[Some(tierLabel)]
  {
    assert tiers != [] ==> tiers == [tiers[0]] + tiers[1..];
    if tiers == [] then 0
    else (if tiers[0] == Some(tierLabel) then 1 else 0) + CountOf(tiers[1..], tierLabel)
  }

  /** The distinct non-missing labels of the `seller_tier` column. */
  function Labels(tiers: seq<Option<string>>): (ls: seq<string>)
    ensures forall l :: l in ls <==> Some(l) in tiers
    ensures forall i, j | 0 <= i < j < |ls| :: ls[i] != ls[j]
  {
    if tiers == [] then []
    else
      var rest := Labels(tiers[1..]);
      assert forall x :: x in tiers <==> x == tiers[0] || x in tiers[1..];
      if tiers[0].None? || tiers[0].value in rest then rest else [tiers[0].value] + rest
  }

  /** One row of the grouped counts: a label and its number of sellers. */
  datatype TierCount = TierCount(tier: string, count: nat)

  /** `groupby('seller_tier').size()`: one row per distinct non-missing label,
   *  with the number of sellers carrying it. */
  function TierSizes(tiers: seq<Option<string>>): (r: seq<TierCount>)
    ensures forall i, j | 0 <= i < j < |r| :: r[i].tier != r[j].tier
    ensures forall i | 0 <= i < |r| :: r[i].count == CountOf(tiers, r[i].tier) && r[i].count > 0
    ensures forall l :: Some(l) in tiers <==> exists i | 0 <= i < |r| :: r[i].tier == l
  {
    var ls := Labels(tiers);
    var r := seq(|ls|, i requires 0 <= i < |ls| => TierCount(ls[i], CountOf(tiers, ls[i])));
    assert forall l :: l in ls ==> exists i | 0 <= i < |r| :: r[i].tier == l by {
      forall l | l in ls ensures exists i | 0 <= i < |r| :: r[i].tier == l {
        var i :| 0 <= i < |ls| && ls[i] == l;
        assert r[i].tier == l;
      }
    }
    r
  }

  /** A grouped row after the tier column became categorical: a tier, or
   *  missing for a label outside `TierOrder`. */
  datatype RankedCount = RankedCount(tier: Option<Tier>, count: nat)

  /** `pd.Categorical(tier_data['seller_tier'], categories=TierOrder, ordered=True)`
   *  applied to the grouped rows. */
  function Categorical(rows: seq<TierCount>): (r: seq<RankedCount>)
    ensures |r| == |rows|
    ensures forall i | 0 <= i < |rows| :: r[i] == RankedCount(Categorize(rows[i].tier), rows[i].count)
  {
    seq(|rows|, i requires 0 <= i < |rows| => RankedCount(Categorize(rows[i].tier), rows[i].count))
  }

  /** The sort key: the tier's rank, and 4 (after every rank) for a missing
   *  tier, since `sort_values` puts missing values last. */
  function SortKey(r: RankedCount): (k: nat)
    ensures k <= 4
    ensures k == 4 <==> r.tier.None?
  {
    if r.tier.Some? then r.tier.value.Rank() else 4
  }

  /** Ordered by tier rank, missing tiers last. */
  predicate Sorted(s: seq<RankedCount>) {
    forall i, j | 0 <= i < j < |s| :: SortKey(s[i]) <= SortKey(s[j])
  }

  /** No two different rows share a tier. */
  ghost predicate RankedDistinct(m: multiset<RankedCount>) {
    forall x, y | x in m && y in m && x.tier.Some? && x.tier == y.tier :: x == y
  }

  /** The rows whose sort key is `k`, in input order. */
  function Bucket(rows: seq<RankedCount>, k: nat): (r: seq<RankedCount>)
    ensures forall x | x in r :: SortKey(x) == k
  {
    if rows == [] then []
    else (if SortKey(rows[0]) == k then [rows[0]] else []) + Bucket(rows[1..], k)
  }

  /** The rows with key `k`, then those with key `k + 1`, up to 4. */
  function SortFromRank(rows: seq<RankedCount>, k: nat): (r: seq<RankedCount>)
    requires k <= 5
    ensures Sorted(r)
    ensures forall x | x in r :: k <= SortKey(x)
    decreases 5 - k
  {
    if k == 5 then []
    else
      var b := Bucket(rows, k);
      var rest := SortFromRank(rows, k + 1);
      assert forall i | 0 <= i < |b| :: (b + rest)[i] == b[i];
      assert forall i | |b| <= i < |b| + |rest| :: (b + rest)[i] == rest[i - |b|];
      b + rest
  }

  /** What `SortFromRank(rows, k)` keeps of a leading row `x`: `x` itself
   *  when its key is at least `k`. */
  lemma {:induction false} SortFromRankCons(x: RankedCount, rest: seq<RankedCount>, k: nat)
    requires k <= 5
    ensures multiset(SortFromRank([x] + rest, k))
         == (if k <= SortKey(x) then multiset{x} else multiset{}) + multiset(SortFromRank(rest, k))
    decreases 5 - k
  {
    if k < 5 {
      var rows := [x] + rest;
      assert rows[0] == x && rows[1..] == rest;
      SortFromRankCons(x, rest, k + 1);
    }
  }

  lemma {:induction false} SortFromRankPermutes(rows: seq<RankedCount>)
    ensures multiset(SortFromRank(rows, 0)) == multiset(rows)
  {
    if rows != [] {
      assert rows == [rows[0]] + rows[1..];
      SortFromRankCons(rows[0], rows[1..], 0);
      SortFromRankPermutes(rows[1..]);
    }
  }

  /** `tier_data.sort_values('seller_tier')`: the rows in rank order,
   *  Platinum, Gold, Silver, Bronze, and rows with a missing tier last; no
   *  row is lost, added or changed. */
  function SortByTierOrder(rows: seq<RankedCount>): (r: seq<RankedCount>)
    ensures Sorted(r)
    ensures multiset(r) == multiset(rows)
  {
    SortFromRankPermutes(rows);
    SortFromRank(rows, 0)
  }

  /** The rows of the seller-tier chart, in display order. */
  function TierChart(tiers: seq<Option<string>>): (chart: seq<RankedCount>)
    ensures Sorted(chart)
    ensures forall x | x in chart :: 0 < x.count <= |tiers|
    ensures forall x | x in chart && x.tier.Some? :: Some(x.tier.value.Name()) in tiers
  {
    var rows := TierSizes(tiers);
    var cat := Categorical(rows);
    var chart := SortByTierOrder(cat);
    forall x | x in chart
      ensures 0 < x.count <= |tiers|
      ensures x.tier.Some? ==> Some(x.tier.value.Name()) in tiers
    {
      assert x in multiset(cat);
      ChartBar(tiers, x);
    }
    chart
  }

  /** A grouped, categorised row stands for a label some seller carries. */
  lemma ChartBar(tiers: seq<Option<string>>, x: RankedCount)
    requires x in Categorical(TierSizes(tiers))
    ensures 0 < x.count <= |tiers|
    ensures x.tier.Some? ==> Some(x.tier.value.Name()) in tiers
  {
    var rows := TierSizes(tiers);
    var cat := Categorical(rows);
    var i :| 0 <= i < |cat| && cat[i] == x;
    assert x.count == CountOf(tiers, rows[i].tier);
    assert x.tier == Categorize(rows[i].tier);
  }

  /** Two orderings by tier rank of the same rows start with the same key. */
  lemma SortedHeadKey(s: seq<RankedCount>, t: seq<RankedCount>)
    requires Sorted(s) && Sorted(t)
    requires multiset(s) == multiset(t) && s != []
    ensures t != [] && SortKey(s[0]) == SortKey(t[0])
  {
    assert t[0] in multiset(s);
    var j :| 0 <= j < |s| && s[j] == t[0];
    assert s[0] in multiset(t);
    var m :| 0 <= m < |t| && t[m] == s[0];
  }

  /** Fewer rows cannot make two rows share a tier. */
  lemma RankedDistinctSub(m: multiset<RankedCount>, n: multiset<RankedCount>)
    requires n <= m && RankedDistinct(m)
    ensures RankedDistinct(n)
  {
  }

  /** Two rows with the same tier-rank key and a tier have the same tier. */
  lemma SameKeySameTier(x: RankedCount, y: RankedCount)
    requires SortKey(x) == SortKey(y) && x.tier.Some?
    ensures x.tier == y.tier
  {
  }

  /** Once a row without a tier leads an ordering by tier rank, no row has
   *  a tier. */
  lemma AllUnranked(s: seq<RankedCount>)
    requires Sorted(s) && s != [] && s[0].tier.None?
    ensures forall i | 0 <= i < |s| :: SortKey(s[i]) == 4
  {
  }

  /** Two orderings by tier rank of the same rows, no two of which share a
   *  tier, start with the same row when that row has a tier. */
  lemma SameHead(s: seq<RankedCount>, t: seq<RankedCount>)
    requires s != [] && t != [] && SortKey(s[0]) == SortKey(t[0]) && s[0].tier.Some?
    requires multiset(s) == multiset(t) && RankedDistinct(multiset(s))
    ensures s[0] == t[0]
  {
  }

  /** Dropping the same first row from two orderings by tier rank of the
   *  same rows leaves two orderings by tier rank of the same rows. */
  lemma SortedTails(s: seq<RankedCount>, t: seq<RankedCount>)
    requires s != [] && t != [] && s[0] == t[0]
    requires Sorted(s) && Sorted(t)
    requires multiset(s) == multiset(t) && RankedDistinct(multiset(s))
    ensures Sorted(s[1..]) && Sorted(t[1..])
    ensures multiset(s[1..]) == multiset(t[1..]) && RankedDistinct(multiset(s[1..]))
  {
    SortedTail(s);
    SortedTail(t);
    TailMultiset(s, t);
    RankedDistinctSub(multiset(s), multiset(s[1..]));
  }

  /** Dropping the first row keeps an ordering by tier rank. */
  lemma SortedTail(s: seq<RankedCount>)
    requires s != [] && Sorted(s)
    ensures Sorted(s[1..])
  {
    forall i, j | 0 <= i < j < |s| - 1
      ensures SortKey(s[1..][i]) <= SortKey(s[1..][j])
    {
      assert s[1..][i] == s[i + 1] && s[1..][j] == s[j + 1];
    }
  }

  /** Dropping the same first row from the same rows leaves the same rows,
   *  all of them among the original ones. */
  lemma TailMultiset(s: seq<RankedCount>, t: seq<RankedCount>)
    requires s != [] && t != [] && s[0] == t[0] && multiset(s) == multiset(t)
    ensures multiset(s[1..]) == multiset(t[1..]) && multiset(s[1..]) <= multiset(s)
  {
    assert s == [s[0]] + s[1..] && t == [t[0]] + t[1..];
    assert multiset(s) == multiset{s[0]} + multiset(s[1..]);
    assert multiset(t) == multiset{t[0]} + multiset(t[1..]);
    assert multiset(s[1..]) == multiset(s) - multiset{s[0]};
    assert multiset(t[1..]) == multiset(t) - multiset{t[0]};
  }

  /** Agreement on ranked rows survives putting the same row in front. */
  lemma AgreeCons(s: seq<RankedCount>, t: seq<RankedCount>)
    requires s != [] && |s| == |t| && s[0] == t[0]
    requires forall i | 0 <= i < |s[1..]| ::
               SortKey(s[1..][i]) == SortKey(t[1..][i]) && (s[1..][i].tier.Some? ==> s[1..][i] == t[1..][i])
    ensures forall i | 0 <= i < |s| :: SortKey(s[i]) == SortKey(t[i]) && (s[i].tier.Some? ==> s[i] == t[i])
  {
    forall i | 1 <= i < |s|
      ensures SortKey(s[i]) == SortKey(t[i]) && (s[i].tier.Some? ==> s[i] == t[i])
    {
      assert s[i] == s[1..][i - 1] && t[i] == t[1..][i - 1];
    }
  }

  /** Two orderings of the same rows by tier rank agree wherever the row has
   *  a tier, when no two different rows share a tier: the ranked part of the
   *  order is fixed, whatever order the rows came in and whichever sort
   *  produced it. Only rows with a missing tier may come out in another order. */
  lemma {:induction false} SortedRowsAgree(s: seq<RankedCount>, t: seq<RankedCount>)
    requires Sorted(s) && Sorted(t)
    requires multiset(s) == multiset(t)
    requires RankedDistinct(multiset(s))
    ensures |s| == |t|
    ensures forall i | 0 <= i < |s| :: SortKey(s[i]) == SortKey(t[i]) && (s[i].tier.Some? ==> s[i] == t[i])
  {
    assert |s| == |multiset(s)| == |t|;
    if s != [] {
      SortedHeadKey(s, t);
      if s[0].tier.None? {
        AllUnranked(s);
        AllUnranked(t);
      } else {
        SameHead(s, t);
        SortedTails(s, t);
        SortedRowsAgree(s[1..], t[1..]);
        AgreeCons(s, t);
      }
    }
  }

  /** Sorting the same grouped rows, given in any order, puts every ranked row
   *  in the same place: Platinum, Gold, Silver, Bronze, whatever the order
   *  the grouping produced. */
  lemma TierOrderIndependent(a: seq<RankedCount>, b: seq<RankedCount>)
    requires multiset(a) == multiset(b)
    requires RankedDistinct(multiset(a))
    ensures |SortByTierOrder(a)| == |SortByTierOrder(b)|
    ensures forall i | 0 <= i < |SortByTierOrder(a)| && SortByTierOrder(a)[i].tier.Some? ::
              SortByTierOrder(a)[i] == SortByTierOrder(b)[i]
  {
    SortedRowsAgree(SortByTierOrder(a), SortByTierOrder(b));
  }

  /** The grouped rows of one tier: the row of that tier's label, holding the
   *  number of sellers carrying it. */
  lemma CategoricalRow(tiers: seq<Option<string>>, r: RankedCount)
    requires r in Categorical(TierSizes(tiers)) && r.tier.Some?
    ensures r.count == CountOf(tiers, r.tier.value.Name())
    ensures Some(r.tier.value.Name()) in tiers
  {
  }

  /** The grouped rows never hold two different rows of one tier: group
   *  labels are distinct, and only the label `t.Name()` maps to tier `t`. */
  lemma CategoricalDistinct(tiers: seq<Option<string>>)
    ensures RankedDistinct(multiset(Categorical(TierSizes(tiers))))
  {
  }

  /** Whatever order the chart's bars come in from any sort by tier rank,
   *  the bars with a tier stand exactly where `TierChart` puts them. */
  lemma TierChartDetermined(tiers: seq<Option<string>>, s: seq<RankedCount>)
    requires Sorted(s)
    requires multiset(s) == multiset(Categorical(TierSizes(tiers)))
    ensures |s| == |TierChart(tiers)|
    ensures forall i | 0 <= i < |s| && s[i].tier.Some? :: s[i] == TierChart(tiers)[i]
  {
    CategoricalDistinct(tiers);
    SortedRowsAgree(s, TierChart(tiers));
  }

  /** A tier whose label some seller carries has a grouped row. */
  lemma CategoricalHasTier(tiers: seq<Option<string>>, t: Tier)
    requires Some(t.Name()) in tiers
    ensures RankedCount(Some(t), CountOf(tiers, t.Name())) in Categorical(TierSizes(tiers))
  {
  }

  /** The chart keeps every tier's count: tier `t` has a bar exactly when
   *  some seller carries its label, and the bar's height is the number of
   *  such sellers. */
  lemma TierCountKept(tiers: seq<Option<string>>, t: Tier)
    ensures RankedCount(Some(t), CountOf(tiers, t.Name())) in TierChart(tiers) <==> Some(t.Name()) in tiers
    ensures forall r | r in TierChart(tiers) && r.tier == Some(t) :: r.count == CountOf(tiers, t.Name())
  {
    var rows := Categorical(TierSizes(tiers));
    var chart := TierChart(tiers);
    assert forall r :: r in chart <==> r in rows by {
      assert multiset(chart) == multiset(rows);
      forall r ensures r in chart <==> r in rows {
        assert r in chart <==> r in multiset(chart);
        assert r in rows <==> r in multiset(rows);
      }
    }
    var x := RankedCount(Some(t), CountOf(tiers, t.Name()));
    if Some(t.Name()) in tiers {
      CategoricalHasTier(tiers, t);
    }
    if x in chart {
      CategoricalRow(tiers, x);
    }
    forall r | r in chart && r.tier == Some(t)
      ensures r.count == CountOf(tiers, t.Name())
    {
      CategoricalRow(tiers, r);
    }
  }

  /** In an ordering by tier rank with a Platinum row, the first row is a
   *  Platinum row. */
  lemma PlatinumLeads(s: seq<RankedCount>, i: nat)
    requires Sorted(s) && i < |s| && s[i].tier == Some(Platinum)
    ensures s[0].tier == Some(Platinum)
  {
  }

  /** The Platinum KPI card: the number of sellers whose tier is exactly
   *  "Platinum". */
  function PlatinumSellers(tiers: seq<Option<string>>): (n: nat)
    ensures n <= |tiers|
    ensures n > 0 <==> Some("Platinum") in tiers
    ensures n == multiset(tiers)[Some("Platinum")]
  {
    CountOf(tiers, "Platinum")
  }

  /** The KPI card and the chart agree: with Platinum sellers present, the
   *  chart's first bar is Platinum with the card's number; without any,
   *  the chart has no Platinum bar. */
  lemma PlatinumCardMatchesChart(tiers: seq<Option<string>>)
    ensures PlatinumSellers(tiers) > 0 ==>
              |TierChart(tiers)| > 0 && TierChart(tiers)[0] == RankedCount(Some(Platinum), PlatinumSellers(tiers))
    ensures PlatinumSellers(tiers) == 0 ==> forall r | r in TierChart(tiers) :: r.tier != Some(Platinum)
  {
    var chart := TierChart(tiers);
    TierCountKept(tiers, Platinum);
    if PlatinumSellers(tiers) > 0 {
      var p := RankedCount(Some(Platinum), PlatinumSellers(tiers));
      var i :| 0 <= i < |chart| && chart[i] == p;
      PlatinumLeads(chart, i);
      assert chart[0] in chart;
    }
  }

  /** Rows whose tiers are pairwise different never share a tier. */
  lemma DistinctTiers(s: seq<RankedCount>)
    requires forall i, j | 0 <= i < j < |s| :: s[i].tier != s[j].tier
    ensures RankedDistinct(multiset(s))
  {
  }

  /** When every row has a tier and no two rows share one, there is only one
   *  ordering of them by tier rank. */
  lemma RankedSortUnique(s: seq<RankedCount>, t: seq<RankedCount>)
    requires Sorted(s) && Sorted(t)
    requires multiset(s) == multiset(t)
    requires RankedDistinct(multiset(s))
    requires forall x | x in s :: x.tier.Some?
    ensures s == t
  {
    SortedRowsAgree(s, t);
  }

  /** One row per tier, in whatever order the grouping produced them (for
   *  instance alphabetical: Bronze, Gold, Platinum, Silver), comes out as
   *  Platinum, Gold, Silver, Bronze. */
  lemma FourTierOrder(rows: seq<RankedCount>, p: nat, g: nat, s: nat, b: nat)
    requires multiset(rows) == multiset{RankedCount(Some(Platinum), p), RankedCount(Some(Gold), g),
                                        RankedCount(Some(Silver), s), RankedCount(Some(Bronze), b)}
    ensures SortByTierOrder(rows) == [RankedCount(Some(Platinum), p), RankedCount(Some(Gold), g),
                                      RankedCount(Some(Silver), s), RankedCount(Some(Bronze), b)]
  {
    var want := [RankedCount(Some(Platinum), p), RankedCount(Some(Gold), g),
                 RankedCount(Some(Silver), s), RankedCount(Some(Bronze), b)];
    assert multiset(want) == multiset(rows);
    assert Sorted(want);
    assert forall x | x in want :: x.tier.Some?;
    DistinctTiers(want);
    RankedSortUnique(want, SortByTierOrder(rows));
  }
}
