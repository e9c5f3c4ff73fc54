/**
 * `extractDominantColors`: Lloyd's k-means over the sampled colours, for a
 * fixed ten rounds, then the centroids as hex strings. `Math.random` seeding is
 * replaced by `seeds`, the k indices it would have drawn; Euclidean distance by
 * its square (the same argmin); `Math.round(sum / n)` by `(2 * sum + n) / (2 * n)`.
 */
module DominantColors {
  import opened HexCodec

  /** The fixed number of k-means rounds. */
  const Rounds: nat := 10

  // ---------------------------------------------------------------------------
  // Assignment

  function Square(x: int): nat {
    x * x
  }

  /** Squared Euclidean distance in RGB space. */
  function SqDist(a: Rgb, b: Rgb): nat {
    Square(a.r - b.r) + Square(a.g - b.g) + Square(a.b - b.b)
  }

  /** `best` is the first index of minimum distance to `c` among `cs[..upTo]`. */
  ghost predicate FirstNearestAmong(c: Rgb, cs: seq<Rgb>, upTo: nat, best: nat)
    requires best < upTo <= |cs|
  {
    && (forall i :: 0 <= i < upTo ==> SqDist(c, cs[best]) <= SqDist(c, cs[i]))
    && (forall i :: 0 <= i < best ==> SqDist(c, cs[best]) < SqDist(c, cs[i]))
  }

  /** The scan of `centroids.forEach`, from index `from` on with the best index so far. */
  function NearestFrom(c: Rgb, cs: seq<Rgb>, from: nat, best: nat): (j: nat)
    requires best < from <= |cs|
    ensures j < |cs|
    ensures FirstNearestAmong(c, cs, from, best) ==> FirstNearestAmong(c, cs, |cs|, j)
    decreases |cs| - from
  {
    if from == |cs| then best
    else if SqDist(c, cs[from]) < SqDist(c, cs[best]) then NearestFrom(c, cs, from + 1, from)
    else NearestFrom(c, cs, from + 1, best)
  }

  /**
   * `closestCentroid`: the nearest centroid, and the lowest index among equally
   * near ones, because the comparison is a strict `<`. Index 0 is taken first,
   * since any distance is below the initial `Number.POSITIVE_INFINITY`.
   */
  function Nearest(c: Rgb, cs: seq<Rgb>): (j: nat)
    requires |cs| > 0
    ensures j < |cs|
    ensures forall i :: 0 <= i < |cs| ==> SqDist(c, cs[j]) <= SqDist(c, cs[i])
    ensures forall i :: 0 <= i < j ==> SqDist(c, cs[j]) < SqDist(c, cs[i])
  {
    NearestFrom(c, cs, 1, 0)
  }

  /** `Array(k).fill().map(() => [])`. */
  function EmptyClusters(k: nat): (clusters: seq<seq<Rgb>>)
    ensures |clusters| == k && forall j :: 0 <= j < k ==> clusters[j] == []
  {
    seq(k, _ => [])
  }

  /** The clusters after the first `|colors|` colours are pushed onto their nearest centroid's cluster. */
  function Assign(colors: seq<Rgb>, cs: seq<Rgb>): (clusters: seq<seq<Rgb>>)
    requires |cs| > 0
    ensures |clusters| == |cs|
    decreases |colors|
  {
    if colors == [] then EmptyClusters(|cs|)
    else
      var clusters := Assign(colors[..|colors| - 1], cs);
      var c := colors[|colors| - 1];
      var j := Nearest(c, cs);
      clusters[j := clusters[j] + [c]]
  }

  /** A colour is in cluster `j` exactly when it is one of the colours and centroid `j` is its nearest. */
  lemma {:induction false} AssignMembers(colors: seq<Rgb>, cs: seq<Rgb>, j: nat, c: Rgb)
    requires |cs| > 0 && j < |cs|
    ensures c in Assign(colors, cs)[j] <==> c in colors && Nearest(c, cs) == j
    decreases |colors|
  {
    if colors != [] {
      var prefix := colors[..|colors| - 1];
      AssignMembers(prefix, cs, j, c);
      assert colors == prefix + [colors[|colors| - 1]];
    }
  }

  /** Reference for one cluster: the colours whose nearest centroid is `j`, kept in input order. */
  function ClusterOf(colors: seq<Rgb>, cs: seq<Rgb>, j: nat): (cluster: seq<Rgb>)
    requires |cs| > 0
    ensures |cluster| <= |colors|
    decreases |colors|
  {
    if colors == [] then []
    else
      var c := colors[|colors| - 1];
      ClusterOf(colors[..|colors| - 1], cs, j) + (if Nearest(c, cs) == j then [c] else [])
  }

  /** Each cluster is exactly that filter of the colours, each colour taken once, in input order. */
  lemma {:induction false} AssignIsFilter(colors: seq<Rgb>, cs: seq<Rgb>, j: nat)
    requires |cs| > 0 && j < |cs|
    ensures Assign(colors, cs)[j] == ClusterOf(colors, cs, j)
    decreases |colors|
  {
    if colors != [] {
      AssignIsFilter(colors[..|colors| - 1], cs, j);
    }
  }

  function TotalSize(clusters: seq<seq<Rgb>>): nat {
    if clusters == [] then 0 else TotalSize(clusters[..|clusters| - 1]) + |clusters[|clusters| - 1]|
  }

  lemma {:induction false} TotalSizeUpdate(clusters: seq<seq<Rgb>>, j: nat, extra: Rgb)
    requires j < |clusters|
    ensures TotalSize(clusters[j := clusters[j] + [extra]]) == TotalSize(clusters) + 1
    decreases |clusters|
  {
    var last := |clusters| - 1;
    var updated := clusters[j := clusters[j] + [extra]];
    if j < last {
      assert updated[..last] == clusters[..last][j := clusters[j] + [extra]];
      TotalSizeUpdate(clusters[..last], j, extra);
    } else {
      assert updated[..last] == clusters[..last];
    }
  }

  lemma {:induction false} TotalSizeEmpty(n: nat)
    ensures TotalSize(EmptyClusters(n)) == 0
  {
    if n > 0 {
      assert EmptyClusters(n)[..n - 1] == EmptyClusters(n - 1);
      TotalSizeEmpty(n - 1);
    }
  }

  /** Every colour lands in exactly one cluster: the cluster sizes add up to the number of colours. */
  lemma {:induction false} AssignTotalSize(colors: seq<Rgb>, cs: seq<Rgb>)
    requires |cs| > 0
    ensures TotalSize(Assign(colors, cs)) == |colors|
    decreases |colors|
  {
    if colors == [] {
      TotalSizeEmpty(|cs|);
    } else {
      var prefix := colors[..|colors| - 1];
      AssignTotalSize(prefix, cs);
      TotalSizeUpdate(Assign(prefix, cs), Nearest(colors[|colors| - 1], cs), colors[|colors| - 1]);
    }
  }

  // ---------------------------------------------------------------------------
  // Update

  lemma CancelFactor(u: int, v: int, d: int)
    requires d > 0 && u * d < v * d
    ensures u < v
  {
    assert (v - u) * d == v * d - u * d;
  }

  lemma DivLess(x: nat, d: nat, q: nat)
    requires d > 0 && x < q * d
    ensures x / d < q
  {
    var a := x / d;
    assert a * d <= x;
    CancelFactor(a, q, d);
  }

  lemma DivAtLeast(x: nat, d: nat, q: nat)
    requires d > 0 && q * d <= x
    ensures q <= x / d
  {
    var a := x / d;
    assert x < (a + 1) * d;
    CancelFactor(q, a + 1, d);
  }

  lemma DivExact(x: nat, d: nat, q: nat)
    requires d > 0 && q * d <= x < q * d + d
    ensures x / d == q
  {
    DivAtLeast(x, d, q);
    assert q * d + d == (q + 1) * d;
    DivLess(x, d, q + 1);
  }

  /**
   * `Math.round(sum / n)` for a non-negative sum: the `m` with
   * `m - 1/2 <= sum / n < m + 1/2`, so half-way values round up.
   */
  function RoundedMean(sum: nat, n: nat): (m: nat)
    requires n > 0
    ensures m * (2 * n) <= 2 * sum + n < m * (2 * n) + 2 * n
  {
    (2 * sum + n) / (2 * n)
  }

  /** The mean of channel values that lie in 0..255 also lies in 0..255. */
  lemma RoundedMeanIsByte(sum: nat, n: nat)
    requires n > 0 && sum <= 255 * n
    ensures RoundedMean(sum, n) <= 255
  {
    DivLess(2 * sum + n, 2 * n, 256);
  }

  function SumR(cl: seq<Rgb>): nat { if cl == [] then 0 else SumR(cl[..|cl| - 1]) + cl[|cl| - 1].r }
  function SumG(cl: seq<Rgb>): nat { if cl == [] then 0 else SumG(cl[..|cl| - 1]) + cl[|cl| - 1].g }
  function SumB(cl: seq<Rgb>): nat { if cl == [] then 0 else SumB(cl[..|cl| - 1]) + cl[|cl| - 1].b }

  /** Each channel sum of a cluster is at most 255 per member. */
  lemma {:induction false} SumsBounded(cl: seq<Rgb>)
    ensures SumR(cl) <= 255 * |cl| && SumG(cl) <= 255 * |cl| && SumB(cl) <= 255 * |cl|
  {
    if cl != [] {
      SumsBounded(cl[..|cl| - 1]);
    }
  }

  /** The component-wise rounded mean of a non-empty cluster, still a valid colour. */
  function MeanColor(cl: seq<Rgb>): Rgb
    requires |cl| > 0
  {
    SumsBounded(cl);
    RoundedMeanIsByte(SumR(cl), |cl|);
    RoundedMeanIsByte(SumG(cl), |cl|);
    RoundedMeanIsByte(SumB(cl), |cl|);
    Rgb(RoundedMean(SumR(cl), |cl|), RoundedMean(SumG(cl), |cl|), RoundedMean(SumB(cl), |cl|))
  }

  /** A cluster whose members are all one colour has that colour as its mean. */
  lemma MeanOfUniform(cl: seq<Rgb>, c: Rgb)
    requires |cl| > 0 && forall i :: 0 <= i < |cl| ==> cl[i] == c
    ensures MeanColor(cl) == c
  {
    SumsOfUniform(cl, c);
    RoundedMeanOfCopies(c.r, |cl|);
    RoundedMeanOfCopies(c.g, |cl|);
    RoundedMeanOfCopies(c.b, |cl|);
  }

  lemma RoundedMeanOfCopies(v: nat, n: nat)
    requires n > 0
    ensures RoundedMean(n * v, n) == v
  {
    assert v * (2 * n) == 2 * (n * v);
    DivExact(2 * (n * v) + n, 2 * n, v);
  }

  lemma MulSucc(n: nat, v: nat)
    ensures (n + 1) * v == n * v + v
  {
  }

  lemma {:induction false} SumsOfUniform(cl: seq<Rgb>, c: Rgb)
    requires forall i :: 0 <= i < |cl| ==> cl[i] == c
    ensures SumR(cl) == |cl| * c.r && SumG(cl) == |cl| * c.g && SumB(cl) == |cl| * c.b
  {
    if cl != [] {
      var n := |cl|;
      SumsOfUniform(cl[..n - 1], c);
      MulSucc(n - 1, c.r);
      MulSucc(n - 1, c.g);
      MulSucc(n - 1, c.b);
    }
  }

  /**
   * `clusters.map(...)` as written: a centroid whose cluster is empty becomes the
   * previous round's `centroids[0]`.
   */
  function UpdateCentroids(clusters: seq<seq<Rgb>>, cs: seq<Rgb>): (next: seq<Rgb>)
    requires |clusters| == |cs| > 0
    ensures |next| == |cs|
  {
    seq(|cs|, j requires 0 <= j < |cs| => if clusters[j] == [] then cs[0] else MeanColor(clusters[j]))
  }

  /** An empty cluster's centroid is replaced by the old first centroid, whatever its own value was. */
  lemma EmptyClusterTakesFirstCentroid(clusters: seq<seq<Rgb>>, cs: seq<Rgb>, j: nat)
    requires |clusters| == |cs| > 0 && j < |cs| && clusters[j] == []
    ensures UpdateCentroids(clusters, cs)[j] == cs[0]
    ensures cs[j] != cs[0] ==> UpdateCentroids(clusters, cs)[j] != cs[j]
  {
  }

  /** One round: assign, then update. */
  function Step(colors: seq<Rgb>, cs: seq<Rgb>): (next: seq<Rgb>)
    requires |cs| > 0
    ensures |next| == |cs|
  {
    UpdateCentroids(Assign(colors, cs), cs)
  }

  /** `n` rounds. */
  function Iterate(colors: seq<Rgb>, cs: seq<Rgb>, n: nat): (final: seq<Rgb>)
    requires |cs| > 0
    ensures |final| == |cs|
    decreases n
  {
    if n == 0 then cs else Iterate(colors, Step(colors, cs), n - 1)
  }

  /** Centroids that one round leaves alone stay put for any number of rounds. */
  lemma {:induction false} IterateFixedPoint(colors: seq<Rgb>, cs: seq<Rgb>, n: nat)
    requires |cs| > 0 && Step(colors, cs) == cs
    ensures Iterate(colors, cs, n) == cs
  {
    if n > 0 {
      IterateFixedPoint(colors, cs, n - 1);
    }
  }

  // ---------------------------------------------------------------------------
  // Seeding and ranking

  /** The seeds satisfy what `Math.random` guarantees: k indices into the colours. */
  predicate ValidSeeds(colors: seq<Rgb>, k: nat, seeds: seq<nat>) {
    |seeds| == k && forall i :: 0 <= i < k ==> seeds[i] < |colors|
  }

  /** The initial centroids, copies of the seeded colours. */
  function Seeded(colors: seq<Rgb>, seeds: seq<nat>): (cs: seq<Rgb>)
    requires forall i :: 0 <= i < |seeds| ==> seeds[i] < |colors|
    ensures |cs| == |seeds|
    ensures forall i :: 0 <= i < |cs| ==> cs[i] in colors
  {
    seq(|seeds|, i requires 0 <= i < |seeds| => colors[seeds[i]])
  }

  /** A centroid's hex string with the frequency it is ranked by. */
  datatype Ranked = Ranked(color: string, frequency: nat)

  /** `centroids.map((centroid, index) => ({color: rgbToHex(...), frequency: clusters[index].length}))`. */
  function Ranking(cs: seq<Rgb>, clusters: seq<seq<Rgb>>): (items: seq<Ranked>)
    requires |clusters| == |cs|
    ensures |items| == |cs|
    ensures forall j :: 0 <= j < |cs| ==> items[j] == Ranked(RgbToHex(cs[j]), |clusters[j]|)
  {
    seq(|cs|, j requires 0 <= j < |cs| => Ranked(RgbToHex(cs[j]), |clusters[j]|))
  }

  /** Inserts `x` into a list sorted by descending frequency, after every entry at least as frequent. */
  function InsertByFrequency(x: Ranked, sorted: seq<Ranked>): (r: seq<Ranked>)
    ensures |r| == |sorted| + 1
    ensures multiset(r) == multiset(sorted) + multiset{x}
    decreases |sorted|
  {
    if sorted == [] then [x]
    else if sorted[0].frequency < x.frequency then [x] + sorted
    else
      assert sorted == [sorted[0]] + sorted[1..];
      [sorted[0]] + InsertByFrequency(x, sorted[1..])
  }

  /** `.sort((a, b) => b.frequency - a.frequency)`: a stable sort by descending frequency. */
  function SortByFrequency(items: seq<Ranked>): (r: seq<Ranked>)
    ensures |r| == |items|
    ensures multiset(r) == multiset(items)
  {
    if items == [] then []
    else
      assert items == items[..|items| - 1] + [items[|items| - 1]];
      InsertByFrequency(items[|items| - 1], SortByFrequency(items[..|items| - 1]))
  }

  ghost predicate SortedByFrequency(r: seq<Ranked>) {
    forall i, j :: 0 <= i < j < |r| ==> r[i].frequency >= r[j].frequency
  }

  /** No entry is more frequent than `f`. */
  ghost predicate AtMost(r: seq<Ranked>, f: nat) {
    forall i :: 0 <= i < |r| ==> r[i].frequency <= f
  }

  lemma {:induction false} InsertKeepsAtMost(x: Ranked, sorted: seq<Ranked>, f: nat)
    requires AtMost(sorted, f) && x.frequency <= f
    ensures AtMost(InsertByFrequency(x, sorted), f)
    decreases |sorted|
  {
    if sorted != [] && sorted[0].frequency >= x.frequency {
      InsertKeepsAtMost(x, sorted[1..], f);
    }
  }

  lemma {:induction false} InsertKeepsSorted(x: Ranked, sorted: seq<Ranked>)
    requires SortedByFrequency(sorted)
    ensures SortedByFrequency(InsertByFrequency(x, sorted))
    decreases |sorted|
  {
    if sorted != [] && sorted[0].frequency >= x.frequency {
      var tail := sorted[1..];
      InsertKeepsSorted(x, tail);
      InsertKeepsAtMost(x, tail, sorted[0].frequency);
      var rest := InsertByFrequency(x, tail);
      var r := [sorted[0]] + rest;
      assert InsertByFrequency(x, sorted) == r;
      forall i, j | 0 <= i < j < |r| ensures r[i].frequency >= r[j].frequency {
        if i > 0 {
          assert r[i] == rest[i - 1] && r[j] == rest[j - 1];
        } else {
          assert r[j] == rest[j - 1];
        }
      }
    }
  }

  /** The ranking is ordered by descending frequency. */
  lemma {:induction false} SortByFrequencySorted(items: seq<Ranked>)
    ensures SortedByFrequency(SortByFrequency(items))
    decreases |items|
  {
    if items != [] {
      SortByFrequencySorted(items[..|items| - 1]);
      InsertKeepsSorted(items[|items| - 1], SortByFrequency(items[..|items| - 1]));
    }
  }

  /** With all frequencies equal the stable sort leaves the order unchanged. */
  lemma {:induction false} InsertEqualFrequencyAppends(x: Ranked, sorted: seq<Ranked>)
    requires forall i :: 0 <= i < |sorted| ==> sorted[i].frequency == x.frequency
    ensures InsertByFrequency(x, sorted) == sorted + [x]
    decreases |sorted|
  {
    if sorted != [] {
      InsertEqualFrequencyAppends(x, sorted[1..]);
      assert sorted == [sorted[0]] + sorted[1..];
    }
  }

  lemma {:induction false} SortEqualFrequenciesIsIdentity(items: seq<Ranked>, f: nat)
    requires forall i :: 0 <= i < |items| ==> items[i].frequency == f
    ensures SortByFrequency(items) == items
    decreases |items|
  {
    if items != [] {
      var prefix := items[..|items| - 1];
      SortEqualFrequenciesIsIdentity(prefix, f);
      InsertEqualFrequencyAppends(items[|items| - 1], prefix);
      assert prefix + [items[|items| - 1]] == items;
    }
  }

  function Colors(items: seq<Ranked>): (hexes: seq<string>)
    ensures |hexes| == |items| && forall i :: 0 <= i < |items| ==> hexes[i] == items[i].color
  {
    seq(|items|, i requires 0 <= i < |items| => items[i].color)
  }

  // ---------------------------------------------------------------------------
  // extractDominantColors as written

  /**
   * What `extractDominantColors(colors, k)` returns, given the seeds. The ranking
   * step reads a freshly created array of empty clusters, so every frequency is 0.
   */
  function DominantColors(colors: seq<Rgb>, k: nat, seeds: seq<nat>): (hexes: seq<string>)
    requires colors == [] || (k >= 1 && ValidSeeds(colors, k, seeds))
    ensures colors == [] ==> hexes == []
    ensures colors != [] ==> |hexes| == k
  {
    if colors == [] then []
    else
      var final := Iterate(colors, Seeded(colors, seeds), Rounds);
      Colors(SortByFrequency(Ranking(final, EmptyClusters(k))))
  }

  /** Ranking by the recreated, empty clusters keeps the centroids in index order. */
  lemma RankingByEmptyClusters(cs: seq<Rgb>)
    ensures SortByFrequency(Ranking(cs, EmptyClusters(|cs|))) == Ranking(cs, EmptyClusters(|cs|))
  {
    SortEqualFrequenciesIsIdentity(Ranking(cs, EmptyClusters(|cs|)), 0);
  }

  /**
   * No colours give no result; otherwise exactly k canonical hex strings, in
   * centroid index order, one per final centroid.
   */
  lemma DominantColorsShape(colors: seq<Rgb>, k: nat, seeds: seq<nat>)
    requires colors == [] || (k >= 1 && ValidSeeds(colors, k, seeds))
    ensures colors == [] ==> DominantColors(colors, k, seeds) == []
    ensures colors != [] ==> |DominantColors(colors, k, seeds)| == k
    ensures colors != [] ==> var final := Iterate(colors, Seeded(colors, seeds), Rounds);
      forall j :: 0 <= j < k ==> DominantColors(colors, k, seeds)[j] == RgbToHex(final[j])
  {
    if colors != [] {
      RankingByEmptyClusters(Iterate(colors, Seeded(colors, seeds), Rounds));
    }
  }

  /** Every extracted colour is `#` and six lower-case hex digits. */
  lemma DominantColorsCanonical(colors: seq<Rgb>, k: nat, seeds: seq<nat>)
    requires colors == [] || (k >= 1 && ValidSeeds(colors, k, seeds))
    ensures forall j :: 0 <= j < |DominantColors(colors, k, seeds)| ==> IsCanonicalHex(DominantColors(colors, k, seeds)[j])
  {
    var r := DominantColors(colors, k, seeds);
    if colors != [] {
      var final := Iterate(colors, Seeded(colors, seeds), Rounds);
      assert |r| == k && forall j :: 0 <= j < k ==> r[j] == RgbToHex(final[j]) by {
        DominantColorsShape(colors, k, seeds);
      }
      forall j | 0 <= j < |r| ensures IsCanonicalHex(r[j]) {
        RgbToHexIsCanonical(final[j]);
      }
    }
  }

  /** The inner `centroids.forEach` scan for one colour. */
  method NearestCentroid(color: Rgb, centroids: seq<Rgb>) returns (closestCentroid: nat)
    requires |centroids| > 0
    ensures closestCentroid == Nearest(color, centroids)
  {
    // Index 0 always replaces the initial `Number.POSITIVE_INFINITY`.
    var minDistance := SqDist(color, centroids[0]);
    closestCentroid := 0;
    var index := 1;
    while index < |centroids|
      invariant 1 <= index <= |centroids|
      invariant closestCentroid < index
      invariant minDistance == SqDist(color, centroids[closestCentroid])
      invariant NearestFrom(color, centroids, index, closestCentroid) == Nearest(color, centroids)
    {
      var distance := SqDist(color, centroids[index]);
      if distance < minDistance {
        minDistance := distance;
        closestCentroid := index;
      }
      index := index + 1;
    }
  }

  /** `colors.forEach(...)`: each colour pushed onto its nearest centroid's cluster. */
  method AssignColors(colors: seq<Rgb>, centroids: seq<Rgb>) returns (clusters: seq<seq<Rgb>>)
    requires |centroids| > 0
    ensures clusters == Assign(colors, centroids)
  {
    clusters := EmptyClusters(|centroids|);
    var n := 0;
    while n < |colors|
      invariant 0 <= n <= |colors|
      invariant clusters == Assign(colors[..n], centroids)
    {
      var color := colors[n];
      var closestCentroid := NearestCentroid(color, centroids);
      assert colors[..n + 1][..n] == colors[..n];
      clusters := clusters[closestCentroid := clusters[closestCentroid] + [color]];
      n := n + 1;
    }
    assert colors[..|colors|] == colors;
  }

  /** `extractDominantColors`, with its loops. */
  method ExtractDominantColors(colors: seq<Rgb>, k: nat, seeds: seq<nat>) returns (hexes: seq<string>)
    requires colors == [] || (k >= 1 && ValidSeeds(colors, k, seeds))
    ensures hexes == DominantColors(colors, k, seeds)
  {
    if |colors| == 0 {
      return [];
    }

    var centroids: seq<Rgb> := [];
    var i := 0;
    while i < k
      invariant 0 <= i <= k
      invariant centroids == Seeded(colors, seeds[..i])
    {
      centroids := centroids + [colors[seeds[i]]];
      i := i + 1;
    }
    assert seeds[..k] == seeds;

    var iteration := 0;
    while iteration < Rounds
      invariant 0 <= iteration <= Rounds
      invariant |centroids| == k
      invariant Iterate(colors, centroids, Rounds - iteration) == Iterate(colors, Seeded(colors, seeds), Rounds)
    {
      var clusters := AssignColors(colors, centroids);
      centroids := UpdateCentroids(clusters, centroids);
      iteration := iteration + 1;
    }

    // The ranking reads a new `clusters` array, not the last round's.
    var recreated := EmptyClusters(k);
    hexes := Colors(SortByFrequency(Ranking(centroids, recreated)));
  }

  // ---------------------------------------------------------------------------
  // The evidently intended algorithm, and what the two quirks change

  /** The update as its comment says: an empty cluster keeps its own previous centroid. */
  function UpdateCentroidsKeepingOwn(clusters: seq<seq<Rgb>>, cs: seq<Rgb>): (next: seq<Rgb>)
    requires |clusters| == |cs| > 0
    ensures |next| == |cs|
    ensures forall j :: 0 <= j < |cs| && clusters[j] == [] ==> next[j] == cs[j]
    ensures forall j :: 0 <= j < |cs| && clusters[j] != [] ==> next[j] == MeanColor(clusters[j])
  {
    seq(|cs|, j requires 0 <= j < |cs| => if clusters[j] == [] then cs[j] else MeanColor(clusters[j]))
  }

  /** The two updates differ only in what an empty cluster gets: on a non-empty cluster they agree. */
  lemma UpdatesAgreeWithoutEmptyClusters(clusters: seq<seq<Rgb>>, cs: seq<Rgb>, j: nat)
    requires |clusters| == |cs| > 0 && j < |cs| && clusters[j] != []
    ensures UpdateCentroids(clusters, cs)[j] == UpdateCentroidsKeepingOwn(clusters, cs)[j]
  {
  }

  function StepKeepingOwn(colors: seq<Rgb>, cs: seq<Rgb>): (next: seq<Rgb>)
    requires |cs| > 0
    ensures |next| == |cs|
  {
    UpdateCentroidsKeepingOwn(Assign(colors, cs), cs)
  }

  function IterateKeepingOwn(colors: seq<Rgb>, cs: seq<Rgb>, n: nat): (final: seq<Rgb>)
    requires |cs| > 0
    ensures |final| == |cs|
    decreases n
  {
    if n == 0 then cs else IterateKeepingOwn(colors, StepKeepingOwn(colors, cs), n - 1)
  }

  lemma {:induction false} IterateKeepingOwnFixedPoint(colors: seq<Rgb>, cs: seq<Rgb>, n: nat)
    requires |cs| > 0 && StepKeepingOwn(colors, cs) == cs
    ensures IterateKeepingOwn(colors, cs, n) == cs
  {
    if n > 0 {
      IterateKeepingOwnFixedPoint(colors, cs, n - 1);
    }
  }

  /** The last of `n + 1` corrected rounds is one more round after the first `n`. */
  lemma {:induction false} IterateKeepingOwnLast(colors: seq<Rgb>, cs: seq<Rgb>, n: nat)
    requires |cs| > 0
    ensures IterateKeepingOwn(colors, cs, n + 1) == StepKeepingOwn(colors, IterateKeepingOwn(colors, cs, n))
    decreases n
  {
    if n > 0 {
      IterateKeepingOwnLast(colors, StepKeepingOwn(colors, cs), n - 1);
    }
  }

  /**
   * The ranking the comment "Sort by frequency (cluster size)" describes: the
   * final centroids, each with the size of its cluster in the last round,
   * stably sorted by descending size.
   */
  function RankedCentroids(colors: seq<Rgb>, k: nat, seeds: seq<nat>): (items: seq<Ranked>)
    requires k >= 1 && ValidSeeds(colors, k, seeds)
    ensures |items| == k
  {
    var before := IterateKeepingOwn(colors, Seeded(colors, seeds), Rounds - 1);
    var clusters := Assign(colors, before);
    SortByFrequency(Ranking(UpdateCentroidsKeepingOwn(clusters, before), clusters))
  }

  /** `extractDominantColors` with both quirks corrected. */
  function DominantColorsRanked(colors: seq<Rgb>, k: nat, seeds: seq<nat>): (hexes: seq<string>)
    requires colors == [] || (k >= 1 && ValidSeeds(colors, k, seeds))
    ensures colors == [] ==> hexes == []
    ensures colors != [] ==> |hexes| == k
  {
    if colors == [] then [] else Colors(RankedCentroids(colors, k, seeds))
  }

  function TotalFrequency(items: seq<Ranked>): nat {
    if items == [] then 0 else TotalFrequency(items[..|items| - 1]) + items[|items| - 1].frequency
  }

  lemma {:induction false} TotalFrequencyOfRanking(cs: seq<Rgb>, clusters: seq<seq<Rgb>>)
    requires |clusters| == |cs|
    ensures TotalFrequency(Ranking(cs, clusters)) == TotalSize(clusters)
    decreases |cs|
  {
    if cs != [] {
      var n := |cs| - 1;
      assert Ranking(cs, clusters)[..n] == Ranking(cs[..n], clusters[..n]);
      TotalFrequencyOfRanking(cs[..n], clusters[..n]);
    }
  }

  /**
   * The corrected ranking holds one entry per centroid after the ten rounds,
   * each with the size of its cluster in the last round, ordered by descending
   * size, and the sizes account for every sampled colour.
   */
  lemma RankedCentroidsShape(colors: seq<Rgb>, k: nat, seeds: seq<nat>)
    requires k >= 1 && ValidSeeds(colors, k, seeds)
    ensures var before := IterateKeepingOwn(colors, Seeded(colors, seeds), Rounds - 1);
      var final := IterateKeepingOwn(colors, Seeded(colors, seeds), Rounds);
      var clusters := Assign(colors, before);
      var items := RankedCentroids(colors, k, seeds);
      && final == UpdateCentroidsKeepingOwn(clusters, before)
      && |items| == k
      && multiset(items) == multiset(Ranking(final, clusters))
      && SortedByFrequency(items)
      && TotalFrequency(Ranking(final, clusters)) == |colors|
  {
    IterateKeepingOwnLast(colors, Seeded(colors, seeds), Rounds - 1);
    var before := IterateKeepingOwn(colors, Seeded(colors, seeds), Rounds - 1);
    var clusters := Assign(colors, before);
    var items := Ranking(UpdateCentroidsKeepingOwn(clusters, before), clusters);
    SortByFrequencySorted(items);
    assert |multiset(RankedCentroids(colors, k, seeds))| == |multiset(items)|;
    TotalFrequencyOfRanking(UpdateCentroidsKeepingOwn(clusters, before), clusters);
    AssignTotalSize(colors, before);
  }

  lemma SqDistZero(a: Rgb, b: Rgb)
    ensures SqDist(a, b) == 0 <==> a == b
  {
    if SqDist(a, b) == 0 {
      assert Square(a.r - b.r) == 0 && Square(a.g - b.g) == 0 && Square(a.b - b.b) == 0;
    }
  }

  /** A colour that is itself a centroid is assigned to the first such centroid. */
  lemma NearestOfMember(c: Rgb, cs: seq<Rgb>, i: nat)
    requires i < |cs| && cs[i] == c
    requires forall j :: 0 <= j < i ==> cs[j] != c
    ensures Nearest(c, cs) == i
  {
    var j := Nearest(c, cs);
    SqDistZero(c, cs[i]);
    SqDistZero(c, cs[j]);
  }

  /** Pushing one more colour onto the clusters. */
  lemma AssignSnoc(colors: seq<Rgb>, c: Rgb, cs: seq<Rgb>)
    requires |cs| > 0
    ensures var clusters := Assign(colors, cs); var j := Nearest(c, cs);
      Assign(colors + [c], cs) == clusters[j := clusters[j] + [c]]
  {
    assert (colors + [c])[..|colors|] == colors;
  }

  lemma MeanOfOne(c: Rgb)
    ensures MeanColor([c]) == c
  {
    MeanOfUniform([c], c);
  }

  lemma MeanOfTwo(c: Rgb)
    ensures MeanColor([c, c]) == c
  {
    MeanOfUniform([c, c], c);
  }

  /**
   * Centroids a, b, b over colours a, b (for instance black and white, seeds
   * 0, 1, 1): the third centroid's cluster is empty, and as written it turns
   * into a, where the comment means it to stay b.
   */
  lemma EmptyClusterExample(a: Rgb, b: Rgb)
    requires a != b
    ensures Step([a, b], [a, b, b]) == [a, b, a]
    ensures StepKeepingOwn([a, b], [a, b, b]) == [a, b, b]
  {
    var cs := [a, b, b];
    NearestOfMember(a, cs, 0);
    NearestOfMember(b, cs, 1);
    assert EmptyClusters(3) == [[], [], []];
    AssignSnoc([], a, cs);
    assert [] + [a] == [a];
    assert Assign([a], cs) == [[a], [], []];
    AssignSnoc([a], b, cs);
    assert [a] + [b] == [a, b];
    var none: seq<Rgb> := [];
    assert none + [b] == [b];
    assert [[a], none, none][1 := none + [b]] == [[a], [b], none];
    assert Assign([a, b], cs) == [[a], [b], []];
    MeanOfOne(a);
    MeanOfOne(b);
  }

  lemma AssignExampleFirst(a: Rgb, b: Rgb)
    requires a != b
    ensures Assign([a], [a, b]) == [[a], []]
  {
    var cs := [a, b];
    NearestOfMember(a, cs, 0);
    assert EmptyClusters(2) == [[], []];
    AssignSnoc([], a, cs);
    assert [] + [a] == [a];
  }

  lemma AssignExampleSecond(a: Rgb, b: Rgb)
    requires a != b
    ensures Assign([a, b], [a, b]) == [[a], [b]]
  {
    var cs := [a, b];
    AssignExampleFirst(a, b);
    NearestOfMember(b, cs, 1);
    AssignSnoc([a], b, cs);
    assert [a] + [b] == [a, b];
    var none: seq<Rgb> := [];
    assert none + [b] == [b];
    assert [[a], none][1 := none + [b]] == [[a], [b]];
  }

  lemma AssignExample(a: Rgb, b: Rgb)
    requires a != b
    ensures Assign([a, b, b], [a, b]) == [[a], [b, b]]
  {
    var cs := [a, b];
    AssignExampleSecond(a, b);
    NearestOfMember(b, cs, 1);
    AssignSnoc([a, b], b, cs);
    assert [a, b] + [b] == [a, b, b];
    assert [b] + [b] == [b, b];
    assert [[a], [b]][1 := [b] + [b]] == [[a], [b, b]];
  }

  /** Centroids a, b over colours a, b, b are a fixed point of both updates. */
  lemma FixedPointExample(a: Rgb, b: Rgb)
    requires a != b
    ensures Step([a, b, b], [a, b]) == [a, b]
    ensures StepKeepingOwn([a, b, b], [a, b]) == [a, b]
  {
    AssignExample(a, b);
    MeanOfOne(a);
    MeanOfTwo(b);
  }

  /** The stable sort moves a more frequent second entry to the front. */
  lemma SortTwo(x: Ranked, y: Ranked)
    requires x.frequency < y.frequency
    ensures SortByFrequency([x, y]) == [y, x]
  {
    assert [x, y][..1] == [x] && [x][..0] == [];
    assert SortByFrequency([x]) == [x];
  }

  /**
   * Colours a, b, b seeded with 0, 1 (for instance one black and two white
   * samples): b holds two of the three colours, yet as written a is listed
   * first, since the ranking reads empty clusters.
   */
  lemma FrequencySortExample(a: Rgb, b: Rgb)
    requires a != b
    ensures DominantColors([a, b, b], 2, [0, 1]) == [RgbToHex(a), RgbToHex(b)]
  {
    var colors, seeds := [a, b, b], [0, 1];
    assert Seeded(colors, seeds) == [a, b];
    FixedPointExample(a, b);
    DominantColorsOfFixedPoint(colors, 2, seeds);
    var r := DominantColors(colors, 2, seeds);
    assert r == [r[0], r[1]];
  }

  /** Seeds that one round leaves alone are the result, in seed order. */
  lemma DominantColorsOfFixedPoint(colors: seq<Rgb>, k: nat, seeds: seq<nat>)
    requires colors != [] && k >= 1 && ValidSeeds(colors, k, seeds)
    requires Step(colors, Seeded(colors, seeds)) == Seeded(colors, seeds)
    ensures |DominantColors(colors, k, seeds)| == k
    ensures forall j :: 0 <= j < k ==> DominantColors(colors, k, seeds)[j] == RgbToHex(colors[seeds[j]])
  {
    IterateFixedPoint(colors, Seeded(colors, seeds), Rounds);
    DominantColorsShape(colors, k, seeds);
  }

  lemma RankedCentroidsExample(a: Rgb, b: Rgb)
    requires a != b
    ensures RankedCentroids([a, b, b], 2, [0, 1]) == SortByFrequency(Ranking([a, b], [[a], [b, b]]))
  {
    var colors, cs := [a, b, b], [a, b];
    assert Seeded(colors, [0, 1]) == cs;
    FixedPointExample(a, b);
    IterateKeepingOwnFixedPoint(colors, cs, Rounds - 1);
    assert IterateKeepingOwn(colors, Seeded(colors, [0, 1]), Rounds - 1) == cs;
    AssignExample(a, b);
    assert UpdateCentroidsKeepingOwn([[a], [b, b]], cs) == cs;
  }

  lemma RankingExample(a: Rgb, b: Rgb)
    ensures SortByFrequency(Ranking([a, b], [[a], [b, b]])) == [Ranked(RgbToHex(b), 2), Ranked(RgbToHex(a), 1)]
  {
    var items := Ranking([a, b], [[a], [b, b]]);
    assert items == [Ranked(RgbToHex(a), 1), Ranked(RgbToHex(b), 2)];
    SortTwo(items[0], items[1]);
  }

  lemma ColorsOfTwo(x: Ranked, y: Ranked)
    ensures Colors([x, y]) == [x.color, y.color]
  {
  }

  /** On the same input the corrected ranking lists b, the larger cluster, first. */
  lemma FrequencySortFixedExample(a: Rgb, b: Rgb)
    requires a != b
    ensures DominantColorsRanked([a, b, b], 2, [0, 1]) == [RgbToHex(b), RgbToHex(a)]
  {
    var items := [Ranked(RgbToHex(b), 2), Ranked(RgbToHex(a), 1)];
    RankedCentroidsExample(a, b);
    RankingExample(a, b);
    ColorsOfTwo(items[0], items[1]);
  }
}
