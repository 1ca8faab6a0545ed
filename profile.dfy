/** The profile screen's analytics: totals, best score, per-category
    counts, the four-slice chart and the six achievements, all derived
    from the current history. */
module Profile {
  import opened Types
  import opened HistoryStore
  import opened Scoring

  /** `history.reduce((sum, item) => sum + item.points, 0)`. */
  function TotalPoints(h: seq<HistoryItem>): int {
    if h == [] then 0 else TotalPoints(h[..|h| - 1]) + h[|h| - 1].points
  }

  /** `history.reduce((max, item) => Math.max(max, item.result.recyclabilityScore), 0)`. */
  function BestScore(h: seq<HistoryItem>): (best: int)
    ensures best >= 0
    ensures forall i :: 0 <= i < |h| ==> h[i].result.recyclabilityScore <= best
    ensures best > 0 ==> exists i :: 0 <= i < |h| && h[i].result.recyclabilityScore == best
    ensures h == [] ==> best == 0
  {
    if h == [] then 0
    else
      var sofar := BestScore(h[..|h| - 1]);
      var score := h[|h| - 1].result.recyclabilityScore;
      if sofar < score then score else sofar
  }

  /** `counts[c] || 0`: the count of a category, 0 when it never occurred. */
  function Lookup(counts: map<Category, nat>, c: Category): nat {
    if c in counts then counts[c] else 0
  }

  /** The `categoryCounts` reduce: each entry adds one under its category,
      a missing category under General Waste. A category that never occurs
      has no key. */
  function Tally(h: seq<HistoryItem>): (counts: map<Category, nat>)
    ensures forall c :: c in counts <==> CountOf(h, c) > 0
    ensures forall c :: Lookup(counts, c) == CountOf(h, c)
  {
    if h == [] then map[]
    else
      var acc := Tally(h[..|h| - 1]);
      var c := EffectiveCategory(h[|h| - 1]);
      acc[c := Lookup(acc, c) + 1]
  }

  datatype ProfileStats = ProfileStats(
    totalScans: nat,
    totalPoints: int,
    bestScore: int,
    categoryCounts: map<Category, nat>)

  /** The `stats` memo. */
  function Stats(h: seq<HistoryItem>): ProfileStats {
    ProfileStats(|h|, TotalPoints(h), BestScore(h), Tally(h))
  }

  /** One slice of the donut chart; the app calls the first field `label`, a
      reserved word here. */
  datatype ChartSlice = ChartSlice(name: string, value: nat, color: string)

  /** `chartData`: one slice per category, in a fixed order. */
  function ChartData(stats: ProfileStats): seq<ChartSlice> {
    [ ChartSlice("Recyclable", Lookup(stats.categoryCounts, Recyclable), "#34d399"),
      ChartSlice("Organic", Lookup(stats.categoryCounts, Organic), "#f59e0b"),
      ChartSlice("Hazardous", Lookup(stats.categoryCounts, Hazardous), "#ef4444"),
      ChartSlice("General", Lookup(stats.categoryCounts, GeneralWaste), "#9ca3af") ]
  }

  datatype Achievement = Achievement(title: string, subtitle: string, unlocked: bool)

  /** `achievements`: six fixed badges with fixed thresholds. */
  function Achievements(stats: ProfileStats): seq<Achievement> {
    [ Achievement("First Scan", "Scan your first item", stats.totalScans >= 1),
      Achievement("Recycling Pro", "Scan 10 recyclables", Lookup(stats.categoryCounts, Recyclable) >= 10),
      Achievement("Perfect Score", "Get a 100 score", stats.bestScore == 100),
      Achievement("Tree Hugger", "Scan 25 items", stats.totalScans >= 25),
      Achievement("Hydration Hero", "Scan 5 bottles", false),
      Achievement("Eco-Master", "Reach 1000 points", stats.totalPoints >= 1000) ]
  }

  // ---- Properties of the derivations ----

  /** Every entry is counted exactly once, under one of the four categories. */
  lemma {:induction false} CountsSumToLength(h: seq<HistoryItem>)
    ensures CountOf(h, Recyclable) + CountOf(h, Organic) + CountOf(h, Hazardous) + CountOf(h, GeneralWaste) == |h|
  {
    if h != [] {
      CountsSumToLength(h[..|h| - 1]);
    }
  }

  /** The category counts sum to the number of scans, and the chart shows
      each category's count (0 when absent), so its four values sum to the
      number of scans too. */
  lemma ChartMatchesCounts(h: seq<HistoryItem>)
    ensures var chart := ChartData(Stats(h));
      && |chart| == 4
      && chart[0].value == CountOf(h, Recyclable)
      && chart[1].value == CountOf(h, Organic)
      && chart[2].value == CountOf(h, Hazardous)
      && chart[3].value == CountOf(h, GeneralWaste)
      && chart[0].value + chart[1].value + chart[2].value + chart[3].value == Stats(h).totalScans
  {
    CountsSumToLength(h);
  }

  /** The total is the sum of the points, and the left-to-right fold agrees
      with summing from the head. */
  lemma {:induction false} TotalPointsPrepend(e: HistoryItem, h: seq<HistoryItem>)
    ensures TotalPoints([e] + h) == e.points + TotalPoints(h)
  {
    if h != [] {
      assert ([e] + h)[..|h|] == [e] + h[..|h| - 1];
      TotalPointsPrepend(e, h[..|h| - 1]);
    }
  }

  /** With 0..10 points per entry the total lies in 0..10 per entry. */
  lemma {:induction false} TotalPointsBounds(h: seq<HistoryItem>)
    requires forall x :: x in h ==> 0 <= x.points <= 10
    ensures 0 <= TotalPoints(h) <= 10 * |h|
  {
    if h != [] {
      assert h[|h| - 1] in h;
      assert forall x :: x in h[..|h| - 1] ==> x in h;
      TotalPointsBounds(h[..|h| - 1]);
    }
  }

  lemma {:induction false} CountOfPrepend(e: HistoryItem, h: seq<HistoryItem>, c: Category)
    ensures CountOf([e] + h, c) == CountOf(h, c) + (if EffectiveCategory(e) == c then 1 else 0)
  {
    if h != [] {
      assert ([e] + h)[..|h|] == [e] + h[..|h| - 1];
      CountOfPrepend(e, h[..|h| - 1], c);
    }
  }

  lemma BestScorePrepend(e: HistoryItem, h: seq<HistoryItem>)
    ensures var s := e.result.recyclabilityScore;
      BestScore([e] + h) == if BestScore(h) < s then s else BestScore(h)
  {
    var s := e.result.recyclabilityScore;
    var b, b' := BestScore(h), BestScore([e] + h);
    assert ([e] + h)[0] == e;
    forall i | 0 <= i < |h| ensures h[i].result.recyclabilityScore <= b' {
      assert ([e] + h)[i + 1] == h[i];
    }
    if b' > 0 {
      var i :| 0 <= i < |[e] + h| && ([e] + h)[i].result.recyclabilityScore == b';
      if i > 0 {
        assert ([e] + h)[i] == h[i - 1];
      }
    }
  }

  /** Perfect Score is unlocked exactly when some scan scored 100, provided no
      score exceeds 100; a score of 120 would hide an earlier 100. */
  lemma PerfectScoreIffHundred(h: seq<HistoryItem>)
    requires forall x :: x in h ==> x.result.recyclabilityScore <= 100
    ensures Achievements(Stats(h))[2].unlocked <==>
      exists i :: 0 <= i < |h| && h[i].result.recyclabilityScore == 100
  {
    if exists i :: 0 <= i < |h| && h[i].result.recyclabilityScore == 100 {
      var i :| 0 <= i < |h| && h[i].result.recyclabilityScore == 100;
      var j :| 0 <= j < |h| && h[j].result.recyclabilityScore == BestScore(h);
      assert h[j] in h;
    }
  }

  /** The six badges, their order, and their unlock conditions stated on the
      history itself; Hydration Hero is never unlocked. */
  lemma AchievementsOfHistory(h: seq<HistoryItem>)
    ensures var a := Achievements(Stats(h));
      && |a| == 6
      && a[0].title == "First Scan" && a[1].title == "Recycling Pro" && a[2].title == "Perfect Score"
      && a[3].title == "Tree Hugger" && a[4].title == "Hydration Hero" && a[5].title == "Eco-Master"
      && (a[0].unlocked <==> h != [])
      && (a[1].unlocked <==> CountOf(h, Recyclable) >= 10)
      && (a[2].unlocked <==> BestScore(h) == 100)
      && (a[3].unlocked <==> |h| >= 25)
      && !a[4].unlocked
      && (a[5].unlocked <==> TotalPoints(h) >= 1000)
  {
  }

  /** An empty history yields zero aggregates, an empty count map, an
      all-zero chart and no unlocked badge. */
  lemma EmptyProfile()
    ensures Stats([]) == ProfileStats(0, 0, 0, map[])
    ensures forall k :: 0 <= k < 4 ==> ChartData(Stats([]))[k].value == 0
    ensures forall k :: 0 <= k < 6 ==> !Achievements(Stats([]))[k].unlocked
  {
  }

  /** Prepending a scan never re-locks a badge, provided all scores are at
      most 100 and the new scan's points are not negative. */
  lemma {:induction false} PrependNeverRelocks(e: HistoryItem, h: seq<HistoryItem>)
    requires forall x :: x in h ==> x.result.recyclabilityScore <= 100
    requires e.result.recyclabilityScore <= 100 && e.points >= 0
    ensures forall k :: 0 <= k < 6 && Achievements(Stats(h))[k].unlocked ==>
      Achievements(Stats([e] + h))[k].unlocked
  {
    TotalPointsPrepend(e, h);
    CountOfPrepend(e, h, Recyclable);
    BestScorePrepend(e, h);
    if BestScore(h) == 100 {
      var j :| 0 <= j < |h| && h[j].result.recyclabilityScore == BestScore(h);
      assert h[j] in h;
    }
  }

  /** An append that neither evicts nor replaces anything never re-locks a
      badge, for scores in 0..100 and the scanner's points rule. */
  lemma AppendNeverRelocks(prev: seq<HistoryItem>, draft: Draft, id: string, timestamp: string)
    requires |prev| < Capacity
    requires forall x :: x in prev ==> x.id != id && x.result.recyclabilityScore <= 100
    requires ScoreInRange(draft.result) && draft.points == Points(draft.result.recyclabilityScore)
    ensures forall k :: 0 <= k < 6 && Achievements(Stats(prev))[k].unlocked ==>
      Achievements(Stats(Append(prev, draft, id, timestamp)))[k].unlocked
  {
    AppendFreshGrows(prev, draft, id, timestamp);
    PointsRange(draft.result.recyclabilityScore);
    PrependNeverRelocks(Entry(draft, id, timestamp), prev);
  }

  /** Eco-Master can never be unlocked: the history holds at most 50
      entries and a score of at most 100 earns at most 10 points, so the
      total stays at or below 500. */
  lemma EcoMasterUnreachable(h: seq<HistoryItem>)
    requires |h| <= Capacity
    requires forall x :: x in h ==> ScoreInRange(x.result) && x.points == Points(x.result.recyclabilityScore)
    ensures TotalPoints(h) <= 500
    ensures !Achievements(Stats(h))[5].unlocked
  {
    forall x | x in h ensures 0 <= x.points <= 10 {
      PointsRange(x.result.recyclabilityScore);
    }
    TotalPointsBounds(h);
  }
}
