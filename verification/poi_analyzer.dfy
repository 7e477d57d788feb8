/** The POI surveyor analyser (poi_dashboard_project/poi_analyzer_core.py): drop
    incomplete log rows once and keep them, then summarise each surveyor's
    submissions by rate, mean and spread of quality, and a quality tier. Quality is
    an exact real and timestamps are whole seconds. */
module PoiAnalyzer {
  import opened Wrappers
  import opened StrOrder

  // ---------------------------------------------------------------------------
  // Loading and cleaning
  // ---------------------------------------------------------------------------

  /** One log row as pandas reads it. A field is `None` when the cell is missing;
      `createdAt` and `qualityScore` are also `None` when pandas' date or number
      parser rejects the text (`errors="coerce"`). */
  datatype RawRow = RawRow(id: Option<string>, createdBy: Option<string>,
                           createdAt: Option<int>, qualityScore: Option<real>)

  /** A row that survived cleaning. */
  datatype Submission = Submission(id: string, surveyor: string, createdAt: int, quality: real)

  predicate Complete(row: RawRow) {
    row.id.Some? && row.createdBy.Some? && row.createdAt.Some? && row.qualityScore.Some?
  }

  function ToSubmission(row: RawRow): Submission
    requires Complete(row)
  {
    Submission(row.id.value, row.createdBy.value, row.createdAt.value, row.qualityScore.value)
  }

  /** `idx` lists, in increasing order, exactly the positions from `lo` on that
      hold a complete row. */
  predicate PositionsFrom(rows: seq<RawRow>, idx: seq<nat>, lo: nat) {
    && (forall i :: 0 <= i < |idx| ==> lo <= idx[i] < |rows| && Complete(rows[idx[i]]))
    && (forall i, j :: 0 <= i < j < |idx| ==> idx[i] < idx[j])
    && (forall k :: lo <= k < |rows| && Complete(rows[k]) ==> k in idx)
  }

  function Shift(idx: seq<nat>): (r: seq<nat>)
    ensures |r| == |idx| && forall i :: 0 <= i < |idx| ==> r[i] == idx[i] + 1
  {
    seq(|idx|, i requires 0 <= i < |idx| => idx[i] + 1)
  }

  lemma ShiftPositions(rows: seq<RawRow>, tail: seq<nat>)
    requires |rows| > 0 && PositionsFrom(rows[1..], tail, 0)
    ensures PositionsFrom(rows, Shift(tail), 1)
  {
    ShiftedAreComplete(rows, tail);
    ShiftedIncrease(tail);
    ShiftedCoverComplete(rows, tail);
  }

  lemma ShiftedAreComplete(rows: seq<RawRow>, tail: seq<nat>)
    requires |rows| > 0
    requires forall i :: 0 <= i < |tail| ==> tail[i] < |rows| - 1 && Complete(rows[1..][tail[i]])
    ensures forall i :: 0 <= i < |tail| ==> 1 <= Shift(tail)[i] < |rows| && Complete(rows[Shift(tail)[i]])
  {
    forall i | 0 <= i < |tail|
      ensures 1 <= Shift(tail)[i] < |rows| && Complete(rows[Shift(tail)[i]])
    {
      assert rows[1..][tail[i]] == rows[Shift(tail)[i]];
    }
  }

  lemma ShiftedIncrease(tail: seq<nat>)
    requires forall i, j :: 0 <= i < j < |tail| ==> tail[i] < tail[j]
    ensures forall i, j :: 0 <= i < j < |tail| ==> Shift(tail)[i] < Shift(tail)[j]
  {
  }

  lemma ShiftedCoverComplete(rows: seq<RawRow>, tail: seq<nat>)
    requires |rows| > 0
    requires forall k :: 0 <= k < |rows| - 1 && Complete(rows[1..][k]) ==> k in tail
    ensures forall k :: 1 <= k < |rows| && Complete(rows[k]) ==> k in Shift(tail)
  {
    forall k | 1 <= k < |rows| && Complete(rows[k])
      ensures k in Shift(tail)
    {
      assert rows[1..][k - 1] == rows[k];
      var i :| 0 <= i < |tail| && tail[i] == k - 1;
      assert Shift(tail)[i] == k;
    }
  }

  lemma ConsPosition(rows: seq<RawRow>, idx: seq<nat>)
    requires |rows| > 0 && Complete(rows[0]) && PositionsFrom(rows, idx, 1)
    ensures PositionsFrom(rows, [0] + idx, 0)
  {
    assert forall i :: 0 < i < |idx| + 1 ==> ([0] + idx)[i] == idx[i - 1];
  }

  /** The positions of the complete rows, in increasing order. */
  function CompletePositions(rows: seq<RawRow>): (idx: seq<nat>)
    ensures PositionsFrom(rows, idx, 0)
  {
    if |rows| == 0 then []
    else
      var tail := CompletePositions(rows[1..]);
      ShiftPositions(rows, tail);
      if Complete(rows[0]) then
        ConsPosition(rows, Shift(tail));
        [0] + Shift(tail)
      else
        Shift(tail)
  }

  /** `kept` holds the complete rows at the positions `idx`, converted. */
  predicate KeptAt(rows: seq<RawRow>, idx: seq<nat>, kept: seq<Submission>) {
    && |kept| == |idx|
    && forall i :: 0 <= i < |kept| ==> idx[i] < |rows| && Complete(rows[idx[i]]) && kept[i] == ToSubmission(rows[idx[i]])
  }

  lemma KeptAtShift(rows: seq<RawRow>, tail: seq<nat>, rest: seq<Submission>)
    requires |rows| > 0 && KeptAt(rows[1..], tail, rest)
    ensures KeptAt(rows, Shift(tail), rest)
  {
    forall i | 0 <= i < |rest|
      ensures Shift(tail)[i] < |rows| && rows[Shift(tail)[i]] == rows[1..][tail[i]]
    {
    }
  }

  lemma KeptAtHead(rows: seq<RawRow>, idx: seq<nat>, kept: seq<Submission>)
    requires |rows| > 0 && Complete(rows[0]) && KeptAt(rows, idx, kept)
    ensures KeptAt(rows, [0] + idx, [ToSubmission(rows[0])] + kept)
  {
    assert forall i :: 0 < i < |kept| + 1 ==> ([0] + idx)[i] == idx[i - 1];
  }

  lemma KeptAtPositionsCons(rows: seq<RawRow>, rest: seq<Submission>)
    requires |rows| > 0 && KeptAt(rows[1..], CompletePositions(rows[1..]), rest)
    ensures KeptAt(rows, CompletePositions(rows), if Complete(rows[0]) then [ToSubmission(rows[0])] + rest else rest)
  {
    var shifted := Shift(CompletePositions(rows[1..]));
    KeptAtShift(rows, CompletePositions(rows[1..]), rest);
    if Complete(rows[0]) {
      KeptAtHead(rows, shifted, rest);
      assert CompletePositions(rows) == [0] + shifted;
    } else {
      assert CompletePositions(rows) == shifted;
    }
  }

  /** The successive `dropna` calls of `load_data`: rows missing an id, a surveyor,
      a readable timestamp or a numeric quality score are dropped; the others are
      kept, in order, each as often as it occurs. */
  function Clean(rows: seq<RawRow>): (r: seq<Submission>)
    ensures KeptAt(rows, CompletePositions(rows), r)
    ensures forall x :: x in r <==> exists k :: 0 <= k < |rows| && Complete(rows[k]) && ToSubmission(rows[k]) == x
    ensures (forall k :: 0 <= k < |rows| ==> Complete(rows[k])) ==> |r| == |rows|
  {
    if |rows| == 0 then []
    else
      var rest := Clean(rows[1..]);
      KeptAtPositionsCons(rows, rest);
      var r := if Complete(rows[0]) then [ToSubmission(rows[0])] + rest else rest;
      KeptAtMembership(rows, CompletePositions(rows), r);
      AllRowsComplete(rows);
      r
  }

  /** Rows kept at the complete positions are exactly the complete rows, converted. */
  lemma KeptAtMembership(rows: seq<RawRow>, idx: seq<nat>, kept: seq<Submission>)
    requires PositionsFrom(rows, idx, 0) && KeptAt(rows, idx, kept)
    ensures forall x :: x in kept <==> exists k :: 0 <= k < |rows| && Complete(rows[k]) && ToSubmission(rows[k]) == x
  {
    forall x | x in kept
      ensures exists k :: 0 <= k < |rows| && Complete(rows[k]) && ToSubmission(rows[k]) == x
    {
      var i :| 0 <= i < |kept| && kept[i] == x;
      assert Complete(rows[idx[i]]) && ToSubmission(rows[idx[i]]) == x;
    }
    forall x | exists k :: 0 <= k < |rows| && Complete(rows[k]) && ToSubmission(rows[k]) == x
      ensures x in kept
    {
      var k :| 0 <= k < |rows| && Complete(rows[k]) && ToSubmission(rows[k]) == x;
      var i :| 0 <= i < |idx| && idx[i] == k;
      assert kept[i] == x;
    }
  }

  /** When every row is complete, every position is kept. */
  lemma {:induction false} AllRowsComplete(rows: seq<RawRow>)
    ensures (forall k :: 0 <= k < |rows| ==> Complete(rows[k])) ==> |CompletePositions(rows)| == |rows|
  {
    if |rows| > 0 && forall k :: 0 <= k < |rows| ==> Complete(rows[k]) {
      assert forall k :: 0 <= k < |rows[1..]| ==> rows[1..][k] == rows[k + 1];
      AllRowsComplete(rows[1..]);
    }
  }

  /** The analyser object: `df` is unset until the first load. */
  datatype Analyzer = Analyzer(df: Option<seq<Submission>>)

  /** `load_data`, given the rows the CSV file holds at the time of the call: the
      first call cleans and stores them; later calls return the stored frame. */
  function LoadData(a: Analyzer, file: seq<RawRow>): (r: (Analyzer, seq<Submission>))
    ensures r.0.df == Some(r.1)
    ensures a.df.Some? ==> r.0 == a
    ensures a.df.None? ==> r.1 == Clean(file)
  {
    match a.df
    case Some(df) => (a, df)
    case None =>
      var df := Clean(file);
      (Analyzer(Some(df)), df)
  }

  /** Once loaded, the data never changes: a later load returns the same rows and
      the same analyser, whatever the file then holds. */
  lemma LoadIsMemoised(a: Analyzer, first: seq<RawRow>, later: seq<RawRow>)
    ensures var (a1, df1) := LoadData(a, first);
            LoadData(a1, later) == (a1, df1)
  {
  }

  // ---------------------------------------------------------------------------
  // Grouping
  // ---------------------------------------------------------------------------

  /** The rows of one surveyor, in order (`groupby("created_by")` for one key). */
  function GroupOf(df: seq<Submission>, who: string): seq<Submission> {
    if |df| == 0 then []
    else
      var rest := GroupOf(df[1..], who);
      if df[0].surveyor == who then [df[0]] + rest else rest
  }

  /** A surveyor's group holds exactly that surveyor's rows, each as often as
      in the table. */
  lemma {:induction false} GroupOfSpec(df: seq<Submission>, who: string)
    ensures forall x :: multiset(GroupOf(df, who))[x] == if x.surveyor == who then multiset(df)[x] else 0
  {
    if |df| > 0 {
      GroupOfSpec(df[1..], who);
      assert df == [df[0]] + df[1..];
      assert multiset(df) == multiset{df[0]} + multiset(df[1..]);
    }
  }

  /** The distinct surveyors of `df`, each once. */
  function Surveyors(df: seq<Submission>): (ks: seq<string>)
    ensures forall i, j :: 0 <= i < j < |ks| ==> ks[i] != ks[j]
    ensures forall who :: who in ks <==> exists x :: x in df && x.surveyor == who
  {
    if |df| == 0 then []
    else
      var rest := Surveyors(df[1..]);
      assert forall x :: x in df <==> x == df[0] || x in df[1..];
      if df[0].surveyor in rest then rest else [df[0].surveyor] + rest
  }

  lemma GroupNonEmpty(df: seq<Submission>, who: string)
    requires exists x :: x in df && x.surveyor == who
    ensures |GroupOf(df, who)| > 0
  {
    var x :| x in df && x.surveyor == who;
    GroupOfSpec(df, who);
    assert multiset(df)[x] > 0;
    assert multiset(GroupOf(df, who))[x] > 0;
  }

  // ---------------------------------------------------------------------------
  // Statistics
  // ---------------------------------------------------------------------------

  function Sum(xs: seq<real>): real {
    if |xs| == 0 then 0.0 else xs[0] + Sum(xs[1..])
  }

  function Qualities(g: seq<Submission>): (xs: seq<real>)
    ensures |xs| == |g|
    ensures forall k :: 0 <= k < |g| ==> xs[k] == g[k].quality
  {
    seq(|g|, k requires 0 <= k < |g| => g[k].quality)
  }

  /** The arithmetic mean (`.mean()`). */
  function Mean(xs: seq<real>): (m: real)
    requires |xs| > 0
    ensures m * (|xs| as real) == Sum(xs)
  {
    Sum(xs) / (|xs| as real)
  }

  lemma {:induction false} SumBounds(xs: seq<real>, lo: real, hi: real)
    requires forall k :: 0 <= k < |xs| ==> lo <= xs[k] <= hi
    ensures (|xs| as real) * lo <= Sum(xs) <= (|xs| as real) * hi
  {
    if |xs| > 0 {
      SumBounds(xs[1..], lo, hi);
    }
  }

  /** The mean lies between the smallest and the largest value. */
  lemma MeanBounds(xs: seq<real>, lo: real, hi: real)
    requires |xs| > 0
    requires forall k :: 0 <= k < |xs| ==> lo <= xs[k] <= hi
    ensures lo <= Mean(xs) <= hi
  {
    SumBounds(xs, lo, hi);
    var n := |xs| as real;
    assert Mean(xs) * n <= hi * n;
    assert lo * n <= Mean(xs) * n;
  }

  /** The sum of squared deviations from `m`. */
  function SquaredDeviations(xs: seq<real>, m: real): (s: real)
    ensures s >= 0.0
  {
    if |xs| == 0 then 0.0
    else
      var d := xs[0] - m;
      SquareNonNegative(d);
      d * d + SquaredDeviations(xs[1..], m)
  }

  lemma SquareNonNegative(d: real)
    ensures d * d >= 0.0
  {
    if d < 0.0 {
      assert d * d == (-d) * (-d);
    }
  }

  /** The sample variance (`.std()` squared, divisor n - 1); `.std()` is `NaN` for a
      single value and `fillna(0)` turns that into 0. */
  function SampleVariance(xs: seq<real>): (v: real)
    requires |xs| > 0
    ensures v >= 0.0
    ensures |xs| == 1 ==> v == 0.0
    ensures |xs| > 1 ==> v * ((|xs| - 1) as real) == SquaredDeviations(xs, Mean(xs))
  {
    if |xs| == 1 then 0.0 else SquaredDeviations(xs, Mean(xs)) / ((|xs| - 1) as real)
  }

  lemma {:induction false} DeviationsOfConstant(xs: seq<real>, c: real)
    requires forall k :: 0 <= k < |xs| ==> xs[k] == c
    ensures SquaredDeviations(xs, c) == 0.0
    ensures Sum(xs) == (|xs| as real) * c
  {
    if |xs| > 0 {
      DeviationsOfConstant(xs[1..], c);
    }
  }

  /** Equal scores have no spread. */
  lemma ConstantScoresHaveNoSpread(xs: seq<real>)
    requires |xs| > 0 && forall k :: 0 <= k < |xs| ==> xs[k] == xs[0]
    ensures Mean(xs) == xs[0] && SampleVariance(xs) == 0.0
  {
    DeviationsOfConstant(xs, xs[0]);
  }

  /** `counts / hours.replace(0, NA)`: submissions per hour over the span between
      the first and last submission; absent when the span is zero. */
  function SubmissionsPerHour(count: nat, first: int, last: int): (r: Option<real>)
    requires first <= last
    ensures r.None? <==> first == last
    ensures r.Some? ==> r.value * (((last - first) as real) / 3600.0) == count as real
  {
    if first == last then None else Some(count as real / (((last - first) as real) / 3600.0))
  }

  function Earliest(g: seq<Submission>): (t: int)
    requires |g| > 0
    ensures forall k :: 0 <= k < |g| ==> t <= g[k].createdAt
    ensures exists k :: 0 <= k < |g| && g[k].createdAt == t
  {
    if |g| == 1 then g[0].createdAt
    else
      var rest := Earliest(g[1..]);
      assert forall k :: 1 <= k < |g| ==> g[k] == g[1..][k - 1];
      if g[0].createdAt <= rest then g[0].createdAt else rest
  }

  function Latest(g: seq<Submission>): (t: int)
    requires |g| > 0
    ensures forall k :: 0 <= k < |g| ==> g[k].createdAt <= t
    ensures exists k :: 0 <= k < |g| && g[k].createdAt == t
  {
    if |g| == 1 then g[0].createdAt
    else
      var rest := Latest(g[1..]);
      assert forall k :: 1 <= k < |g| ==> g[k] == g[1..][k - 1];
      if g[0].createdAt >= rest then g[0].createdAt else rest
  }

  // ---------------------------------------------------------------------------
  // Tiers: pandas `cut`
  // ---------------------------------------------------------------------------

  datatype Tier = Bronze | Silver | Gold

  /** The number of bin edges strictly below `x`: `searchsorted(bins, x, side="left")`
      for increasing bins. */
  function CountBelow(bins: seq<real>, x: real): (n: nat)
    ensures n <= |bins|
  {
    if |bins| == 0 then 0 else (if bins[0] < x then 1 else 0) + CountBelow(bins[1..], x)
  }

  predicate Increasing(bins: seq<real>) {
    forall i, j :: 0 <= i < j < |bins| ==> bins[i] < bins[j]
  }

  /** For increasing bins, the edges below `x` are exactly the first `CountBelow` ones. */
  lemma {:induction false} CountBelowSplits(bins: seq<real>, x: real)
    requires Increasing(bins)
    ensures forall i :: 0 <= i < CountBelow(bins, x) ==> bins[i] < x
    ensures forall i :: CountBelow(bins, x) <= i < |bins| ==> x <= bins[i]
  {
    if |bins| > 0 {
      CountBelowSplits(bins[1..], x);
      assert forall i :: 0 < i < |bins| ==> bins[i] == bins[1..][i - 1];
    }
  }

  /** `pd.cut(x, bins, labels, include_lowest)` with the default right-closed bins:
      label `i` covers `(bins[i], bins[i+1]]`, the first also `bins[0]` itself when
      `include_lowest`; anything else gets no label. */
  function Cut<L>(x: real, bins: seq<real>, labels: seq<L>, includeLowest: bool): Option<L>
    requires |bins| >= 2 && |labels| == |bins| - 1
  {
    var i := if includeLowest && x == bins[0] then 1 else CountBelow(bins, x);
    if i == 0 || i == |bins| then None else Some(labels[i - 1])
  }

  /** Which bin `Cut` picks, in terms of the bin edges. */
  lemma CutPicksBin<L>(x: real, bins: seq<real>, labels: seq<L>, k: nat)
    requires |bins| >= 2 && |labels| == |bins| - 1 && Increasing(bins) && k < |labels|
    requires forall i, j :: 0 <= i < j < |labels| ==> labels[i] != labels[j]
    ensures Cut(x, bins, labels, true) == Some(labels[k]) <==>
              (bins[k] < x <= bins[k + 1]) || (k == 0 && x == bins[0])
    ensures Cut(x, bins, labels, true).None? <==> x < bins[0] || bins[|bins| - 1] < x
  {
    CountBelowSplits(bins, x);
    var n := CountBelow(bins, x);
    if x == bins[0] {
      assert n == 0;
    } else if n > 0 && n < |bins| {
      assert bins[n - 1] < x <= bins[n];
    }
  }

  const TierBins: seq<real> := [0.0, 0.7, 0.85, 1.0]
  const TierLabels: seq<Tier> := [Bronze, Silver, Gold]

  /** The tier of an average quality score. */
  function TierOf(avg: real): Option<Tier> {
    Cut(avg, TierBins, TierLabels, true)
  }

  /** The tier bins are right-closed, with 0 itself in the lowest: [0, 0.7] is
      Bronze, (0.7, 0.85] Silver, (0.85, 1] Gold, and outside [0, 1] there is no tier. */
  lemma TierBoundaries(avg: real)
    ensures TierOf(avg) == Some(Bronze) <==> 0.0 <= avg <= 0.7
    ensures TierOf(avg) == Some(Silver) <==> 0.7 < avg <= 0.85
    ensures TierOf(avg) == Some(Gold) <==> 0.85 < avg <= 1.0
    ensures TierOf(avg) == None <==> avg < 0.0 || 1.0 < avg
  {
    assert Increasing(TierBins);
    CutPicksBin(avg, TierBins, TierLabels, 0);
    CutPicksBin(avg, TierBins, TierLabels, 1);
    CutPicksBin(avg, TierBins, TierLabels, 2);
  }

  // ---------------------------------------------------------------------------
  // The summary
  // ---------------------------------------------------------------------------

  /** One row of the summary. The submission count feeds the rate but is not a
      column of the summary. `qualityVariance` is the square of `quality_std_dev`. */
  datatype SummaryRow = SummaryRow(surveyor: string, submissionsPerHour: Option<real>,
                                   avgQuality: real, qualityVariance: real, tier: Option<Tier>)

  /** The metrics of one surveyor's rows: the rate over their span, the mean and
      sample variance of their quality scores, and the tier of that mean. The rate
      is absent exactly when all rows share one timestamp. */
  function SummarizeGroup(who: string, g: seq<Submission>): (s: SummaryRow)
    requires |g| > 0
    ensures s.surveyor == who
    ensures s.submissionsPerHour == SubmissionsPerHour(|g|, Earliest(g), Latest(g))
    ensures s.submissionsPerHour.None? <==> forall k :: 0 <= k < |g| ==> g[k].createdAt == g[0].createdAt
    ensures s.avgQuality == Mean(Qualities(g))
    ensures s.qualityVariance == SampleVariance(Qualities(g))
    ensures s.tier == TierOf(s.avgQuality)
  {
    var first := Earliest(g);
    var last := Latest(g);
    assert first == last ==> forall k :: 0 <= k < |g| ==> g[k].createdAt == g[0].createdAt;
    var xs := Qualities(g);
    var avg := Mean(xs);
    SummaryRow(who, SubmissionsPerHour(|g|, first, last), avg, SampleVariance(xs), TierOf(avg))
  }

  /** A surveyor whose scores all lie in [0, 1] always receives a tier. */
  lemma ValidScoresGetTier(who: string, g: seq<Submission>)
    requires |g| > 0
    requires forall k :: 0 <= k < |g| ==> 0.0 <= g[k].quality <= 1.0
    ensures SummarizeGroup(who, g).tier.Some?
  {
    MeanBounds(Qualities(g), 0.0, 1.0);
    TierBoundaries(Mean(Qualities(g)));
  }

  /** The distinct surveyors in ascending order: the keys `groupby` produces. */
  function GroupKeys(df: seq<Submission>): (ks: seq<string>)
    ensures forall i, j :: 0 <= i < j < |ks| ==> Less(ks[i], ks[j])
    ensures forall who :: who in ks <==> exists x :: x in df && x.surveyor == who
  {
    var us := Surveyors(df);
    var tagged := seq(|us|, i requires 0 <= i < |us| => (us[i], ()));
    var sorted := SortByKey(tagged);
    KeysOfPermutation(sorted, tagged);
    KeysOfPermutation(tagged, sorted);
    assert KeysOf(tagged) == us;
    KeysOf(sorted)
  }

  /** The summary row of one surveyor who has rows. */
  function SurveyorSummary(df: seq<Submission>, who: string): (s: SummaryRow)
    requires who in GroupKeys(df)
    ensures s.surveyor == who
    ensures |GroupOf(df, who)| > 0 && s == SummarizeGroup(who, GroupOf(df, who))
  {
    GroupNonEmpty(df, who);
    SummarizeGroup(who, GroupOf(df, who))
  }

  /** `analyze` on the cleaned rows: one row per `groupby` key, in key order,
      each summarising exactly that surveyor's rows. */
  function Summarize(df: seq<Submission>): (r: seq<SummaryRow>)
    ensures |r| == |GroupKeys(df)|
    ensures forall k :: 0 <= k < |r| ==> r[k].surveyor == GroupKeys(df)[k]
    ensures forall k :: 0 <= k < |r| ==> r[k] == SurveyorSummary(df, GroupKeys(df)[k])
  {
    var ks := GroupKeys(df);
    seq(|ks|, i requires 0 <= i < |ks| => SurveyorSummary(df, ks[i]))
  }

  /** Rows labelled with the `groupby` keys in order are ordered by surveyor,
      name every surveyor with a row, and name nobody else. */
  lemma RowsFollowKeys(df: seq<Submission>, r: seq<SummaryRow>)
    requires |r| == |GroupKeys(df)|
    requires forall k :: 0 <= k < |r| ==> r[k].surveyor == GroupKeys(df)[k]
    ensures forall i, j :: 0 <= i < j < |r| ==> Less(r[i].surveyor, r[j].surveyor)
    ensures forall x :: x in df ==> exists k :: 0 <= k < |r| && r[k].surveyor == x.surveyor
    ensures forall k :: 0 <= k < |r| ==> exists x :: x in df && x.surveyor == r[k].surveyor
  {
    var ks := GroupKeys(df);
    forall x | x in df
      ensures exists k :: 0 <= k < |r| && r[k].surveyor == x.surveyor
    {
      assert x.surveyor in ks;
      var k :| 0 <= k < |ks| && ks[k] == x.surveyor;
      assert r[k].surveyor == x.surveyor;
    }
    forall k | 0 <= k < |r|
      ensures exists x :: x in df && x.surveyor == r[k].surveyor
    {
      assert ks[k] in ks;
    }
  }

  /** The summary is ordered by surveyor, names every surveyor with a row, and
      names nobody else. */
  lemma SummaryCoversSurveyors(df: seq<Submission>)
    ensures forall i, j :: 0 <= i < j < |Summarize(df)| ==> Less(Summarize(df)[i].surveyor, Summarize(df)[j].surveyor)
    ensures forall x :: x in df ==> exists k :: 0 <= k < |Summarize(df)| && Summarize(df)[k].surveyor == x.surveyor
    ensures forall k :: 0 <= k < |Summarize(df)| ==> exists x :: x in df && x.surveyor == Summarize(df)[k].surveyor
  {
    RowsFollowKeys(df, Summarize(df));
  }

  /** `analyze`: load (or reuse) the cleaned rows, then summarise them. */
  function Analyze(a: Analyzer, file: seq<RawRow>): (r: (Analyzer, seq<SummaryRow>))
    ensures a.df.Some? ==> r.0 == a && r.1 == Summarize(a.df.value)
    ensures a.df.None? ==> r.1 == Summarize(Clean(file))
  {
    var (a1, df) := LoadData(a, file);
    (a1, Summarize(df))
  }

  /** The worked examples: scores 0.9 and 0.95 average 0.925 and are Gold; a single
      score 0.5 is Bronze with no spread. */
  lemma QualityExamples()
    ensures Mean([0.9, 0.95]) == 0.925 && TierOf(0.925) == Some(Gold)
    ensures Mean([0.5]) == 0.5 && SampleVariance([0.5]) == 0.0 && TierOf(0.5) == Some(Bronze)
  {
    assert Sum([0.9, 0.95]) == 1.85 by {
      assert [0.9, 0.95][1..] == [0.95];
    }
    assert Sum([0.5]) == 0.5;
    TierBoundaries(0.925);
    TierBoundaries(0.5);
  }
}
