/**
 * The setup screen (components/WelcomeScreen.tsx): the configurations it starts a quiz
 * with, and the regional ranking it derives from the leaderboard.
 */
module WelcomeScreen {
  import opened Types
  import opened JsText
  import opened JsArray
  import opened Store

  /** The ranges of the question-count and lives sliders: 1..30 questions, 1..10 lives. */
  predicate ValidConfig(c: QuizConfig) {
    1 <= c.numberOfQuestions <= 30 && 1 <= c.lives <= 10
  }

  /** handleSubmit: the form's choices; the form only offers listed topics. */
  function FormConfig(difficulty: Difficulty, topic: Topic, numberOfQuestions: int, lives: int,
                      avoidRepeats: bool, confirmAnswer: bool): (c: QuizConfig)
    requires 1 <= numberOfQuestions <= 30 && 1 <= lives <= 10
    ensures ValidConfig(c) && c.topic == Listed(topic)
    ensures c.numberOfQuestions == numberOfQuestions && c.lives == lives
  {
    QuizConfig(difficulty, Listed(topic), numberOfQuestions, lives, avoidRepeats, confirmAnswer)
  }

  /** handleQuickStart: a fixed beginner quiz on mixed topics, within the slider ranges. */
  function QuickStartConfig(): (c: QuizConfig)
    ensures ValidConfig(c) && c.topic == Listed(Diversos) && c.difficulty == Iniciante
    ensures c.numberOfQuestions == 10 && c.lives == 3 && !c.avoidRepeats && !c.confirmAnswer
  {
    QuizConfig(Iniciante, Listed(Diversos), 10, 3, false, false)
  }

  /** The "Jogar Salvas" button is enabled only when the bank holds a question. */
  predicate CanPlaySaved(saved: seq<Question>) {
    |saved| != 0
  }

  /** One row of the regional ranking: a trimmed region and its summed score. */
  datatype RegionRow = RegionRow(region: string, score: int)

  function RowScore(row: RegionRow): int {
    row.score
  }

  /** Where `region` sits among the rows, if it is there (Map.get). */
  function IndexOfRegion(rows: seq<RegionRow>, region: string): (k: Option<nat>)
    ensures k.Some? ==> k.value < |rows| && rows[k.value].region == region
    ensures k.None? ==> forall i :: 0 <= i < |rows| ==> rows[i].region != region
  {
    if rows == [] then None
    else if rows[0].region == region then Some(0)
    else match IndexOfRegion(rows[1..], region)
      case Some(k) => Some(k + 1)
      case None => None
  }

  /**
   * map.set(reg, (map.get(reg) || 0) + score) on a map that remembers insertion order: the
   * rows keep their places, an unseen region gets a new last row holding the score, and on
   * distinct rows exactly the region's row gains the score.
   */
  function AddToRegion(rows: seq<RegionRow>, region: string, score: int): (r: seq<RegionRow>)
    ensures |r| == |rows| + 1 <==> forall k :: 0 <= k < |rows| ==> rows[k].region != region
    ensures |rows| <= |r| <= |rows| + 1
    ensures forall k :: 0 <= k < |rows| ==> r[k].region == rows[k].region
    ensures |r| == |rows| + 1 ==> r[|rows|] == RegionRow(region, score)
    ensures DistinctRegions(rows) ==>
      forall k :: 0 <= k < |rows| ==> r[k].score == rows[k].score + (if rows[k].region == region then score else 0)
  {
    match IndexOfRegion(rows, region)
    case Some(k) => rows[k := RegionRow(region, rows[k].score + score)]
    case None => rows + [RegionRow(region, score)]
  }

  ghost predicate DistinctRegions(rows: seq<RegionRow>) {
    forall i, j :: 0 <= i < j < |rows| ==> rows[i].region != rows[j].region
  }

  /** What one leaderboard entry adds to the ranking: its trimmed region and its score. */
  function Contribution(e: LeaderboardEntry): (c: RegionRow)
    ensures c.score == e.score
  {
    RegionRow(Trim(e.region), e.score)
  }

  /** The contributions of the entries, in leaderboard order. */
  function Contributions(board: seq<LeaderboardEntry>): (cs: seq<RegionRow>)
    ensures |cs| == |board|
  {
    if board == [] then []
    else Contributions(board[..|board| - 1]) + [Contribution(board[|board| - 1])]
  }

  /** The i-th contribution is that of the i-th entry. */
  lemma {:induction false} ContributionAt(board: seq<LeaderboardEntry>, i: nat)
    requires i < |board|
    ensures Contributions(board)[i] == Contribution(board[i])
  {
    var n := |board| - 1;
    assert Contributions(board) == Contributions(board[..n]) + [Contribution(board[n])];
    if i < n {
      ContributionAt(board[..n], i);
      assert board[..n][i] == board[i];
    }
  }

  /** The contributions carry the entries' scores, so they add up to the same total. */
  lemma {:induction false} ContributionsAddUp(board: seq<LeaderboardEntry>)
    ensures SumBy(Contributions(board), RowScore) == SumBy(board, EntryScore)
  {
    if board != [] {
      var n := |board| - 1;
      ContributionsAddUp(board[..n]);
      assert Contributions(board)[..n] == Contributions(board[..n]);
      assert board[..n] == board[..|board| - 1];
    }
  }

  /** Adding to a region keeps the rows' regions in place and their distinctness, and gives
      `region` a row: the existing one, or a new one at the end. */
  lemma AddToRegionKeepsRows(rows: seq<RegionRow>, region: string, score: int)
    requires DistinctRegions(rows)
    ensures var r := AddToRegion(rows, region, score);
      && DistinctRegions(r)
      && |rows| <= |r| <= |rows| + 1
      && (forall k :: 0 <= k < |rows| ==> r[k].region == rows[k].region)
      && (|r| == |rows| + 1 ==> r[|rows|].region == region)
      && IndexOfRegion(r, region).Some?
  {
    var r := AddToRegion(rows, region, score);
    match IndexOfRegion(rows, region)
    case Some(k) =>
      assert r[k].region == region;
    case None =>
      assert r[|rows|].region == region;
  }

  /** `rows` has one row for each region among the contributions and no other rows. */
  ghost predicate Tabulates(rows: seq<RegionRow>, cs: seq<RegionRow>) {
    && DistinctRegions(rows)
    && (forall i :: 0 <= i < |cs| ==> IndexOfRegion(rows, cs[i].region).Some?)
    && (forall k :: 0 <= k < |rows| ==> FirstSeen(cs, rows[k].region) < |cs|)
  }

  lemma TabulatesStep(prior: seq<RegionRow>, front: seq<RegionRow>, last: RegionRow)
    requires Tabulates(prior, front)
    ensures Tabulates(AddToRegion(prior, last.region, last.score), front + [last])
  {
    var rows := AddToRegion(prior, last.region, last.score);
    var cs := front + [last];
    AddToRegionKeepsRows(prior, last.region, last.score);
    forall i | 0 <= i < |cs| ensures IndexOfRegion(rows, cs[i].region).Some? {
      if i < |front| {
        var k := IndexOfRegion(prior, front[i].region).value;
        assert rows[k].region == cs[i].region;
      }
    }
    assert cs[..|cs| - 1] == front;
    forall k | 0 <= k < |rows| ensures FirstSeen(cs, rows[k].region) < |cs| {
      if k >= |prior| {
        assert cs[|front|].region == rows[k].region;
      }
    }
  }

  /**
   * The map after the forEach over the contributions, as its rows in insertion order. Each
   * region of a contribution has exactly one row, and no other region does.
   */
  function Totals(cs: seq<RegionRow>): (rows: seq<RegionRow>)
    ensures DistinctRegions(rows)
    ensures forall i :: 0 <= i < |cs| ==> IndexOfRegion(rows, cs[i].region).Some?
    ensures forall k :: 0 <= k < |rows| ==> FirstSeen(cs, rows[k].region) < |cs|
  {
    if cs == [] then []
    else
      var front := cs[..|cs| - 1];
      var last := cs[|cs| - 1];
      var prior := Totals(front);
      assert cs == front + [last];
      TabulatesStep(prior, front, last);
      AddToRegion(prior, last.region, last.score)
  }

  /** The summed score of the contributions to `region`. */
  function RegionSum(cs: seq<RegionRow>, region: string): int {
    if cs == [] then 0
    else
      var last := cs[|cs| - 1];
      RegionSum(cs[..|cs| - 1], region) + (if last.region == region then last.score else 0)
  }

  lemma {:induction false} RegionSumAbsent(cs: seq<RegionRow>, region: string)
    requires forall i :: 0 <= i < |cs| ==> cs[i].region != region
    ensures RegionSum(cs, region) == 0
  {
    if cs != [] {
      RegionSumAbsent(cs[..|cs| - 1], region);
    }
  }

  /** Each row's score is the sum of the contributions to its region. */
  lemma {:induction false} TotalsAreSums(cs: seq<RegionRow>)
    ensures forall k :: 0 <= k < |Totals(cs)| ==> Totals(cs)[k].score == RegionSum(cs, Totals(cs)[k].region)
  {
    if cs != [] {
      var front := cs[..|cs| - 1];
      var last := cs[|cs| - 1];
      var prior := Totals(front);
      var rows := Totals(cs);
      TotalsAreSums(front);
      assert cs[..|cs| - 1] == front;
      assert rows == AddToRegion(prior, last.region, last.score);
      match IndexOfRegion(prior, last.region)
      case Some(idx) =>
        forall k | 0 <= k < |rows| ensures rows[k].score == RegionSum(cs, rows[k].region) {
          if k != idx {
            assert rows[k] == prior[k];
            assert prior[k].region != prior[idx].region;
          }
        }
      case None =>
        forall i | 0 <= i < |front| ensures front[i].region != last.region {
          assert IndexOfRegion(prior, front[i].region).Some?;
        }
        RegionSumAbsent(front, last.region);
        forall k | 0 <= k < |rows| ensures rows[k].score == RegionSum(cs, rows[k].region) {
          if k < |prior| {
            assert rows[k] == prior[k];
          }
        }
    }
  }

  /** Adding a score to a region adds it to the sum of the rows. */
  lemma AddToRegionSum(rows: seq<RegionRow>, region: string, score: int)
    ensures SumBy(AddToRegion(rows, region, score), RowScore) == SumBy(rows, RowScore) + score
  {
    match IndexOfRegion(rows, region)
    case Some(k) =>
      SumByUpdate(rows, k, RegionRow(region, rows[k].score + score), RowScore);
    case None =>
      assert (rows + [RegionRow(region, score)])[..|rows|] == rows;
  }

  /** The row scores add up to the total of all contributions. */
  lemma {:induction false} TotalsAddUp(cs: seq<RegionRow>)
    ensures SumBy(Totals(cs), RowScore) == SumBy(cs, RowScore)
  {
    if cs != [] {
      var front := cs[..|cs| - 1];
      var last := cs[|cs| - 1];
      TotalsAddUp(front);
      AddToRegionSum(Totals(front), last.region, last.score);
    }
  }

  /** The index of the first contribution to `region`, or |cs| if there is none. */
  function FirstSeen(cs: seq<RegionRow>, region: string): (n: nat)
    ensures n <= |cs|
    ensures n < |cs| ==> cs[n].region == region
    ensures forall i :: 0 <= i < n ==> cs[i].region != region
  {
    if cs == [] then 0
    else
      var front := cs[..|cs| - 1];
      var f := FirstSeen(front, region);
      if f < |front| then f
      else if cs[|cs| - 1].region == region then |front|
      else |cs|
  }

  /** The rows come in the order in which their regions first appear. */
  lemma {:induction false} TotalsInFirstSeenOrder(cs: seq<RegionRow>)
    ensures forall i, j :: 0 <= i < j < |Totals(cs)| ==>
      FirstSeen(cs, Totals(cs)[i].region) < FirstSeen(cs, Totals(cs)[j].region)
  {
    if cs != [] {
      var front := cs[..|cs| - 1];
      var last := cs[|cs| - 1];
      var prior := Totals(front);
      var rows := Totals(cs);
      TotalsInFirstSeenOrder(front);
      assert cs[..|cs| - 1] == front;
      assert rows == AddToRegion(prior, last.region, last.score);
      AddToRegionKeepsRows(prior, last.region, last.score);
      forall k | 0 <= k < |prior|
        ensures FirstSeen(cs, rows[k].region) == FirstSeen(front, prior[k].region) < |front|
      {
        assert rows[k].region == prior[k].region;
      }
      if |rows| > |prior| {
        assert FirstSeen(cs, rows[|prior|].region) == |front| by {
          forall i | 0 <= i < |front| ensures front[i].region != last.region {
            assert IndexOfRegion(prior, front[i].region).Some?;
          }
        }
      }
      forall i, j | 0 <= i < j < |rows|
        ensures FirstSeen(cs, rows[i].region) < FirstSeen(cs, rows[j].region)
      {
        if j < |prior| {
          assert FirstSeen(front, prior[i].region) < FirstSeen(front, prior[j].region);
        }
      }
    }
  }

  /** The region rows of the whole leaderboard (WelcomeScreen.tsx:60-65). */
  function RegionTotals(board: seq<LeaderboardEntry>): seq<RegionRow> {
    Totals(Contributions(board))
  }

  /** The number of rows the regional ranking shows. */
  const RankingSize: nat := 10

  /** regionRanking (WelcomeScreen.tsx:59-70): the region rows by descending summed score
      (stably), at most ten of them. */
  function TopRegions(board: seq<LeaderboardEntry>): seq<RegionRow> {
    Take(SortDesc(RegionTotals(board), RowScore), RankingSize)
  }

  /**
   * The regional ranking as the component computes it: a loop that accumulates the sums
   * into an insertion-ordered map, then the sort and the cut to ten rows.
   */
  method RegionRanking(board: seq<LeaderboardEntry>) returns (rows: seq<RegionRow>)
    ensures rows == TopRegions(board)
    ensures |rows| <= RankingSize && SortedDesc(rows, RowScore)
  {
    var totals: seq<RegionRow> := [];
    var i := 0;
    while i < |board|
      invariant 0 <= i <= |board|
      invariant totals == Totals(Contributions(board[..i]))
    {
      var reg := Trim(board[i].region);
      ghost var cs := Contributions(board[..i + 1]);
      assert board[..i + 1][..i] == board[..i];
      assert cs == Contributions(board[..i]) + [RegionRow(reg, board[i].score)];
      assert cs[..i] == Contributions(board[..i]);
      totals := AddToRegion(totals, reg, board[i].score);
      i := i + 1;
    }
    assert board[..|board|] == board;
    rows := Take(SortDesc(totals, RowScore), RankingSize);
  }

  /** A row of a list with distinct regions occurs in it exactly once. */
  lemma {:induction false} MultiplicityOfDistinct(rows: seq<RegionRow>, a: nat)
    requires DistinctRegions(rows) && a < |rows|
    ensures multiset(rows)[rows[a]] == 1
    decreases |rows|
  {
    var n := |rows| - 1;
    assert rows == rows[..n] + [rows[n]];
    if a < n {
      MultiplicityOfDistinct(rows[..n], a);
      assert rows[n] != rows[a];
    } else {
      assert rows[a] !in rows[..n];
    }
  }

  /** Reordering rows with distinct regions leaves rows with distinct regions. */
  lemma PermutationKeepsDistinct(a: seq<RegionRow>, b: seq<RegionRow>)
    requires multiset(a) == multiset(b) && DistinctRegions(b)
    ensures DistinctRegions(a)
  {
    forall i, j | 0 <= i < j < |a| ensures a[i].region != a[j].region {
      assert a[i] in multiset(b) && a[j] in multiset(b) by {
        assert a[i] in multiset(a) && a[j] in multiset(a);
      }
      var p :| 0 <= p < |b| && b[p] == a[i];
      var q :| 0 <= q < |b| && b[q] == a[j];
      MultiplicityOfDistinct(b, p);
      RepeatCountsTwice(a, i, j);
    }
  }

  /** An element found at two positions occurs at least twice. */
  lemma RepeatCountsTwice(a: seq<RegionRow>, i: nat, j: nat)
    requires i < j < |a|
    ensures a[i] == a[j] ==> multiset(a)[a[i]] >= 2
  {
    assert a == a[..i] + [a[i]] + a[i + 1..j] + [a[j]] + a[j + 1..];
  }

  /** Sorting and cutting rows with distinct regions leaves rows with distinct regions. */
  lemma SortedCutKeepsDistinct(totals: seq<RegionRow>)
    requires DistinctRegions(totals)
    ensures DistinctRegions(Take(SortDesc(totals, RowScore), RankingSize))
  {
    var sorted := SortDesc(totals, RowScore);
    PermutationKeepsDistinct(sorted, totals);
    var rows := Take(sorted, RankingSize);
    assert forall i :: 0 <= i < |rows| ==> rows[i] == sorted[i];
  }

  /** A row of the totals holds its region's sum, and that region was contributed. */
  lemma TotalsRow(cs: seq<RegionRow>, row: RegionRow)
    requires row in Totals(cs)
    ensures row.score == RegionSum(cs, row.region) && FirstSeen(cs, row.region) < |cs|
  {
    TotalsAreSums(cs);
    var a :| 0 <= a < |Totals(cs)| && Totals(cs)[a] == row;
  }

  /** The rows kept after sorting and cutting the totals are totals rows. */
  lemma TopOfTotals(cs: seq<RegionRow>)
    ensures var rows := Take(SortDesc(Totals(cs), RowScore), RankingSize);
      && DistinctRegions(rows)
      && (forall k :: 0 <= k < |rows| ==> rows[k].score == RegionSum(cs, rows[k].region))
      && (forall k :: 0 <= k < |rows| ==> FirstSeen(cs, rows[k].region) < |cs|)
  {
    var totals := Totals(cs);
    var rows := Take(SortDesc(totals, RowScore), RankingSize);
    SortedCutKeepsDistinct(totals);
    TopOfSorted(totals, RowScore, RankingSize);
    forall k | 0 <= k < |rows|
      ensures rows[k].score == RegionSum(cs, rows[k].region)
      ensures FirstSeen(cs, rows[k].region) < |cs|
    {
      TotalsRow(cs, rows[k]);
    }
  }

  /**
   * The ranking's rows have distinct regions, each the trimmed region of some entry, and each
   * row's score is the summed score of the entries of that region.
   */
  lemma TopRegionsAreRegionSums(board: seq<LeaderboardEntry>)
    ensures var rows := TopRegions(board);
      && DistinctRegions(rows)
      && (forall k :: 0 <= k < |rows| ==> rows[k].score == RegionSum(Contributions(board), rows[k].region))
      && (forall k :: 0 <= k < |rows| ==> exists i :: 0 <= i < |board| && Contribution(board[i]).region == rows[k].region)
  {
    var cs := Contributions(board);
    var rows := TopRegions(board);
    assert rows == Take(SortDesc(Totals(cs), RowScore), RankingSize);
    TopOfTotals(cs);
    forall k | 0 <= k < |rows|
      ensures exists i :: 0 <= i < |board| && Contribution(board[i]).region == rows[k].region
    {
      SeenRegionIsContributed(board, rows[k].region);
    }
  }

  /** A region first seen among the contributions is the trimmed region of some entry. */
  lemma SeenRegionIsContributed(board: seq<LeaderboardEntry>, region: string)
    requires FirstSeen(Contributions(board), region) < |board|
    ensures exists i :: 0 <= i < |board| && Contribution(board[i]).region == region
  {
    var f := FirstSeen(Contributions(board), region);
    ContributionAt(board, f);
  }

  /** A region the ranking leaves out scores no more than any region it shows. */
  lemma TopRegionsKeepTheBest(board: seq<LeaderboardEntry>)
    ensures var rows := TopRegions(board);
      forall x, y :: x in multiset(RegionTotals(board)) - multiset(rows) && y in rows ==> y.score >= x.score
  {
    TopOfSorted(RegionTotals(board), RowScore, RankingSize);
  }

  /** With at most ten regions nothing is cut: the ranking's scores add up to all entries' scores. */
  lemma TopRegionsAccountForAll(board: seq<LeaderboardEntry>)
    requires |RegionTotals(board)| <= RankingSize
    ensures SumBy(TopRegions(board), RowScore) == SumBy(board, EntryScore)
  {
    var totals := RegionTotals(board);
    var sorted := SortDesc(totals, RowScore);
    assert TopRegions(board) == sorted;
    TotalsAddUp(Contributions(board));
    ContributionsAddUp(board);
    SortDescSum(totals, RowScore);
  }

  /** Regions with equal sums are listed in the order in which they first appear in the
      leaderboard (the sort is stable and the map keeps insertion order). */
  lemma TopRegionsTiesByFirstAppearance(board: seq<LeaderboardEntry>, score: int)
    ensures WithKey(TopRegions(board), RowScore, score) <= WithKey(RegionTotals(board), RowScore, score)
    ensures forall i, j :: 0 <= i < j < |RegionTotals(board)| ==>
      FirstSeen(Contributions(board), RegionTotals(board)[i].region) < FirstSeen(Contributions(board), RegionTotals(board)[j].region)
  {
    var sorted := SortDesc(RegionTotals(board), RowScore);
    SortDescStable(RegionTotals(board), RowScore, score);
    WithKeyOfPrefix(sorted, |TopRegions(board)|, RowScore, score);
    assert TopRegions(board) == sorted[..|TopRegions(board)|];
    TotalsInFirstSeenOrder(Contributions(board));
  }
}
