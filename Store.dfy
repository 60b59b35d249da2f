/**
 * The two collections the App component keeps across sessions (App.tsx): the bank of
 * saved questions, with toggle-by-text, delete-by-id and the random draw for a
 * saved-pool quiz, and the leaderboard, kept sorted and cut to its best 50 entries.
 */
module Store {
  import opened Types
  import opened JsArray

  /** Whether some saved question has the same text as q (App.tsx:274): identity is by text. */
  function IsSaved(saved: seq<Question>, q: Question): (b: bool)
    ensures b <==> exists i :: 0 <= i < |saved| && saved[i].questionText == q.questionText
  {
    if saved == [] then false
    else saved[0].questionText == q.questionText || IsSaved(saved[1..], q)
  }

  /** The filter predicate that keeps the questions whose text differs from q's. */
  function OtherText(q: Question): Question -> bool {
    (x: Question) => x.questionText != q.questionText
  }

  /**
   * toggleSaveQuestion: if any saved question has q's text, every such question is removed
   * and all others are kept, with their multiplicities and in their order; otherwise q is appended. Either way the saved status
   * of q's text flips.
   */
  function ToggleSave(saved: seq<Question>, q: Question): (r: seq<Question>)
    ensures IsSaved(r, q) <==> !IsSaved(saved, q)
    ensures IsSaved(saved, q) ==>
      && (forall i :: 0 <= i < |r| ==> r[i] in saved)
      && (forall i :: 0 <= i < |saved| && saved[i].questionText != q.questionText ==> saved[i] in r)
    ensures IsSaved(saved, q) ==>
      forall x :: multiset(r)[x] == if x.questionText != q.questionText then multiset(saved)[x] else 0
    ensures IsSaved(saved, q) ==> exists idx :: PicksInOrder(r, saved, idx)
    ensures !IsSaved(saved, q) ==> r == saved + [q]
  {
    if IsSaved(saved, q) then
      FilterCounts(saved, OtherText(q));
      var idx := KeptPositions(saved, OtherText(q));
      Filter(saved, OtherText(q))
    else
      assert (saved + [q])[|saved|] == q;
      saved + [q]
  }

  /** Saving a question whose text is not in the bank and toggling it again gives the bank back. */
  lemma ToggleTwiceRestores(saved: seq<Question>, q: Question)
    requires !IsSaved(saved, q)
    ensures ToggleSave(ToggleSave(saved, q), q) == saved
  {
    assert IsSaved(saved + [q], q) by {
      assert (saved + [q])[|saved|] == q;
    }
    FilterAppend(saved, [q], OtherText(q));
    FilterKeepsAll(saved, OtherText(q));
    assert Filter([q], OtherText(q)) == [];
  }

  /** The filter predicate that keeps the questions whose id differs from `id`. */
  function OtherId(id: string): Question -> bool {
    (x: Question) => x.id != id
  }

  /** deleteSavedQuestion: exactly the questions with this id disappear; every other one stays,
      as often as it occurred, and in its original order. */
  function DeleteById(saved: seq<Question>, id: string): (r: seq<Question>)
    ensures forall i :: 0 <= i < |r| ==> r[i] in saved && r[i].id != id
    ensures forall i :: 0 <= i < |saved| && saved[i].id != id ==> saved[i] in r
    ensures forall x :: multiset(r)[x] == if x.id != id then multiset(saved)[x] else 0
    ensures exists idx :: PicksInOrder(r, saved, idx)
  {
    FilterCounts(saved, OtherId(id));
    var idx := KeptPositions(saved, OtherId(id));
    Filter(saved, OtherId(id))
  }

  /** Deleting an id that no saved question carries changes nothing. */
  lemma DeleteAbsentId(saved: seq<Question>, id: string)
    requires forall i :: 0 <= i < |saved| ==> saved[i].id != id
    ensures DeleteById(saved, id) == saved
  {
    FilterKeepsAll(saved, OtherId(id));
  }

  /**
   * The questions of a saved-pool quiz (App.tsx:68): the first n of the bank after a random
   * reordering. `shuffled` is that reordering, so the draw is some selection, without
   * repetition, of min(n, |saved|) saved questions.
   */
  function DrawSaved(saved: seq<Question>, shuffled: seq<Question>, n: int): (r: seq<Question>)
    requires multiset(shuffled) == multiset(saved) && n >= 0
    ensures |r| == if n < |saved| then n else |saved|
    ensures multiset(r) <= multiset(saved)
    ensures r == [] <==> saved == [] || n == 0
  {
    assert |shuffled| == |multiset(shuffled)| == |saved|;
    Take(shuffled, n)
  }

  /** The number of entries the leaderboard keeps. */
  const LeaderboardLimit: nat := 50

  /** The sort key of leaderboard entries. */
  function EntryScore(e: LeaderboardEntry): int {
    e.score
  }

  /**
   * saveToLeaderboard's update (App.tsx:201-205): append, sort by score descending
   * (stably), keep the first 50. The result is sorted, exactly min(50, |board| + 1) long, drawn from the old
   * entries and the new one, loses nothing while there is room, and every entry it drops
   * scores no more than any entry it keeps.
   */
  function Record(board: seq<LeaderboardEntry>, entry: LeaderboardEntry): (r: seq<LeaderboardEntry>)
    ensures |r| == if |board| + 1 < LeaderboardLimit then |board| + 1 else LeaderboardLimit
    ensures SortedDesc(r, EntryScore)
    ensures multiset(r) <= multiset(board + [entry])
    ensures |board| < LeaderboardLimit ==> multiset(r) == multiset(board + [entry])
    ensures forall x, y :: x in multiset(board + [entry]) - multiset(r) && y in r ==>
      EntryScore(y) >= EntryScore(x)
  {
    var sorted := SortDesc(board + [entry], EntryScore);
    var r := Take(sorted, LeaderboardLimit);
    assert multiset(sorted) == multiset(board + [entry]);
    assert SortedDesc(r, EntryScore) by {
      assert r == sorted[..|r|];
    }
    assert |board| < LeaderboardLimit ==> r == sorted;
    CutScoresNoHigher(sorted, EntryScore, r);
    r
  }

  /** Entries with equal scores stay in the order they were recorded in: for every score,
      the kept entries with that score are a prefix of the old ones followed by the new one. */
  lemma RecordKeepsTieOrder(board: seq<LeaderboardEntry>, entry: LeaderboardEntry, k: int)
    ensures WithKey(Record(board, entry), EntryScore, k) <= WithKey(board + [entry], EntryScore, k)
  {
    var sorted := SortDesc(board + [entry], EntryScore);
    SortDescStable(board + [entry], EntryScore, k);
    var r := Record(board, entry);
    assert r == sorted[..|r|];
    WithKeyOfPrefix(sorted, |r|, EntryScore, k);
  }
}
