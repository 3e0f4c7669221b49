/** The score board's store: the list of recorded entries, sorted in place and cut into
    pages on request. Reading and writing the scores file is outside the model; the
    constructor receives the loaded list and the save operation receives the time. */
module ScorePages {
  import opened Ranking

  /** The smaller of two integers. */
  function Min(a: int, b: int): int
  {
    if a <= b then a else b
  }

  /** One page of the board and whether entries remain after it. */
  datatype Page = Page(entries: seq<ScoreEntry>, hasMore: bool)

  /** The page request does not make the slice expression fail: either the page starts at
      or past the end, or it starts inside the list and has a non-negative size. */
  predicate PageDefined(n: int, page: int, size: int)
  {
    page * size >= n || (page * size >= 0 && size >= 0)
  }

  /** A request with a non-negative index and size is always defined. */
  lemma {:induction false} NaturalPageDefined(n: int, page: nat, size: nat)
    ensures page * size >= 0 && PageDefined(n, page, size)
  {
    if page > 0 {
      NaturalPageDefined(n, page - 1, size);
      assert page * size == (page - 1) * size + size;
    }
  }

  /** The page of a sorted list with the given index and size. Past the end it is empty
      with nothing more; otherwise it is the window [page*size, page*size+size) clamped to
      the list, and there is more exactly when the unclamped window ends before the list. */
  function PageOf(s: seq<ScoreEntry>, page: int, size: int): (p: Page)
    requires PageDefined(|s|, page, size)
    ensures size >= 0 ==> |p.entries| <= size
    ensures page * size >= |s| ==> p == Page([], false)
    ensures page * size < |s| ==> p.entries == s[page * size .. Min(page * size + size, |s|)]
    ensures p.hasMore <==> page * size < |s| && page * size + size < |s|
  {
    var start := page * size;
    if start >= |s| then Page([], false)
    else
      var end := start + size;
      Page(s[start .. Min(end, |s|)], end < |s|)
  }

  /** There is more after a page exactly when the following page is non-empty. */
  lemma HasMoreIffNextPageNonEmpty(s: seq<ScoreEntry>, page: nat, size: nat)
    requires size > 0
    ensures (NaturalPageDefined(|s|, page, size); NaturalPageDefined(|s|, page + 1, size);
      PageOf(s, page, size).hasMore <==> |PageOf(s, page + 1, size).entries| > 0)
  {
    assert (page + 1) * size == page * size + size;
  }

  /** Page k starts one page size after page k - 1. */
  lemma NextPageStart(k: nat, size: nat)
    requires k > 0
    ensures (k - 1) * size >= 0 && k * size == (k - 1) * size + size
  {
    NaturalPageDefined(0, k - 1, size);
  }

  /** The first k pages, one after the other. */
  function FirstPages(s: seq<ScoreEntry>, k: nat, size: nat): seq<ScoreEntry>
    requires size > 0
  {
    if k == 0 then []
    else
      NaturalPageDefined(|s|, k - 1, size);
      FirstPages(s, k - 1, size) + PageOf(s, k - 1, size).entries
  }

  /** Paging loses and repeats nothing: the first k pages together are the first k*size
      entries of the list (all of it once k*size reaches its length). */
  lemma {:induction false} PagesTile(s: seq<ScoreEntry>, k: nat, size: nat)
    requires size > 0
    ensures FirstPages(s, k, size) == s[..Min(k * size, |s|)]
  {
    if k > 0 {
      PagesTile(s, k - 1, size);
      var start := (k - 1) * size;
      NextPageStart(k, size);
      if start >= |s| {
        assert Min(k * size, |s|) == |s|;
      } else {
        assert s[..start] + s[start .. Min(start + size, |s|)] == s[..Min(start + size, |s|)];
      }
    }
  }

  /** The pages of the five-entry board: the first three best, then the remaining two; a
      page holding exactly the rest reports nothing more. */
  lemma FiveEntryPages(entries: seq<ScoreEntry>)
    requires |entries| == 5
    ensures PageOf(entries, 0, 3) == Page(entries[..3], true)
    ensures PageOf(entries, 1, 3) == Page(entries[3..], false)
    ensures PageOf(entries, 0, 5) == Page(entries, false)
    ensures PageOf(entries, 1, 5) == Page([], false)
  {
  }

  /** The in-memory score store. */
  class ScoreManager {
    var scores: seq<ScoreEntry>

    /** A store holding the entries read from the scores file (none when there is no file). */
    constructor (loaded: seq<ScoreEntry>)
      ensures scores == loaded
    {
      scores := loaded;
    }

    /** SaveScore: append one entry stamped with the given time; earlier entries stay. */
    method SaveScore(initials: string, score: int, level: int, lines: int, now: int)
      modifies this
      ensures scores == old(scores) + [ScoreEntry(initials, score, level, lines, now)]
    {
      scores := scores + [ScoreEntry(initials, score, level, lines, now)];
    }

    /** GetPage: sort the stored list in place, then return the requested page of it. */
    method GetPage(page: int, size: int) returns (entries: seq<ScoreEntry>, hasMore: bool)
      requires PageDefined(|scores|, page, size)
      modifies this
      ensures scores == Sort(old(scores))
      ensures multiset(scores) == multiset(old(scores)) && Sorted(scores)
      ensures Page(entries, hasMore) == PageOf(scores, page, size)
    {
      scores := Sort(scores);
      var start := page * size;
      if start >= |scores| {
        return [], false;
      }
      var end := start + size;
      hasMore := end < |scores|;
      if end > |scores| {
        end := |scores|;
      }
      assert end == Min(start + size, |scores|);
      entries := scores[start..end];
    }
  }
}
