/** The older score store. It sorts and pages like the current one, but it decides
    "more entries follow" differently: it answers no only when the window had to be
    clamped to the end of the list, so a page that ends exactly at the last entry still
    answers yes. */
module LegacyScores {
  import opened Ranking
  import ScorePages

  /** The page of a sorted list, as the older store computes it. */
  function LegacyPageOf(s: seq<ScoreEntry>, page: int, size: int): (p: ScorePages.Page)
    requires ScorePages.PageDefined(|s|, page, size)
    ensures page * size >= |s| ==> p == ScorePages.Page([], false)
    ensures p.entries == ScorePages.PageOf(s, page, size).entries
    ensures p.hasMore <==> page * size < |s| && page * size + size <= |s|
  {
    var start := page * size;
    if start >= |s| then ScorePages.Page([], false)
    else
      var end := start + size;
      if end > |s| then ScorePages.Page(s[start..|s|], false)
      else ScorePages.Page(s[start..end], true)
  }

  /** The two stores return the same entries and disagree on the flag exactly when the
      page ends at the last entry. */
  lemma StoresDisagreeOnlyOnExactFit(s: seq<ScoreEntry>, page: int, size: int)
    requires ScorePages.PageDefined(|s|, page, size)
    ensures LegacyPageOf(s, page, size).entries == ScorePages.PageOf(s, page, size).entries
    ensures LegacyPageOf(s, page, size).hasMore != ScorePages.PageOf(s, page, size).hasMore
      <==> page * size < |s| && page * size + size == |s|
  {
  }

  /** On an exact fit the older store reports more entries although the next page is
      empty: five entries in pages of five. */
  lemma ExactFitClaimsMore(s: seq<ScoreEntry>)
    requires |s| == 5
    ensures LegacyPageOf(s, 0, 5).hasMore
    ensures LegacyPageOf(s, 1, 5).entries == []
  {
  }

  /** The older in-memory score store. */
  class ScoreManager {
    var scores: seq<ScoreEntry>

    /** A store holding the entries read from the scores file (none when there is no file). */
    constructor (loaded: seq<ScoreEntry>)
      ensures scores == loaded
    {
      scores := loaded;
    }

    /** SaveScore: append one entry stamped with the given time; earlier entries stay. */
    method SaveScore(initials: string, score: int, level: int, lines: int, now: int)
      modifies this
      ensures scores == old(scores) + [ScoreEntry(initials, score, level, lines, now)]
    {
      scores := scores + [ScoreEntry(initials, score, level, lines, now)];
    }

    /** GetPage: sort the stored list in place, then return the requested page of it. */
    method GetPage(page: int, size: int) returns (entries: seq<ScoreEntry>, hasMore: bool)
      requires ScorePages.PageDefined(|scores|, page, size)
      modifies this
      ensures scores == Sort(old(scores))
      ensures multiset(scores) == multiset(old(scores)) && Sorted(scores)
      ensures ScorePages.Page(entries, hasMore) == LegacyPageOf(scores, page, size)
    {
      scores := Sort(scores);
      var start := page * size;
      if start >= |scores| {
        return [], false;
      }
      var end := start + size;
      if end > |scores| {
        end := |scores|;
        return scores[start..end], false;
      }
      return scores[start..end], true;
    }
  }
}
