/** The high-score entry and the order the score board lists entries in: higher score
    first, and among equal scores the earlier date first. Both score managers sort their
    list with this order before cutting out a page. */
module Ranking {

  /** A recorded result. The date is an abstract timestamp: a larger value is later. */
  datatype ScoreEntry = ScoreEntry(initials: string, score: int, level: int, lines: int, date: int)

  /** Whether a may be listed before b. */
  predicate Precedes(a: ScoreEntry, b: ScoreEntry)
  {
    a.score > b.score || (a.score == b.score && a.date <= b.date)
  }

  /** The three-way comparison of two timestamps: -1, 0 or 1. */
  function CompareDates(a: int, b: int): (c: int)
    ensures c < 0 <==> a < b
    ensures c == 0 <==> a == b
  {
    if a < b then -1 else if a == b then 0 else 1
  }

  /** The sort comparator: negative when a belongs first, positive when b does. */
  function Compare(a: ScoreEntry, b: ScoreEntry): (c: int)
    ensures c <= 0 <==> Precedes(a, b)
    ensures c == 0 <==> a.score == b.score && a.date == b.date
  {
    if a.score != b.score then b.score - a.score else CompareDates(a.date, b.date)
  }

  /** The comparator is antisymmetric: swapping the entries flips the sign. */
  lemma CompareAntisymmetric(a: ScoreEntry, b: ScoreEntry)
    ensures Compare(a, b) < 0 <==> Compare(b, a) > 0
  {
  }

  /** Any two entries can be listed one way or the other. */
  lemma PrecedesTotal(a: ScoreEntry, b: ScoreEntry)
    ensures Precedes(a, b) || Precedes(b, a)
  {
  }

  /** Every adjacent and non-adjacent pair is in order. */
  predicate Sorted(s: seq<ScoreEntry>)
  {
    forall i, j :: 0 <= i < j < |s| ==> Precedes(s[i], s[j])
  }

  /** Insert e into s before the first entry it may precede. */
  function Insert(e: ScoreEntry, s: seq<ScoreEntry>): (r: seq<ScoreEntry>)
    ensures |r| == |s| + 1
    ensures multiset(r) == multiset(s) + multiset{e}
  {
    if |s| == 0 then [e]
    else if Precedes(e, s[0]) then [e] + s
    else
      assert s == [s[0]] + s[1..];
      [s[0]] + Insert(e, s[1..])
  }

  /** Inserting into an ordered list keeps it ordered. */
  lemma {:induction false} InsertSorted(e: ScoreEntry, s: seq<ScoreEntry>)
    requires Sorted(s)
    ensures Sorted(Insert(e, s))
  {
    if |s| > 0 && !Precedes(e, s[0]) {
      var tail := Insert(e, s[1..]);
      InsertSorted(e, s[1..]);
      var r := [s[0]] + tail;
      assert multiset(tail) == multiset(s[1..]) + multiset{e};
      forall j | 0 < j < |r| ensures Precedes(s[0], r[j]) {
        assert r[j] == tail[j - 1];
        assert r[j] in multiset(tail);
        if r[j] == e {
        } else {
          assert r[j] in multiset(s[1..]);
          var k :| 0 <= k < |s[1..]| && s[1..][k] == r[j];
          assert s[k + 1] == r[j];
        }
      }
    }
  }

  /** The score board's order: an insertion sort. Entries that compare equal (same score,
      same date) keep their input order. */
  function Sort(s: seq<ScoreEntry>): (r: seq<ScoreEntry>)
    ensures |r| == |s| && multiset(r) == multiset(s) && Sorted(r)
  {
    if |s| == 0 then []
    else
      var rest := Sort(s[1..]);
      InsertSorted(s[0], rest);
      assert s == [s[0]] + s[1..];
      Insert(s[0], rest)
  }

  /** A list that is already in order is left as it is. */
  lemma {:induction false} SortKeepsSorted(s: seq<ScoreEntry>)
    requires Sorted(s)
    ensures Sort(s) == s
  {
    if |s| > 0 {
      assert Sorted(s[1..]) by {
        forall i, j | 0 <= i < j < |s[1..]| ensures Precedes(s[1..][i], s[1..][j]) {
          assert s[1..][i] == s[i + 1] && s[1..][j] == s[j + 1];
        }
      }
      SortKeepsSorted(s[1..]);
      if |s| > 1 {
        assert Precedes(s[0], s[1]);
        assert s[1..][0] == s[1];
      }
      assert s == [s[0]] + s[1..];
    }
  }

  /** The first entry of a sorted board has the highest score of all. */
  lemma SortLeaderIsBest(s: seq<ScoreEntry>)
    requires |s| > 0
    ensures |Sort(s)| > 0 && forall e :: e in s ==> Sort(s)[0].score >= e.score
  {
    var r := Sort(s);
    assert |r| == |multiset(r)| == |multiset(s)| == |s|;
    forall e | e in s ensures r[0].score >= e.score {
      assert e in multiset(s);
      assert e in multiset(r);
      var k :| 0 <= k < |r| && r[k] == e;
      if k > 0 {
        assert Precedes(r[0], r[k]);
      }
    }
  }

  /** The date tie-break: of two entries with equal scores, the older is listed first. */
  lemma OlderFirstOnTie(newer: ScoreEntry, older: ScoreEntry)
    requires newer.score == older.score && older.date < newer.date
    ensures Sort([newer, older]) == [older, newer]
  {
    assert [newer, older][1..] == [older];
  }
}
