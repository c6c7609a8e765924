/** The candidates table's `filteredCandidates`: a search on name or email, the
    fit-score bucket filter, then newest first. */
module CandidatesTab {
  import opened Values
  import FitScoreFilter

  /** A row of the table as the candidates page holds it. A missing fit score is
      null, which JavaScript compares as 0; `created_at` is the creation time in
      milliseconds. */
  datatype Row = Row(full_name: Option<string>, email: Option<string>, fit_score: Option<int>, created_at: int)

  /** `toLowerCase` on the ASCII letters. */
  function Lower(s: string): (r: string)
    ensures |r| == |s|
    ensures forall i | 0 <= i < |s| :: r[i] == if 'A' <= s[i] <= 'Z' then s[i] - 'A' + 'a' else s[i]
  {
    seq(|s|, i requires 0 <= i < |s| => if 'A' <= s[i] <= 'Z' then (s[i] - 'A' + 'a') as char else s[i])
  }

  /** `text.includes(term)`. */
  predicate Contains(text: string, term: string) {
    exists i | 0 <= i <= |text| :: OccursAt(text, term, i)
  }

  predicate OccursAt(text: string, term: string, i: nat) {
    i + |term| <= |text| && text[i..i + |term|] == term
  }

  /** `field?.toLowerCase().includes(term.toLowerCase())`; a missing field never matches. */
  predicate FieldMatches(field: Option<string>, term: string) {
    field.Some? && Contains(Lower(field.value), Lower(term))
  }

  predicate MatchesSearch(r: Row, term: string) {
    FieldMatches(r.full_name, term) || FieldMatches(r.email, term)
  }

  function ScoreOf(r: Row): int {
    match r.fit_score
    case Some(s) => s
    case None => 0
  }

  /** The bucket a selected value stands for: 90 is 90 and up, 80, 70 and 60 the
      ten points from there, and any other value everything below 60. */
  predicate InBucket(score: int, bucket: int) {
    if bucket == 90 then score >= 90
    else if bucket == 80 then 80 <= score < 90
    else if bucket == 70 then 70 <= score < 80
    else if bucket == 60 then 60 <= score < 70
    else score < 60
  }

  predicate MatchesFitScore(r: Row, selected: seq<int>) {
    |selected| == 0 || exists b | b in selected :: InBucket(ScoreOf(r), b)
  }

  predicate Keep(r: Row, term: string, selected: seq<int>) {
    MatchesSearch(r, term) && MatchesFitScore(r, selected)
  }

  /** The `filter` step, in order. */
  function Filter(rows: seq<Row>, term: string, selected: seq<int>): (r: seq<Row>)
    ensures forall x | x in r :: x in rows && Keep(x, term, selected)
    ensures forall x | x in rows && Keep(x, term, selected) :: x in r
    ensures multiset(r) <= multiset(rows)
    ensures forall x | Keep(x, term, selected) :: multiset(r)[x] == multiset(rows)[x]
    decreases |rows|
  {
    if rows == [] then []
    else
      var init := rows[..|rows| - 1];
      var last := rows[|rows| - 1];
      assert rows == init + [last];
      if Keep(last, term, selected) then Filter(init, term, selected) + [last]
      else Filter(init, term, selected)
  }

  predicate NewestFirst(s: seq<Row>) {
    forall i, j | 0 <= i < j < |s| :: s[i].created_at >= s[j].created_at
  }

  /** Puts `x` into the newest-first list `s`, after every row at least as new,
      as a stable sort places the later of two equal rows. */
  function Insert(s: seq<Row>, x: Row): (r: seq<Row>)
    requires NewestFirst(s)
    ensures NewestFirst(r)
    ensures multiset(r) == multiset(s) + multiset{x}
    decreases |s|
  {
    if s == [] then [x]
    else if s[|s| - 1].created_at >= x.created_at then s + [x]
    else
      var init := s[..|s| - 1];
      var last := s[|s| - 1];
      assert s == init + [last];
      var r := Insert(init, x);
      LastIsOldest(s);
      AllAtLeast(r, init, x, last.created_at);
      AppendOldest(r, last);
      r + [last]
  }

  /** Every row of a reordering of `s` and `x` is at least as new as `t` when
      `x` and every row of `s` are. */
  lemma AllAtLeast(r: seq<Row>, s: seq<Row>, x: Row, t: int)
    requires multiset(r) == multiset(s) + multiset{x}
    requires x.created_at >= t && forall y | y in s :: y.created_at >= t
    ensures forall k | 0 <= k < |r| :: r[k].created_at >= t
  {
    forall k | 0 <= k < |r| ensures r[k].created_at >= t {
      assert r[k] in multiset(r);
      assert r[k] == x || r[k] in s;
    }
  }

  lemma LastIsOldest(s: seq<Row>)
    requires NewestFirst(s) && s != []
    ensures forall y | y in s[..|s| - 1] :: y.created_at >= s[|s| - 1].created_at
  {
    forall y | y in s[..|s| - 1] ensures y.created_at >= s[|s| - 1].created_at {
      var k :| 0 <= k < |s| - 1 && s[..|s| - 1][k] == y;
      assert s[k] == y;
    }
  }

  /** A row no newer than every row of a newest-first list can go at its end. */
  lemma AppendOldest(r: seq<Row>, last: Row)
    requires NewestFirst(r)
    requires forall k | 0 <= k < |r| :: r[k].created_at >= last.created_at
    ensures NewestFirst(r + [last])
  {
  }

  /** The `sort` by `created_at`, newest first (a stable insertion sort). */
  function SortNewestFirst(s: seq<Row>): (r: seq<Row>)
    ensures NewestFirst(r)
    ensures multiset(r) == multiset(s)
    decreases |s|
  {
    if s == [] then []
    else
      var init := s[..|s| - 1];
      assert s == init + [s[|s| - 1]];
      Insert(SortNewestFirst(init), s[|s| - 1])
  }

  /** `filteredCandidates`. */
  function FilteredCandidates(rows: seq<Row>, term: string, selected: seq<int>): seq<Row> {
    SortNewestFirst(Filter(rows, term, selected))
  }

  /** The table shows exactly the rows that pass both the search and the fit
      filter, each as often as it occurs, newest first. */
  lemma FilteredCandidatesSpec(rows: seq<Row>, term: string, selected: seq<int>)
    ensures var r := FilteredCandidates(rows, term, selected);
      && NewestFirst(r)
      && multiset(r) <= multiset(rows)
      && (forall x | Keep(x, term, selected) :: multiset(r)[x] == multiset(rows)[x])
      && (forall x :: x in r <==> x in rows && Keep(x, term, selected))
  {
    var f := Filter(rows, term, selected);
    var r := SortNewestFirst(f);
    forall x ensures x in r <==> x in f {
      assert x in r <==> x in multiset(r);
      assert x in f <==> x in multiset(f);
    }
  }

  /** With no bucket selected, every row passes the fit filter. */
  lemma NoBucketKeepsAll(r: Row)
    ensures MatchesFitScore(r, [])
  {
  }

  /** A row with no fit score passes a bucket only when the below-60 bucket is selected. */
  lemma MissingScoreOnlyBelowSixty(r: Row, bucket: int)
    requires r.fit_score.None?
    ensures InBucket(ScoreOf(r), bucket) <==> bucket !in {90, 80, 70, 60}
  {
  }

  /** The five offered buckets split every score: each score lies in exactly one. */
  lemma BucketsPartitionScores(score: int)
    ensures exists b | b in FitScoreFilter.ScoreRanges :: InBucket(score, b)
    ensures forall b, c | b in FitScoreFilter.ScoreRanges && c in FitScoreFilter.ScoreRanges &&
      InBucket(score, b) && InBucket(score, c) :: b == c
  {
    var b := if score >= 90 then 90 else if score >= 80 then 80 else if score >= 70 then 70
             else if score >= 60 then 60 else 50;
    assert b in FitScoreFilter.ScoreRanges;
  }

  /** An empty search keeps exactly the rows that have a name or an email. */
  lemma EmptySearchKeepsNamedRows(r: Row)
    ensures MatchesSearch(r, "") <==> r.full_name.Some? || r.email.Some?
  {
    if r.full_name.Some? {
      assert OccursAt(Lower(r.full_name.value), Lower(""), 0);
    }
    if r.email.Some? {
      assert OccursAt(Lower(r.email.value), Lower(""), 0);
    }
  }

  /** The search ignores the case of ASCII letters in the term. */
  lemma SearchIgnoresCase(r: Row, term: string)
    ensures MatchesSearch(r, term) <==> MatchesSearch(r, Lower(term))
  {
    LowerIdempotent(term);
  }

  lemma LowerIdempotent(s: string)
    ensures Lower(Lower(s)) == Lower(s)
  {
  }
}
