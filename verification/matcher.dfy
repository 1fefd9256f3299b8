/**
 The live top-matches query: score every available mentor against the
 mentee, rank by score (highest first, equal scores in input order) and
 keep the first `limit`.
 */
module Matcher {
  import opened Profiles
  import opened Scoring
  import opened Ranking

  /** One ranked entry: the mentor and the full compatibility result it was ranked by. */
  datatype Match = Match(mentor: MentorProfile, result: Compatibility)

  /** The number of matches returned when the caller does not choose one. */
  const DefaultLimit: int := 10

  /** The entry of one mentor, ranked by the score of its result. */
  function Entry(mentor: MentorProfile, result: Compatibility): (e: Scored<Match>)
    ensures e.item == Match(mentor, result)
    ensures e.score == result.score
  {
    Scored(Match(mentor, result), result.score)
  }

  /** The available mentors, in input order. */
  function Available(mentors: seq<MentorProfile>): seq<MentorProfile> {
    Filter(IsAvailable, mentors)
  }

  /**
   The entries of the available mentors in input order, each with the
   result `score` gives it: the list the query builds before sorting.
   */
  function CandidatesBy(score: MentorProfile -> Compatibility, mentors: seq<MentorProfile>): (r: seq<Scored<Match>>)
    ensures |r| == |Available(mentors)|
    ensures forall k :: 0 <= k < |r| ==> r[k] == Entry(Available(mentors)[k], score(Available(mentors)[k]))
    ensures forall k :: 0 <= k < |r| ==>
      && IsAvailable(r[k].item.mentor)
      && r[k].item.mentor in mentors
      && r[k] == Entry(r[k].item.mentor, score(r[k].item.mentor))
    ensures forall m :: m in mentors && IsAvailable(m) ==> Entry(m, score(m)) in r
  {
    FilterMap(IsAvailable, m => Entry(m, score(m)), mentors)
  }

  /** The best `limit` entries of the available mentors under `score`. */
  function TopMatchesBy(score: MentorProfile -> Compatibility, mentors: seq<MentorProfile>, limit: int)
    : (r: seq<Scored<Match>>)
    ensures |r| == SliceLen(|Available(mentors)|, limit)
    ensures SortedDesc(r)
    ensures multiset(r) <= multiset(CandidatesBy(score, mentors))
    ensures forall k :: 0 <= k < |r| ==>
      && IsAvailable(r[k].item.mentor)
      && r[k].item.mentor in mentors
      && r[k] == Entry(r[k].item.mentor, score(r[k].item.mentor))
  {
    var all := CandidatesBy(score, mentors);
    TopN(all, limit)
  }

  /** The list the live query sorts: the entry of each available mentor, in input order, with its compatibility result. */
  function Candidates(mentee: MenteeProfile, mentors: seq<MentorProfile>): (r: seq<Scored<Match>>)
    ensures |r| == |Available(mentors)|
    ensures forall k :: 0 <= k < |r| ==>
      && r[k].item == Match(Available(mentors)[k], Score(mentee, Available(mentors)[k]))
      && r[k].score == r[k].item.result.score
    ensures forall k :: 0 <= k < |r| ==>
      && IsAvailable(r[k].item.mentor)
      && r[k].item.mentor in mentors
    ensures forall m :: m in mentors && IsAvailable(m) ==> Entry(m, Score(mentee, m)) in r
  {
    CandidatesBy(m => Score(mentee, m), mentors)
  }

  /**
   The top matches: entries of available mentors only, each carrying its
   own compatibility result, best first, as many as Python's `[:limit]`
   keeps of the available mentors.
   */
  function GetTopMatches(mentee: MenteeProfile, mentors: seq<MentorProfile>, limit: int): (r: seq<Scored<Match>>)
    ensures |r| == SliceLen(|Available(mentors)|, limit)
    ensures SortedDesc(r)
    ensures multiset(r) <= multiset(Candidates(mentee, mentors))
    ensures forall k :: 0 <= k < |r| ==>
      && IsAvailable(r[k].item.mentor)
      && r[k].item.mentor in mentors
      && r[k].item.result == Score(mentee, r[k].item.mentor)
      && r[k].score == r[k].item.result.score
  {
    TopMatchesBy(m => Score(mentee, m), mentors, limit)
  }

  /** The choice the ranking makes under any scoring function. */
  lemma TopMatchesByChoice(score: MentorProfile -> Compatibility, mentors: seq<MentorProfile>, limit: int)
    ensures var all, r := CandidatesBy(score, mentors), TopMatchesBy(score, mentors, limit);
      forall x, k :: x in multiset(all) - multiset(r) && 0 <= k < |r| ==> x.score <= r[k].score
    ensures forall v :: WithScore(TopMatchesBy(score, mentors, limit), v) <= WithScore(CandidatesBy(score, mentors), v)
  {
    TopNChoice(CandidatesBy(score, mentors), limit);
  }

  /**
   The choice the query makes: no available mentor left out scores higher
   than one kept, and mentors of equal score appear in input order, the
   kept ones being the first of their score.
   */
  lemma TopMatchesChoice(mentee: MenteeProfile, mentors: seq<MentorProfile>, limit: int)
    ensures var all, r := Candidates(mentee, mentors), GetTopMatches(mentee, mentors, limit);
      forall x, k :: x in multiset(all) - multiset(r) && 0 <= k < |r| ==> x.score <= r[k].score
    ensures forall v :: WithScore(GetTopMatches(mentee, mentors, limit), v) <= WithScore(Candidates(mentee, mentors), v)
  {
    TopMatchesByChoice(m => Score(mentee, m), mentors, limit);
  }

  /** Without an explicit limit the query returns at most ten matches, and every available mentor when there are fewer. */
  lemma DefaultLimitKeepsTen(mentee: MenteeProfile, mentors: seq<MentorProfile>)
    ensures |GetTopMatches(mentee, mentors, DefaultLimit)| == if |Available(mentors)| < 10 then |Available(mentors)| else 10
  {
  }

  /** An unavailable mentor never appears, whatever the limit. */
  lemma UnavailableNeverListed(mentee: MenteeProfile, mentors: seq<MentorProfile>, limit: int, m: MentorProfile)
    requires !IsAvailable(m)
    ensures forall k :: 0 <= k < |GetTopMatches(mentee, mentors, limit)| ==>
      GetTopMatches(mentee, mentors, limit)[k].item.mentor != m
  {
  }

  /**
   The query as the program runs it: collect the entries of available
   mentors in one pass, sort them stably by score, keep the first `limit`.
   */
  method TopMatches(mentee: MenteeProfile, mentors: seq<MentorProfile>, limit: int) returns (r: seq<Scored<Match>>)
    ensures r == GetTopMatches(mentee, mentors, limit)
  {
    ghost var score := m => Score(mentee, m);
    var matches: seq<Scored<Match>> := [];
    for i := 0 to |mentors|
      invariant matches == CandidatesBy(score, mentors[..i])
    {
      assert mentors[..i + 1] == mentors[..i] + [mentors[i]];
      FilterMapSnoc(IsAvailable, m => Entry(m, score(m)), mentors[..i], mentors[i]);
      if IsAvailable(mentors[i]) {
        matches := matches + [Entry(mentors[i], Score(mentee, mentors[i]))];
      }
    }
    assert mentors[..|mentors|] == mentors;
    var sorted := SortByScore(matches);
    SortUnique(matches, sorted);
    r := PrefixSlice(sorted, limit);
  }
}
