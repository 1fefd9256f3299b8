/**
 The live mentee/mentor compatibility scorer: four independent factors
 (advising topics 30, career path 20, concentration 10, semantic keyword
 overlap 40) summed, clamped to [0, 100], banded into a quality label and
 explained by a never-empty list of reasons.
 */
module Scoring {
  import opened Text
  import opened Keywords
  import opened Profiles
  import opened Cardinality

  datatype Quality = Excellent | Good | Moderate | Low

  /** Why a mentor matches; the shared-interest reason names at most three shared terms. */
  datatype Reason =
    | CanHelpWith(topics: set<string>)
    | PursuingCareer(career: string)
    | RelatedCareer(career: string)
    | SameConcentration(concentration: string)
    | SharedInterests(terms: set<string>)
    | GeneralMentorship

  /** The points one factor contributes and the reason it adds, if any. */
  datatype Factor = Factor(points: real, reason: Option<Reason>)

  datatype Breakdown = Breakdown(advisingTopics: real, careerPath: real, concentration: real, semantic: real)

  datatype Compatibility = Compatibility(score: real, quality: Quality, breakdown: Breakdown, reasons: seq<Reason>)

  /** The concentration answer of a mentee who has not chosen one yet. */
  const Undecided: string := "i don't know"

  /** Overlap terms too generic to be named in the shared-interest reason (they still score). */
  const GenericTerms: set<string> := {"data", "science", "engineering", "technology", "tech"}

  function MinNat(a: nat, b: nat): nat {
    if a <= b then a else b
  }

  /** The set of normalised (lower-cased, stripped) entries of a list. */
  function NormalizedSet(items: seq<string>): set<string> {
    set x | x in items :: Normalize(x)
  }

  /** The list of normalised entries, in order. */
  function NormalizedList(items: seq<string>): (r: seq<string>)
    ensures |r| == |items|
    ensures forall i :: 0 <= i < |items| ==> r[i] == Normalize(items[i])
  {
    seq(|items|, i requires 0 <= i < |items| => Normalize(items[i]))
  }

  lemma NormalizedSetNonEmpty(items: seq<string>)
    requires items != []
    ensures NormalizedSet(items) != {}
  {
    assert Normalize(items[0]) in NormalizedSet(items);
  }

  // ---------------------------------------------------------------------------
  // Advising topics (30 points)
  // ---------------------------------------------------------------------------

  /**
   Coverage points: 30 times the fraction of `wanted` found in `offered`;
   30 exactly when everything wanted is offered, 0 exactly when nothing is.
   */
  function CoveragePoints(wanted: set<string>, offered: set<string>): (p: real)
    requires wanted != {}
    ensures 0.0 <= p <= 30.0
    ensures |wanted * offered| <= |wanted|
    ensures p == 30.0 * Ratio(|wanted * offered|, |wanted|)
    ensures p == 30.0 <==> wanted <= offered
    ensures p == 0.0 <==> wanted !! offered
  {
    var matches := wanted * offered;
    SubsetCard(matches, wanted);
    assert |matches| == |wanted| <==> wanted <= offered by {
      if wanted <= offered { assert matches == wanted; }
    }
    Ratio(|matches|, |wanted|) * 30.0
  }

  /**
   The topic factor: 30 times the fraction of the mentee's distinct
   normalised needs that the mentor lists as topics; nothing when either
   list is empty.
   */
  function TopicFactor(needs: seq<string>, topics: seq<string>): (f: Factor)
    ensures 0.0 <= f.points <= 30.0
    ensures needs == [] || topics == [] ==> f == Factor(0.0, None)
    ensures f.points == 30.0 <==> needs != [] && topics != [] && NormalizedSet(needs) <= NormalizedSet(topics)
    ensures f.points == 0.0 <==> NormalizedSet(needs) !! NormalizedSet(topics)
    ensures f.reason.Some? <==> f.points > 0.0
    ensures f.reason.Some? ==> f.reason.value == CanHelpWith(NormalizedSet(needs) * NormalizedSet(topics))
  {
    if needs == [] || topics == [] then
      Factor(0.0, None)
    else
      var wanted := NormalizedSet(needs);
      var offered := NormalizedSet(topics);
      NormalizedSetNonEmpty(needs);
      var points := CoveragePoints(wanted, offered);
      Factor(points, if wanted * offered != {} then Some(CanHelpWith(wanted * offered)) else None)
  }

  /** The topic points are 30 times the fraction of distinct normalised needs the mentor covers. */
  lemma TopicPointsAreCoverage(needs: seq<string>, topics: seq<string>)
    requires needs != [] && topics != []
    ensures NormalizedSet(needs) != {}
    ensures |NormalizedSet(needs) * NormalizedSet(topics)| <= |NormalizedSet(needs)|
    ensures TopicFactor(needs, topics).points
            == 30.0 * Ratio(|NormalizedSet(needs) * NormalizedSet(topics)|, |NormalizedSet(needs)|)
  {
    var wanted, offered := NormalizedSet(needs), NormalizedSet(topics);
    NormalizedSetNonEmpty(needs);
    var p := CoveragePoints(wanted, offered);
    assert TopicFactor(needs, topics).points == p;
  }

  /**
   Holding the mentee's needs fixed, a mentor whose normalised topics
   include another mentor's never scores lower on topics.
   */
  lemma TopicMonotone(needs: seq<string>, topics: seq<string>, moreTopics: seq<string>)
    requires NormalizedSet(topics) <= NormalizedSet(moreTopics)
    ensures TopicFactor(needs, topics).points <= TopicFactor(needs, moreTopics).points
  {
    if needs != [] && topics != [] {
      NormalizedSetNonEmpty(topics);
      assert moreTopics != [];
      var wanted := NormalizedSet(needs);
      var m1 := wanted * NormalizedSet(topics);
      var m2 := wanted * NormalizedSet(moreTopics);
      NormalizedSetNonEmpty(needs);
      SubsetCard(m1, m2);
      SubsetCard(m2, wanted);
      RatioMonotone(|m1|, |m2|, |wanted|);
    }
  }

  // ---------------------------------------------------------------------------
  // Career path (20 points)
  // ---------------------------------------------------------------------------

  /** The mentor's career, normalised, is one of the mentee's normalised careers. */
  predicate SameCareer(careers: seq<string>, career: string) {
    exists i :: 0 <= i < |careers| && Normalize(careers[i]) == Normalize(career)
  }

  /** A career shares an extracted keyword with the given keyword set. */
  predicate SharesKeyword(career: string, keywords: set<string>) {
    ExtractKeywords(career) * keywords != {}
  }

  /** Some normalised mentee career shares an extracted keyword with the normalised mentor career. */
  predicate RelatedCareerExists(careers: seq<string>, career: string) {
    exists i :: 0 <= i < |careers| && SharesKeyword(Normalize(careers[i]), ExtractKeywords(Normalize(career)))
  }

  /** The scan over mentee careers that stops at the first one sharing a keyword with the mentor's. */
  function FirstRelated(careers: seq<string>, mentorKeywords: set<string>): (found: bool)
    ensures found <==> exists i :: 0 <= i < |careers| && SharesKeyword(careers[i], mentorKeywords)
  {
    if careers == [] then false
    else if SharesKeyword(careers[0], mentorKeywords) then true
    else
      var tail := careers[1..];
      var rest := FirstRelated(tail, mentorKeywords);
      assert rest ==> exists i :: 0 <= i < |careers| && SharesKeyword(careers[i], mentorKeywords) by {
        if rest {
          var j :| 0 <= j < |tail| && SharesKeyword(tail[j], mentorKeywords);
          assert careers[j + 1] == tail[j];
        }
      }
      assert !rest ==> forall i :: 0 <= i < |careers| ==> !SharesKeyword(careers[i], mentorKeywords) by {
        if !rest {
          forall i | 0 < i < |careers| ensures !SharesKeyword(careers[i], mentorKeywords) {
            assert careers[i] == tail[i - 1];
          }
        }
      }
      rest
  }

  /**
   The career factor: 20 for the same career, otherwise 15 when some
   mentee career shares a keyword with the mentor's, otherwise 0; nothing
   when the mentee lists no careers or the mentor states none.
   */
  function CareerFactor(careers: seq<string>, career: string): (f: Factor)
    ensures f.points == 0.0 || f.points == 15.0 || f.points == 20.0
    ensures f.points == 20.0 <==> career != "" && SameCareer(careers, career)
    ensures f.points == 15.0 <==>
      career != "" && !SameCareer(careers, career) && RelatedCareerExists(careers, career)
    ensures f.points == 20.0 ==> f.reason == Some(PursuingCareer(career))
    ensures f.points == 15.0 ==> f.reason == Some(RelatedCareer(career))
    ensures f.points == 0.0 ==> f.reason == None
  {
    if careers == [] || career == "" then
      Factor(0.0, None)
    else
      var mentorCareer := Normalize(career);
      var lowered := NormalizedList(careers);
      if mentorCareer in lowered then
        Factor(20.0, Some(PursuingCareer(career)))
      else if FirstRelated(lowered, ExtractKeywords(mentorCareer)) then
        Factor(15.0, Some(RelatedCareer(career)))
      else
        Factor(0.0, None)
  }

  // ---------------------------------------------------------------------------
  // Concentration (10 points)
  // ---------------------------------------------------------------------------

  /**
   The concentration factor: 10 for the same normalised concentration
   (with a reason unless both are "i don't know"), 5 when an undecided
   mentee meets any other concentration, otherwise 0; nothing when either
   side is empty.
   */
  function ConcentrationFactor(menteeConc: string, mentorConc: string): (f: Factor)
    ensures f.points == 0.0 || f.points == 5.0 || f.points == 10.0
    ensures f.points == 10.0 <==> menteeConc != "" && mentorConc != "" && Normalize(menteeConc) == Normalize(mentorConc)
    ensures f.points == 5.0 <==>
      menteeConc != "" && mentorConc != "" && Normalize(menteeConc) == Undecided && Normalize(mentorConc) != Undecided
    ensures f.reason.Some? <==> f.points == 10.0 && Normalize(menteeConc) != Undecided
    ensures f.reason.Some? ==> f.reason.value == SameConcentration(mentorConc)
  {
    if menteeConc == "" || mentorConc == "" then
      Factor(0.0, None)
    else
      var mine := Normalize(menteeConc);
      var theirs := Normalize(mentorConc);
      if mine == theirs then
        Factor(10.0, if mine != Undecided then Some(SameConcentration(mentorConc)) else None)
      else if mine == Undecided then
        Factor(5.0, None)
      else
        Factor(0.0, None)
  }

  /** Between two decided concentrations the factor does not depend on who is the mentee. */
  lemma ConcentrationSymmetricWhenDecided(a: string, b: string)
    requires Normalize(a) != Undecided && Normalize(b) != Undecided
    ensures ConcentrationFactor(a, b).points == ConcentrationFactor(b, a).points
  {
  }

  // ---------------------------------------------------------------------------
  // Semantic keyword overlap (40 points)
  // ---------------------------------------------------------------------------

  /** The mentee's expanded keywords: biography and field interests. */
  function MenteeTerms(m: MenteeProfile): (r: set<string>)
    ensures ExtractKeywords(m.bio) + ExtractKeywords(m.fieldInterests) <= r
    ensures r == ExpandKeywords(KeywordSynonyms, ExtractKeywords(m.bio)) + ExpandKeywords(KeywordSynonyms, ExtractKeywords(m.fieldInterests))
  {
    ExpandUnion(KeywordSynonyms, ExtractKeywords(m.bio), ExtractKeywords(m.fieldInterests));
    ExpandKeywords(KeywordSynonyms, ExtractKeywords(m.bio) + ExtractKeywords(m.fieldInterests))
  }

  /** The mentor's expanded keywords: biography and experiences, plus the expanded career keywords. */
  function MentorTerms(m: MentorProfile): (r: set<string>)
    ensures ExtractKeywords(m.bio) + ExtractKeywords(m.experiences) + ExtractKeywords(m.careerPursuing) <= r
    ensures r == ExpandKeywords(KeywordSynonyms,
                   ExtractKeywords(m.bio) + ExtractKeywords(m.experiences) + ExtractKeywords(m.careerPursuing))
  {
    var base := ExpandKeywords(KeywordSynonyms, ExtractKeywords(m.bio) + ExtractKeywords(m.experiences));
    var r := if m.careerPursuing != "" then base + ExpandKeywords(KeywordSynonyms, ExtractKeywords(m.careerPursuing)) else base;
    ExpandUnion(KeywordSynonyms, ExtractKeywords(m.bio) + ExtractKeywords(m.experiences), ExtractKeywords(m.careerPursuing));
    r
  }

  /**
   The semantic factor: 60 times the fraction of the mentee's terms that
   the mentor shares, capped at 40; the cap is reached exactly when at
   least two thirds of the mentee's terms are shared.
   */
  function SemanticFactor(mine: set<string>, theirs: set<string>): (f: Factor)
    ensures 0.0 <= f.points <= 40.0
    ensures f.points == 0.0 <==> mine * theirs == {}
    ensures f.points == 40.0 <==> mine * theirs != {} && 3 * |mine * theirs| >= 2 * |mine|
    ensures mine * theirs != {} ==>
      && |mine * theirs| <= |mine|
      && f.points == Min(60.0 * Ratio(|mine * theirs|, |mine|), 40.0)
    ensures f.reason.Some? <==> (mine * theirs) - GenericTerms != {}
    ensures f.reason.Some? ==>
      && f.reason.value.SharedInterests?
      && f.reason.value.terms <= (mine * theirs) - GenericTerms
      && |f.reason.value.terms| == MinNat(3, |(mine * theirs) - GenericTerms|)
  {
    if mine == {} || theirs == {} then
      Factor(0.0, None)
    else
      var overlap := mine * theirs;
      if overlap == {} then
        Factor(0.0, None)
      else
        SubsetCard(overlap, mine);
        var ratio := Ratio(|overlap|, |mine|);
        var points := Min(60.0 * ratio, 40.0);
        CapAtTwoThirds(|overlap|, |mine|);
        var important := overlap - GenericTerms;
        Factor(points, if important != {} then Some(SharedInterests(TakeLeast(important, 3))) else None)
  }

  // ---------------------------------------------------------------------------
  // Aggregation
  // ---------------------------------------------------------------------------

  /** Quality bands: 80 and up Excellent, 60 Good, 40 Moderate, below that Low. */
  function QualityOf(score: real): (q: Quality)
    ensures q == Excellent <==> score >= 80.0
    ensures q == Good <==> 60.0 <= score < 80.0
    ensures q == Moderate <==> 40.0 <= score < 60.0
    ensures q == Low <==> score < 40.0
  {
    if score >= 80.0 then Excellent
    else if score >= 60.0 then Good
    else if score >= 40.0 then Moderate
    else Low
  }

  function QualityRank(q: Quality): nat {
    match q
    case Low => 0
    case Moderate => 1
    case Good => 2
    case Excellent => 3
  }

  /** A higher score never earns a worse quality label. */
  lemma QualityMonotone(a: real, b: real)
    requires a <= b
    ensures QualityRank(QualityOf(a)) <= QualityRank(QualityOf(b))
  {
  }

  /** Python's `max(0, min(100, x))`. */
  function Clamp(x: real): (r: real)
    ensures 0.0 <= r <= 100.0
    ensures 0.0 <= x <= 100.0 ==> r == x
    ensures x < 0.0 ==> r == 0.0
    ensures x > 100.0 ==> r == 100.0
  {
    if x < 0.0 then 0.0 else if x > 100.0 then 100.0 else x
  }

  /** The reason a factor adds, as a list of zero or one entries. */
  function ReasonOf(f: Factor): (r: seq<Reason>)
    ensures |r| <= 1
    ensures r == [] <==> f.reason.None?
    ensures f.reason.Some? ==> f.reason.value in r
    ensures forall x :: x in r ==> Some(x) == f.reason
  {
    if f.reason.Some? then [f.reason.value] else []
  }

  /** The four factors of one mentee/mentor pair. */
  datatype FactorSet = FactorSet(topics: Factor, career: Factor, concentration: Factor, semantic: Factor)

  /** The range each factor keeps: topics [0, 30], career 0/15/20, concentration 0/5/10, semantic [0, 40]. */
  predicate InRange(fs: FactorSet) {
    && 0.0 <= fs.topics.points <= 30.0
    && (fs.career.points == 0.0 || fs.career.points == 15.0 || fs.career.points == 20.0)
    && (fs.concentration.points == 0.0 || fs.concentration.points == 5.0 || fs.concentration.points == 10.0)
    && 0.0 <= fs.semantic.points <= 40.0
  }

  /** A factor's reason, when it has one, is specific to that factor and never the general fallback. */
  predicate Specific(f: Factor) {
    f.reason.None? || !f.reason.value.GeneralMentorship?
  }

  predicate AllSpecific(fs: FactorSet) {
    Specific(fs.topics) && Specific(fs.career) && Specific(fs.concentration) && Specific(fs.semantic)
  }

  /** The four factors of a mentee/mentor pair, after decoding the list fields together. */
  function Factors(mentee: MenteeProfile, mentor: MentorProfile): (fs: FactorSet)
    ensures InRange(fs)
    ensures AllSpecific(fs)
  {
    var lists := DecodeGroup([mentee.advisingNeeds, mentee.careersInterestedIn, mentor.advisingTopics]);
    FactorSet(
      TopicFactor(lists[0], lists[2]),
      CareerFactor(lists[1], mentor.careerPursuing),
      ConcentrationFactor(mentee.infoConcentration, mentor.infoConcentration),
      SemanticFactor(MenteeTerms(mentee), MentorTerms(mentor)))
  }

  /** No factor of the pair produced a reason. */
  predicate Unexplained(fs: FactorSet) {
    fs.topics.reason.None? && fs.career.reason.None? && fs.concentration.reason.None? && fs.semantic.reason.None?
  }

  /** Apart from the general reason, the list holds exactly the reasons the factors gave. */
  ghost predicate ListsFactorReasons(reasons: seq<Reason>, fs: FactorSet) {
    forall x :: x in reasons && x != GeneralMentorship <==>
      Some(x) in [fs.topics.reason, fs.career.reason, fs.concentration.reason, fs.semantic.reason]
  }

  /**
   Combining four factors: their sum (which the clamp never changes), its
   quality band, the per-factor breakdown, and the factors' reasons in
   factor order, or the general reason alone when no factor gave one.
   */
  function Combine(fs: FactorSet): (c: Compatibility)
    requires InRange(fs) && AllSpecific(fs)
    ensures 0.0 <= c.score <= 100.0
    ensures c.breakdown == Breakdown(fs.topics.points, fs.career.points, fs.concentration.points, fs.semantic.points)
    ensures c.score == fs.topics.points + fs.career.points + fs.concentration.points + fs.semantic.points
    ensures c.quality == QualityOf(c.score)
    ensures c.reasons != []
    ensures c.reasons == [GeneralMentorship] <==> Unexplained(fs)
    ensures GeneralMentorship in c.reasons ==> c.reasons == [GeneralMentorship]
    ensures |c.reasons| <= 4
    ensures ListsFactorReasons(c.reasons, fs)
    ensures !Unexplained(fs) ==>
      c.reasons == ReasonOf(fs.topics) + ReasonOf(fs.career) + ReasonOf(fs.concentration) + ReasonOf(fs.semantic)
  {
    var breakdown := Breakdown(fs.topics.points, fs.career.points, fs.concentration.points, fs.semantic.points);
    var total := fs.topics.points + fs.career.points + fs.concentration.points + fs.semantic.points;
    var score := Clamp(total);
    var rs := ReasonOf(fs.topics) + ReasonOf(fs.career) + ReasonOf(fs.concentration) + ReasonOf(fs.semantic);
    assert GeneralMentorship !in rs;
    Compatibility(score, QualityOf(score), breakdown, if rs == [] then [GeneralMentorship] else rs)
  }

  /**
   The compatibility of a mentee and a mentor: a score in [0, 100] that is
   the plain sum of the pair's four factor points, the breakdown of those
   points, its quality band, and the pair's factor reasons, or the general
   reason alone when no factor explains the match.
   */
  function Score(mentee: MenteeProfile, mentor: MentorProfile): (c: Compatibility)
    ensures 0.0 <= c.score <= 100.0
    ensures var fs := Factors(mentee, mentor);
      c.breakdown == Breakdown(fs.topics.points, fs.career.points, fs.concentration.points, fs.semantic.points)
    ensures c.score
            == c.breakdown.advisingTopics + c.breakdown.careerPath + c.breakdown.concentration + c.breakdown.semantic
    ensures c.quality == QualityOf(c.score)
    ensures c.reasons != []
    ensures c.reasons == [GeneralMentorship] <==> Unexplained(Factors(mentee, mentor))
    ensures GeneralMentorship in c.reasons ==> c.reasons == [GeneralMentorship]
    ensures ListsFactorReasons(c.reasons, Factors(mentee, mentor))
  {
    var fs := Factors(mentee, mentor);
    Combine(fs)
  }

  /** Each entry of the breakdown stays within its factor's range. */
  lemma BreakdownRanges(mentee: MenteeProfile, mentor: MentorProfile)
    ensures var b := Score(mentee, mentor).breakdown;
      && 0.0 <= b.advisingTopics <= 30.0
      && (b.careerPath == 0.0 || b.careerPath == 15.0 || b.careerPath == 20.0)
      && (b.concentration == 0.0 || b.concentration == 5.0 || b.concentration == 10.0)
      && 0.0 <= b.semantic <= 40.0
  {
  }

  /** A decode failure in any of the three list fields leaves the topic and career factors at 0. */
  lemma DecodeFailureSilencesLists(mentee: MenteeProfile, mentor: MentorProfile)
    requires mentee.advisingNeeds.None? || mentee.careersInterestedIn.None? || mentor.advisingTopics.None?
    ensures Score(mentee, mentor).breakdown.advisingTopics == 0.0
    ensures Score(mentee, mentor).breakdown.careerPath == 0.0
  {
    var stored := [mentee.advisingNeeds, mentee.careersInterestedIn, mentor.advisingTopics];
    if mentee.advisingNeeds.None? {
      assert stored[0].None?;
    } else if mentee.careersInterestedIn.None? {
      assert stored[1].None?;
    } else {
      assert stored[2].None?;
    }
    var lists := DecodeGroup(stored);
    assert lists[0] == [] && lists[1] == [];
  }

  /** A mentee who filled in nothing scores 0 against any mentor, is a Low match, and gets the general reason. */
  lemma EmptyMenteeScoresZero(mentor: MentorProfile)
    ensures var c := Score(MenteeProfile("", "", "", Some([]), Some([])), mentor);
            c.score == 0.0 && c.quality == Low && c.reasons == [GeneralMentorship]
  {
    var mentee := MenteeProfile("", "", "", Some([]), Some([]));
    ExpandEmpty(KeywordSynonyms);
    assert MenteeTerms(mentee) == {};
    var lists := DecodeGroup([mentee.advisingNeeds, mentee.careersInterestedIn, mentor.advisingTopics]);
    assert lists[0] == [] && lists[1] == [];
    var fs := Factors(mentee, mentor);
    assert fs.topics == Factor(0.0, None) && fs.career == Factor(0.0, None);
    assert fs.concentration == Factor(0.0, None);
    assert fs.semantic == Factor(0.0, None);
  }

  /** The score is 100 exactly when every factor is at its maximum. */
  lemma FullScoreNeedsEveryFactor(mentee: MenteeProfile, mentor: MentorProfile)
    ensures Score(mentee, mentor).score == 100.0 <==>
      var b := Score(mentee, mentor).breakdown;
      b.advisingTopics == 30.0 && b.careerPath == 20.0 && b.concentration == 10.0 && b.semantic == 40.0
  {
  }
}
