/**
 The older weighted scorer: up to three criteria (career alignment 40,
 concentration alignment 30, course overlap 30) each apply only under its
 own condition, and the points earned are renormalised by the weight of
 the criteria that applied, or give a neutral 50 when none did.
 */
module Legacy {
  import opened Text
  import opened Profiles
  import opened Cardinality
  import opened Ranking

  /** Mentee fields the legacy scorer reads. */
  datatype LegacyMentee = LegacyMentee(
    lookingForCareerAdvice: bool,
    lookingForMajorAdvice: bool,
    careersInterestedIn: StoredList,
    concentrationsInterestedIn: StoredList,
    technicalCoursesTaken: StoredList)

  /** Mentor fields the legacy scorer and its ranker read. */
  datatype LegacyMentor = LegacyMentor(
    infoConcentration: string,
    professionalExperiences: StoredList,
    technicalCourses: StoredList,
    availabilityStatus: string)

  /** What one criterion adds: the points earned and the weight it adds to the maximum. */
  datatype Criterion = Criterion(points: real, weight: real)

  /** A criterion that does not apply adds neither points nor weight. */
  const Skipped: Criterion := Criterion(0.0, 0.0)

  /** Python's `a.lower() in b.lower()`. */
  predicate MentionedIn(a: string, b: string) {
    Contains(Lower(b), Lower(a))
  }

  /** Some experience mentions the career, ignoring case. */
  predicate CareerCovered(career: string, experiences: seq<string>) {
    exists j :: 0 <= j < |experiences| && MentionedIn(career, experiences[j])
  }

  /** How many of the mentee's careers (counting repeats) some experience mentions. */
  function CountCovered(careers: seq<string>, experiences: seq<string>): (n: nat)
    ensures n == |set i | 0 <= i < |careers| && CareerCovered(careers[i], experiences)|
    ensures n <= |careers|
    ensures n == 0 <==> forall i :: 0 <= i < |careers| ==> !CareerCovered(careers[i], experiences)
    ensures n == |careers| <==> forall i :: 0 <= i < |careers| ==> CareerCovered(careers[i], experiences)
  {
    var covered := c => CareerCovered(c, experiences);
    assert Positions(covered, careers) == set i | 0 <= i < |careers| && CareerCovered(careers[i], experiences);
    CountWhere(covered, careers)
  }

  /** How many of the mentee's concentrations (counting repeats) the mentor's concentration mentions. */
  function CountMentioned(concentrations: seq<string>, mentorConc: string): (n: nat)
    ensures n == |set i | 0 <= i < |concentrations| && MentionedIn(concentrations[i], mentorConc)|
    ensures n <= |concentrations|
    ensures n == 0 <==> forall i :: 0 <= i < |concentrations| ==> !MentionedIn(concentrations[i], mentorConc)
    ensures n == |concentrations| <==> forall i :: 0 <= i < |concentrations| ==> MentionedIn(concentrations[i], mentorConc)
  {
    var mentioned := c => MentionedIn(c, mentorConc);
    assert Positions(mentioned, concentrations) == set i | 0 <= i < |concentrations| && MentionedIn(concentrations[i], mentorConc);
    CountWhere(mentioned, concentrations)
  }

  /**
   Career alignment: weight 40 exactly when the mentee asks for career
   advice and both lists are non-empty; the points are 40 times the share
   of careers some experience mentions, all 40 only when every career is
   mentioned.
   */
  function CareerCriterion(asked: bool, careers: seq<string>, experiences: seq<string>): (c: Criterion)
    ensures c.weight == 0.0 || c.weight == 40.0
    ensures c.weight == 40.0 <==> asked && careers != [] && experiences != []
    ensures 0.0 <= c.points <= c.weight
    ensures c.weight > 0.0 ==> (c.points == 40.0 <==> forall i :: 0 <= i < |careers| ==> CareerCovered(careers[i], experiences))
    ensures c.points == 0.0 <==> c.weight == 0.0 || forall i :: 0 <= i < |careers| ==> !CareerCovered(careers[i], experiences)
    ensures c.weight > 0.0 ==>
      careers != [] && c.points == 40.0 * (CountCovered(careers, experiences) as real / |careers| as real)
  {
    if asked && careers != [] && experiences != [] then
      var n := CountCovered(careers, experiences);
      Criterion(if n > 0 then Min(40.0, Ratio(n, |careers|) * 40.0) else 0.0, 40.0)
    else
      Skipped
  }

  /**
   Concentration alignment: weight 30 exactly when the mentee asks for
   major advice, lists concentrations and the mentor states one; the points
   are 30 times the share of concentrations the mentor's mentions.
   */
  function ConcentrationCriterion(asked: bool, concentrations: seq<string>, mentorConc: string): (c: Criterion)
    ensures c.weight == 0.0 || c.weight == 30.0
    ensures c.weight == 30.0 <==> asked && concentrations != [] && mentorConc != ""
    ensures 0.0 <= c.points <= c.weight
    ensures c.weight > 0.0 ==>
      (c.points == 30.0 <==> forall i :: 0 <= i < |concentrations| ==> MentionedIn(concentrations[i], mentorConc))
    ensures c.points == 0.0 <==>
      c.weight == 0.0 || forall i :: 0 <= i < |concentrations| ==> !MentionedIn(concentrations[i], mentorConc)
    ensures c.weight > 0.0 ==>
      concentrations != [] && c.points == 30.0 * (CountMentioned(concentrations, mentorConc) as real / |concentrations| as real)
  {
    if asked && concentrations != [] && mentorConc != "" then
      var n := CountMentioned(concentrations, mentorConc);
      Criterion(if n > 0 then Min(30.0, Ratio(n, |concentrations|) * 30.0) else 0.0, 30.0)
    else
      Skipped
  }

  /** The set of lower-cased entries of a list. */
  function LowerSet(items: seq<string>): (r: set<string>)
    ensures items != [] ==> r != {}
  {
    var r := set x | x in items :: Lower(x);
    assert items != [] ==> Lower(items[0]) in r;
    r
  }

  /** The Jaccard similarity |a * b| / |a + b| of two sets whose union is non-empty. */
  function Jaccard(a: set<string>, b: set<string>): (j: real)
    requires a + b != {}
    ensures 0.0 <= j <= 1.0
    ensures j == 1.0 <==> a == b
    ensures j == 0.0 <==> a !! b
  {
    SubsetCard(a * b, a + b);
    assert |a * b| == |a + b| <==> a == b by {
      if |a * b| == |a + b| {
        assert a * b == a + b;
        assert forall x :: x in a ==> x in b by {
          forall x | x in a ensures x in b {
            assert x in a + b;
          }
        }
        assert forall x :: x in b ==> x in a by {
          forall x | x in b ensures x in a {
            assert x in a + b;
          }
        }
      }
      if a == b {
        assert a * b == a + b;
      }
    }
    assert |a * b| == 0 <==> a !! b by {
      if |a * b| == 0 {
        assert a * b == {};
        assert forall x :: x in a && x in b ==> x in a * b;
      } else {
        var x :| x in a * b;
        assert x in a && x in b;
      }
    }
    Ratio(|a * b|, |a + b|)
  }

  /** The Jaccard similarity does not depend on the order of its arguments. */
  lemma JaccardSymmetric(a: set<string>, b: set<string>)
    requires a + b != {}
    ensures Jaccard(a, b) == Jaccard(b, a)
  {
    assert a * b == b * a && a + b == b + a;
  }

  /**
   Course overlap: weight 30 exactly when both course lists are non-empty;
   the points are 30 times the Jaccard similarity of the lower-cased course
   sets, all 30 exactly when the sets are equal and 0 when they are disjoint.
   */
  function CourseCriterion(mine: seq<string>, theirs: seq<string>): (c: Criterion)
    ensures c.weight == 0.0 || c.weight == 30.0
    ensures c.weight == 30.0 <==> mine != [] && theirs != []
    ensures 0.0 <= c.points <= c.weight
    ensures c.weight > 0.0 ==> (c.points == 30.0 <==> LowerSet(mine) == LowerSet(theirs))
    ensures c.weight > 0.0 ==> (c.points == 0.0 <==> LowerSet(mine) !! LowerSet(theirs))
    ensures c.weight > 0.0 ==>
      LowerSet(mine) + LowerSet(theirs) != {} && c.points == 30.0 * Jaccard(LowerSet(mine), LowerSet(theirs))
  {
    if mine != [] && theirs != [] then
      var a, b := LowerSet(mine), LowerSet(theirs);
      Criterion(if a + b != {} then Jaccard(a, b) * 30.0 else 0.0, 30.0)
    else
      Skipped
  }

  /** Swapping the two course lists leaves the course criterion unchanged. */
  lemma CourseSymmetric(mine: seq<string>, theirs: seq<string>)
    ensures CourseCriterion(mine, theirs) == CourseCriterion(theirs, mine)
  {
    if mine != [] && theirs != [] {
      JaccardSymmetric(LowerSet(mine), LowerSet(theirs));
    }
  }

  /** The three criteria of a pair, after decoding the five list fields together. */
  datatype Criteria = Criteria(career: Criterion, concentration: Criterion, courses: Criterion)

  function LegacyCriteria(mentee: LegacyMentee, mentor: LegacyMentor): (cs: Criteria)
    ensures cs.career.weight == 0.0 || cs.career.weight == 40.0
    ensures cs.concentration.weight == 0.0 || cs.concentration.weight == 30.0
    ensures cs.courses.weight == 0.0 || cs.courses.weight == 30.0
    ensures !mentee.lookingForCareerAdvice ==> cs.career == Skipped
    ensures !mentee.lookingForMajorAdvice ==> cs.concentration == Skipped
    ensures 0.0 <= cs.career.points <= cs.career.weight
    ensures 0.0 <= cs.concentration.points <= cs.concentration.weight
    ensures 0.0 <= cs.courses.points <= cs.courses.weight
  {
    var lists := DecodeGroup([
      mentee.careersInterestedIn, mentee.concentrationsInterestedIn, mentee.technicalCoursesTaken,
      mentor.professionalExperiences, mentor.technicalCourses]);
    Criteria(
      CareerCriterion(mentee.lookingForCareerAdvice, lists[0], lists[3]),
      ConcentrationCriterion(mentee.lookingForMajorAdvice, lists[1], mentor.infoConcentration),
      CourseCriterion(lists[2], lists[4]))
  }

  /** The share p/m of points earned out of the weight that applied. */
  function Share(p: real, m: real): (r: real)
    requires 0.0 <= p <= m && 0.0 < m
    ensures 0.0 <= r <= 1.0
    ensures r == 1.0 <==> p == m
    ensures r == 0.0 <==> p == 0.0
  {
    var r := p / m;
    assert r * m == p;
    r
  }

  function TotalPoints(cs: Criteria): real {
    cs.career.points + cs.concentration.points + cs.courses.points
  }

  function TotalWeight(cs: Criteria): real {
    cs.career.weight + cs.concentration.weight + cs.courses.weight
  }

  /**
   The legacy score: a neutral 50 when no criterion applied, otherwise the
   points earned as a percentage of the weight that applied; always in
   [0, 100], 100 exactly when every applying criterion is at its weight.
   */
  function LegacyScore(mentee: LegacyMentee, mentor: LegacyMentor): (score: real)
    ensures 0.0 <= score <= 100.0
    ensures TotalWeight(LegacyCriteria(mentee, mentor)) == 0.0 ==> score == 50.0
    ensures TotalWeight(LegacyCriteria(mentee, mentor)) > 0.0 ==>
      (score == 100.0 <==> TotalPoints(LegacyCriteria(mentee, mentor)) == TotalWeight(LegacyCriteria(mentee, mentor)))
    ensures TotalWeight(LegacyCriteria(mentee, mentor)) > 0.0 ==>
      (score == 0.0 <==> TotalPoints(LegacyCriteria(mentee, mentor)) == 0.0)
    ensures var cs := LegacyCriteria(mentee, mentor);
      TotalWeight(cs) > 0.0 ==> score == 100.0 * (TotalPoints(cs) / TotalWeight(cs))
  {
    var cs := LegacyCriteria(mentee, mentor);
    var maxScore := TotalWeight(cs);
    if maxScore > 0.0 then Share(TotalPoints(cs), maxScore) * 100.0 else 50.0
  }

  /** A decode failure in any of the five list fields leaves only the neutral score. */
  lemma DecodeFailureIsNeutral(mentee: LegacyMentee, mentor: LegacyMentor)
    requires || mentee.careersInterestedIn.None? || mentee.concentrationsInterestedIn.None?
             || mentee.technicalCoursesTaken.None? || mentor.professionalExperiences.None?
             || mentor.technicalCourses.None?
    ensures LegacyCriteria(mentee, mentor) == Criteria(Skipped, Skipped, Skipped)
    ensures LegacyScore(mentee, mentor) == 50.0
  {
    var stored := [
      mentee.careersInterestedIn, mentee.concentrationsInterestedIn, mentee.technicalCoursesTaken,
      mentor.professionalExperiences, mentor.technicalCourses];
    assert exists i :: 0 <= i < |stored| && stored[i].None? by {
      if stored[0].None? {
      } else if stored[1].None? {
      } else if stored[2].None? {
      } else if stored[3].None? {
      } else {
        assert stored[4].None?;
      }
    }
    var lists := DecodeGroup(stored);
    assert lists[0] == [] && lists[1] == [] && lists[2] == [];
  }

  /**
   A mentee who asks for neither kind of advice is scored on courses
   alone: the score is 100 times the Jaccard similarity of the lower-cased
   course sets when both list courses, so equal course sets give a perfect
   100 however little else the two share, and the neutral 50 otherwise.
   */
  lemma CoursesAloneRenormalise(mentee: LegacyMentee, mentor: LegacyMentor)
    requires !mentee.lookingForCareerAdvice && !mentee.lookingForMajorAdvice
    requires mentee.careersInterestedIn.Some? && mentee.concentrationsInterestedIn.Some?
    requires mentee.technicalCoursesTaken.Some? && mentor.professionalExperiences.Some?
    requires mentor.technicalCourses.Some?
    ensures var mine, theirs := mentee.technicalCoursesTaken.value, mentor.technicalCourses.value;
      mine != [] && theirs != [] ==>
        LowerSet(mine) + LowerSet(theirs) != {} &&
        LegacyScore(mentee, mentor) == 100.0 * Jaccard(LowerSet(mine), LowerSet(theirs))
    ensures var mine, theirs := mentee.technicalCoursesTaken.value, mentor.technicalCourses.value;
      mine == [] || theirs == [] ==> LegacyScore(mentee, mentor) == 50.0
    ensures var mine, theirs := mentee.technicalCoursesTaken.value, mentor.technicalCourses.value;
      mine != [] && theirs != [] && LowerSet(mine) == LowerSet(theirs) ==> LegacyScore(mentee, mentor) == 100.0
  {
    var stored := [
      mentee.careersInterestedIn, mentee.concentrationsInterestedIn, mentee.technicalCoursesTaken,
      mentor.professionalExperiences, mentor.technicalCourses];
    var lists := DecodeGroup(stored);
    assert lists[2] == mentee.technicalCoursesTaken.value && lists[4] == mentor.technicalCourses.value;
    var cs := LegacyCriteria(mentee, mentor);
    assert cs.career == Skipped && cs.concentration == Skipped;
    assert cs.courses == CourseCriterion(lists[2], lists[4]);
  }

  /** A mentee who asks for neither kind of advice and lists no courses gets the neutral score from everyone. */
  lemma NoCriterionIsNeutral(mentee: LegacyMentee, mentor: LegacyMentor)
    requires !mentee.lookingForCareerAdvice && !mentee.lookingForMajorAdvice
    requires mentee.technicalCoursesTaken == Some([])
    ensures LegacyScore(mentee, mentor) == 50.0
  {
    var stored := [
      mentee.careersInterestedIn, mentee.concentrationsInterestedIn, mentee.technicalCoursesTaken,
      mentor.professionalExperiences, mentor.technicalCourses];
    var lists := DecodeGroup(stored);
    assert lists[2] == [];
  }

  predicate LegacyAvailable(m: LegacyMentor) {
    AvailableStatus(m.availabilityStatus)
  }

  /** The available mentors, in input order. */
  function LegacyAvailableMentors(mentors: seq<LegacyMentor>): seq<LegacyMentor> {
    Filter(LegacyAvailable, mentors)
  }

  /** The (mentor, score) pairs of the available mentors, in input order. */
  function LegacyCandidates(mentee: LegacyMentee, mentors: seq<LegacyMentor>): (r: seq<Scored<LegacyMentor>>)
    ensures |r| == |LegacyAvailableMentors(mentors)|
    ensures forall k :: 0 <= k < |r| ==>
      r[k] == Scored(LegacyAvailableMentors(mentors)[k], LegacyScore(mentee, LegacyAvailableMentors(mentors)[k]))
    ensures forall k :: 0 <= k < |r| ==>
      LegacyAvailable(r[k].item) && r[k].item in mentors && r[k].score == LegacyScore(mentee, r[k].item)
    ensures forall m :: m in mentors && LegacyAvailable(m) ==> Scored(m, LegacyScore(mentee, m)) in r
  {
    FilterMap(LegacyAvailable, m => Scored(m, LegacyScore(mentee, m)), mentors)
  }

  /**
   The legacy top matches: available mentors with their scores, best
   first, as many as Python's `[:limit]` keeps; no mentor left out scores
   higher than one kept, and equal scores keep their input order.
   */
  function LegacyTopMatches(mentee: LegacyMentee, mentors: seq<LegacyMentor>, limit: int): (r: seq<Scored<LegacyMentor>>)
    ensures |r| == SliceLen(|LegacyAvailableMentors(mentors)|, limit)
    ensures SortedDesc(r)
    ensures multiset(r) <= multiset(LegacyCandidates(mentee, mentors))
    ensures forall k :: 0 <= k < |r| ==>
      LegacyAvailable(r[k].item) && r[k].item in mentors && r[k].score == LegacyScore(mentee, r[k].item)
  {
    var all := LegacyCandidates(mentee, mentors);
    TopN(all, limit)
  }

  /** The choice the legacy ranking makes: nothing better is left out, and ties keep input order. */
  lemma LegacyTopMatchesChoice(mentee: LegacyMentee, mentors: seq<LegacyMentor>, limit: int)
    ensures var all, r := LegacyCandidates(mentee, mentors), LegacyTopMatches(mentee, mentors, limit);
      forall x, k :: x in multiset(all) - multiset(r) && 0 <= k < |r| ==> x.score <= r[k].score
    ensures forall v ::
      WithScore(LegacyTopMatches(mentee, mentors, limit), v) <= WithScore(LegacyCandidates(mentee, mentors), v)
  {
    TopNChoice(LegacyCandidates(mentee, mentors), limit);
  }
}
