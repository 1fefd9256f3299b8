# PathMatch mentor matching, modelled in Dafny

This project models the compatibility engine of PathMatch, which ranks
mentors for a mentee.

- **Live scorer** (`backend/app.py`). It has four independent factors:
  - advising-topic coverage, up to 30 points;
  - career-path alignment, 0, 15 or 20 points;
  - concentration alignment, 0, 5 or 10 points;
  - semantic keyword overlap, up to 40 points. It uses a stop-word-filtered
    keyword extractor and single-hop expansion through a fixed 12-row
    synonym thesaurus.

  The factors are summed and clamped to [0, 100], then banded into a quality
  label and explained by a reason list that is never empty.
- **Live top-matches query**. It scores every available mentor, sorts
  stably by score from highest to lowest, and applies Python's `[:limit]`.
- **Legacy scorer** (`backend/services/matching_algorithm.py`). It has three
  criteria: career 40, concentration 30, courses 30.
  - Each criterion applies only under its own condition.
  - The points earned are renormalised by the weight that applied, or the
    score is a neutral 50 when no criterion applied.
  - It has its own top-matches ranking.

Modules:

| module | file | contents |
|---|---|---|
| `Text` | text.dfy | Python's `lower`, `strip`, `split()`, `isalnum`, `isspace` and substring `in`, on ASCII; a lexicographic least-element choice |
| `Keywords` | keywords.dfy | stop words, the synonym thesaurus, keyword extraction and expansion |
| `Profiles` | profiles.dfy | the profile fields the scorers read; decoding the JSON list fields of one error handler together |
| `Cardinality` | cardinality.dfy | subset cardinality and count ratios |
| `Scoring` | scoring.dfy | the four live factors, their aggregation and the quality bands |
| `Ranking` | ranking.dfy | the stable descending sort and the slice, generic in the ranked item |
| `Matcher` | matcher.dfy | the live top-matches query |
| `Legacy` | legacy.dfy | the legacy scorer and its top-matches query |

Modelling choices:
- A stored list field is `Some(items)` when its JSON text decodes. It is `Some([])` when the field is absent, empty or JSON `null`: every use tests truthiness first, so `null` behaves as an empty list. It is `None` when decoding fails.
- When any field of the one `try` block fails, every list of that block becomes empty (`Profiles.DecodeGroup`). That is 3 lists in the live scorer and 5 in the legacy one.
- Absent text fields are the empty string, as the code's `or ''` makes them.
- Scores are exact reals.

### A worked example: the `ml` and `ai` rows never fire

Take an available mentor and a mentee with these fields; the mentee's field interests and the mentor's experiences are empty, and the total below depends on that:

| field | mentee | mentor |
|---|---|---|
| advising needs / topics | `["job", "internship"]` | `["job", "internship"]` |
| careers / career | `["Software Engineer"]` | `"Software Engineering"` |
| concentration | "Interactive Technologies" | "Interactive Technologies" |
| bio | "interested in machine learning and ai" | "software engineer building ml systems" |

Worked by hand from the model's definitions, the score is 55, a Moderate match. No lemma states this total.
- Topics give 30, career 15 and concentration 10.
- The semantic factor is 0. The mentee's terms are {machine, learning}. The mentor's are {software, engineer, building, systems, engineering}. The two sets do not meet.

The thesaurus seems meant to link "ml" with "machine learning", but it cannot. The extractor keeps only single tokens longer than two characters (backend/app.py:104-107). Every key and synonym of the `ml` and `ai` rows is either two letters long or a phrase of several words. So those two rows can never fire, which `Keywords.MachineLearningRowsNeverFire` proves for every text.

## Model

| member | source | states |
|---|---|---|
| `Text.Lower` | backend/app.py:101 | lower-casing keeps the length and maps each character on its own, letters to lower case and nothing else changed |
| `Text.StripTrims` | backend/app.py:158-159 | `strip()` keeps a contiguous slice whose outside is all whitespace and which neither starts nor ends with whitespace |
| `Text.WordsAreRuns` | backend/app.py:104 | `split()` yields exactly the maximal non-space runs of its input, in both directions of the equivalence |
| `Text.ContainsOccurs` | backend/services/matching_algorithm.py:32-33 | Python's substring test `a in b` holds exactly when `a` occurs at some position of `b` |
| `Text.TakeLeast` | backend/app.py:242 | the named shared terms are drawn from the set and number min(3, size of the set) |
| `Keywords.Clean` | backend/app.py:101-103 | each character is lower-cased if it is alphanumeric or whitespace and becomes a space otherwise, so the result has the same length and holds only lower-case letters, digits and whitespace |
| `Keywords.ExtractKeywords` | backend/app.py:78-109 | empty text gives no keywords; every keyword is longer than 2, is not a stop word, and is lower-case alphanumeric |
| `Keywords.ExtractedAreCleanRuns` | backend/app.py:100-107 | a string is extracted exactly when the text is non-empty and the string is a keyword that is a maximal run of the cleaned text |
| `Keywords.KeywordBetweenSpacesExtracted` | backend/app.py:103-107 | any keyword written between spaces is extracted, so the filter drops nothing else |
| `Keywords.ShortKeysNeverExtracted` | backend/app.py:63-109 | the two-letter canonical terms (ml, ai, ux, ui, pm, ds) can never be extracted |
| `Keywords.MultiWordNeverExtracted` | backend/app.py:104-107 | a phrase containing a space is never an extracted keyword |
| `Keywords.ThesaurusKeys` | backend/app.py:63-76 | the thesaurus has exactly the 12 canonical terms of the source |
| `Keywords.ExpandKeywords` | backend/app.py:112-123 | expansion contains the input; it adds a key's synonyms, and for a keyword listed as a synonym it adds the key and all the key's synonyms; every added term comes from a row that fires |
| `Keywords.ExpandByScan` | backend/app.py:112-123 | the source's nested loop over keywords and thesaurus rows computes exactly `ExpandKeywords` |
| `Keywords.AddReverseHits` | backend/app.py:119-122 | one pass over every thesaurus row adds to the set, for each row whose synonyms list the keyword, that row's key and all its synonyms, and adds nothing else |
| `Keywords.ExpandEmpty` | backend/app.py:112-123 | expanding nothing gives nothing |
| `Keywords.ExpandMonotone` | backend/app.py:112-123 | more keywords never expand to fewer terms |
| `Keywords.ExpandUnion` | backend/app.py:218-226 | expanding two keyword sets separately and uniting the results is the expansion of their union, which is how the mentor's career keywords are added |
| `Keywords.SingleHopSymmetry` | backend/app.py:119-122 | any synonym of a row brings back that row's key |
| `Keywords.ExpansionIsSingleHop` | backend/app.py:112-123 | expansion is not transitive: "startup" reaches "business" but not "mba", which a second expansion reaches |
| `Keywords.MachineLearningRowsNeverFire` | backend/app.py:63-65 | the `ml` and `ai` rows never fire on extracted keywords, and "ml" and "machine learning" never enter an expansion of extracted text |
| `Profiles.DecodeInOrder` | backend/app.py:141-144 | decoding the fields in order succeeds exactly when every field decodes, and then yields each field's list |
| `Profiles.DecodeGroup` | backend/app.py:141-148 | a failure in any field of the group empties every list of the group; otherwise each list is its decoded field |
| `Scoring.CoveragePoints` | backend/app.py:160-163 | coverage points are 30 times the covered share of the needs: in [0, 30], 30 exactly when every need is covered, 0 exactly when none is |
| `Scoring.TopicFactor` | backend/app.py:154-169 | topics score 0 with no reason when either list is empty; 30 exactly when the normalised needs are a subset of the topics; 0 exactly when they are disjoint; the reason names the matched topics and appears exactly when points are earned |
| `Scoring.TopicPointsAreCoverage` | backend/app.py:158-163 | the topic points equal 30 times the number of matched distinct needs over the number of distinct needs |
| `Scoring.TopicMonotone` | backend/app.py:157-163 | a mentor offering a superset of another's topics never scores fewer topic points |
| `Scoring.FirstRelated` | backend/app.py:184-189 | the scan with early exit finds a related career exactly when some mentee career shares a keyword with the mentor's |
| `Scoring.MenteeTerms` | backend/app.py:216-218 | the mentee's terms contain the extracted bio and field-interest keywords, and equal the union of the two fields' separate expansions |
| `Scoring.CareerFactor` | backend/app.py:171-192 | career points are 0, 15 or 20: 20 exactly for the same normalised career; 15 exactly when not the same but keywords overlap; each with its reason, and no reason at 0 |
| `Scoring.ConcentrationFactor` | backend/app.py:194-209 | concentration points are 0, 5 or 10: 10 exactly for equal normalised concentrations; 5 exactly for an undecided mentee and another concentration; a reason exactly at 10 when the mentee is decided |
| `Scoring.ConcentrationSymmetricWhenDecided` | backend/app.py:196-206 | between two decided concentrations the factor does not depend on which side is the mentee |
| `Scoring.MentorTerms` | backend/app.py:220-226 | the mentor's terms contain the extracted bio, experience and career keywords, and are the expansion of their union |
| `Scoring.SemanticFactor` | backend/app.py:228-243 | semantic points are min(60 times the overlap share of the mentee's terms, 40); in [0, 40]; 0 exactly without overlap; 40 exactly when at least two thirds of the mentee's terms are shared; a reason exactly when a non-generic term is shared, naming min(3, count) such terms |
| `Scoring.QualityOf` | backend/app.py:255-263 | quality bands: Excellent from 80, Good from 60, Moderate from 40, Low below |
| `Scoring.QualityMonotone` | backend/app.py:255-263 | a higher score never gets a worse quality label |
| `Scoring.Clamp` | backend/app.py:253 | `max(0, min(100, x))`: in [0, 100], unchanged inside that range, 0 below it and 100 above it |
| `Scoring.Factors` | backend/app.py:140-246 | each factor stays in its range, and no factor reason is the general fallback |
| `Scoring.Combine` | backend/app.py:252-269 | the result is in [0, 100] and equals the plain sum of the factors, which the clamp never changes; it carries the per-factor breakdown and its quality band; the reasons are never empty, at most four, the general reason alone exactly when no factor gave one, and otherwise exactly the factors' reasons in factor order (topics, career, concentration, shared interests) |
| `Scoring.Score` | backend/app.py:126-269 | the breakdown holds the four factor points of this mentee and mentor; the score is in [0, 100] and equals their sum; the quality is its band; the reasons are never empty, are the general reason alone exactly when no factor explains the match, and otherwise are exactly the reasons this pair's factors gave |
| `Scoring.BreakdownRanges` | backend/app.py:168-245 | the breakdown entries stay in [0, 30], {0, 15, 20}, {0, 5, 10} and [0, 40] |
| `Scoring.DecodeFailureSilencesLists` | backend/app.py:141-148 | a decode failure in any list field zeroes the topic and career factors |
| `Scoring.EmptyMenteeScoresZero` | backend/app.py:126-269 | a mentee who filled in nothing scores 0 against every mentor, is a Low match and gets only the general reason |
| `Scoring.FullScoreNeedsEveryFactor` | backend/app.py:252-253 | a score of 100 is reached exactly when every factor is at its maximum |
| `Ranking.WithScoreAppend` | backend/app.py:289 | filtering by score distributes over concatenation |
| `Ranking.Insert` | backend/app.py:289 | insertion adds exactly one element and keeps every other |
| `Ranking.InsertSorted` | backend/app.py:289 | inserting into a sorted list keeps it sorted |
| `Ranking.SortDesc` | backend/app.py:289 | the sort yields a permutation of its input ordered by non-increasing score |
| `Ranking.SortStable` | backend/app.py:289 | the sort is stable: for every score, the candidates with that score keep their input order |
| `Ranking.SortUnique` | backend/app.py:289 | any sorted permutation that keeps the input order within each score is the sort's result, so sorted plus stable defines the ranking |
| `Ranking.SliceLen` | backend/app.py:291 | the length of `s[:limit]` is min(limit, n) for non-negative limits and max(0, n + limit) for negative ones |
| `Ranking.PrefixSlice` | backend/app.py:291 | the slice is a prefix of its input, of that length |
| `Ranking.TopN` | backend/app.py:289-291 | the top list is sorted, has the slice length, and takes its candidates from the input |
| `Ranking.TopNOmitted` | backend/app.py:289-291 | no candidate left out scores higher than one kept |
| `Ranking.TopNStable` | backend/app.py:289-291 | for every score, the kept candidates are the first of their score in input order |
| `Ranking.TopNChoice` | backend/app.py:289-291 | the sort-then-slice keeps no candidate below one it leaves out, and for every score keeps the first candidates of that score in input order |
| `Ranking.Filter` | backend/app.py:277-278 | the filter keeps exactly the elements that satisfy the test, all of them when all do |
| `Ranking.FilterAppend` | backend/app.py:277-278 | filtering a concatenation is the concatenation of the filters, so what is kept stays in input order |
| `Ranking.FilterMap` | backend/app.py:277-286 | the k-th result is the image of the k-th element the filter keeps, one result per kept element, and every kept element's image appears |
| `Ranking.FilterMapSnoc` | backend/app.py:277-286 | one more input element adds its image at the end exactly when the filter keeps it, which is how the loop appends one entry per available mentor |
| `Ranking.SortByScore` | backend/app.py:289 | the sorting loop yields a sorted, stable permutation of its input |
| `Matcher.CandidatesBy` | backend/app.py:277-286 | the k-th candidate is the entry of the k-th available mentor in input order, with the result the scoring function gives it; there is one candidate per available mentor |
| `Matcher.Candidates` | backend/app.py:277-286 | the k-th candidate is the k-th available mentor in input order with that mentor's compatibility result, ranked by its score; there is one candidate per available mentor |
| `Matcher.GetTopMatches` | backend/app.py:273-291 | the top matches are only available input mentors with their own results, in non-increasing score order, as many as the slice keeps of the available mentors |
| `Matcher.TopMatchesChoice` | backend/app.py:289-291 | no available mentor left out scores higher than one returned, and mentors with equal scores keep their input order |
| `Matcher.UnavailableNeverListed` | backend/app.py:278 | a mentor who is not "available" is never returned |
| `Matcher.TopMatches` | backend/app.py:273-291 | the collect-sort-slice procedure returns exactly `GetTopMatches` |
| `Matcher.DefaultLimitKeepsTen` | backend/app.py:273 | with the default limit of 10 the query returns ten matches, or every available mentor when fewer are available |
| `Cardinality.CountWhere` | backend/services/matching_algorithm.py:32-33 | the `sum(1 for … if …)` count is the size of the set of positions whose element passes the test: 0 exactly when none does, the length exactly when all do |
| `Legacy.CountCovered` | backend/services/matching_algorithm.py:32-33 | the career match count is the number of positions of the career list whose career some experience mentions (case-insensitively); 0 exactly when none is, the whole list exactly when all are |
| `Legacy.CountMentioned` | backend/services/matching_algorithm.py:41-42 | the concentration match count is the number of positions whose concentration the mentor's concentration mentions (case-insensitively); 0 exactly when none is, the whole list exactly when all are |
| `Legacy.CareerCriterion` | backend/services/matching_algorithm.py:28-35 | weight 40 exactly when career advice is asked and both lists are non-empty; the points are then 40 times the matched share of the careers, full exactly when every career is covered and 0 exactly when none is |
| `Legacy.ConcentrationCriterion` | backend/services/matching_algorithm.py:37-44 | weight 30 exactly when major advice is asked, concentrations are listed and the mentor states one; the points are then 30 times the mentioned share of the concentrations, full exactly when all are mentioned and 0 exactly when none is |
| `Legacy.Jaccard` | backend/services/matching_algorithm.py:50-57 | Jaccard similarity lies in [0, 1], is 1 exactly for equal sets and 0 exactly for disjoint ones |
| `Legacy.JaccardSymmetric` | backend/services/matching_algorithm.py:53-57 | Jaccard similarity is symmetric |
| `Legacy.CourseCriterion` | backend/services/matching_algorithm.py:46-58 | weight 30 exactly when both course lists are non-empty; the points are then 30 times the Jaccard similarity of the lower-cased course sets, 30 exactly for equal sets and 0 exactly for disjoint ones |
| `Legacy.CourseSymmetric` | backend/services/matching_algorithm.py:46-58 | swapping mentee and mentor courses leaves the course criterion unchanged |
| `Legacy.LegacyCriteria` | backend/services/matching_algorithm.py:13-58 | each criterion's points stay within its weight; the career and concentration criteria are skipped unless their flags are set |
| `Legacy.Share` | backend/services/matching_algorithm.py:62 | the earned share lies in [0, 1]: 1 exactly when all points were earned, 0 exactly when none were |
| `Legacy.LegacyScore` | backend/services/matching_algorithm.py:60-66 | a neutral 50 when no criterion applied; otherwise 100 times the points earned over the weight that applied, so in [0, 100], 100 exactly when every applying criterion is full and 0 exactly when nothing was earned |
| `Legacy.DecodeFailureIsNeutral` | backend/services/matching_algorithm.py:13-26 | a decode failure in any of the five list fields skips every criterion, giving the neutral 50 |
| `Legacy.CoursesAloneRenormalise` | backend/services/matching_algorithm.py:46-64 | for a mentee asking for no advice whose lists decode, the score is 100 times the course Jaccard similarity when both sides list courses and 50 otherwise; equal course sets give 100 |
| `Legacy.NoCriterionIsNeutral` | backend/services/matching_algorithm.py:60-64 | with no advice asked and no courses listed, every mentor gets 50 |
| `Legacy.LegacyCandidates` | backend/services/matching_algorithm.py:81-86 | the k-th candidate is the k-th available mentor in input order with its legacy score; there is one candidate per available mentor |
| `Legacy.LegacyTopMatches` | backend/services/matching_algorithm.py:69-91 | the legacy top list holds only available input mentors with their scores, in non-increasing order, as many as the slice keeps of the available mentors, and each candidate at most as often as it was scored (a sub-multiset of the candidates) |
| `Legacy.LegacyTopMatchesChoice` | backend/services/matching_algorithm.py:88-91 | no mentor left out scores higher than one kept, and equal scores keep their input order |

## Left out

- Flask routes, the database, authentication and every other part of the application: they are outside the matching core.
- Rounding: the live scorer rounds scores to 1 decimal and the legacy scorer to 2. The model keeps exact reals, so ranking ties are decided on unrounded scores. Two scores that round to the same value are tied in the source, which keeps them in input order, but the model orders them by their exact values.
- Floating point: division and multiplication are exact real arithmetic.
- Unicode: `lower`, `isalnum`, `isspace` and `strip` are modelled on ASCII. Any other character counts as neither alphanumeric nor space.
- JSON values that decode to something other than a list of strings: the model treats every decoded field as a list of strings.
- `Scoring.SemanticFactor`: the source names the first three shared terms in Python's set-iteration order, which depends on string hashing. The model names the three lexicographically least instead, and states only that they are drawn from the shared non-generic terms and how many there are.
- The wording of the reason strings: reasons are a datatype with one constructor per kind, carrying the topics, career, concentration or terms the source interpolates.
- The legacy scorer reads mentee and mentor attributes that models.py does not declare. The model takes those fields as given, as the scorer's code expects them.
- The default limit of 10 is the constant `DefaultLimit`; the model has no default arguments, so a caller passes it explicitly.
