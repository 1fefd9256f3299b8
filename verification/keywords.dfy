/**
 Keyword extraction and single-hop synonym expansion, the text side of the
 semantic factor of the live matcher.
 */
module Keywords {
  import opened Text

  /** The fixed stop-word list of the extractor: function words and profile filler. */
  const StopWords: set<string> := {
    "i", "me", "my", "myself", "we", "our", "ours", "you", "your", "he", "she",
    "it", "they", "them", "what", "which", "who", "whom", "this", "that", "these",
    "those", "am", "is", "are", "was", "were", "be", "been", "being", "have", "has",
    "had", "having", "do", "does", "did", "doing", "a", "an", "the", "and", "but",
    "if", "or", "because", "as", "until", "while", "of", "at", "by", "for", "with",
    "about", "against", "between", "into", "through", "during", "before", "after",
    "above", "below", "to", "from", "up", "down", "in", "out", "on", "off", "over",
    "under", "again", "further", "then", "once", "here", "there", "when", "where",
    "why", "how", "all", "each", "few", "more", "most", "other", "some", "such",
    "no", "nor", "not", "only", "own", "same", "so", "than", "too", "very", "s",
    "t", "can", "will", "just", "don", "should", "now", "would", "could", "also",
    "really", "want", "looking", "interested", "help", "learn", "like", "get",
    "im", "i'm", "ive", "i've", "currently", "working", "work", "experience"
  }

  /** A thesaurus maps a canonical term to its list of synonyms. */
  type Thesaurus = map<string, seq<string>>

  /** The domain thesaurus the live matcher expands keywords with. */
  const KeywordSynonyms: Thesaurus := map[
    "ml" := ["machine learning", "deep learning", "ai", "artificial intelligence"],
    "ai" := ["artificial intelligence", "machine learning", "ml", "deep learning"],
    "ux" := ["user experience", "ui", "design", "user interface", "hci"],
    "ui" := ["user interface", "ux", "design", "user experience"],
    "pm" := ["product management", "product manager", "product"],
    "swe" := ["software engineering", "software engineer", "developer", "programming"],
    "ds" := ["data science", "data scientist", "analytics", "data analysis"],
    "quant" := ["quantitative", "finance", "trading", "quantitative finance"],
    "phd" := ["doctorate", "doctoral", "research", "academia", "academic"],
    "mba" := ["business", "management", "consulting"],
    "startup" := ["entrepreneurship", "founder", "business", "venture"],
    "research" := ["academia", "academic", "phd", "graduate school"]
  ]

  /** Lower-case the text and turn every character that is neither alphanumeric nor a space into a space. */
  function Clean(text: string): (r: string)
    ensures |r| == |text|
    ensures forall i :: 0 <= i < |r| ==> IsLowerAlnum(r[i]) || IsSpace(r[i])
    ensures forall i :: 0 <= i < |text| ==>
      r[i] == (if IsAlnum(text[i]) || IsSpace(text[i]) then LowerChar(text[i]) else ' ')
  {
    seq(|text|, i requires 0 <= i < |text| =>
      var c := LowerChar(text[i]);
      if IsAlnum(c) || IsSpace(c) then c else ' ')
  }

  /** What the extractor may return: long enough, not a stop word, lower-case letters and digits only. */
  predicate IsKeyword(w: string) {
    && |w| > 2
    && w !in StopWords
    && forall k :: 0 <= k < |w| ==> IsLowerAlnum(w[k])
  }

  /** The keyword set of a free-text field; absent text is the empty string. */
  function ExtractKeywords(text: string): (r: set<string>)
    ensures text == [] ==> r == {}
    ensures forall w :: w in r ==> IsKeyword(w)
  {
    if text == [] then {}
    else
      var cleaned := Clean(text);
      var r := set w | w in Words(cleaned) && w !in StopWords && |w| > 2;
      assert forall w :: w in r ==> IsKeyword(w) by {
        forall w, k | w in r && 0 <= k < |w| ensures IsLowerAlnum(w[k]) {
          WordCharsFromInput(cleaned, w, k);
        }
      }
      r
  }

  /**
   Reference reading of the extractor: a string is extracted from non-empty
   text exactly when it is a keyword and a maximal run of the cleaned text.
   */
  lemma ExtractedAreCleanRuns(text: string, w: string)
    ensures w in ExtractKeywords(text) <==> text != [] && IsKeyword(w) && IsRun(Clean(text), w)
  {
    if text != [] {
      WordsAreRuns(Clean(text), w);
    }
  }

  /** A word made of a keyword surrounded by spaces is extracted. */
  lemma KeywordBetweenSpacesExtracted(w: string)
    requires IsKeyword(w)
    ensures w in ExtractKeywords(" " + w + " ")
  {
    var text := " " + w + " ";
    var cleaned := Clean(text);
    assert cleaned[1..|w| + 1] == w;
    assert IsRunAt(cleaned, w, 1, |w| + 1);
    ExtractedAreCleanRuns(text, w);
  }

  /** No two-letter canonical term of the thesaurus can ever come out of the extractor. */
  lemma ShortKeysNeverExtracted(text: string)
    ensures forall k :: k in KeywordSynonyms && |k| <= 2 ==> k !in ExtractKeywords(text)
    ensures "ml" !in ExtractKeywords(text) && "ai" !in ExtractKeywords(text)
  {
  }

  /** A synonym that contains a space (a multi-word phrase) can never equal an extracted keyword. */
  lemma MultiWordNeverExtracted(text: string, phrase: string)
    requires exists k :: 0 <= k < |phrase| && phrase[k] == ' '
    ensures phrase !in ExtractKeywords(text)
  {
  }

  /** Canonical term `key` fires for `ks`: it is a keyword itself or one of its synonyms is. */
  predicate Fires(t: Thesaurus, ks: set<string>, key: string) {
    key in t && (key in ks || exists v :: v in ks && v in t[key])
  }

  /** The synonyms of `key` as a set (none when `key` is not a canonical term). */
  function SynonymSet(t: Thesaurus, key: string): set<string> {
    if key in t then set s | s in t[key] else {}
  }

  /** Every term among `keys` that lists `x` as a synonym, together with that term's synonyms. */
  function ReverseHits(t: Thesaurus, x: string, keys: set<string>): set<string> {
    set key, s | key in keys && key in t && x in t[key] && s in [key] + t[key] :: s
  }

  /** The terms a single keyword `x` adds: its own synonyms, and every key listing `x` with that key's synonyms. */
  function Contribution(t: Thesaurus, x: string): set<string> {
    SynonymSet(t, x) + ReverseHits(t, x, t.Keys)
  }

  /** The keywords together with every term each of them contributes. */
  function Expansion(t: Thesaurus, ks: set<string>): set<string> {
    ks + (set x, s | x in ks && s in Contribution(t, x) :: s)
  }

  /** A canonical keyword brings in its synonyms. */
  lemma ExpansionAddsSynonyms(t: Thesaurus, ks: set<string>)
    ensures forall key, s :: key in t && key in ks && s in t[key] ==> s in Expansion(t, ks)
  {
    forall key, s | key in t && key in ks && s in t[key] ensures s in Expansion(t, ks) {
      assert s in Contribution(t, key);
    }
  }

  /** A keyword listed as a synonym brings in the listing key and all of its synonyms. */
  lemma ExpansionAddsListingRows(t: Thesaurus, ks: set<string>)
    ensures forall key, v, s :: key in t && v in t[key] && v in ks && s in [key] + t[key] ==> s in Expansion(t, ks)
  {
    forall key, v, s | key in t && v in t[key] && v in ks && s in [key] + t[key] ensures s in Expansion(t, ks) {
      assert s in ReverseHits(t, v, t.Keys);
      assert s in Contribution(t, v);
    }
  }

  /** Every added term comes from a row that fires. */
  lemma ExpansionOnlyFromFiringRows(t: Thesaurus, ks: set<string>)
    ensures forall x :: x in Expansion(t, ks) ==> x in ks || exists key :: Fires(t, ks, key) && (x == key || x in t[key])
  {
    forall x | x in Expansion(t, ks) && x !in ks ensures exists key :: Fires(t, ks, key) && (x == key || x in t[key]) {
      var y :| y in ks && x in Contribution(t, y);
      if x in SynonymSet(t, y) {
        assert Fires(t, ks, y);
      } else {
        var key :| key in t && y in t[key] && x in [key] + t[key];
        assert Fires(t, ks, key);
      }
    }
  }

  /**
   Single-hop expansion: every keyword, plus the synonyms of every keyword
   that is a canonical term, plus every canonical term that lists a keyword
   among its synonyms together with all of that term's synonyms.
   */
  function ExpandKeywords(t: Thesaurus, ks: set<string>): (r: set<string>)
    ensures ks <= r
    ensures forall key, s :: key in t && key in ks && s in t[key] ==> s in r
    ensures forall key, v :: key in t && v in t[key] && v in ks ==> key in r
    ensures forall key, v, s :: key in t && v in t[key] && v in ks && s in t[key] ==> s in r
    ensures forall x :: x in r ==> x in ks || exists key :: Fires(t, ks, key) && (x == key || x in t[key])
  {
    ExpansionAddsSynonyms(t, ks);
    ExpansionAddsListingRows(t, ks);
    ExpansionOnlyFromFiringRows(t, ks);
    Expansion(t, ks)
  }

  /** The expansion of the empty set is empty: nothing fires without a keyword. */
  lemma ExpandEmpty(t: Thesaurus)
    ensures ExpandKeywords(t, {}) == {}
  {
  }

  /** Expansion is monotone in its keyword set. */
  lemma ExpandMonotone(t: Thesaurus, a: set<string>, b: set<string>)
    requires a <= b
    ensures ExpandKeywords(t, a) <= ExpandKeywords(t, b)
  {
  }

  /** Expansion distributes over union, so expanding two fields separately and joining equals expanding the joined fields. */
  lemma ExpandUnion(t: Thesaurus, a: set<string>, b: set<string>)
    ensures ExpandKeywords(t, a + b) == ExpandKeywords(t, a) + ExpandKeywords(t, b)
  {
  }

  /** Synonym symmetry: a key's synonym expands back to the key, and the key to the synonym. */
  lemma SingleHopSymmetry(t: Thesaurus, key: string, i: int)
    requires key in t && 0 <= i < |t[key]|
    ensures t[key][i] in ExpandKeywords(t, {key})
    ensures key in ExpandKeywords(t, {t[key][i]})
  {
  }

  /** The canonical terms of the domain thesaurus. */
  lemma ThesaurusKeys()
    ensures KeywordSynonyms.Keys
            == {"ml", "ai", "ux", "ui", "pm", "swe", "ds", "quant", "phd", "mba", "startup", "research"}
  {
  }

  /** No synonym list of the domain thesaurus mentions "startup". */
  lemma StartupIsNoSynonym(key: string)
    requires key in KeywordSynonyms
    ensures "startup" !in KeywordSynonyms[key]
  {
    ThesaurusKeys();
  }

  /**
   Expansion is single-hop: "startup" brings in "business", but the second
   hop from "business" to "mba" only happens on a second application.
   */
  lemma ExpansionIsSingleHop()
    ensures "mba" !in ExpandKeywords(KeywordSynonyms, {"startup"})
    ensures "mba" in ExpandKeywords(KeywordSynonyms, ExpandKeywords(KeywordSynonyms, {"startup"}))
  {
    var t := KeywordSynonyms;
    var once := ExpandKeywords(t, {"startup"});
    if "mba" in once {
      var key :| Fires(t, {"startup"}, key) && ("mba" == key || "mba" in t[key]);
      if key != "startup" {
        StartupIsNoSynonym(key);
      }
      assert false;
    }
    assert "business" in t["startup"];
    assert "business" in once;
    assert "business" in t["mba"];
  }

  /** Only the "ml" and "ai" rows list "ml" or "machine learning". */
  lemma MachineLearningListedOnlyByItsRows(key: string)
    requires key in KeywordSynonyms
    requires "ml" in KeywordSynonyms[key] || "machine learning" in KeywordSynonyms[key]
    ensures key == "ml" || key == "ai"
  {
    ThesaurusKeys();
  }

  /** Every term of the "ml" and "ai" rows is at most two letters long or holds a space. */
  lemma MachineLearningTermsUnextractable(text: string, v: string)
    requires v in ["ml", "ai"] + KeywordSynonyms["ml"] + KeywordSynonyms["ai"]
    ensures v !in ExtractKeywords(text)
  {
    if |v| > 2 {
      if v == "machine learning" {
        assert v[7] == ' ';
      } else if v == "deep learning" {
        assert v[4] == ' ';
      } else {
        assert v == "artificial intelligence";
        assert v[10] == ' ';
      }
      MultiWordNeverExtracted(text, v);
    }
  }

  /**
   The "ml" and "ai" rows of the thesaurus never fire on extracted text:
   each of their keys and synonyms is either at most two letters long or
   a multi-word phrase, and the extractor yields neither.
   */
  lemma MachineLearningRowsNeverFire(text: string)
    ensures !Fires(KeywordSynonyms, ExtractKeywords(text), "ml")
    ensures !Fires(KeywordSynonyms, ExtractKeywords(text), "ai")
    ensures "ml" !in ExpandKeywords(KeywordSynonyms, ExtractKeywords(text))
    ensures "machine learning" !in ExpandKeywords(KeywordSynonyms, ExtractKeywords(text))
  {
    MachineLearningRowsSilent(text, "ml");
    MachineLearningRowsSilent(text, "ai");
    MachineLearningTermStaysOut(text, "ml");
    MachineLearningTermStaysOut(text, "machine learning");
  }

  lemma MachineLearningTermStaysOut(text: string, x: string)
    requires x == "ml" || x == "machine learning"
    ensures x !in ExpandKeywords(KeywordSynonyms, ExtractKeywords(text))
  {
    var ks := ExtractKeywords(text);
    var t := KeywordSynonyms;
    MachineLearningRowsSilent(text, "ml");
    MachineLearningRowsSilent(text, "ai");
    MachineLearningTermsUnextractable(text, x);
    forall key | key in t && (key == x || x in t[key]) ensures !Fires(t, ks, key) {
      MachineLearningRowOf(x, key);
    }
    OutsideExpansion(t, ks, x);
  }

  /** A row naming or listing "ml" or "machine learning" is the "ml" row or the "ai" row. */
  lemma MachineLearningRowOf(x: string, key: string)
    requires x == "ml" || x == "machine learning"
    requires key in KeywordSynonyms && (key == x || x in KeywordSynonyms[key])
    ensures key == "ml" || key == "ai"
  {
    if key != x {
      MachineLearningListedOnlyByItsRows(key);
    } else {
      ThesaurusKeys();
    }
  }

  /** A term stays out of an expansion when it is no keyword and no row naming or listing it fires. */
  lemma OutsideExpansion(t: Thesaurus, ks: set<string>, x: string)
    requires x !in ks
    requires forall key :: key in t && (key == x || x in t[key]) ==> !Fires(t, ks, key)
    ensures x !in ExpandKeywords(t, ks)
  {
  }

  lemma MachineLearningRowsSilent(text: string, key: string)
    requires key == "ml" || key == "ai"
    ensures !Fires(KeywordSynonyms, ExtractKeywords(text), key)
  {
    var ks := ExtractKeywords(text);
    MachineLearningTermsUnextractable(text, key);
    forall v | v in KeywordSynonyms[key] ensures v !in ks {
      MachineLearningTermsUnextractable(text, v);
    }
  }

  /**
   The expansion loop as the matcher runs it: start from the keywords, and
   for each keyword add its synonyms when it is a canonical term, then scan
   the whole thesaurus and add every term (and its synonyms) that lists it.
   */
  method ExpandByScan(t: Thesaurus, ks: set<string>) returns (r: set<string>)
    ensures r == ExpandKeywords(t, ks)
  {
    r := ks;
    var todo := ks;
    ghost var done: set<string> := {};
    while todo != {}
      invariant todo + done == ks && todo !! done
      invariant r == ExpandKeywords(t, done) + ks
      decreases todo
    {
      var x :| x in todo;
      if x in t {
        r := r + (set s | s in t[x]);
      }
      r := AddReverseHits(t, x, r);
      ExpandAddOne(t, done, x);
      todo := todo - {x};
      done := done + {x};
    }
  }

  /** The inner scan of the thesaurus for one keyword `x`: add every term listing `x`, with its synonyms. */
  method AddReverseHits(t: Thesaurus, x: string, r0: set<string>) returns (r: set<string>)
    ensures r == r0 + ReverseHits(t, x, t.Keys)
  {
    r := r0;
    var keys := t.Keys;
    ghost var seen: set<string> := {};
    while keys != {}
      invariant keys + seen == t.Keys && keys !! seen
      invariant r == r0 + ReverseHits(t, x, seen)
      decreases keys
    {
      var key :| key in keys;
      ReverseHitsStep(t, x, seen, key);
      if x in t[key] {
        r := r + {key} + (set s | s in t[key]);
      }
      keys := keys - {key};
      seen := seen + {key};
    }
  }

  lemma ReverseHitsStep(t: Thesaurus, x: string, seen: set<string>, key: string)
    requires key in t
    ensures ReverseHits(t, x, seen + {key})
            == ReverseHits(t, x, seen) + (if x in t[key] then {key} + (set s | s in t[key]) else {})
  {
    var extra := if x in t[key] then {key} + (set s | s in t[key]) else {};
    forall s | s in extra ensures s in ReverseHits(t, x, seen + {key}) {
      assert s in [key] + t[key];
    }
  }

  lemma ExpandAddOne(t: Thesaurus, done: set<string>, x: string)
    ensures ExpandKeywords(t, done + {x}) == ExpandKeywords(t, done) + {x} + Contribution(t, x)
  {
  }
}
