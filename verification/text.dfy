/**
 Character classes and string helpers the matching engine relies on:
 Python's `str.lower`, `str.strip`, `str.split()`, `str.isalnum`, `str.isspace`
 and the substring test `a in b`, all restricted to ASCII.
 */
module Text {

  /** Python's `str.isspace` on ASCII: space, \t \n \v \f \r and the separators 0x1c-0x1f. */
  predicate IsSpace(c: char) {
    c == ' ' || (9 <= c as int <= 13) || (28 <= c as int <= 31)
  }

  predicate IsUpper(c: char) {
    'A' <= c <= 'Z'
  }

  predicate IsLowerAlnum(c: char) {
    ('a' <= c <= 'z') || ('0' <= c <= '9')
  }

  /** Python's `str.isalnum` on ASCII. */
  predicate IsAlnum(c: char) {
    IsLowerAlnum(c) || IsUpper(c)
  }

  function LowerChar(c: char): (d: char)
    ensures IsUpper(c) ==> d as int == c as int + 32
    ensures !IsUpper(c) ==> d == c
    ensures IsAlnum(c) <==> IsLowerAlnum(d)
    ensures IsSpace(c) <==> IsSpace(d)
  {
    if IsUpper(c) then (c as int + 32) as char else c
  }

  /** Python's `str.lower` on ASCII text. */
  function Lower(s: string): (r: string)
    ensures |r| == |s|
    ensures forall i :: 0 <= i < |s| ==> r[i] == LowerChar(s[i])
  {
    seq(|s|, i requires 0 <= i < |s| => LowerChar(s[i]))
  }

  function TrimLeft(s: string): string
  {
    if s != [] && IsSpace(s[0]) then TrimLeft(s[1..]) else s
  }

  function TrimRight(s: string): string
  {
    if s != [] && IsSpace(s[|s| - 1]) then TrimRight(s[..|s| - 1]) else s
  }

  /** Python's `str.strip()` with no argument. */
  function Strip(s: string): string {
    TrimRight(TrimLeft(s))
  }

  /** The length of the leading run of spaces. */
  function LeadingSpaces(s: string): (n: nat)
    ensures n <= |s|
  {
    if s != [] && IsSpace(s[0]) then 1 + LeadingSpaces(s[1..]) else 0
  }

  /** The length of `s` without its trailing run of spaces. */
  function TrailingStart(s: string): (n: nat)
    ensures n <= |s|
  {
    if s != [] && IsSpace(s[|s| - 1]) then TrailingStart(s[..|s| - 1]) else |s|
  }

  /** TrimLeft drops exactly the leading run of spaces. */
  lemma {:induction false} TrimLeftDrops(s: string)
    ensures TrimLeft(s) == s[LeadingSpaces(s)..]
    ensures forall k :: 0 <= k < LeadingSpaces(s) ==> IsSpace(s[k])
    ensures TrimLeft(s) == [] || !IsSpace(TrimLeft(s)[0])
    decreases |s|
  {
    if s != [] && IsSpace(s[0]) {
      var t := s[1..];
      TrimLeftDrops(t);
      assert t[LeadingSpaces(t)..] == s[LeadingSpaces(s)..];
      forall k | 0 <= k < LeadingSpaces(s) ensures IsSpace(s[k]) {
        if k > 0 { assert s[k] == t[k - 1]; }
      }
    } else {
      assert TrimLeft(s) == s[0..];
    }
  }

  /** TrimRight drops exactly the trailing run of spaces. */
  lemma {:induction false} TrimRightDrops(s: string)
    ensures TrimRight(s) == s[..TrailingStart(s)]
    ensures forall k :: TrailingStart(s) <= k < |s| ==> IsSpace(s[k])
    ensures TrimRight(s) == [] || !IsSpace(TrimRight(s)[|TrimRight(s)| - 1])
    decreases |s|
  {
    if s != [] && IsSpace(s[|s| - 1]) {
      var init := s[..|s| - 1];
      TrimRightDrops(init);
      var j := TrailingStart(init);
      assert init[..j] == s[..j];
      forall k | j <= k < |s| ensures IsSpace(s[k]) {
        if k < |s| - 1 { assert s[k] == init[k]; }
      }
    } else {
      assert TrimRight(s) == s[..|s|];
    }
  }

  /** `r` is `s[i..j]` and everything of `s` outside that slice is space. */
  predicate SliceBetweenSpaces(s: string, r: string, i: int, j: int) {
    && 0 <= i <= j <= |s|
    && r == s[i..j]
    && (forall k :: 0 <= k < i ==> IsSpace(s[k]))
    && (forall k :: j <= k < |s| ==> IsSpace(s[k]))
  }

  /**
   Python's `strip()` keeps a contiguous slice of its input: everything
   before and after it is space, and the slice neither starts nor ends
   with a space.
   */
  lemma StripTrims(s: string)
    ensures exists i, j :: SliceBetweenSpaces(s, Strip(s), i, j)
    ensures Strip(s) == [] || (!IsSpace(Strip(s)[0]) && !IsSpace(Strip(s)[|Strip(s)| - 1]))
  {
    var i := LeadingSpaces(s);
    var l := s[i..];
    TrimLeftDrops(s);
    TrimRightDrops(l);
    var j := TrailingStart(l);
    var r := l[..j];
    assert Strip(s) == r;
    assert r == s[i..i + j];
    forall k | i + j <= k < |s| ensures IsSpace(s[k]) {
      assert s[k] == l[k - i];
    }
    assert SliceBetweenSpaces(s, r, i, i + j);
    if r != [] {
      assert r[0] == l[0];
    }
  }

  /** `s.lower().strip()`, the normal form the scorer compares lists and labels in. */
  function Normalize(s: string): string {
    Strip(Lower(s))
  }

  /** Every character of `w` is a non-space character. */
  predicate NoSpace(w: string) {
    forall k :: 0 <= k < |w| ==> !IsSpace(w[k])
  }

  /** Length of the run of non-space characters that `s` starts with. */
  function WordLen(s: string): (n: nat)
    ensures n <= |s|
    ensures NoSpace(s[..n])
    ensures n == |s| || IsSpace(s[n])
  {
    if s == [] || IsSpace(s[0]) then 0 else 1 + WordLen(s[1..])
  }

  /** Python's `str.split()` with no argument: the maximal runs of non-space characters, in order. */
  function Words(s: string): seq<string>
    decreases |s|
  {
    if s == [] then []
    else if IsSpace(s[0]) then Words(s[1..])
    else
      var n := WordLen(s);
      [s[..n]] + Words(s[n..])
  }

  /** `w` occupies s[i..j], is non-empty, holds no space and is bounded by spaces or the ends of `s`. */
  predicate IsRunAt(s: string, w: string, i: int, j: int) {
    && 0 <= i < j <= |s|
    && s[i..j] == w
    && NoSpace(w)
    && (i == 0 || IsSpace(s[i - 1]))
    && (j == |s| || IsSpace(s[j]))
  }

  ghost predicate IsRun(s: string, w: string) {
    exists i, j :: IsRunAt(s, w, i, j)
  }

  /** A run of `s[d..]` that does not start at its first position is a run of `s`, shifted by `d`. */
  lemma RunShift(s: string, w: string, d: nat, i: int, j: int)
    requires d <= |s|
    requires IsRunAt(s[d..], w, i, j)
    requires i > 0 || d == 0 || IsSpace(s[d - 1])
    ensures IsRunAt(s, w, i + d, j + d)
  {
    assert s[d..][i..j] == s[i + d..j + d];
  }

  /** Soundness of the splitter: every word it yields is a maximal non-space run. */
  lemma {:induction false} WordsAreRunsSound(s: string, w: string)
    requires w in Words(s)
    ensures IsRun(s, w)
    decreases |s|
  {
    if IsSpace(s[0]) {
      WordsAreRunsSound(s[1..], w);
      var i, j :| IsRunAt(s[1..], w, i, j);
      RunShift(s, w, 1, i, j);
    } else {
      var n := WordLen(s);
      assert Words(s) == [s[..n]] + Words(s[n..]);
      if w == s[..n] {
        assert IsRunAt(s, w, 0, n);
      } else {
        WordsAreRunsSound(s[n..], w);
        var i, j :| IsRunAt(s[n..], w, i, j);
        assert i > 0;
        RunShift(s, w, n, i, j);
      }
    }
  }

  /** Completeness of the splitter, one run at a time. */
  lemma {:induction false} RunsAreWords(s: string, w: string, i: int, j: int)
    requires IsRunAt(s, w, i, j)
    ensures w in Words(s)
    decreases |s|
  {
    if IsSpace(s[0]) {
      assert w[0] == s[i];
      assert s[1..][i - 1..j - 1] == s[i..j];
      assert IsRunAt(s[1..], w, i - 1, j - 1);
      RunsAreWords(s[1..], w, i - 1, j - 1);
    } else {
      var n := WordLen(s);
      assert Words(s) == [s[..n]] + Words(s[n..]);
      if i == 0 {
        RunFromStart(s, w, j);
      } else {
        LeadingWordNoSpace(s);
        assert i > n;
        assert s[n..][i - n..j - n] == s[i..j];
        assert IsRunAt(s[n..], w, i - n, j - n);
        RunsAreWords(s[n..], w, i - n, j - n);
      }
    }
  }

  /** A run at the very start of `s` is the leading word. */
  lemma RunFromStart(s: string, w: string, j: int)
    requires IsRunAt(s, w, 0, j)
    ensures w == s[..WordLen(s)]
  {
    LeadingWordNoSpace(s);
    assert forall k :: 0 <= k < j ==> w[k] == s[k];
  }

  lemma LeadingWordNoSpace(s: string)
    ensures forall k :: 0 <= k < WordLen(s) ==> !IsSpace(s[k])
  {
    var n := WordLen(s);
    forall k | 0 <= k < n ensures !IsSpace(s[k]) {
      assert s[..n][k] == s[k];
    }
  }

  /**
   The splitter yields exactly the maximal non-space runs of its input: a
   word is in the result if and only if it is such a run.
   */
  lemma WordsAreRuns(s: string, w: string)
    ensures w in Words(s) <==> IsRun(s, w)
  {
    if w in Words(s) {
      WordsAreRunsSound(s, w);
    }
    if IsRun(s, w) {
      var i, j :| IsRunAt(s, w, i, j);
      RunsAreWords(s, w, i, j);
    }
  }

  /** Every character of a word of `s` is a non-space character of `s`. */
  lemma WordCharsFromInput(s: string, w: string, k: int)
    requires w in Words(s)
    requires 0 <= k < |w|
    ensures !IsSpace(w[k])
    ensures w[k] in s
  {
    WordsAreRuns(s, w);
    var i, j :| IsRunAt(s, w, i, j);
    assert w[k] == s[i + k];
  }

  /** Python's `needle in hay` for strings. */
  function Contains(hay: string, needle: string): bool
    decreases |hay|
  {
    needle <= hay || (hay != [] && Contains(hay[1..], needle))
  }

  predicate OccursAt(hay: string, needle: string, i: int) {
    0 <= i && i + |needle| <= |hay| && hay[i..i + |needle|] == needle
  }

  /** The recursive substring test agrees with "occurs at some position". */
  lemma {:induction false} ContainsOccurs(hay: string, needle: string)
    ensures Contains(hay, needle) <==> exists i :: OccursAt(hay, needle, i)
    decreases |hay|
  {
    if needle <= hay {
      assert OccursAt(hay, needle, 0);
    } else if hay == [] {
    } else {
      ContainsOccurs(hay[1..], needle);
      if Contains(hay[1..], needle) {
        var i :| OccursAt(hay[1..], needle, i);
        assert hay[1..][i..i + |needle|] == hay[i + 1..i + 1 + |needle|];
        assert OccursAt(hay, needle, i + 1);
      }
      if exists i :: OccursAt(hay, needle, i) {
        var i :| OccursAt(hay, needle, i);
        assert i != 0;
        assert hay[1..][i - 1..i - 1 + |needle|] == hay[i..i + |needle|];
        assert OccursAt(hay[1..], needle, i - 1);
      }
    }
  }

  /** Lexicographic order on strings, used to make a deterministic choice among set elements. */
  predicate LexLe(a: string, b: string)
    decreases |a|
  {
    a == [] || (b != [] && (a[0] < b[0] || (a[0] == b[0] && LexLe(a[1..], b[1..]))))
  }

  lemma {:induction false} LexTotal(a: string, b: string)
    ensures LexLe(a, b) || LexLe(b, a)
    decreases |a|
  {
    if a != [] && b != [] && a[0] == b[0] {
      LexTotal(a[1..], b[1..]);
    }
  }

  lemma {:induction false} LexAntisymmetric(a: string, b: string)
    requires LexLe(a, b) && LexLe(b, a)
    ensures a == b
    decreases |a|
  {
    if a != [] && b != [] {
      LexAntisymmetric(a[1..], b[1..]);
      assert a == [a[0]] + a[1..];
      assert b == [b[0]] + b[1..];
    }
  }

  lemma {:induction false} LexTransitive(a: string, b: string, c: string)
    requires LexLe(a, b) && LexLe(b, c)
    ensures LexLe(a, c)
    decreases |a|
  {
    if a != [] && b != [] && c != [] && a[0] == b[0] && b[0] == c[0] {
      LexTransitive(a[1..], b[1..], c[1..]);
    }
  }

  predicate IsLeast(m: string, s: set<string>) {
    m in s && forall y :: y in s ==> LexLe(m, y)
  }

  lemma {:induction false} LeastExists(s: set<string>)
    requires s != {}
    ensures exists m :: IsLeast(m, s)
    decreases |s|
  {
    var x :| x in s;
    if s == {x} {
      assert IsLeast(x, s) by { LexTotal(x, x); }
    } else {
      LeastExists(s - {x});
      var m :| IsLeast(m, s - {x});
      LexTotal(m, x);
      if LexLe(m, x) {
        assert IsLeast(m, s);
      } else {
        forall y | y in s ensures LexLe(x, y) {
          if y != x {
            LexTransitive(x, m, y);
          } else {
            LexTotal(x, x);
          }
        }
        assert IsLeast(x, s);
      }
    }
  }

  /** The lexicographically least element of a non-empty set of strings. */
  function Least(s: set<string>): (m: string)
    requires s != {}
    ensures IsLeast(m, s)
  {
    LeastExists(s);
    forall a, b | IsLeast(a, s) && IsLeast(b, s) ensures a == b {
      LexAntisymmetric(a, b);
    }
    var m :| m in s && IsLeast(m, s);
    m
  }

  /** The `n` lexicographically least elements of `s` (all of `s` when it has fewer). */
  function TakeLeast(s: set<string>, n: nat): (r: set<string>)
    ensures r <= s
    ensures |r| == if n < |s| then n else |s|
    decreases n
  {
    if n == 0 || s == {} then {}
    else
      var m := Least(s);
      {m} + TakeLeast(s - {m}, n - 1)
  }
}
