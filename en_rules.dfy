/**
 * The rules of the English Porter stemmer, stated over the word being stemmed
 * as a sequence of characters. The class in EnStemmer runs the same rules in
 * place over its buffer and is proved to agree with these functions.
 *
 * Positions follow the buffer: the word is `b[0..k]`, so a word `w` here is
 * `b[..k+1]` and its last index is `|w| - 1`.
 */
module EnRules {
  import opened Optional

  /** Porter's consonant test at position `p`: a, e, i, o, u are vowels;
      `y` is a consonant at the start of the word or after a vowel;
      every other character is a consonant. */
  function Cons(w: seq<char>, p: nat): (r: bool)
    requires p < |w|
    ensures w[p] in "aeiou" ==> !r
    ensures w[p] !in "aeiouy" ==> r
    ensures w[p] == 'y' && p == 0 ==> r
  {
    match w[p]
    case 'a' => false
    case 'e' => false
    case 'i' => false
    case 'o' => false
    case 'u' => false
    case 'y' => p == 0 || !Cons(w, p - 1)
    case _ => true
  }

  /** Number of positions `p` in `[1, n)` where a consonant follows a vowel,
      i.e. the number of VC sequences in `w[0..n)`. */
  function MeasureTo(w: seq<char>, n: nat): nat
    requires n <= |w|
  {
    if n <= 1 then 0
    else MeasureTo(w, n - 1) + (if Cons(w, n - 1) && !Cons(w, n - 2) then 1 else 0)
  }

  /** Porter's measure m of the whole of `w`: `[C](VC)^m[V]`. */
  function Measure(w: seq<char>): (m: nat)
    ensures 2 * m <= |w|
  {
    MeasureToBound(w, |w|);
    MeasureTo(w, |w|)
  }

  /** The consonant test at `p` looks only at `w[0..p]`: cutting the word
      after `p` does not change it. */
  lemma {:induction false} ConsPrefix(w: seq<char>, q: nat, p: nat)
    requires p < q <= |w|
    ensures Cons(w[..q], p) == Cons(w, p)
    decreases p
  {
    if w[p] == 'y' && p > 0 {
      ConsPrefix(w, q, p - 1);
    }
  }

  /** The VC count of the first `n` positions is the measure of `w[0..n)`,
      whatever follows them. */
  lemma {:induction false} MeasurePrefix(w: seq<char>, n: nat, q: nat)
    requires n <= q <= |w|
    ensures MeasureTo(w[..q], n) == MeasureTo(w, n)
    decreases n
  {
    if n > 1 {
      MeasurePrefix(w, n - 1, q);
      ConsPrefix(w, q, n - 1);
      ConsPrefix(w, q, n - 2);
    }
  }

  /** VC pairs cannot overlap, so there are at most `n / 2` of them in `n`
      positions, and at most `(n - 1) / 2` when the last one is a vowel. */
  lemma {:induction false} MeasureToBound(w: seq<char>, n: nat)
    requires n <= |w|
    ensures 2 * MeasureTo(w, n) <= n
    ensures n >= 1 && !Cons(w, n - 1) ==> 2 * MeasureTo(w, n) <= n - 1
    decreases n
  {
    if n > 1 {
      MeasureToBound(w, n - 1);
    }
  }

  /** Some position before `n` holds a vowel. */
  predicate VowelBefore(w: seq<char>, n: nat)
    requires n <= |w|
  {
    n > 0 && (!Cons(w, n - 1) || VowelBefore(w, n - 1))
  }

  predicate VowelIn(w: seq<char>)
  {
    VowelBefore(w, |w|)
  }

  /** A vowel found before `m` is found before any later bound. */
  lemma {:induction false} VowelBeforeMonotone(w: seq<char>, m: nat, n: nat)
    requires m <= n <= |w| && VowelBefore(w, m)
    ensures VowelBefore(w, n)
    decreases n
  {
    if m < n {
      VowelBeforeMonotone(w, m, n - 1);
    }
  }

  /** `VowelBefore` is the existence of a vowel position. */
  lemma {:induction false} VowelBeforeExists(w: seq<char>, n: nat)
    requires n <= |w|
    ensures VowelBefore(w, n) <==> exists p :: 0 <= p < n && !Cons(w, p)
    decreases n
  {
    if n > 0 {
      VowelBeforeExists(w, n - 1);
      if !Cons(w, n - 1) {
        assert VowelBefore(w, n);
        var p := n - 1;
        assert 0 <= p < n && !Cons(w, p);
        assert exists q :: 0 <= q < n && !Cons(w, q);
      } else {
        assert (exists p :: 0 <= p < n && !Cons(w, p)) ==> exists p :: 0 <= p < n - 1 && !Cons(w, p);
      }
    }
  }

  /** The last two characters are equal and the last is a consonant. */
  predicate DoubleC(w: seq<char>)
    ensures DoubleC(w) ==> |w| >= 2 && w[|w| - 1] == w[|w| - 2] && w[|w| - 1] !in "aeiou"
    ensures |w| >= 2 && w[|w| - 1] == w[|w| - 2] && w[|w| - 1] !in "aeiouy" ==> DoubleC(w)
  {
    |w| >= 2 && w[|w| - 1] == w[|w| - 2] && Cons(w, |w| - 1)
  }

  /** The last three characters are consonant-vowel-consonant and the last
      one is not w, x or y. */
  predicate Cvc(w: seq<char>)
    ensures Cvc(w) ==> |w| >= 3 && w[|w| - 1] !in "aeiouwxy" && w[|w| - 3] !in "aeiou"
    ensures (&& |w| >= 3 && w[|w| - 1] !in "aeiouwxy" && w[|w| - 2] in "aeiou"
             && w[|w| - 3] !in "aeiouy") ==> Cvc(w)
  {
    && |w| >= 3
    && Cons(w, |w| - 1) && !Cons(w, |w| - 2) && Cons(w, |w| - 3)
    && w[|w| - 1] != 'w' && w[|w| - 1] != 'x' && w[|w| - 1] != 'y'
  }

  /** `s` is a suffix of `w`, compared from the last letter backwards. */
  predicate EndsWith(w: seq<char>, s: seq<char>)
    decreases |s|
  {
    && |s| <= |w|
    && (|s| == 0 || (w[|w| - 1] == s[|s| - 1] && EndsWith(w[..|w| - 1], s[..|s| - 1])))
  }

  /** `EndsWith` is the comparison of the last `|s|` letters. */
  lemma {:induction false} EndsWithSlice(w: seq<char>, s: seq<char>)
    ensures EndsWith(w, s) <==> |s| <= |w| && w[|w| - |s|..] == s
    decreases |s|
  {
    if |s| > 0 && |s| <= |w| {
      var w', s' := w[..|w| - 1], s[..|s| - 1];
      EndsWithSlice(w', s');
      assert w[|w| - |s|..] == w'[|w'| - |s'|..] + [w[|w| - 1]];
      assert s == s' + [s[|s| - 1]];
    }
  }

  /** The word with suffix `suf` replaced by `rep` (`ends(suf)` then `sett(rep)`). */
  function Replace(w: seq<char>, suf: seq<char>, rep: seq<char>): (r: seq<char>)
    requires EndsWith(w, suf)
    ensures |r| == |w| - |suf| + |rep|
    ensures r[..|w| - |suf|] == w[..|w| - |suf|] && r[|w| - |suf|..] == rep
  {
    w[..|w| - |suf|] + rep
  }

  /** `ends(suf)` then `r(rep)`: replace only when the stem before the suffix
      has a positive measure. */
  function Rule(w: seq<char>, suf: seq<char>, rep: seq<char>): (r: seq<char>)
    requires EndsWith(w, suf)
    ensures Measure(w[..|w| - |suf|]) > 0 ==> r == Replace(w, suf, rep)
    ensures Measure(w[..|w| - |suf|]) == 0 ==> r == w
  {
    if Measure(w[..|w| - |suf|]) > 0 then Replace(w, suf, rep) else w
  }

  // ---------------------------------------------------------------------------
  // Step 1: plurals, then -eed, -ed and -ing
  // ---------------------------------------------------------------------------

  /** The first half of step 1: sses -> ss, ies -> i, a lone final s dropped. */
  function Step1Plurals(w: seq<char>): (r: seq<char>)
    requires |w| >= 3
    ensures 1 <= |r| <= |w| && |w| - 2 <= |r|
  {
    var k := |w| - 1;
    if w[k] != 's' then w
    else if EndsWith(w, "sses") then w[..k - 1]
    else if EndsWith(w, "ies") then Replace(w, "ies", "i")
    else if w[k - 1] != 's' then w[..k]
    else w
  }

  /** Cleanup after -ed or -ing has been removed, leaving `s`. */
  function Step1Cleanup(s: seq<char>): (r: seq<char>)
    requires |s| >= 1
    ensures 1 <= |r| <= |s| + 1
  {
    if EndsWith(s, "at") then Replace(s, "at", "ate")
    else if EndsWith(s, "bl") then Replace(s, "bl", "ble")
    else if EndsWith(s, "iz") then Replace(s, "iz", "ize")
    else Step1CleanupTail(s)
  }

  /** The last part of the cleanup: undouble a final consonant other than
      l, s or z, or add -e after a short CVC stem with m == 1. */
  function Step1CleanupTail(s: seq<char>): (r: seq<char>)
    requires |s| >= 1
    ensures 1 <= |r| <= |s| + 1
  {
    if DoubleC(s) then
      (var c := s[|s| - 2]; if c == 'l' || c == 's' || c == 'z' then s else s[..|s| - 1])
    else if Measure(s) == 1 && Cvc(s) then s + "e"
    else s
  }

  /** The second half of step 1: eed -> ee when m > 0, otherwise -ed or -ing. */
  function Step1Endings(w: seq<char>): (r: seq<char>)
    requires |w| >= 1
    ensures 1 <= |r| <= |w|
  {
    if EndsWith(w, "eed") then
      (if Measure(w[..|w| - 3]) > 0 then w[..|w| - 1] else w)
    else Step1EdIng(w)
  }

  /** The length of the -ed or -ing ending `step1()` tries to remove, or 0. */
  function EdIngLength(w: seq<char>): (n: nat)
    ensures n == 0 || (n == 2 && EndsWith(w, "ed")) || (n == 3 && EndsWith(w, "ing"))
    ensures EndsWith(w, "ed") ==> n == 2
    ensures !EndsWith(w, "ed") && EndsWith(w, "ing") ==> n == 3
    ensures !EndsWith(w, "ed") && !EndsWith(w, "ing") ==> n == 0
  {
    if EndsWith(w, "ed") then 2 else if EndsWith(w, "ing") then 3 else 0
  }

  /** -ed or -ing removed when the stem before it has a vowel, followed by the
      cleanup. */
  function Step1EdIng(w: seq<char>): (r: seq<char>)
    requires |w| >= 1
    ensures 1 <= |r| <= |w|
  {
    var n := EdIngLength(w);
    if n > 0 && VowelIn(w[..|w| - n]) then Step1Cleanup(w[..|w| - n]) else w
  }

  function Step1(w: seq<char>): (r: seq<char>)
    requires |w| >= 3
    ensures 1 <= |r| <= |w|
  {
    Step1Endings(Step1Plurals(w))
  }

  // ---------------------------------------------------------------------------
  // Step 2: terminal y -> i
  // ---------------------------------------------------------------------------

  function Step2(w: seq<char>): (r: seq<char>)
    requires |w| >= 1
    ensures |r| == |w| && r[..|w| - 1] == w[..|w| - 1]
    ensures r != w <==> w[|w| - 1] == 'y' && VowelIn(w[..|w| - 1])
    ensures r != w ==> r[|w| - 1] == 'i'
  {
    if EndsWith(w, "y") && VowelIn(w[..|w| - 1]) then Replace(w, "y", "i") else w
  }

  // ---------------------------------------------------------------------------
  // Step 3: double suffixes to single ones, keyed on the penultimate letter
  // ---------------------------------------------------------------------------

  /** `step3()`: the rules tried depend on the penultimate letter. */
  function Step3(w: seq<char>): (r: seq<char>)
    requires |w| >= 1
    ensures 1 <= |r| <= |w|
  {
    if |w| == 1 then w
    else match w[|w| - 2]
      case 'a' => Step3A(w)
      case 'c' => Step3C(w)
      case 'e' => if EndsWith(w, "izer") then Rule(w, "izer", "ize") else w
      case 'l' => Step3L(w)
      case 'o' => Step3O(w)
      case 's' => Step3S(w)
      case 't' => Step3T(w)
      case 'g' => if EndsWith(w, "logi") then Rule(w, "logi", "log") else w
      case _ => w
  }

  function Step3A(w: seq<char>): (r: seq<char>)
    requires |w| >= 1
    ensures 1 <= |r| <= |w|
  {
    if EndsWith(w, "ational") then Rule(w, "ational", "ate")
    else if EndsWith(w, "tional") then Rule(w, "tional", "tion")
    else w
  }

  function Step3C(w: seq<char>): (r: seq<char>)
    requires |w| >= 1
    ensures 1 <= |r| <= |w|
  {
    if EndsWith(w, "enci") then Rule(w, "enci", "ence")
    else if EndsWith(w, "anci") then Rule(w, "anci", "ance")
    else w
  }

  function Step3L(w: seq<char>): (r: seq<char>)
    requires |w| >= 1
    ensures 1 <= |r| <= |w|
  {
    if EndsWith(w, "bli") then Rule(w, "bli", "ble")
    else if EndsWith(w, "alli") then Rule(w, "alli", "al")
    else if EndsWith(w, "entli") then Rule(w, "entli", "ent")
    else if EndsWith(w, "eli") then Rule(w, "eli", "e")
    else if EndsWith(w, "ousli") then Rule(w, "ousli", "ous")
    else w
  }

  function Step3O(w: seq<char>): (r: seq<char>)
    requires |w| >= 1
    ensures 1 <= |r| <= |w|
  {
    if EndsWith(w, "ization") then Rule(w, "ization", "ize")
    else if EndsWith(w, "ation") then Rule(w, "ation", "ate")
    else if EndsWith(w, "ator") then Rule(w, "ator", "ate")
    else w
  }

  function Step3S(w: seq<char>): (r: seq<char>)
    requires |w| >= 1
    ensures 1 <= |r| <= |w|
  {
    if EndsWith(w, "alism") then Rule(w, "alism", "al")
    else if EndsWith(w, "iveness") then Rule(w, "iveness", "ive")
    else if EndsWith(w, "fulness") then Rule(w, "fulness", "ful")
    else if EndsWith(w, "ousness") then Rule(w, "ousness", "ous")
    else w
  }

  function Step3T(w: seq<char>): (r: seq<char>)
    requires |w| >= 1
    ensures 1 <= |r| <= |w|
  {
    if EndsWith(w, "aliti") then Rule(w, "aliti", "al")
    else if EndsWith(w, "iviti") then Rule(w, "iviti", "ive")
    else if EndsWith(w, "biliti") then Rule(w, "biliti", "ble")
    else w
  }

  // ---------------------------------------------------------------------------
  // Step 4: -ic-, -full, -ness and the like, keyed on the last letter
  // ---------------------------------------------------------------------------

  /** `step4()`: the rules tried depend on the last letter. */
  function Step4(w: seq<char>): (r: seq<char>)
    requires |w| >= 1
    ensures 1 <= |r| <= |w|
  {
    match w[|w| - 1]
    case 'e' => Step4E(w)
    case 'i' => if EndsWith(w, "iciti") then Rule(w, "iciti", "ic") else w
    case 'l' => Step4L(w)
    case 's' => if EndsWith(w, "ness") then Rule(w, "ness", "") else w
    case _ => w
  }

  function Step4E(w: seq<char>): (r: seq<char>)
    requires |w| >= 1
    ensures 1 <= |r| <= |w|
  {
    if EndsWith(w, "icate") then Rule(w, "icate", "ic")
    else if EndsWith(w, "ative") then Rule(w, "ative", "")
    else if EndsWith(w, "alize") then Rule(w, "alize", "al")
    else w
  }

  function Step4L(w: seq<char>): (r: seq<char>)
    requires |w| >= 1
    ensures 1 <= |r| <= |w|
  {
    if EndsWith(w, "ical") then Rule(w, "ical", "ic")
    else if EndsWith(w, "ful") then Rule(w, "ful", "")
    else w
  }

  // ---------------------------------------------------------------------------
  // Step 5: -ant, -ence and the like, removed when m > 1
  // ---------------------------------------------------------------------------

  /** `Some(s)` when the word ends with `s`. */
  function SuffixIf(w: seq<char>, s: seq<char>): (o: Option<seq<char>>)
    ensures o.Some? <==> EndsWith(w, s)
    ensures o.Some? ==> o.value == s
  {
    if EndsWith(w, s) then Some(s) else None
  }

  /** The suffix step 5 selects, keyed on the penultimate letter. */
  function Step5Suffix(w: seq<char>): (s: Option<seq<char>>)
    requires |w| >= 2
    ensures s.Some? ==> EndsWith(w, s.value) && 2 <= |s.value| <= 5
  {
    match w[|w| - 2]
    case 'a' => SuffixIf(w, "al")
    case 'c' => Step5C(w)
    case 'e' => SuffixIf(w, "er")
    case 'i' => SuffixIf(w, "ic")
    case 'l' => Step5L(w)
    case 'n' => Step5N(w)
    case 'o' => Step5O(w)
    case 's' => SuffixIf(w, "ism")
    case 't' => Step5T(w)
    case 'u' => SuffixIf(w, "ous")
    case 'v' => SuffixIf(w, "ive")
    case 'z' => SuffixIf(w, "ize")
    case _ => None
  }

  function Step5C(w: seq<char>): (s: Option<seq<char>>)
    ensures s.Some? ==> EndsWith(w, s.value) && |s.value| == 4
  {
    if EndsWith(w, "ance") then Some("ance")
    else SuffixIf(w, "ence")
  }

  function Step5L(w: seq<char>): (s: Option<seq<char>>)
    ensures s.Some? ==> EndsWith(w, s.value) && |s.value| == 4
  {
    if EndsWith(w, "able") then Some("able")
    else SuffixIf(w, "ible")
  }

  function Step5N(w: seq<char>): (s: Option<seq<char>>)
    ensures s.Some? ==> EndsWith(w, s.value) && 3 <= |s.value| <= 5
  {
    if EndsWith(w, "ant") then Some("ant")
    else if EndsWith(w, "ement") then Some("ement")
    else if EndsWith(w, "ment") then Some("ment")
    else SuffixIf(w, "ent")
  }

  /** `ion` counts only after s or t. */
  function Step5O(w: seq<char>): (s: Option<seq<char>>)
    ensures s.Some? ==> EndsWith(w, s.value) && 2 <= |s.value| <= 3
  {
    if EndsWith(w, "ion") && |w| >= 4 && (w[|w| - 4] == 's' || w[|w| - 4] == 't') then Some("ion")
    else SuffixIf(w, "ou")
  }

  function Step5T(w: seq<char>): (s: Option<seq<char>>)
    ensures s.Some? ==> EndsWith(w, s.value) && |s.value| == 3
  {
    if EndsWith(w, "ate") then Some("ate")
    else SuffixIf(w, "iti")
  }

  function Step5(w: seq<char>): (r: seq<char>)
    requires |w| >= 1
    ensures 1 <= |r| <= |w| && r == w[..|r|]
  {
    if |w| == 1 then w
    else match Step5Suffix(w)
      case None => w
      case Some(s) => if Measure(w[..|w| - |s|]) > 1 then w[..|w| - |s|] else w
  }

  /** Every suffix step 5 removes, whatever letter keys it. */
  const Step5Suffixes: set<seq<char>> :=
    {"al", "ance", "ence", "er", "ic", "able", "ible", "ant", "ement", "ment", "ent",
     "ion", "ou", "ism", "ate", "iti", "ous", "ive", "ize"}

  /** `t` ends the word and, for ion, follows s or t. */
  predicate Step5Qualifies(w: seq<char>, t: seq<char>)
  {
    EndsWith(w, t) && (t == "ion" ==> |w| >= 4 && (w[|w| - 4] == 's' || w[|w| - 4] == 't'))
  }

  /** A listed suffix that qualifies is found by the switch, and what the
      switch selects is at least as long. */
  lemma Step5Finds(w: seq<char>, t: seq<char>)
    requires |w| >= 2 && t in Step5Suffixes && Step5Qualifies(w, t)
    ensures Step5Suffix(w).Some? && |t| <= |Step5Suffix(w).value|
  {
    EndsWithSlice(w, t);
    assert w[|w| - 2] == w[|w| - |t|..][|t| - 2] == t[|t| - 2];
    if t in {"ant", "ement", "ment", "ent"} {
      Step5FindsN(w, t);
    } else if t == "ou" {
      assert w[|w| - 1] == 'u';
      EndsWithSlice(w, "ion");
    }
  }

  /** Under the key letter n: ant excludes the others, and of ement, ment
      and ent the longest that ends the word is taken. */
  lemma Step5FindsN(w: seq<char>, t: seq<char>)
    requires |w| >= 2 && t in {"ant", "ement", "ment", "ent"} && EndsWith(w, t)
    requires w[|w| - 2] == 'n'
    ensures Step5Suffix(w).Some? && |t| <= |Step5Suffix(w).value|
  {
    EndsWithSlice(w, t);
    assert w[|w| - 3] == w[|w| - |t|..][|t| - 3] == t[|t| - 3];
    EndsWithSlice(w, "ant");
    assert Step5Suffix(w) == Step5N(w);
  }

  /** Step 5's switch selects the longest listed suffix that ends the word
      (ion only after s or t), and nothing when none does. */
  lemma Step5SuffixLongest(w: seq<char>)
    requires |w| >= 2
    ensures Step5Suffix(w).Some? ==>
              Step5Suffix(w).value in Step5Suffixes && Step5Qualifies(w, Step5Suffix(w).value)
    ensures forall t :: t in Step5Suffixes && Step5Qualifies(w, t) ==>
              Step5Suffix(w).Some? && |t| <= |Step5Suffix(w).value|
  {
    forall t | t in Step5Suffixes && Step5Qualifies(w, t)
      ensures Step5Suffix(w).Some? && |t| <= |Step5Suffix(w).value|
    {
      Step5Finds(w, t);
    }
  }

  /** Once step 5 has selected a suffix, leaving the stem `w[..n]`, it cuts
      there exactly when that stem has m > 1. */
  lemma Step5Cut(w: seq<char>, n: nat)
    requires |w| >= 2 && Step5Suffix(w).Some? && n == |w| - |Step5Suffix(w).value|
    ensures Step5(w) == if Measure(w[..n]) > 1 then w[..n] else w
  {
  }

  /** `ion` is selected only when s or t precedes it. */
  lemma Step5Ion(w: seq<char>)
    requires |w| >= 2
    ensures Step5Suffix(w) == Some("ion") <==>
              EndsWith(w, "ion") && |w| >= 4 && (w[|w| - 4] == 's' || w[|w| - 4] == 't')
  {
    EndsWithSlice(w, "ion");
    if EndsWith(w, "ion") {
      assert w[|w| - 2] == w[|w| - 3..][1] == 'o';
      assert Step5Suffix(w) == Step5O(w);
    }
  }

  /** Step 5 either keeps the word or cuts off the suffix it selected, and
      then what is left has m > 1. */
  lemma Step5Effect(w: seq<char>)
    requires |w| >= 1
    ensures var r := Step5(w);
      r == w || (|w| >= 2 && Step5Suffix(w) == Some(w[|r|..]) && Measure(r) > 1)
    ensures |w| >= 2 && Step5Suffix(w).Some? ==>
      var n := |w| - |Step5Suffix(w).value|;
      Measure(w[..n]) > 1 ==> Step5(w) == w[..n]
  {
    if |w| >= 2 && Step5Suffix(w).Some? {
      EndsWithSlice(w, Step5Suffix(w).value);
    }
  }

  // ---------------------------------------------------------------------------
  // Step 6: final -e, and -ll -> -l, when m > 1
  // ---------------------------------------------------------------------------

  /** Step 6 drops a final e when m > 1, or when m == 1 and the word before
      it is not CVC; then -ll becomes -l when m > 1. Both tests use the
      measure `m` of the word as step 6 found it. */
  function Step6(w: seq<char>): (r: seq<char>)
    requires |w| >= 1
    ensures 1 <= |r| <= |w| && r == w[..|r|]
  {
    Step6L(Step6E(w), Measure(w))
  }

  function Step6E(w: seq<char>): (r: seq<char>)
    requires |w| >= 1
    ensures 1 <= |r| <= |w| && r == w[..|r|]
  {
    var a := Measure(w);
    if w[|w| - 1] == 'e' && (a > 1 || (a == 1 && !Cvc(w[..|w| - 1]))) then w[..|w| - 1] else w
  }

  function Step6L(w: seq<char>, m: nat): (r: seq<char>)
    requires |w| >= 1
    ensures 1 <= |r| <= |w| && r == w[..|r|]
  {
    if w[|w| - 1] == 'l' && DoubleC(w) && m > 1 then w[..|w| - 1] else w
  }

  /** Step 6 with `m` the measure of the word it starts from: a final e
      goes when m > 1, or when m == 1 and the word before it is not CVC;
      then a final ll loses an l when m > 1. Nothing else changes. */
  lemma Step6Effect(w: seq<char>)
    requires |w| >= 1
    ensures var m, n, r := Measure(w), |w|, Step6(w);
      && (w[n - 1] == 'e' && (m > 1 || (m == 1 && !Cvc(w[..n - 1]))) ==>
            r == if m > 1 && n >= 3 && w[n - 2] == 'l' && w[n - 3] == 'l' then w[..n - 2] else w[..n - 1])
      && (w[n - 1] == 'e' && !(m > 1 || (m == 1 && !Cvc(w[..n - 1]))) ==> r == w)
      && (w[n - 1] == 'l' ==> r == if m > 1 && n >= 2 && w[n - 2] == 'l' then w[..n - 1] else w)
      && (w[n - 1] != 'e' && w[n - 1] != 'l' ==> r == w)
  {
    var m, n := Measure(w), |w|;
    if w[n - 1] == 'e' && (m > 1 || (m == 1 && !Cvc(w[..n - 1]))) {
      var v := w[..n - 1];
      assert Step6E(w) == v;
      if n >= 2 {
        assert v[|v| - 1] == w[n - 2];
        if n >= 3 {
          assert v[|v| - 2] == w[n - 3];
        }
        assert v[..|v| - 1] == w[..n - 2];
      }
    }
  }

  /** The whole pipeline; words of length at most 2 are left alone. */
  function StemWord(w: seq<char>): (r: seq<char>)
    ensures |r| <= |w|
    ensures |w| >= 1 ==> |r| >= 1
    ensures |w| <= 2 ==> r == w
  {
    if |w| <= 2 then w
    else Step6(Step5(Step4(Step3(Step2(Step1(w))))))
  }
}
