/**
 * The English Porter stemmer as the object it is: a growable character
 * buffer `b` with the write cursor `i`, the working end `k`, the suffix
 * boundary `j` and the result length `iEnd`. Every step rewrites the buffer
 * in place and is proved to compute the corresponding function of EnRules
 * on the word `b[0..k]`.
 */
module EnStemmer {
  import opened EnRules

  /** Growth step of the buffer. */
  const Inc: nat := 50

  class PorterStemmerEn {
    var b: array<char>
    var i: int
    var iEnd: int
    var j: int
    var k: int

    ghost predicate Valid()
      reads this
    {
      && 0 <= i <= b.Length
      && 0 <= iEnd <= b.Length
      && -1 <= j < b.Length
      && -1 <= k < b.Length
    }

    /** The word being stemmed, `b[0..k]`. */
    ghost function Word(): seq<char>
      reads this, b
      requires Valid()
    {
      b[..k + 1]
    }

    constructor ()
      ensures Valid() && fresh(b) && b.Length == Inc
      ensures i == 0 && iEnd == 0
    {
      b := new char[Inc];
      i := 0;
      iEnd := 0;
      j := 0;
      k := 0;
    }

    /** Appends one character, growing the buffer when it is full. */
    method Add(ch: char)
      requires Valid()
      modifies this, b
      ensures Valid() && (b == old(b) || fresh(b))
      ensures old(i) < old(b.Length) ==> b == old(b)
      ensures old(i) == old(b.Length) ==> fresh(b) && b.Length == old(i) + Inc
      ensures i == old(i) + 1 && b[..i] == old(b[..i]) + [ch]
      ensures iEnd == old(iEnd) && j == old(j) && k == old(k)
    {
      if i == b.Length {
        var newB := new char[i + Inc];
        forall p | 0 <= p < i {
          newB[p] := b[p];
        }
        b := newB;
      }
      b[i] := ch;
      i := i + 1;
    }

    /** Appends the first `wLen` characters of `w`; afterwards the buffer has
        room for at least one more character. */
    method AddArray(w: array<char>, wLen: int)
      requires Valid() && 0 <= wLen <= w.Length
      requires w != b
      modifies this, b
      ensures Valid() && (b == old(b) || fresh(b)) && i < b.Length
      ensures i == old(i) + wLen && b[..i] == old(b[..i]) + w[..wLen]
      ensures iEnd == old(iEnd) && j == old(j) && k == old(k)
    {
      if i + wLen >= b.Length {
        var newB := new char[i + wLen + Inc];
        forall p | 0 <= p < i {
          newB[p] := b[p];
        }
        b := newB;
      }
      for c := 0 to wLen
        invariant w != b && (b == old(b) || fresh(b))
        invariant i == old(i) + c && i + (wLen - c) < b.Length
        invariant b[..i] == old(b[..i]) + w[..c]
        invariant iEnd <= b.Length && -1 <= j < b.Length && -1 <= k < b.Length
        invariant iEnd == old(iEnd) && j == old(j) && k == old(k)
      {
        b[i] := w[c];
        i := i + 1;
      }
    }

    /** The stem: the first `iEnd` characters of the buffer. */
    method ToString() returns (s: string)
      requires Valid()
      ensures |s| == iEnd && s == b[..iEnd]
    {
      s := b[..iEnd];
    }

    /** `m()`: the measure of `b[0..j]`, by scanning consonant and vowel runs. */
    method M() returns (n: int)
      requires Valid()
      ensures n == Measure(b[..j + 1])
      ensures j <= k ==> n == Measure(Word()[..j + 1])
      ensures 0 <= n && 2 * n <= j + 1
    {
      var w := b[..j + 1];
      assert j <= k ==> w == Word()[..j + 1];
      n := MeasureScan(w);
    }

    /** The loops of `m()` over the letters `w` of `b[0..j]`: skip the
        leading consonants, then count each vowel run followed by a
        consonant run. */
    static method MeasureScan(w: seq<char>) returns (n: int)
      ensures n == Measure(w)
    {
      n := 0;
      var p := 0;
      while true
        invariant 0 <= p <= |w| && n == MeasureTo(w, p)
        invariant p > 0 ==> Cons(w, p - 1)
        decreases |w| - p
      {
        if p >= |w| {
          return;
        }
        if !Cons(w, p) {
          break;
        }
        p := p + 1;
      }
      p := p + 1;
      while true
        invariant 1 <= p <= |w| && !Cons(w, p - 1) && n == MeasureTo(w, p)
        decreases |w| - p
      {
        while true
          invariant 1 <= p <= |w| && !Cons(w, p - 1) && n == MeasureTo(w, p)
          decreases |w| - p
        {
          if p >= |w| {
            return;
          }
          if Cons(w, p) {
            break;
          }
          p := p + 1;
        }
        p := p + 1;
        n := n + 1;
        while true
          invariant 2 <= p <= |w| && Cons(w, p - 1) && n == MeasureTo(w, p)
          decreases |w| - p
        {
          if p >= |w| {
            return;
          }
          if !Cons(w, p) {
            break;
          }
          p := p + 1;
        }
        p := p + 1;
      }
    }

    /** `vowelinstem()`: some position of `b[0..j]` is a vowel. */
    method VowelInStem() returns (r: bool)
      requires Valid()
      ensures r == VowelIn(b[..j + 1])
      ensures j <= k ==> r == VowelIn(Word()[..j + 1])
    {
      var w := b[..j + 1];
      assert j <= k ==> w == Word()[..j + 1];
      for p := 0 to |w|
        invariant !VowelBefore(w, p)
      {
        if !Cons(w, p) {
          VowelBeforeMonotone(w, p + 1, |w|);
          return true;
        }
      }
      return false;
    }

    /** `ends(s)`: whether the word ends with `s`; on success the boundary `j`
        is set to the index just before the suffix, otherwise it is kept. */
    method Ends(s: string) returns (r: bool)
      requires Valid()
      modifies this`j
      ensures Valid()
      ensures Word() == old(Word())
      ensures r == EndsWith(Word(), s)
      ensures if r then j == k - |s| else j == old(j)
    {
      var l := |s|;
      var o := k - l + 1;
      if o < 0 {
        EndsWithSlice(Word(), s);
        return false;
      }
      for p := 0 to l
        invariant forall q :: 0 <= q < p ==> b[o + q] == s[q]
      {
        if b[o + p] != s[p] {
          assert Word()[o..][p] != s[p];
          EndsWithSlice(Word(), s);
          return false;
        }
      }
      assert Word()[o..] == s;
      EndsWithSlice(Word(), s);
      j := k - l;
      return true;
    }

    /** `sett(s)`: writes `s` just after the boundary `j` and makes it the end
        of the word. */
    method SetTo(s: string)
      requires Valid() && j + |s| < b.Length
      modifies this`k, b
      ensures Valid() && k == j + |s|
      ensures Word() == old(b[..j + 1]) + s
      ensures j <= old(k) ==> Word() == old(Word()[..j + 1]) + s
      ensures forall p :: k < p < b.Length ==> b[p] == old(b[p])
    {
      var o := j + 1;
      for p := 0 to |s|
        invariant forall q :: 0 <= q < p ==> b[o + q] == s[q]
        invariant forall q :: 0 <= q < b.Length && !(o <= q < o + p) ==> b[q] == old(b[q])
      {
        b[o + p] := s[p];
      }
      k := j + |s|;
      assert Word() == old(b[..j + 1]) + s by {
        assert forall q :: 0 <= q <= j ==> b[q] == old(b[q]);
      }
    }

    /** `r(s)`: `sett(s)` when the stem before the boundary has m > 0. */
    method R(s: string)
      requires Valid() && j + |s| < b.Length
      modifies this`k, b
      ensures Valid()
      ensures Measure(old(b[..j + 1])) > 0 ==> k == j + |s| && Word() == old(b[..j + 1]) + s
      ensures Measure(old(b[..j + 1])) == 0 ==> k == old(k) && b[..] == old(b[..])
      ensures j <= old(k) ==> Word() == if Measure(old(Word()[..j + 1])) > 0 then old(Word()[..j + 1]) + s else old(Word())
      ensures forall p :: j + |s| < p < b.Length ==> b[p] == old(b[p])
    {
      var a := M();
      if a > 0 {
        SetTo(s);
      }
    }

    /** `stem()`: stems the word `b[0..i)` written so far; words of at most two
        letters are kept. The stem becomes `b[0..iEnd)` and the cursor is reset. */
    method Stem()
      requires Valid()
      modifies this`i, this`iEnd, this`j, this`k, b
      ensures Valid() && i == 0 && iEnd <= old(i)
      ensures b[..iEnd] == StemWord(old(b[..i]))
    {
      ghost var w := b[..i];
      k := i - 1;
      assert Word() == w;
      if k > 1 {
        Steps();
      }
      SetResult(w);
    }

    /** Records the result length and resets the cursor. */
    method SetResult(ghost w: seq<char>)
      requires Valid() && k >= -1 && Word() == StemWord(w)
      modifies this`i, this`iEnd
      ensures Valid() && i == 0 && iEnd == old(k) + 1
      ensures b[..iEnd] == StemWord(w)
    {
      iEnd := k + 1;
      i := 0;
    }

    /** Steps 1 to 6 in order, on a word of at least three letters. */
    method Steps()
      requires Valid() && k > 1
      modifies this`j, this`k, b
      ensures Valid() && k >= 0 && k <= old(k)
      ensures Word() == StemWord(old(Word()))
    {
      ghost var w := Word();
      Step1();
      Step2();
      Step3();
      Step4();
      Step5();
      Step6();
    }

    /** `step1()`: plurals, then -eed, -ed and -ing. */
    method Step1()
      requires Valid() && k >= 2
      modifies this`j, this`k, b
      ensures Valid() && k >= 0 && Word() == EnRules.Step1(old(Word()))
    {
      Step1Plurals();
      Step1Endings();
    }

    /** The plural half of `step1()`: sses -> ss, ies -> i, a lone final s
        dropped. */
    method Step1Plurals()
      requires Valid() && k >= 2
      modifies this`j, this`k, b
      ensures Valid() && Word() == EnRules.Step1Plurals(old(Word()))
    {
      ghost var w := Word();
      if b[k] != 's' {
        return;
      }
      var e := Ends("sses");
      if e {
        k := k - 2;
        assert Word() == w[..|w| - 2];
        return;
      }
      e := Ends("ies");
      if e {
        Step1Ies();
        return;
      }
      assert EnRules.Step1Plurals(w) == if w[|w| - 2] != 's' then w[..|w| - 1] else w;
      if b[k - 1] != 's' {
        k := k - 1;
        assert Word() == w[..|w| - 1];
      }
    }

    /** ies -> i, once `Ends("ies")` has set `j`. */
    method Step1Ies()
      requires Valid() && k >= 2 && b[k] == 's'
      requires !EndsWith(Word(), "sses") && EndsWith(Word(), "ies") && j == k - 3
      modifies this`k, b
      ensures Valid() && Word() == EnRules.Step1Plurals(old(Word()))
    {
      ghost var w := Word();
      assert EnRules.Step1Plurals(w) == Replace(w, "ies", "i");
      SetTo("i");
      assert Word() == Replace(w, "ies", "i");
    }

    /** The -eed, -ed and -ing half of `step1()`. */
    method Step1Endings()
      requires Valid() && k >= 0
      modifies this`j, this`k, b
      ensures Valid() && Word() == EnRules.Step1Endings(old(Word()))
    {
      ghost var w := Word();
      assert !EndsWith(w, "eed") ==> EnRules.Step1Endings(w) == EnRules.Step1EdIng(w);
      var e := Ends("eed");
      if e {
        var a := M();
        if a > 0 {
          k := k - 1;
          assert Word() == w[..|w| - 1];
        }
        return;
      }
      Step1EdIng();
    }

    /** `(ends("ed") || ends("ing")) && vowelinstem()`, then the cleanup. */
    method Step1EdIng()
      requires Valid() && k >= 0
      modifies this`j, this`k, b
      ensures Valid() && Word() == EnRules.Step1EdIng(old(Word()))
    {
      var e := EndsEdIng();
      if !e {
        return;
      }
      var v := VowelInStem();
      if v {
        Step1Cleanup();
      }
    }

    /** `ends("ed") || ends("ing")`: `j` is left before the ending found. */
    method EndsEdIng() returns (e: bool)
      requires Valid()
      modifies this`j
      ensures Valid() && Word() == old(Word())
      ensures e == (EdIngLength(Word()) > 0)
      ensures e ==> j == k - EdIngLength(Word())
    {
      e := Ends("ed");
      if !e {
        e := Ends("ing");
      }
    }

    /** The cleanup once -ed or -ing has been cut off: -at, -bl, -iz regain
        their e; otherwise the tail rules apply. */
    method Step1Cleanup()
      requires Valid() && 0 <= j < k
      modifies this`j, this`k, b
      ensures Valid() && Word() == EnRules.Step1Cleanup(old(Word()[..j + 1]))
    {
      k := j;
      assert Word() == old(Word()[..j + 1]);
      var hit := EndsThenSet("at", "ate");
      if !hit {
        hit := EndsThenSet("bl", "ble");
      }
      if !hit {
        hit := EndsThenSet("iz", "ize");
      }
      if !hit {
        Step1CleanupTail();
      }
    }

    /** Undouble a final double consonant other than l, s or z, or add -e
        after a CVC stem with m == 1. */
    method Step1CleanupTail()
      requires Valid() && 0 <= k && j == k && k + 1 < b.Length
      modifies this`k, b
      ensures Valid() && Word() == EnRules.Step1CleanupTail(old(Word()))
    {
      ghost var s := Word();
      assert b[..k + 1] == s;
      if DoubleC(b[..k + 1]) {
        k := k - 1;
        var ch := b[k];
        assert ch == s[|s| - 2];
        if ch == 'l' || ch == 's' || ch == 'z' {
          k := k + 1;
        } else {
          assert Word() == s[..|s| - 1];
        }
        return;
      }
      var a := M();
      assert a == Measure(s);
      if a == 1 && Cvc(b[..k + 1]) {
        SetTo("e");
        assert Word() == s + "e";
      }
    }

    /** The idiom `if (ends(suf)) sett(rep)` of step 1. */
    method EndsThenSet(suf: string, rep: string) returns (hit: bool)
      requires Valid() && 0 <= k && |rep| <= |suf| + 1 && k + 1 < b.Length
      modifies this`j, this`k, b
      ensures Valid() && hit == EndsWith(old(Word()), suf)
      ensures Word() == if hit then Replace(old(Word()), suf, rep) else old(Word())
      ensures !hit ==> j == old(j)
    {
      ghost var w := Word();
      hit := Ends(suf);
      if hit {
        SetTo(rep);
      }
    }

    /** `step2()`: a final y becomes i when the stem before it has a vowel. */
    method Step2()
      requires Valid() && k >= 0
      modifies this`j, b
      ensures Valid() && Word() == EnRules.Step2(old(Word()))
      ensures forall p :: k < p < b.Length ==> b[p] == old(b[p])
    {
      var e := Ends("y");
      if e {
        assert b[..j + 1] == Word()[..k];
        var v := VowelInStem();
        if v {
          b[k] := 'i';
          assert Word() == Replace(old(Word()), "y", "i");
        }
      }
    }

    /** The idiom `if (ends(suf)) { r(rep); break; }` of steps 3 and 4. */
    method EndsThenR(suf: string, rep: string) returns (hit: bool)
      requires Valid() && 0 <= k && |rep| <= |suf|
      modifies this`j, this`k, b
      ensures Valid() && hit == EndsWith(old(Word()), suf)
      ensures Word() == if hit then Rule(old(Word()), suf, rep) else old(Word())
    {
      hit := Ends(suf);
      if hit {
        R(rep);
      }
    }

    /** `step3()`: double suffixes to single ones, by the penultimate letter. */
    method Step3()
      requires Valid() && k >= 0
      modifies this`j, this`k, b
      ensures Valid() && Word() == EnRules.Step3(old(Word()))
    {
      if k == 0 {
        return;
      }
      ghost var w := Word();
      match b[k - 1]
      case 'a' =>
        assert EnRules.Step3(w) == EnRules.Step3A(w);
        Step3A();
      case 'c' =>
        assert EnRules.Step3(w) == EnRules.Step3C(w);
        Step3C();
      case 'e' =>
        assert EnRules.Step3(w) == if EndsWith(w, "izer") then Rule(w, "izer", "ize") else w;
        var _ := EndsThenR("izer", "ize");
      case 'l' =>
        assert EnRules.Step3(w) == EnRules.Step3L(w);
        Step3L();
      case 'o' =>
        assert EnRules.Step3(w) == EnRules.Step3O(w);
        Step3O();
      case 's' =>
        assert EnRules.Step3(w) == EnRules.Step3S(w);
        Step3S();
      case 't' =>
        assert EnRules.Step3(w) == EnRules.Step3T(w);
        Step3T();
      case 'g' =>
        assert EnRules.Step3(w) == if EndsWith(w, "logi") then Rule(w, "logi", "log") else w;
        var _ := EndsThenR("logi", "log");
      case _ =>
    }

    /** Case 'a' of `step3()`. */
    method Step3A()
      requires Valid() && k >= 0
      modifies this`j, this`k, b
      ensures Valid() && Word() == EnRules.Step3A(old(Word()))
    {
      var hit := EndsThenR("ational", "ate");
      if !hit {
        hit := EndsThenR("tional", "tion");
      }
    }

    /** Case 'c' of `step3()`. */
    method Step3C()
      requires Valid() && k >= 0
      modifies this`j, this`k, b
      ensures Valid() && Word() == EnRules.Step3C(old(Word()))
    {
      var hit := EndsThenR("enci", "ence");
      if !hit {
        hit := EndsThenR("anci", "ance");
      }
    }

    /** Case 'l' of `step3()`. */
    method Step3L()
      requires Valid() && k >= 0
      modifies this`j, this`k, b
      ensures Valid() && Word() == EnRules.Step3L(old(Word()))
    {
      var hit := EndsThenR("bli", "ble");
      if !hit {
        hit := EndsThenR("alli", "al");
      }
      if !hit {
        hit := EndsThenR("entli", "ent");
      }
      if !hit {
        hit := EndsThenR("eli", "e");
      }
      if !hit {
        hit := EndsThenR("ousli", "ous");
      }
    }

    /** Case 'o' of `step3()`. */
    method Step3O()
      requires Valid() && k >= 0
      modifies this`j, this`k, b
      ensures Valid() && Word() == EnRules.Step3O(old(Word()))
    {
      var hit := EndsThenR("ization", "ize");
      if !hit {
        hit := EndsThenR("ation", "ate");
      }
      if !hit {
        hit := EndsThenR("ator", "ate");
      }
    }

    /** Case 's' of `step3()`. */
    method Step3S()
      requires Valid() && k >= 0
      modifies this`j, this`k, b
      ensures Valid() && Word() == EnRules.Step3S(old(Word()))
    {
      var hit := EndsThenR("alism", "al");
      if !hit {
        hit := EndsThenR("iveness", "ive");
      }
      if !hit {
        hit := EndsThenR("fulness", "ful");
      }
      if !hit {
        hit := EndsThenR("ousness", "ous");
      }
    }

    /** Case 't' of `step3()`. */
    method Step3T()
      requires Valid() && k >= 0
      modifies this`j, this`k, b
      ensures Valid() && Word() == EnRules.Step3T(old(Word()))
    {
      var hit := EndsThenR("aliti", "al");
      if !hit {
        hit := EndsThenR("iviti", "ive");
      }
      if !hit {
        hit := EndsThenR("biliti", "ble");
      }
    }

    /** `step4()`: -ic-, -full, -ness and the like, by the last letter. */
    method Step4()
      requires Valid() && k >= 0
      modifies this`j, this`k, b
      ensures Valid() && Word() == EnRules.Step4(old(Word()))
    {
      ghost var w := Word();
      match b[k]
      case 'e' =>
        assert EnRules.Step4(w) == EnRules.Step4E(w);
        Step4E();
      case 'i' =>
        assert EnRules.Step4(w) == if EndsWith(w, "iciti") then Rule(w, "iciti", "ic") else w;
        var _ := EndsThenR("iciti", "ic");
      case 'l' =>
        assert EnRules.Step4(w) == EnRules.Step4L(w);
        Step4L();
      case 's' =>
        assert EnRules.Step4(w) == if EndsWith(w, "ness") then Rule(w, "ness", "") else w;
        var _ := EndsThenR("ness", "");
      case _ =>
    }

    /** Case 'e' of `step4()`. */
    method Step4E()
      requires Valid() && k >= 0
      modifies this`j, this`k, b
      ensures Valid() && Word() == EnRules.Step4E(old(Word()))
    {
      var hit := EndsThenR("icate", "ic");
      if !hit {
        hit := EndsThenR("ative", "");
      }
      if !hit {
        hit := EndsThenR("alize", "al");
      }
    }

    /** Case 'l' of `step4()`. */
    method Step4L()
      requires Valid() && k >= 0
      modifies this`j, this`k, b
      ensures Valid() && Word() == EnRules.Step4L(old(Word()))
    {
      var hit := EndsThenR("ical", "ic");
      if !hit {
        hit := EndsThenR("ful", "");
      }
    }

    /** `step5()`: removes -ant, -ence and the like when m > 1 before them. */
    method Step5()
      requires Valid() && k >= 0
      modifies this`j, this`k
      ensures Valid() && Word() == EnRules.Step5(old(Word()))
    {
      if k == 0 {
        return;
      }
      var found := Step5Ends();
      if !found {
        return;
      }
      ghost var w := Word();
      ghost var stem := w[..j + 1];
      Step5Cut(w, j + 1);
      var a := M();
      assert a == Measure(stem);
      if a > 1 {
        k := j;
        assert Word() == stem;
      }
    }

    /** The switch of `step5()`: finds the suffix to try, leaving `j` before it. */
    method Step5Ends() returns (found: bool)
      requires Valid() && k >= 1
      modifies this`j
      ensures Valid() && Word() == old(Word())
      ensures found == Step5Suffix(Word()).Some?
      ensures found ==> j == k - |Step5Suffix(Word()).value|
    {
      ghost var w := Word();
      match b[k - 1]
      case 'a' =>
        assert Step5Suffix(w) == SuffixIf(w, "al");
        found := Ends("al");
      case 'c' =>
        assert Step5Suffix(w) == EnRules.Step5C(w);
        found := Step5C();
      case 'e' =>
        assert Step5Suffix(w) == SuffixIf(w, "er");
        found := Ends("er");
      case 'i' =>
        assert Step5Suffix(w) == SuffixIf(w, "ic");
        found := Ends("ic");
      case 'l' =>
        assert Step5Suffix(w) == EnRules.Step5L(w);
        found := Step5L();
      case 'n' =>
        assert Step5Suffix(w) == EnRules.Step5N(w);
        found := Step5N();
      case 'o' =>
        assert Step5Suffix(w) == EnRules.Step5O(w);
        found := Step5O();
      case 's' =>
        assert Step5Suffix(w) == SuffixIf(w, "ism");
        found := Ends("ism");
      case 't' =>
        assert Step5Suffix(w) == EnRules.Step5T(w);
        found := Step5T();
      case 'u' =>
        assert Step5Suffix(w) == SuffixIf(w, "ous");
        found := Ends("ous");
      case 'v' =>
        assert Step5Suffix(w) == SuffixIf(w, "ive");
        found := Ends("ive");
      case 'z' =>
        assert Step5Suffix(w) == SuffixIf(w, "ize");
        found := Ends("ize");
      case _ => found := false;
    }

    /** Case 'c' of `step5()`. */
    method Step5C() returns (found: bool)
      requires Valid() && k >= 0
      modifies this`j
      ensures Valid() && Word() == old(Word())
      ensures found == EnRules.Step5C(Word()).Some?
      ensures found ==> j == k - |EnRules.Step5C(Word()).value|
    {
      found := Ends("ance");
      if !found {
        found := Ends("ence");
      }
    }

    /** Case 'l' of `step5()`. */
    method Step5L() returns (found: bool)
      requires Valid() && k >= 0
      modifies this`j
      ensures Valid() && Word() == old(Word())
      ensures found == EnRules.Step5L(Word()).Some?
      ensures found ==> j == k - |EnRules.Step5L(Word()).value|
    {
      found := Ends("able");
      if !found {
        found := Ends("ible");
      }
    }

    /** Case 'n' of `step5()`. */
    method Step5N() returns (found: bool)
      requires Valid() && k >= 0
      modifies this`j
      ensures Valid() && Word() == old(Word())
      ensures found == EnRules.Step5N(Word()).Some?
      ensures found ==> j == k - |EnRules.Step5N(Word()).value|
    {
      found := Ends("ant");
      if !found {
        found := Ends("ement");
      }
      if !found {
        found := Ends("ment");
      }
      if !found {
        found := Ends("ent");
      }
    }

    /** Case 'o' of `step5()`: -ion only after s or t. */
    method Step5O() returns (found: bool)
      requires Valid() && k >= 0
      modifies this`j
      ensures Valid() && Word() == old(Word())
      ensures found == EnRules.Step5O(Word()).Some?
      ensures found ==> j == k - |EnRules.Step5O(Word()).value|
    {
      found := Ends("ion");
      found := found && j >= 0 && (b[j] == 's' || b[j] == 't');
      if !found {
        found := Ends("ou");
      }
    }

    /** Case 't' of `step5()`. */
    method Step5T() returns (found: bool)
      requires Valid() && k >= 0
      modifies this`j
      ensures Valid() && Word() == old(Word())
      ensures found == EnRules.Step5T(Word()).Some?
      ensures found ==> j == k - |EnRules.Step5T(Word()).value|
    {
      found := Ends("ate");
      if !found {
        found := Ends("iti");
      }
    }

    /** `step6()`: drops a final e when m > 1, or when m == 1 and the word
        before it is not CVC; then -ll becomes -l when m > 1. */
    method Step6()
      requires Valid() && k >= 0
      modifies this`j, this`k
      ensures Valid() && Word() == EnRules.Step6(old(Word()))
    {
      ghost var w := Word();
      j := k;
      assert b[..j + 1] == w;
      Step6E();
      Step6L();
    }

    /** The final-e half of `step6()`, with `j` at the end of the word. */
    method Step6E()
      requires Valid() && 0 <= k && j == k
      modifies this`k
      ensures Valid() && 0 <= k <= j && Word() == EnRules.Step6E(old(Word()))
    {
      ghost var w := Word();
      if b[k] == 'e' {
        var a := M();
        assert b[..k] == w[..|w| - 1];
        if a > 1 || (a == 1 && !Cvc(b[..k])) {
          k := k - 1;
          assert Word() == w[..|w| - 1];
        }
      }
    }

    /** The -ll half of `step6()`; `m()` still measures `b[0..j]`. */
    method Step6L()
      requires Valid() && 0 <= k <= j
      modifies this`k
      ensures Valid() && Word() == EnRules.Step6L(old(Word()), Measure(b[..j + 1]))
    {
      ghost var w := Word();
      if b[k] == 'l' && DoubleC(b[..k + 1]) {
        var a := M();
        if a > 1 {
          k := k - 1;
          assert Word() == w[..|w| - 1];
        }
      }
    }
  }
}
