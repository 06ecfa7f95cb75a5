/**
 * Properties of the Russian stemmer: what `stem` keeps, the order and
 * exclusivity of its stages, and examples.
 */
module RuProperties {
  import opened Optional
  import opened RuStemmer

  /** The result is a prefix of the normalised word that keeps everything up
      to and including its first vowel. */
  lemma StemIsPrefix(word: string)
    ensures var w := Normalize(word);
      && Stem(word) <= w
      && (FirstVowel(w, 0).Some? ==> FirstVowel(w, 0).value < |Stem(word)|)
  {
    var w := Normalize(word);
    match FirstVowel(w, 0)
    case None =>
    case Some(v) =>
      if v + 1 < |w| {
        var root := w[v + 1..];
        PrefixThenCut(w[..v + 1], root, Finish(Endings(root)));
        assert w == w[..v + 1] + root;
      }
  }

  /** Keeping `prefix` and shortening `root` to a prefix of it gives a
      prefix of `prefix + root`. */
  lemma PrefixThenCut(prefix: string, root: string, r: string)
    requires r <= root
    ensures prefix + r <= prefix + root
  {
    assert (prefix + root)[..|prefix| + |r|] == prefix + r;
  }

  /** A word without a vowel, or whose only vowel is its last letter, comes
      back as the normalised word. */
  lemma StemPassThrough(word: string)
    ensures var w := Normalize(word);
      (forall i :: 0 <= i < |w| - 1 ==> !IsVowel(w[i])) ==> Stem(word) == w
  {
    var w := Normalize(word);
    if forall i :: 0 <= i < |w| - 1 ==> !IsVowel(w[i]) {
      match FirstVowel(w, 0)
      case None =>
      case Some(v) =>
        assert v == |w| - 1;
    }
  }

  /** When a perfective gerund ending is found, the ending stage removes the
      longest such ending and nothing else: no reflexive, adjective,
      participle, verb or noun ending is removed. */
  lemma PerfectiveExclusive(root: string)
    requires HasMatch(PerfectiveGerund, root)
    ensures var r := Endings(root);
      && MatchAt(PerfectiveGerund, root, |r|)
      && forall q :: 0 <= q < |r| ==> !MatchAt(PerfectiveGerund, root, q)
  {
  }

  /** Without a perfective gerund: the reflexive ending goes first; a
      participle is tried only after an adjective was removed; a verb only
      without an adjective; a noun only when neither matched. */
  lemma EndingsOrder(root: string)
    requires !HasMatch(PerfectiveGerund, root)
    ensures var s := Strip(Reflexive, root);
      && Endings(root) <= s
      && (HasMatch(Adjective, s) ==> Endings(root) == Strip(Participle, Strip(Adjective, s)))
      && (!HasMatch(Adjective, s) && HasMatch(Verb, s) ==> Endings(root) == Strip(Verb, s))
      && (!HasMatch(Adjective, s) && !HasMatch(Verb, s) ==> Endings(root) == Strip(Noun, s))
  {
    var s := Strip(Reflexive, root);
    if HasMatch(Adjective, s) {
      var a := Strip(Adjective, s);
      assert Strip(Participle, a) <= a <= s;
    }
  }

  /** Some non-vowel is directly followed by a vowel in `x`. */
  predicate NonVowelThenVowel(x: string)
  {
    exists q :: 0 <= q && q + 1 < |x| && !IsVowel(x[q]) && IsVowel(x[q + 1])
  }

  /** The derivational test is: `ост` or `ость` ends the string, and what
      precedes that ending has a non-vowel directly followed by a vowel. */
  lemma DerivationalMatchSplit(r: string)
    ensures var s := Strip(Derivative, r);
      DerivationalMatch(r) <==> s != r && NonVowelThenVowel(s)
  {
    if DerivationalMatch(r) {
      DerivationalThenSplit(r);
    }
    if Strip(Derivative, r) != r && NonVowelThenVowel(Strip(Derivative, r)) {
      SplitThenDerivational(r);
    }
  }

  lemma DerivationalThenSplit(r: string)
    requires DerivationalMatch(r)
    ensures var s := Strip(Derivative, r); s != r && NonVowelThenVowel(s)
  {
    var n, q :| 0 <= q && q + 1 < n <= |r| && r[n..] in Derivative.plain
                && !IsVowel(r[q]) && IsVowel(r[q + 1]);
    DerivativeCut(r, n);
    var s := Strip(Derivative, r);
    assert s[q] == r[q] && s[q + 1] == r[q + 1];
  }

  lemma SplitThenDerivational(r: string)
    requires var s := Strip(Derivative, r); s != r && NonVowelThenVowel(s)
    ensures DerivationalMatch(r)
  {
    var s := Strip(Derivative, r);
    var q :| 0 <= q && q + 1 < |s| && !IsVowel(s[q]) && IsVowel(s[q + 1]);
    assert MatchAt(Derivative, r, |s|);
    assert r[q] == s[q] && r[q + 1] == s[q + 1];
  }

  /** Whichever of ост and ость ends `r`, stripping cuts exactly it. */
  lemma DerivativeCut(r: string, n: nat)
    requires n <= |r| && r[n..] in Derivative.plain
    ensures |Strip(Derivative, r)| == n
  {
    var s := Strip(Derivative, r);
    assert MatchAt(Derivative, r, n);
    assert MatchAt(Derivative, r, |s|);
    assert r[|r| - 1] == r[n..][|r| - n - 1] == r[|s|..][|r| - |s| - 1];
  }

  /** Replacing a final нн by н drops the last letter. */
  lemma DoubleNDropsLast(r: string)
    requires |r| >= 2 && r[|r| - 2] == 'н' && r[|r| - 1] == 'н'
    ensures HalveDoubleN(r) == r[..|r| - 1]
  {
    assert r[|r| - 2..] == "нн";
  }
}
