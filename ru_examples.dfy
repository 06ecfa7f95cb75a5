/**
 * Worked examples of the Russian stemmer: the case in the source's own
 * comment (дружбы to дружб), and the lookbehind of the perfective gerund,
 * which looks only inside the part after the first vowel.
 */
module RuExamples {
  import opened Optional
  import opened RuStemmer

  /** With the first match at `n`, stripping cuts the string there. */
  lemma StripAt(pat: SuffixPattern, r: string, n: nat)
    requires n < |r| && MatchAt(pat, r, n)
    requires forall q :: 0 <= q < n ==> !MatchAt(pat, r, q)
    ensures Strip(pat, r) == r[..n]
  {
  }

  /** A three-letter string without а or я before its last letter, none of
      whose suffixes is listed in `pat`, is left alone by `pat`. */
  lemma StripThree(pat: SuffixPattern, r: string)
    requires |r| == 3 && r[0] != 'а' && r[0] != 'я' && r[1] != 'а' && r[1] != 'я'
    requires r !in pat.plain && r[1..] !in pat.plain && r[2..] !in pat.plain
    ensures Strip(pat, r) == r
  {
    assert r[0..] == r;
    assert !MatchAt(pat, r, 0) && !MatchAt(pat, r, 1) && !MatchAt(pat, r, 2);
  }

  /** `stem` from the first vowel of the normalised word and the stemmed
      rest. */
  lemma StemBy(word: string, v: nat, stem: string)
    requires FirstVowel(Normalize(word), 0) == Some(v)
    requires v + 1 < |word| && Finish(Endings(Normalize(word)[v + 1..])) == stem
    ensures Stem(word) == Normalize(word)[..v + 1] + stem
  {
  }

  // дружбы: prefix дру, the noun ending ы goes.

  lemma DruzhbySplit()
    ensures FirstVowel(Normalize("дружбы"), 0) == Some(2)
    ensures Normalize("дружбы")[..3] == "дру"
    ensures Normalize("дружбы")[3..] == "жбы"
  {
    assert Normalize("дружбы") == "дружбы";
  }

  lemma DruzhbyNotPerfective()
    ensures Strip(PerfectiveGerund, "жбы") == "жбы"
    ensures Strip(Reflexive, "жбы") == "жбы"
  {
    var r := "жбы";
    assert r[1..] == "бы" && r[2..] == "ы";
    StripThree(PerfectiveGerund, r);
    StripThree(Reflexive, r);
  }

  lemma DruzhbyNotAdjective()
    ensures Strip(Adjective, "жбы") == "жбы"
  {
    var r := "жбы";
    assert r[1..] == "бы" && r[2..] == "ы";
    StripThree(Adjective, r);
  }

  lemma DruzhbyNotVerb()
    ensures Strip(Verb, "жбы") == "жбы"
  {
    var r := "жбы";
    assert r[1..] == "бы" && r[2..] == "ы";
    StripThree(Verb, r);
  }

  lemma DruzhbyNoun()
    ensures Strip(Noun, "жбы") == "жб"
  {
    var r := "жбы";
    assert r[0..] == "жбы" && r[1..] == "бы" && r[2..] == "ы";
    StripAt(Noun, r, 2);
  }

  lemma DruzhbyEndings()
    ensures Endings("жбы") == "жб"
  {
    DruzhbyNotPerfective();
    DruzhbyNotAdjective();
    DruzhbyNotVerb();
    DruzhbyNoun();
  }

  /** A two-letter string that neither the whole nor the last letter of
      which is a suffix of `pat` is left alone by `pat`. */
  lemma StripTwo(pat: SuffixPattern, r: string)
    requires |r| == 2 && pat.afterAYa == {}
    requires r !in pat.plain && [r[1]] !in pat.plain
    ensures Strip(pat, r) == r
  {
    assert r[0..] == r && r[1..] == [r[1]];
    assert !MatchAt(pat, r, 0) && !MatchAt(pat, r, 1);
  }

  /** No final stage changes a root of two letters with no и, ь or н at
      its end. */
  lemma FinishTwoLetters(r: string)
    requires |r| == 2 && r[1] != 'и' && r[1] != 'ь' && r[1] != 'н'
    ensures Finish(r) == r
  {
    StripTwo(ISuffix, r);
    assert !DerivationalMatch(r);
    StripTwo(SoftSign, r);
    StripTwo(Superlative, r);
    assert r[|r| - 2..] != "нн";
  }

  lemma DruzhbyRoot()
    ensures Finish(Endings("жбы")) == "жб"
  {
    DruzhbyEndings();
    FinishTwoLetters("жб");
  }

  /** The prefix is дру and the rest stems to жб, so by `StemBy` the stem
      is дружб. */
  lemma Druzhby()
    ensures FirstVowel(Normalize("дружбы"), 0) == Some(2)
    ensures Normalize("дружбы")[..3] == "дру"
    ensures Finish(Endings(Normalize("дружбы")[3..])) == "жб"
  {
    DruzhbySplit();
    DruzhbyRoot();
  }

  // читавши: the а before вши is inside the root, so вши is a perfective
  // gerund ending.

  lemma ChitavshiSplit()
    ensures FirstVowel(Normalize("читавши"), 0) == Some(1)
    ensures Normalize("читавши")[..2] == "чи"
    ensures Normalize("читавши")[2..] == "тавши"
  {
    assert Normalize("читавши") == "читавши";
  }

  lemma ChitavshiEndings()
    ensures Endings("тавши") == "та"
  {
    var r := "тавши";
    assert r[0..] == "тавши" && r[1..] == "авши" && r[2..] == "вши";
    StripAt(PerfectiveGerund, r, 2);
  }

  lemma ChitavshiRoot()
    ensures Finish(Endings("тавши")) == "та"
  {
    ChitavshiEndings();
    FinishTwoLetters("та");
  }

  /** The prefix is чи and the rest stems to та, so by `StemBy` the stem
      is чита. */
  lemma Chitavshi()
    ensures FirstVowel(Normalize("читавши"), 0) == Some(1)
    ensures Normalize("читавши")[..2] == "чи"
    ensures Finish(Endings(Normalize("читавши")[2..])) == "та"
  {
    ChitavshiSplit();
    ChitavshiRoot();
  }

  // давши: the а before вши is the first vowel and stays in the prefix, so
  // the lookbehind fails and only the noun ending и goes.

  lemma DavshiSplit()
    ensures FirstVowel(Normalize("давши"), 0) == Some(1)
    ensures Normalize("давши")[..2] == "да"
    ensures Normalize("давши")[2..] == "вши"
  {
    assert Normalize("давши") == "давши";
  }

  lemma DavshiNotPerfective()
    ensures Strip(PerfectiveGerund, "вши") == "вши"
    ensures Strip(Reflexive, "вши") == "вши"
  {
    var r := "вши";
    assert r[1..] == "ши" && r[2..] == "и";
    StripThree(PerfectiveGerund, r);
    StripThree(Reflexive, r);
  }

  lemma DavshiNotAdjective()
    ensures Strip(Adjective, "вши") == "вши"
  {
    var r := "вши";
    assert r[1..] == "ши" && r[2..] == "и";
    StripThree(Adjective, r);
  }

  lemma DavshiNotVerb()
    ensures Strip(Verb, "вши") == "вши"
  {
    var r := "вши";
    assert r[1..] == "ши" && r[2..] == "и";
    StripThree(Verb, r);
  }

  lemma DavshiNoun()
    ensures Strip(Noun, "вши") == "вш"
  {
    var r := "вши";
    assert r[0..] == "вши" && r[1..] == "ши" && r[2..] == "и";
    StripAt(Noun, r, 2);
  }

  lemma DavshiEndings()
    ensures Endings("вши") == "вш"
  {
    DavshiNotPerfective();
    DavshiNotAdjective();
    DavshiNotVerb();
    DavshiNoun();
  }

  lemma DavshiRoot()
    ensures Finish(Endings("вши")) == "вш"
  {
    DavshiEndings();
    FinishTwoLetters("вш");
  }

  /** The prefix is да and the rest stems to вш, so by `StemBy` the stem
      is давш. */
  lemma Davshi()
    ensures FirstVowel(Normalize("давши"), 0) == Some(1)
    ensures Normalize("давши")[..2] == "да"
    ensures Finish(Endings(Normalize("давши")[2..])) == "вш"
  {
    DavshiSplit();
    DavshiRoot();
  }
}
