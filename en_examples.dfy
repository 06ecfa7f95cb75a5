/**
 * The examples in the documentation of `step1()` in PorterStemmerEn, each
 * the result of step 1 alone.
 */
module EnExamples {
  import opened EnRules

  /** A suffix seen in the word's last letters is one `EndsWith` accepts. */
  lemma EndsOn(w: seq<char>, s: seq<char>)
    requires |s| <= |w| && w[|w| - |s|..] == s
    ensures EndsWith(w, s)
  {
    EndsWithSlice(w, s);
  }

  /** A suffix not seen in the word's last letters is one `EndsWith`
      rejects. */
  lemma NotEndsOn(w: seq<char>, s: seq<char>)
    requires |s| <= |w| ==> w[|w| - |s|..] != s
    ensures !EndsWith(w, s)
  {
    EndsWithSlice(w, s);
  }

  /** Step 1 on `s + "ing"` is the cleanup of `s` when `s` has a vowel. */
  lemma Ing(w: seq<char>, s: seq<char>)
    requires |s| >= 1 && w == s + "ing" && VowelIn(s)
    ensures Step1(w) == Step1Cleanup(s)
  {
    assert w[|w| - 3..] == "ing";
    EndsOn(w, "ing");
    assert Step1Plurals(w) == w;
    assert w[..|w| - 3] == s;
  }

  lemma Step1Caresses()
    ensures Step1("caresses") == "caress"
  {
    EndsOn("caresses", "sses");
    assert Step1Plurals("caresses") == "caress";
  }

  lemma Step1Ponies()
    ensures Step1("ponies") == "poni"
  {
    EndsOn("ponies", "ies");
    assert Step1Plurals("ponies") == "poni";
    assert Step1Endings("poni") == "poni";
  }

  lemma Step1Ties()
    ensures Step1("ties") == "ti"
  {
    EndsOn("ties", "ies");
    assert Step1Plurals("ties") == "ti";
    assert Step1Endings("ti") == "ti";
  }

  lemma Step1Caress()
    ensures Step1("caress") == "caress"
  {
    var w := "caress";
    assert w[2..] == "ress" && w[3..] == "ess" && w[4..] == "ss";
    NotEndsOn(w, "sses");
    NotEndsOn(w, "ies");
    assert Step1Plurals(w) == w;
    NotEndsOn(w, "eed");
    NotEndsOn(w, "ed");
    assert w[3..] != "ing";
    NotEndsOn(w, "ing");
  }

  lemma Step1Cats()
    ensures Step1("cats") == "cat"
  {
    CatsPlural();
    CatNoEnding();
  }

  lemma CatsPlural()
    ensures Step1Plurals("cats") == "cat"
  {
    NotEndsOn("cats", "sses");
    NotEndsOn("cats", "ies");
  }

  lemma CatNoEnding()
    ensures Step1Endings("cat") == "cat"
  {
    var c := "cat";
    assert c[0..] == "cat" && c[1..] == "at";
    NotEndsOn(c, "eed");
    NotEndsOn(c, "ed");
    NotEndsOn(c, "ing");
  }

  lemma Step1Feed()
    ensures Step1("feed") == "feed"
  {
    assert Step1Plurals("feed") == "feed";
    EndsOn("feed", "eed");
    assert Measure("f") == 0;
  }

  lemma Step1Agreed()
    ensures Step1("agreed") == "agree"
  {
    assert Step1Plurals("agreed") == "agreed";
    EndsOn("agreed", "eed");
    assert "agreed"[..3] == "agr" && "agreed"[..5] == "agree";
    assert MeasureTo("agr", 2) == 1;
    assert Measure("agr") == 1;
  }

  lemma Step1Disabled()
    ensures Step1("disabled") == "disable"
  {
    var w := "disabled";
    assert Step1Plurals(w) == w;
    assert !EndsWith(w, "eed");
    EndsOn(w, "ed");
    assert w[..|w| - 2] == "disabl";
    assert VowelIn("disabl");
    EndsOn("disabl", "bl");
  }

  lemma Step1Matting()
    ensures Step1("matting") == "mat"
  {
    Ing("matting", "matt");
    assert DoubleC("matt");
  }

  lemma Step1Mating()
    ensures Step1("mating") == "mate"
  {
    Ing("mating", "mat");
    EndsOn("mat", "at");
  }

  lemma Step1Meeting()
    ensures Step1("meeting") == "meet"
  {
    Ing("meeting", "meet");
    assert MeasureTo("meet", 3) == 0;
    assert Measure("meet") == 1;
  }

  lemma Step1Milling()
    ensures Step1("milling") == "mill"
  {
    Ing("milling", "mill");
    assert DoubleC("mill");
  }

  lemma Step1Messing()
    ensures Step1("messing") == "mess"
  {
    Ing("messing", "mess");
    assert DoubleC("mess");
  }

  lemma Step1Meetings()
    ensures Step1("meetings") == "meet"
  {
    assert Step1Plurals("meetings") == "meeting";
    Ing("meeting", "meet");
    assert MeasureTo("meet", 3) == 0;
    assert Measure("meet") == 1;
  }
}
