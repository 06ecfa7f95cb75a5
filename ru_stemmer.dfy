/**
 * The Russian stemmer of PorterStemmerRu: a pure function of the word.
 *
 * Every pattern of the source is an alternation anchored at the end of the
 * string, so it is modelled as a set of suffixes. Some alternatives sit
 * behind the lookbehind `(?<=[ая])` and count only when the character just
 * before them, inside the string being matched, is а or я. `replaceFirst`
 * finds the first (leftmost) start position at which some alternative runs
 * to the end of the string, i.e. the longest listed suffix, and replaces it.
 */
module RuStemmer {
  import opened Optional

  /** The vowels of the source's character classes. */
  const Vowels: string := "аеиоуыэюя"

  predicate IsVowel(c: char)
  {
    c in Vowels
  }

  /** An end-anchored alternation: `plain` suffixes count anywhere,
      `afterAYa` ones only right after а or я. */
  datatype SuffixPattern = SuffixPattern(plain: set<string>, afterAYa: set<string>)

  const PerfectiveGerund: SuffixPattern :=
    SuffixPattern({"ив", "ивши", "ившись", "ыв", "ывши", "ывшись"}, {"в", "вши", "вшись"})

  const Adjective: SuffixPattern :=
    SuffixPattern({"ее", "ие", "ые", "ое", "ими", "ыми", "ей", "ий", "ый", "ой", "ем", "им", "ым",
                   "ом", "его", "ого", "ему", "ому", "их", "ых", "ую", "юю", "ая", "яя", "ою", "ею"}, {})

  const Participle: SuffixPattern :=
    SuffixPattern({"ивш", "ывш", "ующ"}, {"ем", "нн", "вш", "ющ", "щ"})

  const Verb: SuffixPattern :=
    SuffixPattern({"ила", "ыла", "ена", "ейте", "уйте", "ите", "или", "ыли", "ей", "уй", "ил", "ыл",
                   "им", "ым", "ен", "ило", "ыло", "ено", "ят", "ует", "уют", "ит", "ыт", "ены",
                   "ить", "ыть", "ишь", "ую", "ю"},
                  {"ла", "на", "ете", "йте", "ли", "й", "л", "ем", "н", "ло", "но", "ет", "ют",
                   "ны", "ть", "ешь", "нно"})

  const Noun: SuffixPattern :=
    SuffixPattern({"а", "ев", "ов", "ие", "ье", "е", "иями", "ями", "ами", "еи", "ии", "и", "ией",
                   "ей", "ой", "ий", "й", "иям", "ям", "ием", "ем", "ам", "ом", "о", "у", "ах",
                   "иях", "ях", "ы", "ь", "ию", "ью", "ю", "ия", "ья", "я"}, {})

  const Reflexive: SuffixPattern := SuffixPattern({"ся", "сь"}, {})

  /** `ость?$`. */
  const Derivative: SuffixPattern := SuffixPattern({"ост", "ость"}, {})

  const Superlative: SuffixPattern := SuffixPattern({"ейше", "ейш"}, {})

  const ISuffix: SuffixPattern := SuffixPattern({"и"}, {})

  const SoftSign: SuffixPattern := SuffixPattern({"ь"}, {})

  const DoubleN: SuffixPattern := SuffixPattern({"нн"}, {})

  /** The pattern matches `r` from position `p` to the end. */
  predicate MatchAt(pat: SuffixPattern, r: string, p: nat)
  {
    && p < |r|
    && (|| r[p..] in pat.plain
        || (p > 0 && (r[p - 1] == 'а' || r[p - 1] == 'я') && r[p..] in pat.afterAYa))
  }

  predicate HasMatch(pat: SuffixPattern, r: string)
  {
    exists p :: 0 <= p < |r| && MatchAt(pat, r, p)
  }

  /** The first start position from `p` on at which the pattern matches. */
  function FirstMatch(pat: SuffixPattern, r: string, p: nat): (o: Option<nat>)
    requires p <= |r|
    ensures o.Some? ==> p <= o.value < |r| && MatchAt(pat, r, o.value)
    ensures o.Some? ==> forall q :: p <= q < o.value ==> !MatchAt(pat, r, q)
    ensures o.None? ==> forall q :: p <= q < |r| ==> !MatchAt(pat, r, q)
    decreases |r| - p
  {
    if p == |r| then None
    else if MatchAt(pat, r, p) then Some(p)
    else FirstMatch(pat, r, p + 1)
  }

  /** `pat.matcher(r).replaceFirst("")`: cuts off the longest matching suffix,
      or returns `r` when none matches. */
  function Strip(pat: SuffixPattern, r: string): (s: string)
    ensures s <= r
    ensures s != r <==> HasMatch(pat, r)
    ensures s != r ==> MatchAt(pat, r, |s|)
    ensures forall q :: 0 <= q < |s| ==> !MatchAt(pat, r, q)
  {
    match FirstMatch(pat, r, 0)
    case Some(p) => r[..p]
    case None => r
  }

  /** `нн$` replaced by `н`. */
  function HalveDoubleN(r: string): (s: string)
    ensures s <= r
    ensures |r| >= 2 && r[|r| - 2..] == "нн" ==> s == r[..|r| - 1]
    ensures !(|r| >= 2 && r[|r| - 2..] == "нн") ==> s == r
  {
    match FirstMatch(DoubleN, r, 0)
    case Some(p) =>
      assert p == |r| - 2 && r[p..] == "нн";
      assert r[..p] + "н" == r[..|r| - 1];
      r[..p] + "н"
    case None =>
      assert |r| >= 2 ==> !MatchAt(DoubleN, r, |r| - 2);
      r
  }

  /** `.*[^аеиоуыэюя]+[аеиоуыэюя].*ость?$` found in `r`: `r` ends with ост or
      ость, and before that ending a non-vowel is directly followed by a
      vowel. */
  predicate DerivationalMatch(r: string)
  {
    exists n, q :: 0 <= q && q + 1 < n <= |r| && r[n..] in Derivative.plain
                   && !IsVowel(r[q]) && IsVowel(r[q + 1])
  }

  /** `word.replace('ё', 'е')`. */
  function Normalize(word: string): (w: string)
    ensures |w| == |word| && 'ё' !in w
    ensures forall i :: 0 <= i < |w| && word[i] != 'ё' ==> w[i] == word[i]
    ensures forall i :: 0 <= i < |w| && word[i] == 'ё' ==> w[i] == 'е'
  {
    seq(|word|, i requires 0 <= i < |word| => if word[i] == 'ё' then 'е' else word[i])
  }

  /** The index of the first vowel at or after `p`. */
  function FirstVowel(w: string, p: nat): (o: Option<nat>)
    requires p <= |w|
    ensures o.Some? ==> p <= o.value < |w| && IsVowel(w[o.value])
    ensures o.Some? ==> forall q :: p <= q < o.value ==> !IsVowel(w[q])
    ensures o.None? ==> forall q :: p <= q < |w| ==> !IsVowel(w[q])
    decreases |w| - p
  {
    if p == |w| then None
    else if IsVowel(w[p]) then Some(p)
    else FirstVowel(w, p + 1)
  }

  /** The ending stage: a perfective gerund on its own; otherwise a reflexive
      ending, then an adjective (with a participle before it) or else a verb
      or else a noun. */
  function Endings(root: string): (r: string)
    ensures r <= root
  {
    var perfective := Strip(PerfectiveGerund, root);
    if perfective != root then perfective
    else
      var root1 := Strip(Reflexive, root);
      var adjective := Strip(Adjective, root1);
      if adjective != root1 then Strip(Participle, adjective)
      else
        var verb := Strip(Verb, root1);
        if verb == root1 then Strip(Noun, root1) else verb
  }

  /** The final stages, in order: и, ост(ь) when derivational, ь, the
      superlative, and нн to н. */
  function Finish(root: string): (r: string)
    ensures r <= root
  {
    var r1 := Strip(ISuffix, root);
    var r2 := if DerivationalMatch(r1) then Strip(Derivative, r1) else r1;
    var r3 := Strip(SoftSign, r2);
    var r4 := Strip(Superlative, r3);
    HalveDoubleN(r4)
  }

  /** `stem(word)` for a word already in lower case: the part up to and
      including the first vowel is kept, the rest is stemmed. */
  function Stem(word: string): (r: string)
    ensures r <= Normalize(word)
    ensures FirstVowel(Normalize(word), 0).None? ==> r == Normalize(word)
  {
    var w := Normalize(word);
    match FirstVowel(w, 0)
    case None => w
    case Some(v) =>
      if v + 1 == |w| then w
      else w[..v + 1] + Finish(Endings(w[v + 1..]))
  }
}
