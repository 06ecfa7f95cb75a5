# Porter stemmers for English and Russian, modelled in Dafny

This project models the two stemming engines of the repository:

- `PorterStemmerEn`, the classic English Porter stemmer. It works in place
  over a growable `char[]` buffer `b`. The fields are `i` (the append
  cursor), `i_end` (the length of the last result) and `j`, `k`. The
  current word is `b[0..k]`, and `j` marks where the stem before a matched
  suffix ends.
- `PorterStemmerRu.stem`, a pure function that strips Russian endings with
  end-anchored regular expressions.

**English** (modules `EnRules` and `EnStemmer`).
- `EnStemmer.PorterStemmerEn` is a class with the source's fields:
  - `b: array<char>`;
  - integers `i`, `iEnd`, `j`, `k`.
- Its methods change those fields the way the Java methods do:
  - `Add` writes one cell, first copying the buffer into a larger array
    when it is full;
  - `AddArray` copies the new characters in a loop, growing the buffer
    first when needed;
  - `M` runs the measure loops (in `MeasureScan`);
  - `Ends` and `VowelInStem` scan the buffer;
  - `SetTo` (Java's `sett`) overwrites cells in place;
  - `Step1`–`Step6` each edit the buffer and cursors.
- `Add`, `AddArray` and `ToString` state the new contents of the buffer
  directly. Every other method is proved against a pure function in
  `EnRules`, over the word `b[..k+1]` (ghost `Word()`).
  - `cons`, `doublec` and `cvc` only read the buffer, so they are the
    functions `Cons`, `DoubleC` and `Cvc`.
  - `Measure` defines Porter's `m` independently of the nested loops of
    `m()`, as the number of vowel-to-consonant transitions.
  - `StemWord` is the whole pipeline. `Stem` is proved to leave
    `StemWord` of the appended word in `b[0..i_end)`.
- `EnExamples` proves the fourteen step-1 examples of the source's
  documentation.

**Russian** (modules `RuStemmer`, `RuProperties` and `RuExamples`).
- Each regular expression is a `SuffixPattern`:
  - a set of plain suffixes;
  - a set of suffixes behind the lookbehind `(?<=[ая])`.
- `Strip` models `replaceFirst("")`. The regex engine takes the leftmost
  start position from which some alternative runs to the end of the
  string, so `Strip` cuts the longest listed suffix.
- A lookbehind alternative counts only when the letter before it, inside
  the root, is а or я. The root is a separate string in the source, so the
  lookbehind cannot see the prefix.
- `Stem`:
  1. normalises ё to е;
  2. splits at the first vowel;
  3. runs the ending stage `Endings`;
  4. runs the final stages `Finish`.

Three facts about the source that are easy to get wrong:
- **`cons`.** A `y` is a consonant at index 0 or when the previous letter
  is *not* a consonant (`i == 0 || !cons(i - 1)`), so a y after a vowel
  is a consonant, as in Porter's published algorithm.
- **`j`.** The cursor `j` may be −1, after `ends` matched the whole word.
- **A Russian word without a vowel.** It comes back as the normalised word
  (ё replaced by е), not the word as given.

## Model

| member | source | states |
|---|---|---|
| EnStemmer.PorterStemmerEn.constructor | src/main/java/org/javakov/algorithm/PorterStemmerEn.java:32-36 | a fresh buffer of `INC` (50) cells, with `i` and `i_end` zero |
| EnStemmer.PorterStemmerEn.Add | src/main/java/org/javakov/algorithm/PorterStemmerEn.java:43-50 | the old contents `b[0..i)` are kept and `ch` is appended at `i`; `i` grows by one; the same array is kept when it had room, and a fresh one of `i + INC` cells is used when it was full; `j`, `k`, `i_end` are unchanged |
| EnStemmer.PorterStemmerEn.AddArray | src/main/java/org/javakov/algorithm/PorterStemmerEn.java:58-65 | `b[0..i)` is kept and followed by `w[0..wLen)`; `i` grows by `wLen`; afterwards `i` is inside the buffer, so no write overflows |
| EnStemmer.PorterStemmerEn.ToString | src/main/java/org/javakov/algorithm/PorterStemmerEn.java:72-74 | the result is `b[0..i_end)` |
| EnStemmer.PorterStemmerEn.M | src/main/java/org/javakov/algorithm/PorterStemmerEn.java:95-119 | returns the Porter measure of `b[0..j]`; it is at least 0 and at most `(j+1)/2`, so 0 when `j < 0` |
| EnStemmer.PorterStemmerEn.MeasureScan | src/main/java/org/javakov/algorithm/PorterStemmerEn.java:96-118 | the four loops of `m()` (the leading consonant scan, then an outer loop holding a vowel scan and a consonant scan) compute `Measure` of the letters |
| EnStemmer.PorterStemmerEn.VowelInStem | src/main/java/org/javakov/algorithm/PorterStemmerEn.java:126-129 | true exactly when some position of `b[0..j]` is not a consonant |
| EnStemmer.PorterStemmerEn.Ends | src/main/java/org/javakov/algorithm/PorterStemmerEn.java:161-168 | true exactly when the word `b[0..k]` ends with `s`; on success `j = k - \|s\|`, on failure `j` is unchanged; the word is unchanged |
| EnStemmer.PorterStemmerEn.SetTo | src/main/java/org/javakov/algorithm/PorterStemmerEn.java:175-180 | the word becomes `b[0..j]` followed by `s` and `k = j + \|s\|`; positions `0..j` and every cell after the new `k` are untouched |
| EnStemmer.PorterStemmerEn.R | src/main/java/org/javakov/algorithm/PorterStemmerEn.java:187-189 | as `SetTo` when the measure of `b[0..j]` is positive; otherwise `k` and the buffer are unchanged |
| EnStemmer.PorterStemmerEn.Stem | src/main/java/org/javakov/algorithm/PorterStemmerEn.java:464-476 | `b[0..i_end)` is `StemWord` of the word appended before, `i_end` is at most the old `i`, and `i` is reset to 0 |
| EnStemmer.PorterStemmerEn.Steps | src/main/java/org/javakov/algorithm/PorterStemmerEn.java:466-473 | on a word of at least three letters, steps 1 to 6 in order leave `StemWord` of it, and `k` does not rise |
| EnStemmer.PorterStemmerEn.SetResult | src/main/java/org/javakov/algorithm/PorterStemmerEn.java:474-475 | `i_end = k + 1` and `i = 0`, so `b[0..i_end)` is the stemmed word |
| EnStemmer.PorterStemmerEn.Step1 | src/main/java/org/javakov/algorithm/PorterStemmerEn.java:212-233 | the new word is `EnRules.Step1` of the old one |
| EnStemmer.PorterStemmerEn.Step1Plurals | src/main/java/org/javakov/algorithm/PorterStemmerEn.java:213-217 | the new word is `EnRules.Step1Plurals` of the old one (sses to ss, ies to i, a single final s dropped) |
| EnStemmer.PorterStemmerEn.Step1Ies | src/main/java/org/javakov/algorithm/PorterStemmerEn.java:215 | on a word ending in ies but not sses, the new word is `EnRules.Step1Plurals` of the old one |
| EnStemmer.PorterStemmerEn.Step1Endings | src/main/java/org/javakov/algorithm/PorterStemmerEn.java:218-232 | the new word is `EnRules.Step1Endings` of the old one |
| EnStemmer.PorterStemmerEn.EndsEdIng | src/main/java/org/javakov/algorithm/PorterStemmerEn.java:220 | `ends("ed") \|\| ends("ing")`: true exactly when the word ends with ed or ing, and then `j` sits before that ending |
| EnStemmer.PorterStemmerEn.Step1EdIng | src/main/java/org/javakov/algorithm/PorterStemmerEn.java:220-232 | the new word is `EnRules.Step1EdIng` of the old one |
| EnStemmer.PorterStemmerEn.Step1Cleanup | src/main/java/org/javakov/algorithm/PorterStemmerEn.java:221-231 | the new word is `EnRules.Step1Cleanup` of the stem `b[0..j]` |
| EnStemmer.PorterStemmerEn.Step1CleanupTail | src/main/java/org/javakov/algorithm/PorterStemmerEn.java:225-231 | the new word is `EnRules.Step1CleanupTail` of the old one |
| EnStemmer.PorterStemmerEn.EndsThenSet | src/main/java/org/javakov/algorithm/PorterStemmerEn.java:222-224 | `ends(suf)` followed by `sett(rep)`: the result tells whether the word ended with `suf`, and if so the word becomes `Replace(word, suf, rep)` |
| EnStemmer.PorterStemmerEn.Step2 | src/main/java/org/javakov/algorithm/PorterStemmerEn.java:238-240 | the new word is `EnRules.Step2` of the old one; no cell after `k` changes |
| EnStemmer.PorterStemmerEn.EndsThenR | src/main/java/org/javakov/algorithm/PorterStemmerEn.java:251-252 | `ends(suf)` followed by `r(rep)`: the result tells whether the word ended with `suf`, and if so the word becomes `Rule(word, suf, rep)` |
| EnStemmer.PorterStemmerEn.Step3 | src/main/java/org/javakov/algorithm/PorterStemmerEn.java:247-350 | the new word is `EnRules.Step3` of the old one |
| EnStemmer.PorterStemmerEn.Step3A | src/main/java/org/javakov/algorithm/PorterStemmerEn.java:250-259 | the new word is `EnRules.Step3A` of the old one |
| EnStemmer.PorterStemmerEn.Step3C | src/main/java/org/javakov/algorithm/PorterStemmerEn.java:260-269 | the new word is `EnRules.Step3C` of the old one |
| EnStemmer.PorterStemmerEn.Step3L | src/main/java/org/javakov/algorithm/PorterStemmerEn.java:276-297 | the new word is `EnRules.Step3L` of the old one |
| EnStemmer.PorterStemmerEn.Step3O | src/main/java/org/javakov/algorithm/PorterStemmerEn.java:298-311 | the new word is `EnRules.Step3O` of the old one |
| EnStemmer.PorterStemmerEn.Step3S | src/main/java/org/javakov/algorithm/PorterStemmerEn.java:312-329 | the new word is `EnRules.Step3S` of the old one |
| EnStemmer.PorterStemmerEn.Step3T | src/main/java/org/javakov/algorithm/PorterStemmerEn.java:330-343 | the new word is `EnRules.Step3T` of the old one |
| EnStemmer.PorterStemmerEn.Step4 | src/main/java/org/javakov/algorithm/PorterStemmerEn.java:356-395 | the new word is `EnRules.Step4` of the old one |
| EnStemmer.PorterStemmerEn.Step4E | src/main/java/org/javakov/algorithm/PorterStemmerEn.java:358-371 | the new word is `EnRules.Step4E` of the old one |
| EnStemmer.PorterStemmerEn.Step4L | src/main/java/org/javakov/algorithm/PorterStemmerEn.java:378-387 | the new word is `EnRules.Step4L` of the old one |
| EnStemmer.PorterStemmerEn.Step5 | src/main/java/org/javakov/algorithm/PorterStemmerEn.java:400-450 | the new word is `EnRules.Step5` of the old one; the buffer is not written |
| EnStemmer.PorterStemmerEn.Step5Ends | src/main/java/org/javakov/algorithm/PorterStemmerEn.java:402-448 | the switch finds a suffix exactly when `Step5Suffix` selects one, and then `j` sits before it; the word is unchanged |
| EnStemmer.PorterStemmerEn.Step5C | src/main/java/org/javakov/algorithm/PorterStemmerEn.java:406-409 | finds ance or ence exactly as `EnRules.Step5C` does, and sets `j` before it |
| EnStemmer.PorterStemmerEn.Step5L | src/main/java/org/javakov/algorithm/PorterStemmerEn.java:416-419 | finds able or ible exactly as `EnRules.Step5L` does, and sets `j` before it |
| EnStemmer.PorterStemmerEn.Step5N | src/main/java/org/javakov/algorithm/PorterStemmerEn.java:420-425 | finds ant, ement, ment or ent exactly as `EnRules.Step5N` does, and sets `j` before it |
| EnStemmer.PorterStemmerEn.Step5O | src/main/java/org/javakov/algorithm/PorterStemmerEn.java:426-429 | finds ion (after s or t) or ou exactly as `EnRules.Step5O` does, and sets `j` before it |
| EnStemmer.PorterStemmerEn.Step5T | src/main/java/org/javakov/algorithm/PorterStemmerEn.java:433-436 | finds ate or iti exactly as `EnRules.Step5T` does, and sets `j` before it |
| EnStemmer.PorterStemmerEn.Step6 | src/main/java/org/javakov/algorithm/PorterStemmerEn.java:455-462 | the new word is `EnRules.Step6` of the old one; the buffer is not written |
| EnStemmer.PorterStemmerEn.Step6E | src/main/java/org/javakov/algorithm/PorterStemmerEn.java:456-460 | the new word is `EnRules.Step6E` of the old one, and `j` still marks the old end |
| EnStemmer.PorterStemmerEn.Step6L | src/main/java/org/javakov/algorithm/PorterStemmerEn.java:461 | the new word is `EnRules.Step6L` of the old one, with the measure taken over `b[0..j]`, the word step 6 started from |
| EnRules.Cons | src/main/java/org/javakov/algorithm/PorterStemmerEn.java:82-88 | a, e, i, o, u are never consonants; every letter other than those and y is one; a y at index 0 is one (the definition adds: a later y is one exactly when the letter before it is not) |
| EnRules.Measure | src/main/java/org/javakov/algorithm/PorterStemmerEn.java:95-119 | the number of vowel-to-consonant transitions in the word, Porter's `[C](VC)^m[V]`; twice it is at most the length |
| EnRules.DoubleC | src/main/java/org/javakov/algorithm/PorterStemmerEn.java:137-141 | true only for a word ending in two equal letters that are not a, e, i, o, u; true for every such pair other than yy |
| EnRules.Cvc | src/main/java/org/javakov/algorithm/PorterStemmerEn.java:149-153 | true only when the word has at least three letters, the last is not a vowel or w, x, y, and the third last is not a, e, i, o, u; true whenever consonant, a/e/i/o/u, consonant other than w/x/y end the word |
| EnRules.EndsWith | src/main/java/org/javakov/algorithm/PorterStemmerEn.java:161-168 | the definition compares the suffix with the word from the last letter backwards; `EndsWithSlice` proves it is the slice test |
| EnRules.MeasureTo | src/main/java/org/javakov/algorithm/PorterStemmerEn.java:95-119 | no contract of its own: the number of positions below `n` where a consonant follows a non-consonant; `MeasureToBound` bounds it and `MeasurePrefix` shows it reads only the first `n` letters |
| EnRules.VowelIn | src/main/java/org/javakov/algorithm/PorterStemmerEn.java:126-129 | no contract of its own: some letter is not a consonant, as `VowelBeforeExists` proves of the scan it is defined by |
| EnRules.Step1 | src/main/java/org/javakov/algorithm/PorterStemmerEn.java:212-233 | the plural rules and then the ed/ing/eed rules; the result is non-empty and no longer than the word |
| EnRules.Step1Endings | src/main/java/org/javakov/algorithm/PorterStemmerEn.java:218-232 | eed loses its d when the stem before it has m > 0 and otherwise blocks the ed/ing rule; the result is non-empty and no longer than the word |
| EnRules.Step1EdIng | src/main/java/org/javakov/algorithm/PorterStemmerEn.java:220-232 | ed or ing is removed only when the stem before it holds a vowel, and the cleanup then runs on that stem; the result is non-empty and no longer than the word |
| EnRules.Step1Cleanup | src/main/java/org/javakov/algorithm/PorterStemmerEn.java:221-231 | at, bl, iz gain an e, otherwise the tail rules run; the result is non-empty and at most one letter longer than the stem |
| EnRules.Step1CleanupTail | src/main/java/org/javakov/algorithm/PorterStemmerEn.java:225-231 | a double consonant other than ll, ss, zz loses a letter; a CVC stem with m == 1 gains an e; the result is non-empty and at most one letter longer |
| EnRules.Step3 | src/main/java/org/javakov/algorithm/PorterStemmerEn.java:247-350 | dispatch on the second-last letter to the rule tables of step 3; the result is non-empty and no longer than the word |
| EnRules.Step3A | src/main/java/org/javakov/algorithm/PorterStemmerEn.java:250-259 | ational to ate, else tional to tion, each under `Rule`; no longer than the word |
| EnRules.Step3C | src/main/java/org/javakov/algorithm/PorterStemmerEn.java:260-269 | enci to ence, else anci to ance, each under `Rule`; no longer than the word |
| EnRules.Step3L | src/main/java/org/javakov/algorithm/PorterStemmerEn.java:276-297 | bli, alli, entli, eli, ousli in source order, each under `Rule`; no longer than the word |
| EnRules.Step3O | src/main/java/org/javakov/algorithm/PorterStemmerEn.java:298-311 | ization, ation, ator in source order, each under `Rule`; no longer than the word |
| EnRules.Step3S | src/main/java/org/javakov/algorithm/PorterStemmerEn.java:312-329 | alism, iveness, fulness, ousness in source order, each under `Rule`; no longer than the word |
| EnRules.Step3T | src/main/java/org/javakov/algorithm/PorterStemmerEn.java:330-343 | aliti, iviti, biliti in source order, each under `Rule`; no longer than the word |
| EnRules.Step4 | src/main/java/org/javakov/algorithm/PorterStemmerEn.java:356-395 | dispatch on the last letter to the rule tables of step 4; the result is non-empty and no longer than the word |
| EnRules.Step4E | src/main/java/org/javakov/algorithm/PorterStemmerEn.java:358-371 | icate to ic, ative removed, alize to al, each under `Rule`; no longer than the word |
| EnRules.Step4L | src/main/java/org/javakov/algorithm/PorterStemmerEn.java:378-387 | ical to ic, else ful removed, each under `Rule`; no longer than the word |
| EnRules.Step5C | src/main/java/org/javakov/algorithm/PorterStemmerEn.java:406-409 | tries ance, then ence; a suffix found ends the word and has 4 letters |
| EnRules.Step5L | src/main/java/org/javakov/algorithm/PorterStemmerEn.java:416-419 | tries able, then ible; a suffix found ends the word and has 4 letters |
| EnRules.Step5N | src/main/java/org/javakov/algorithm/PorterStemmerEn.java:420-425 | a suffix found ends the word and has 3 to 5 letters; `Step5FindsN` shows the longest of ant, ement, ment, ent is the one found |
| EnRules.Step5O | src/main/java/org/javakov/algorithm/PorterStemmerEn.java:426-429 | a suffix found ends the word and has 2 or 3 letters; `Step5Ion` states when ion is found |
| EnRules.Step5T | src/main/java/org/javakov/algorithm/PorterStemmerEn.java:433-436 | tries ate, then iti; a suffix found ends the word and has 3 letters |
| EnRules.Step6E | src/main/java/org/javakov/algorithm/PorterStemmerEn.java:456-460 | the final-e rule; the result is a non-empty prefix of the word, and `Step6Effect` states exactly when the e goes |
| EnRules.Step6L | src/main/java/org/javakov/algorithm/PorterStemmerEn.java:461 | the ll rule, with the measure of the word step 6 started from; the result is a non-empty prefix of the word, and `Step6Effect` states exactly when the l goes |
| EnRules.ConsPrefix | src/main/java/org/javakov/algorithm/PorterStemmerEn.java:82-88 | the consonant test at `p` depends only on `b[0..p]`, which the recursion on `y` reads |
| EnRules.MeasurePrefix | src/main/java/org/javakov/algorithm/PorterStemmerEn.java:95-119 | the measure of `b[0..n)` does not depend on letters after `n` |
| EnRules.MeasureToBound | src/main/java/org/javakov/algorithm/PorterStemmerEn.java:95-119 | every VC sequence takes two letters: twice the measure of `n` letters is at most `n`, and at most `n - 1` when the last letter is a vowel |
| EnRules.VowelBeforeMonotone | src/main/java/org/javakov/algorithm/PorterStemmerEn.java:126-129 | a vowel found among the first `m` letters is also among the first `n >= m` |
| EnRules.VowelBeforeExists | src/main/java/org/javakov/algorithm/PorterStemmerEn.java:126-129 | the scan finds a vowel exactly when some position is not a consonant |
| EnRules.EndsWithSlice | src/main/java/org/javakov/algorithm/PorterStemmerEn.java:161-168 | the character-by-character comparison succeeds exactly when `s` is no longer than the word and equals its last `\|s\|` letters |
| EnRules.Replace | src/main/java/org/javakov/algorithm/PorterStemmerEn.java:175-180 | the letters before the suffix are kept and `rep` follows them |
| EnRules.Rule | src/main/java/org/javakov/algorithm/PorterStemmerEn.java:187-189 | when the stem before the suffix has measure > 0 the suffix is replaced; when it has measure 0 the word is kept |
| EnRules.Step1Plurals | src/main/java/org/javakov/algorithm/PorterStemmerEn.java:213-217 | removes at most two letters |
| EnRules.EdIngLength | src/main/java/org/javakov/algorithm/PorterStemmerEn.java:220 | 2 exactly for a word ending in ed; 3 for one ending in ing but not ed; 0 when it ends in neither |
| EnRules.Step2 | src/main/java/org/javakov/algorithm/PorterStemmerEn.java:238-240 | only the last letter can change; it changes exactly when it is y and a vowel precedes it, and then it becomes i |
| EnRules.SuffixIf | src/main/java/org/javakov/algorithm/PorterStemmerEn.java:404 | a suffix is reported exactly when the word ends with it |
| EnRules.Step5Suffix | src/main/java/org/javakov/algorithm/PorterStemmerEn.java:402-448 | a selected suffix ends the word and has 2 to 5 letters |
| EnRules.Step5 | src/main/java/org/javakov/algorithm/PorterStemmerEn.java:400-450 | the result is a non-empty prefix of the word |
| EnRules.Step5Finds | src/main/java/org/javakov/algorithm/PorterStemmerEn.java:402-448 | a listed suffix that ends the word (ion only after s or t) is found by the switch, and the suffix found is at least as long |
| EnRules.Step5FindsN | src/main/java/org/javakov/algorithm/PorterStemmerEn.java:420-425 | under the key letter n, the switch finds ement, ment or ent however ant is ordered before them, and the longest that ends the word |
| EnRules.Step5SuffixLongest | src/main/java/org/javakov/algorithm/PorterStemmerEn.java:402-448 | the switch selects a listed suffix that ends the word (ion only after s or t), the longest one such, and nothing when none ends it |
| EnRules.Step5Cut | src/main/java/org/javakov/algorithm/PorterStemmerEn.java:449 | once a suffix is selected, step 5 cuts it exactly when the stem before it has m > 1 |
| EnRules.Step5Ion | src/main/java/org/javakov/algorithm/PorterStemmerEn.java:427 | ion is selected exactly when the word ends with ion and the letter before it (so `j >= 0`) is s or t |
| EnRules.Step5Effect | src/main/java/org/javakov/algorithm/PorterStemmerEn.java:400-450 | the word is kept, or exactly the selected suffix is cut and what is left has measure > 1; and a selected suffix whose stem has measure > 1 is always cut |
| EnRules.Step6 | src/main/java/org/javakov/algorithm/PorterStemmerEn.java:455-462 | the result is a non-empty prefix of the word |
| EnRules.Step6Effect | src/main/java/org/javakov/algorithm/PorterStemmerEn.java:455-462 | with m the measure of the word step 6 starts from: a final e goes when m > 1, or when m == 1 and the word before it is not CVC, and then a final ll left behind loses an l when m > 1; a final e stays otherwise; a final ll loses an l exactly when m > 1; a word ending in anything else is unchanged |
| EnRules.StemWord | src/main/java/org/javakov/algorithm/PorterStemmerEn.java:464-476 | the stem is never longer than the word and non-empty for a non-empty word; words of at most two letters come back unchanged |
| EnExamples.Step1Caresses | src/main/java/org/javakov/algorithm/PorterStemmerEn.java:194 | step 1 maps caresses to caress |
| EnExamples.Step1Ponies | src/main/java/org/javakov/algorithm/PorterStemmerEn.java:195 | step 1 maps ponies to poni |
| EnExamples.Step1Ties | src/main/java/org/javakov/algorithm/PorterStemmerEn.java:196 | step 1 maps ties to ti |
| EnExamples.Step1Caress | src/main/java/org/javakov/algorithm/PorterStemmerEn.java:197 | step 1 maps caress to caress |
| EnExamples.Step1Cats | src/main/java/org/javakov/algorithm/PorterStemmerEn.java:198 | step 1 maps cats to cat |
| EnExamples.Step1Feed | src/main/java/org/javakov/algorithm/PorterStemmerEn.java:200 | step 1 maps feed to feed |
| EnExamples.Step1Agreed | src/main/java/org/javakov/algorithm/PorterStemmerEn.java:201 | step 1 maps agreed to agree |
| EnExamples.Step1Disabled | src/main/java/org/javakov/algorithm/PorterStemmerEn.java:202 | step 1 maps disabled to disable |
| EnExamples.Step1Matting | src/main/java/org/javakov/algorithm/PorterStemmerEn.java:204 | step 1 maps matting to mat |
| EnExamples.Step1Mating | src/main/java/org/javakov/algorithm/PorterStemmerEn.java:205 | step 1 maps mating to mate |
| EnExamples.Step1Meeting | src/main/java/org/javakov/algorithm/PorterStemmerEn.java:206 | step 1 maps meeting to meet |
| EnExamples.Step1Milling | src/main/java/org/javakov/algorithm/PorterStemmerEn.java:207 | step 1 maps milling to mill |
| EnExamples.Step1Messing | src/main/java/org/javakov/algorithm/PorterStemmerEn.java:208 | step 1 maps messing to mess |
| EnExamples.Step1Meetings | src/main/java/org/javakov/algorithm/PorterStemmerEn.java:210 | step 1 maps meetings to meet |
| RuStemmer.Stem | src/main/java/org/javakov/algorithm/PorterStemmerRu.java:93-153 | `stem(word)`: the result is a prefix of the normalised word, and the normalised word itself when it has no vowel; `StemIsPrefix`, `StemPassThrough` and `StemBy` state the rest |
| RuStemmer.MatchAt | src/main/java/org/javakov/algorithm/PorterStemmerRu.java:10-35 | an alternation anchored by `$` matches from `p` when the rest of the string is a plain alternative, or a lookbehind alternative with а or я just before `p` inside the string |
| RuStemmer.DerivationalMatch | src/main/java/org/javakov/algorithm/PorterStemmerRu.java:135-136 | `find()` of `.*[^аеиоуыэюя]+[аеиоуыэюя].*ость?$`: ост or ость ends the string, and some non-vowel directly followed by a vowel lies before that ending |
| RuStemmer.FirstMatch | src/main/java/org/javakov/algorithm/PorterStemmerRu.java:105 | the first start position, from `p` on, at which the pattern matches to the end of the string; none when there is no such position |
| RuStemmer.Strip | src/main/java/org/javakov/algorithm/PorterStemmerRu.java:105 | `replaceFirst("")` of an end-anchored pattern: the result is a prefix of the string; it differs from it exactly when the pattern matches somewhere; what was cut is a match; and no shorter prefix would leave a match, so the cut suffix is the longest one |
| RuStemmer.HalveDoubleN | src/main/java/org/javakov/algorithm/PorterStemmerRu.java:146 | a final нн loses its last н; any other string is unchanged |
| RuStemmer.Normalize | src/main/java/org/javakov/algorithm/PorterStemmerRu.java:94 | same length; every ё becomes е and every other letter is kept |
| RuStemmer.FirstVowel | src/main/java/org/javakov/algorithm/PorterStemmerRu.java:47 | the first vowel at or after `p`, as the lazy `.*?[аеиоуыэюя]` finds it; none when there is no vowel |
| RuStemmer.Endings | src/main/java/org/javakov/algorithm/PorterStemmerRu.java:105-129 | the ending stage only removes a suffix of the root |
| RuStemmer.Finish | src/main/java/org/javakov/algorithm/PorterStemmerRu.java:131-146 | the final stages only remove a suffix of the root |
| RuProperties.StemIsPrefix | src/main/java/org/javakov/algorithm/PorterStemmerRu.java:97-149 | the stem is a prefix of the normalised word that keeps the whole prefix up to and including the first vowel |
| RuProperties.PrefixThenCut | src/main/java/org/javakov/algorithm/PorterStemmerRu.java:149 | `prefix + root` with `root` shortened to a prefix of itself is a prefix of `prefix + root` |
| RuProperties.StemPassThrough | src/main/java/org/javakov/algorithm/PorterStemmerRu.java:97-102 | a word with no vowel, or whose only vowel is its last letter, comes back as the normalised word |
| RuProperties.PerfectiveExclusive | src/main/java/org/javakov/algorithm/PorterStemmerRu.java:105-129 | after a perfective gerund match, the ending stage removes exactly the longest such ending and nothing else |
| RuProperties.EndingsOrder | src/main/java/org/javakov/algorithm/PorterStemmerRu.java:107-125 | without a perfective gerund: reflexive first; participle only after an adjective was removed; verb only without an adjective; noun only when neither adjective nor verb matched |
| RuProperties.DerivationalMatchSplit | src/main/java/org/javakov/algorithm/PorterStemmerRu.java:135-139 | the derivational test holds exactly when ост or ость ends the root and, before it, a non-vowel is directly followed by a vowel |
| RuProperties.DerivationalThenSplit | src/main/java/org/javakov/algorithm/PorterStemmerRu.java:135-139 | one direction of the test: a match means ост(ь) is cut and a non-vowel-vowel pair stays before it |
| RuProperties.SplitThenDerivational | src/main/java/org/javakov/algorithm/PorterStemmerRu.java:135-139 | the other direction: a cut ост(ь) with such a pair before it means the test matches |
| RuProperties.DerivativeCut | src/main/java/org/javakov/algorithm/PorterStemmerRu.java:138 | whichever of ост and ость ends the root, `ость?$` cuts exactly it |
| RuProperties.DoubleNDropsLast | src/main/java/org/javakov/algorithm/PorterStemmerRu.java:146 | replacing a final нн by н drops the last letter |
| RuExamples.StemBy | src/main/java/org/javakov/algorithm/PorterStemmerRu.java:149 | the stem is the prefix through the first vowel followed by the stemmed rest |
| RuExamples.Druzhby | src/main/java/org/javakov/algorithm/PorterStemmerRu.java:134 | дружбы splits as дру and жбы, and жбы stems to жб, so the stem is дружб |
| RuExamples.Chitavshi | src/main/java/org/javakov/algorithm/PorterStemmerRu.java:10-11 | читавши splits as чи and тавши; вши follows а inside the root, so it is a perfective gerund ending, and the stem is чита |
| RuExamples.Davshi | src/main/java/org/javakov/algorithm/PorterStemmerRu.java:10-11 | давши splits as да and вши; the а is in the prefix, so the lookbehind fails and only the noun ending и goes, giving давш |

## Left out

- Main.java is not part of this model. It reads files, splits lines into
  words, prints, and calls an external English stemmer library.
- Regular expressions in general are not modelled. Each pattern of
  PorterStemmerRu.java is a finite suffix set with an "after а or я"
  subset. `$` matching before a final line terminator, and `.` not
  matching line terminators, are not modelled: words are assumed to
  contain none.
- Case folding is not modelled. `toLowerCase()` (locale and Unicode rules)
  is left out, and the Russian input is assumed to be lower case already;
  only ё to е is modelled. The English stemmer is stated for any
  characters, but its rules assume lower-case ASCII.
- EnStemmer.PorterStemmerEn.AddArray: requires `w` to be a different
  array from the buffer. The buffer is private in the source, so no caller
  can pass it.
- EnStemmer.PorterStemmerEn.Stem: it does not state that cells after the
  word are unchanged. It also does not state the final value of `j`.
  Only `b[0..i_end)`, `i` and `i_end` are promised.
- EnStemmer.PorterStemmerEn.Step5: it does not state the value left in
  `j`. The next step resets it.
- EnRules.Step5Suffix: its own contract states only that a selected suffix
  ends the word. Which suffix the switch selects is proved separately in
  `EnRules.Step5SuffixLongest`.
- The rule tables of steps 1, 3, 4 and 5 are stated as definitions that
  follow the source branch by branch. Their own contracts give only
  length or shape bounds, and each class method of the same name is proved
  to follow the definition:
  - EnRules.Step1, EnRules.Step1Plurals, EnRules.Step1Endings: length bounds only.
  - EnRules.Step1EdIng, EnRules.Step1Cleanup, EnRules.Step1CleanupTail: length bounds only.
  - EnRules.Step3 and EnRules.Step3A, Step3C, Step3L, Step3O, Step3S, Step3T: length bounds only.
  - EnRules.Step4 and EnRules.Step4E, Step4L: length bounds only.
  - EnRules.Step5C, EnRules.Step5L, EnRules.Step5N, EnRules.Step5O, EnRules.Step5T: the suffix found ends the word and has the stated length. Which suffix is found is proved for the whole switch in `EnRules.Step5SuffixLongest`.
  - EnRules.Step6E, EnRules.Step6L: the result is a non-empty prefix of the word. `EnRules.Step6Effect` states the rule they make up.
  - EnRules.MeasureTo, EnRules.VowelIn: no contract of their own. `EnRules.MeasureToBound`, `EnRules.MeasurePrefix` and `EnRules.VowelBeforeExists` state their properties.
- RuExamples.Druzhby, RuExamples.Chitavshi, RuExamples.Davshi: they state
  the split and the stemmed root, not `Stem(word) == ...` itself.
  `RuExamples.StemBy` joins the two. A direct equation forces full
  evaluation of the word-level literal, and that is too costly for the
  verifier.
- Concurrency is not modelled. Neither engine uses any.
