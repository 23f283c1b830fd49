/** The guess valuator: `valued_str` gives each letter a value from a word
    list and the minimum counts already known, `valued_list` scores words by
    their distinct letters, and `most_valued_words`, `calculate_guess`,
    `most_valued_letters` and `count_frequences` rank by those values. */
module Valuator {
  import opened Lists
  import opened Words
  import opened Ranking
  import opened KnowledgeBase

  /** `multi_penalty`: the multiple of its value a repeated letter adds. */
  const MultiPenalty: int := 0

  /** Every character of every word is a letter; `valued_str` has a table
      entry for letters only. */
  predicate AllLetters(words: seq<string>)
  {
    forall w :: w in words ==> forall i :: 0 <= i < |w| ==> IsLetter(w[i])
  }

  /** A word `valued_list` can score: its first five characters are letters. */
  predicate Scorable(w: string)
  {
    |w| >= WordLength && forall i :: 0 <= i < WordLength ==> IsLetter(w[i])
  }

  /** Position of a letter in the alphabet. */
  function Rank(c: char): int
  {
    c as int - 'A' as int
  }

  function ClampZero(x: int): (r: int)
    ensures r >= 0 && (x >= 0 ==> r == x)
  {
    if x > 0 then x else 0
  }

  /** `words_with_ltr[c]`: the number of words containing `c`. */
  function WordsWith(words: seq<string>, c: char): nat
  {
    if words == [] then 0
    else WordsWith(words[..|words| - 1], c) + (if c in words[|words| - 1] then 1 else 0)
  }

  /** `ltr_count[c]` before the reduction: the copies of `c` in all words,
      repeats included. */
  function Occurrences(words: seq<string>, c: char): nat
  {
    if words == [] then 0
    else Occurrences(words[..|words| - 1], c) + Count(words[|words| - 1], c)
  }

  /** The value `valued_str` gives letter `c`: its occurrences, less the
      known minimum count of `c` once per word containing `c`. */
  function LetterValue(words: seq<string>, known: map<char, nat>, c: char): int
  {
    Occurrences(words, c) - (if c in known then known[c] * WordsWith(words, c) else 0)
  }

  lemma WordsWithSnoc(words: seq<string>, n: nat, c: char)
    requires n < |words|
    ensures WordsWith(words[..n + 1], c) == WordsWith(words[..n], c) + (if c in words[n] then 1 else 0)
    ensures Occurrences(words[..n + 1], c) == Occurrences(words[..n], c) + Count(words[n], c)
  {
    assert words[..n + 1][..n] == words[..n];
  }

  lemma LetterRank(i: nat)
    requires i < 26
    ensures IsLetter(Alphabet()[i]) && Rank(Alphabet()[i]) == i
    ensures forall c :: IsLetter(c) && Rank(c) == i ==> c == Alphabet()[i]
  {
    AlphabetIsLetters();
  }

  /** The first loop of `valued_str`: both tables hold 0 for every letter. */
  method ZeroCounts() returns (ltrCount: map<char, int>, wordsWithLtr: map<char, int>)
    ensures forall c :: c in ltrCount <==> IsLetter(c)
    ensures forall c :: c in wordsWithLtr <==> IsLetter(c)
    ensures forall c :: c in ltrCount ==> ltrCount[c] == 0 && wordsWithLtr[c] == 0
  {
    ltrCount, wordsWithLtr := map[], map[];
    for i := 0 to 26
      invariant forall c :: c in ltrCount <==> IsLetter(c) && Rank(c) < i
      invariant forall c :: c in wordsWithLtr <==> IsLetter(c) && Rank(c) < i
      invariant forall c :: c in ltrCount ==> ltrCount[c] == 0 && wordsWithLtr[c] == 0
    {
      LetterRank(i);
      var a := Alphabet()[i];
      ltrCount := ltrCount[a := 0];
      wordsWithLtr := wordsWithLtr[a := 0];
    }
  }

  /** The second loop of `valued_str`: for each letter, the words containing it. */
  method CountWordsWith(wordlist: seq<string>, zero: map<char, int>) returns (wordsWithLtr: map<char, int>)
    requires forall c :: c in zero <==> IsLetter(c)
    requires forall c :: c in zero ==> zero[c] == 0
    ensures forall c :: c in wordsWithLtr <==> IsLetter(c)
    ensures forall c :: c in wordsWithLtr ==> wordsWithLtr[c] == WordsWith(wordlist, c)
  {
    wordsWithLtr := zero;
    for i := 0 to 26
      invariant forall c :: c in wordsWithLtr <==> IsLetter(c)
      invariant forall c :: c in wordsWithLtr ==> wordsWithLtr[c] == if Rank(c) < i then WordsWith(wordlist, c) else 0
    {
      LetterRank(i);
      var a := Alphabet()[i];
      for n := 0 to |wordlist|
        invariant forall c :: c in wordsWithLtr <==> IsLetter(c)
        invariant forall c :: c in wordsWithLtr ==>
          wordsWithLtr[c] == (if Rank(c) < i then WordsWith(wordlist, c) else if c == a then WordsWith(wordlist[..n], a) else 0)
      {
        WordsWithSnoc(wordlist, n, a);
        if a in wordlist[n] {
          wordsWithLtr := wordsWithLtr[a := wordsWithLtr[a] + 1];
        }
      }
      assert wordlist[..|wordlist|] == wordlist;
    }
  }

  /** The third loop of `valued_str`: every letter of every word counts once. */
  method CountOccurrences(wordlist: seq<string>, zero: map<char, int>) returns (ltrCount: map<char, int>)
    requires AllLetters(wordlist)
    requires forall c :: c in zero <==> IsLetter(c)
    requires forall c :: c in zero ==> zero[c] == 0
    ensures forall c :: c in ltrCount <==> IsLetter(c)
    ensures forall c :: c in ltrCount ==> ltrCount[c] == Occurrences(wordlist, c)
  {
    ltrCount := zero;
    for n := 0 to |wordlist|
      invariant forall c :: c in ltrCount <==> IsLetter(c)
      invariant forall c :: c in ltrCount ==> ltrCount[c] == Occurrences(wordlist[..n], c)
    {
      var word := wordlist[n];
      assert word in wordlist;
      ltrCount := CountLetters(word, ltrCount);
      forall c ensures Occurrences(wordlist[..n + 1], c) == Occurrences(wordlist[..n], c) + Count(word, c) {
        WordsWithSnoc(wordlist, n, c);
      }
    }
    assert wordlist[..|wordlist|] == wordlist;
  }

  /** The inner loop of the third loop of `valued_str`: each letter of
      `word` adds one to its count. */
  method CountLetters(word: string, counts: map<char, int>) returns (ltrCount: map<char, int>)
    requires forall k :: 0 <= k < |word| ==> word[k] in counts
    ensures ltrCount.Keys == counts.Keys
    ensures forall c :: c in ltrCount ==> ltrCount[c] == counts[c] + Count(word, c)
  {
    ltrCount := counts;
    assert word[..0] == [];
    for p := 0 to |word|
      invariant ltrCount.Keys == counts.Keys
      invariant forall c :: c in ltrCount ==> ltrCount[c] == counts[c] + Count(word[..p], c)
    {
      var ltr := word[p];
      forall c ensures Count(word[..p + 1], c) == Count(word[..p], c) + (if ltr == c then 1 else 0) {
        CountPrefix(word, p, c);
      }
      ltrCount := ltrCount[ltr := ltrCount[ltr] + 1];
    }
    assert word[..|word|] == word;
  }

  /** The last loop of `valued_str`: a letter with a known minimum count
      loses that count once per word containing it. */
  method ReduceKnown(wordlist: seq<string>, alphaKnownCount: map<char, nat>,
                     wordsWithLtr: map<char, int>, occurrences: map<char, int>) returns (ltrCount: map<char, int>)
    requires forall c :: c in wordsWithLtr <==> IsLetter(c)
    requires forall c :: c in wordsWithLtr ==> wordsWithLtr[c] == WordsWith(wordlist, c)
    requires forall c :: c in occurrences <==> IsLetter(c)
    requires forall c :: c in occurrences ==> occurrences[c] == Occurrences(wordlist, c)
    ensures forall c :: c in ltrCount <==> IsLetter(c)
    ensures forall c :: c in ltrCount ==> ltrCount[c] == LetterValue(wordlist, alphaKnownCount, c)
  {
    ltrCount := occurrences;
    for i := 0 to 26
      invariant forall c :: c in ltrCount <==> IsLetter(c)
      invariant forall c :: c in ltrCount ==>
        ltrCount[c] == (if Rank(c) < i then LetterValue(wordlist, alphaKnownCount, c) else Occurrences(wordlist, c))
    {
      LetterRank(i);
      var a := Alphabet()[i];
      if a in alphaKnownCount {
        ltrCount := ltrCount[a := ltrCount[a] - ClampZero(ClampZero(alphaKnownCount[a]) * wordsWithLtr[a])];
      }
    }
  }

  /** `valued_str(wordlist, ALPHABET, alpha_known_count)`: the value of
      every letter. */
  method ValuedStr(wordlist: seq<string>, alphaKnownCount: map<char, nat>) returns (ltrCount: map<char, int>)
    requires AllLetters(wordlist)
    ensures forall c :: c in ltrCount <==> IsLetter(c)
    ensures forall c :: c in ltrCount ==> ltrCount[c] == LetterValue(wordlist, alphaKnownCount, c)
  {
    var zero, wordsWithLtr := ZeroCounts();
    wordsWithLtr := CountWordsWith(wordlist, wordsWithLtr);
    var occurrences := CountOccurrences(wordlist, zero);
    ltrCount := ReduceKnown(wordlist, alphaKnownCount, wordsWithLtr, occurrences);
  }

  function Contains(c: char): string -> bool
  {
    w => c in w
  }

  /** `words_with_ltr[c]` is the length of the list of words containing `c`. */
  lemma {:induction false} WordsWithIsFilter(words: seq<string>, c: char)
    ensures WordsWith(words, c) == |Filter(words, Contains(c))|
  {
    if words != [] {
      var init, last := words[..|words| - 1], words[|words| - 1];
      WordsWithIsFilter(init, c);
      assert words == init + [last];
      FilterSnoc(init, last, Contains(c));
    }
  }

  /** A word containing `c` holds at least one copy: so there are at most as
      many such words as copies, and both are 0 together. */
  lemma {:induction false} WordsWithBounds(words: seq<string>, c: char)
    ensures WordsWith(words, c) <= |words|
    ensures WordsWith(words, c) <= Occurrences(words, c)
    ensures Occurrences(words, c) == 0 <==> WordsWith(words, c) == 0
  {
    if words != [] {
      WordsWithBounds(words[..|words| - 1], c);
    }
  }

  /** When no word holds more copies of `c` than its known minimum count,
      `c` is worth nothing more: its value is at most 0. */
  lemma {:induction false} CoveredLetterValue(words: seq<string>, known: map<char, nat>, c: char)
    requires c in known
    requires forall w :: w in words ==> Count(w, c) <= known[c]
    ensures Occurrences(words, c) <= known[c] * WordsWith(words, c)
    ensures LetterValue(words, known, c) <= 0
  {
    if words != [] {
      var init, last := words[..|words| - 1], words[|words| - 1];
      assert forall w :: w in init ==> w in words;
      CoveredLetterValue(init, known, c);
      var b := if c in last then 1 else 0;
      assert Count(last, c) <= known[c] * b;
      assert known[c] * (WordsWith(init, c) + b) == known[c] * WordsWith(init, c) + known[c] * b;
    }
  }

  /** What `valued_list` adds up for `w[..n]`: each letter's value at its
      first occurrence, `multi_penalty` times it at a repeat. */
  function WordValue(words: seq<string>, known: map<char, nat>, w: string, n: nat): int
    requires n <= |w|
  {
    if n == 0 then 0
    else
      var ltr := w[n - 1];
      WordValue(words, known, w, n - 1)
        + (if ltr !in w[..n - 1] then LetterValue(words, known, ltr) else LetterValue(words, known, ltr) * MultiPenalty)
  }

  /** The sum of the values of `letters`. */
  function SumValues(words: seq<string>, known: map<char, nat>, letters: seq<char>): int
  {
    if letters == [] then 0
    else SumValues(words, known, letters[..|letters| - 1]) + LetterValue(words, known, letters[|letters| - 1])
  }

  /** A word is worth the sum of the values of its distinct letters. */
  lemma {:induction false} WordValueDistinct(words: seq<string>, known: map<char, nat>, w: string, n: nat)
    requires n <= |w|
    ensures WordValue(words, known, w, n) == SumValues(words, known, Dedup(w[..n]))
  {
    if n > 0 {
      var ltr, d := w[n - 1], Dedup(w[..n - 1]);
      DedupStep(w, n);
      WordValueStep(words, known, w, n);
      WordValueDistinct(words, known, w, n - 1);
      if ltr !in w[..n - 1] {
        SumValuesSnoc(words, known, d, ltr);
      } else {
        assert d + [] == d;
      }
    }
  }

  /** A repeated letter adds nothing to the score, since `multi_penalty` is 0. */
  lemma WordValueStep(words: seq<string>, known: map<char, nat>, w: string, n: nat)
    requires 0 < n <= |w|
    ensures WordValue(words, known, w, n) == WordValue(words, known, w, n - 1)
      + (if w[n - 1] in w[..n - 1] then 0 else LetterValue(words, known, w[n - 1]))
  {
  }

  lemma SumValuesSnoc(words: seq<string>, known: map<char, nat>, letters: seq<char>, x: char)
    ensures SumValues(words, known, letters + [x]) == SumValues(words, known, letters) + LetterValue(words, known, x)
  {
    assert (letters + [x])[..|letters|] == letters;
  }

  /** The score `valued_list` gives a word: the value of its first five
      letters (shorter words are not scored by the source, which fails on them). */
  function Score(words: seq<string>, known: map<char, nat>, w: string): int
  {
    WordValue(words, known, w, if |w| < WordLength then |w| else WordLength)
  }

  /** The inner loop of `valued_list`: the score of one word. */
  method ScoreWord(word: string, letterVal: map<char, int>, ghost wordlist: seq<string>, ghost known: map<char, nat>)
    returns (total: int)
    requires Scorable(word)
    requires forall c :: c in letterVal <==> IsLetter(c)
    requires forall c :: c in letterVal ==> letterVal[c] == LetterValue(wordlist, known, c)
    ensures total == Score(wordlist, known, word)
  {
    total := 0;
    for idx := 0 to WordLength
      invariant total == WordValue(wordlist, known, word, idx)
    {
      var ltr := word[idx];
      assert word[..idx + 1][..idx] == word[..idx];
      if Find(word[..idx], ltr) < 0 {
        total := total + letterVal[ltr];
      } else {
        total := total + letterVal[ltr] * MultiPenalty;
      }
    }
  }

  /** `valued_list(wordlist, known)`: letter values come from `wordlist`,
      the words scored are those of `known.wordlist`; the dict's keys are
      those words, each once, in first-occurrence order. */
  method ValuedList(wordlist: seq<string>, known: Knowledge) returns (keys: seq<string>, vlist: map<string, int>)
    requires AllLetters(wordlist)
    requires forall w :: w in known.wordlist ==> Scorable(w)
    ensures keys == Dedup(known.wordlist)
    ensures forall w :: w in vlist <==> w in known.wordlist
    ensures forall w :: w in vlist ==> vlist[w] == Score(wordlist, known.alphaCount, w)
  {
    var letterVal := ValuedStr(wordlist, known.alphaCount);
    keys, vlist := ScoreAll(known.wordlist, letterVal, wordlist, known.alphaCount);
  }

  /** The loop of `valued_list` over the words to score. */
  method ScoreAll(words: seq<string>, letterVal: map<char, int>, ghost wordlist: seq<string>, ghost known: map<char, nat>)
    returns (keys: seq<string>, vlist: map<string, int>)
    requires forall w :: w in words ==> Scorable(w)
    requires forall c :: c in letterVal <==> IsLetter(c)
    requires forall c :: c in letterVal ==> letterVal[c] == LetterValue(wordlist, known, c)
    ensures keys == Dedup(words)
    ensures forall w :: w in vlist <==> w in words
    ensures forall w :: w in vlist ==> vlist[w] == Score(wordlist, known, w)
  {
    keys, vlist := [], map[];
    for n := 0 to |words|
      invariant keys == Dedup(words[..n])
      invariant forall w :: w in vlist <==> w in keys
      invariant forall w :: w in vlist ==> vlist[w] == Score(wordlist, known, w)
    {
      var word := words[n];
      DedupStep(words, n + 1);
      if word !in vlist {
        keys := keys + [word];
      } else {
        assert keys + [] == keys;
      }
      var total := ScoreWord(word, letterVal, wordlist, known);
      vlist := vlist[word := total];
    }
    assert words[..|words|] == words;
  }

  /** First positions in a list are ordered as in its de-duplication. */
  lemma DedupIndexBack<T(!new)>(xs: seq<T>, a: T, b: T)
    requires a in xs && b in xs
    requires IndexOf(Dedup(xs), a) < IndexOf(Dedup(xs), b)
    ensures IndexOf(xs, a) < IndexOf(xs, b)
  {
    var ia, ib := IndexOf(xs, a), IndexOf(xs, b);
    assert xs[ia] == a && xs[ib] == b;
    if ib < ia {
      DedupKeepsOrder(xs, b, a);
      assert false;
    } else if ia == ib {
      assert false;
    }
    assert ia < ib;
  }

  /** `most_valued_words(wordlist, known)`: each word of `known.wordlist`
      once, best score first, words of equal score in list order. */
  method MostValuedWords(wordlist: seq<string>, known: Knowledge) returns (valWordList: seq<string>)
    requires AllLetters(wordlist)
    requires forall w :: w in known.wordlist ==> Scorable(w)
    ensures forall w :: w in valWordList <==> w in known.wordlist
    ensures NoDups(valWordList)
    ensures forall i, j :: 0 <= i < j < |valWordList| ==>
      Score(wordlist, known.alphaCount, valWordList[i]) >= Score(wordlist, known.alphaCount, valWordList[j])
    ensures forall i, j :: 0 <= i < j < |valWordList|
              && Score(wordlist, known.alphaCount, valWordList[i]) == Score(wordlist, known.alphaCount, valWordList[j])
              ==> IndexOf(known.wordlist, valWordList[i]) < IndexOf(known.wordlist, valWordList[j])
  {
    var keys, wordVal := ValuedList(wordlist, known);
    valWordList := RankDescending(keys, wordVal);
    forall i, j | 0 <= i < j < |valWordList|
              && Score(wordlist, known.alphaCount, valWordList[i]) == Score(wordlist, known.alphaCount, valWordList[j])
      ensures IndexOf(known.wordlist, valWordList[i]) < IndexOf(known.wordlist, valWordList[j])
    {
      DedupIndexBack(known.wordlist, valWordList[i], valWordList[j]);
    }
  }

  /** `calculate_guess(wordlist, known)`: the first of the most valued
      words, that is the earliest word of best score. */
  method CalculateGuess(wordlist: seq<string>, known: Knowledge) returns (guess: string)
    requires AllLetters(wordlist)
    requires forall w :: w in known.wordlist ==> Scorable(w)
    requires known.wordlist != []
    ensures guess in known.wordlist
    ensures forall w :: w in known.wordlist ==> Score(wordlist, known.alphaCount, w) <= Score(wordlist, known.alphaCount, guess)
    ensures forall w :: w in known.wordlist && Score(wordlist, known.alphaCount, w) == Score(wordlist, known.alphaCount, guess)
              ==> IndexOf(known.wordlist, guess) <= IndexOf(known.wordlist, w)
  {
    var valuedWords := MostValuedWords(wordlist, known);
    assert known.wordlist[0] in valuedWords;
    guess := valuedWords[0];
    forall w | w in known.wordlist
      ensures Score(wordlist, known.alphaCount, w) <= Score(wordlist, known.alphaCount, guess)
      ensures Score(wordlist, known.alphaCount, w) == Score(wordlist, known.alphaCount, guess)
              ==> IndexOf(known.wordlist, guess) <= IndexOf(known.wordlist, w)
    {
      var j :| 0 <= j < |valuedWords| && valuedWords[j] == w;
    }
  }

  /** The position of a letter in the alphabet is its rank. */
  lemma AlphabetIndex(c: char)
    requires IsLetter(c)
    ensures c in Alphabet() && IndexOf(Alphabet(), c) == Rank(c)
  {
    AlphabetIsLetters();
  }

  /** `most_valued_letters(known)`: the letters worth at least 1 in
      `known.wordlist`, best first, letters of equal value in alphabetical
      order. */
  method MostValuedLetters(known: Knowledge) returns (ltrStr: string)
    requires AllLetters(known.wordlist)
    ensures forall c :: c in ltrStr <==> IsLetter(c) && LetterValue(known.wordlist, known.alphaCount, c) >= 1
    ensures NoDups(ltrStr)
    ensures forall i, j :: 0 <= i < j < |ltrStr| ==>
      LetterValue(known.wordlist, known.alphaCount, ltrStr[i]) >= LetterValue(known.wordlist, known.alphaCount, ltrStr[j])
    ensures forall i, j :: 0 <= i < j < |ltrStr|
              && LetterValue(known.wordlist, known.alphaCount, ltrStr[i]) == LetterValue(known.wordlist, known.alphaCount, ltrStr[j])
              ==> ltrStr[i] < ltrStr[j]
  {
    var letterVal := ValuedStr(known.wordlist, known.alphaCount);
    AlphabetIsLetters();
    var order, valLetter := FlipDictionary(Alphabet(), letterVal);
    var vs := SortedDescending(order);
    var i;
    ltrStr, i := TopGroups(Alphabet(), letterVal, valLetter, vs);
    LettersRanked(known.wordlist, known.alphaCount, letterVal, vs, i, ltrStr);
  }

  /** The letters of the values from the highest down to the last value of
      at least one are the letters of value at least one, by value and then
      alphabetically. */
  lemma LettersRanked(words: seq<string>, count: map<char, nat>, vals: map<char, int>, vs: seq<int>, i: nat, r: string)
    requires forall c :: c in vals <==> IsLetter(c)
    requires forall c :: c in vals ==> vals[c] == LetterValue(words, count, c)
    requires StrictlyDescending(vs) && i <= |vs|
    requires forall c :: IsLetter(c) ==> vals[c] in vs
    requires forall k :: 0 <= k < i ==> vs[k] >= 1
    requires i < |vs| ==> vs[i] < 1
    requires r == Grouped(Alphabet(), vals, vs[..i])
    ensures forall c :: c in r <==> IsLetter(c) && LetterValue(words, count, c) >= 1
    ensures NoDups(r)
    ensures forall i, j :: 0 <= i < j < |r| ==> LetterValue(words, count, r[i]) >= LetterValue(words, count, r[j])
    ensures forall i, j :: 0 <= i < j < |r| && LetterValue(words, count, r[i]) == LetterValue(words, count, r[j])
              ==> r[i] < r[j]
  {
    TopLetters(vals, vs, i, r);
    GroupedLetters(vals, vs[..i], r);
    LettersByValue(words, count, vals, r);
  }

  /** The loop of `most_valued_letters`: walking the values from the
      highest down, append each value's letters until the first value
      below one. */
  method TopGroups(keys: string, vals: map<char, int>, groups: map<int, string>, vs: seq<int>) returns (r: string, i: nat)
    requires forall v :: v in vs ==> v in groups && groups[v] == Filter(keys, HasValue(vals, v))
    ensures i <= |vs| && r == Grouped(keys, vals, vs[..i])
    ensures forall k :: 0 <= k < i ==> vs[k] >= 1
    ensures i < |vs| ==> vs[i] < 1
  {
    r, i := "", 0;
    while i < |vs| && vs[i] >= 1
      invariant i <= |vs| && r == Grouped(keys, vals, vs[..i])
      invariant forall k :: 0 <= k < i ==> vs[k] >= 1
    {
      GroupedStep(keys, vals, vs, i);
      assert vs[i] in vs;
      r := r + groups[vs[i]];
      i := i + 1;
    }
  }

  /** Restating the order of the collected letters with the letter values
      of `valued_str`. */
  lemma LettersByValue(words: seq<string>, count: map<char, nat>, vals: map<char, int>, r: string)
    requires forall c :: c in vals <==> IsLetter(c)
    requires forall c :: c in vals ==> vals[c] == LetterValue(words, count, c)
    requires forall c :: c in r <==> IsLetter(c) && vals[c] >= 1
    requires forall k :: 0 <= k < |r| ==> r[k] in vals
    requires NonIncreasing(r, vals)
    requires Pairwise(r, TieAlphabetical(vals))
    ensures forall c :: c in r <==> IsLetter(c) && LetterValue(words, count, c) >= 1
    ensures forall i, j :: 0 <= i < j < |r| ==> LetterValue(words, count, r[i]) >= LetterValue(words, count, r[j])
    ensures forall i, j :: 0 <= i < j < |r| && LetterValue(words, count, r[i]) == LetterValue(words, count, r[j])
              ==> r[i] < r[j]
  {
    forall i, j | 0 <= i < j < |r| && LetterValue(words, count, r[i]) == LetterValue(words, count, r[j])
      ensures r[i] < r[j]
    {
      assert TieAlphabetical(vals)(r[i], r[j]);
    }
  }

  /** The values the loop of `most_valued_letters` visits before it stops:
      exactly those of at least 1. */
  lemma TopValues(vs: seq<int>, i: nat)
    requires StrictlyDescending(vs) && i <= |vs|
    requires forall k :: 0 <= k < i ==> vs[k] >= 1
    requires i < |vs| ==> vs[i] < 1
    ensures StrictlyDescending(vs[..i])
    ensures forall v :: v in vs ==> (v in vs[..i] <==> v >= 1)
  {
    forall v | v in vs && v !in vs[..i] ensures v < 1 {
      var k :| 0 <= k < |vs| && vs[k] == v;
      assert k >= i;
    }
  }

  /** What the loop of `most_valued_letters` collects before it stops at
      the first value below 1: the letters worth at least 1. */
  lemma TopLetters(vals: map<char, int>, vs: seq<int>, i: nat, r: string)
    requires forall c :: c in vals <==> IsLetter(c)
    requires StrictlyDescending(vs) && i <= |vs|
    requires forall c :: IsLetter(c) ==> vals[c] in vs
    requires forall k :: 0 <= k < i ==> vs[k] >= 1
    requires i < |vs| ==> vs[i] < 1
    requires r == Grouped(Alphabet(), vals, vs[..i])
    ensures StrictlyDescending(vs[..i])
    ensures forall c :: c in r <==> IsLetter(c) && vals[c] >= 1
  {
    TopValues(vs, i);
    AlphabetIsLetters();
    forall c ensures c in r <==> IsLetter(c) && vals[c] >= 1 {
      GroupedMembers(Alphabet(), vals, vs[..i], c);
    }
  }

  /** Letters grouped by value: distinct, values never increasing, letters
      of equal value in alphabetical order. */
  lemma GroupedLetters(vals: map<char, int>, top: seq<int>, r: string)
    requires StrictlyDescending(top)
    requires r == Grouped(Alphabet(), vals, top)
    ensures NoDups(r)
    ensures forall k :: 0 <= k < |r| ==> r[k] in vals
    ensures NonIncreasing(r, vals)
    ensures Pairwise(r, TieAlphabetical(vals))
  {
    AlphabetNoDups();
    GroupedNoDups(Alphabet(), vals, top);
    GroupedDescending(Alphabet(), vals, top);
    GroupedTies(Alphabet(), vals, top);
    forall a, b | 0 <= a < b < |r| ensures TieAlphabetical(vals)(r[a], r[b]) {
      AlphabetLetterAt(r[a]);
      AlphabetLetterAt(r[b]);
      AlphabetIndex(r[a]);
      AlphabetIndex(r[b]);
    }
  }

  lemma AlphabetLetterAt(c: char)
    requires c in Alphabet()
    ensures IsLetter(c)
  {
    AlphabetIsLetters();
  }

  lemma AlphabetNoDups()
    ensures NoDups(Alphabet())
  {
    AlphabetIsLetters();
  }

  /** The first two loops of `count_frequences`: every letter with the number
      of words containing it. */
  method CountWordsPerLetter(wordlist: seq<string>) returns (ltrk: map<char, int>)
    ensures forall c :: c in ltrk <==> IsLetter(c)
    ensures forall c :: c in ltrk ==> ltrk[c] == WordsWith(wordlist, c)
  {
    ltrk := map[];
    for i := 0 to 26
      invariant forall c :: c in ltrk <==> IsLetter(c) && Rank(c) < i
      invariant forall c :: c in ltrk ==> ltrk[c] == 0
    {
      LetterRank(i);
      ltrk := ltrk[Alphabet()[i] := 0];
    }
    for n := 0 to |wordlist|
      invariant forall c :: c in ltrk <==> IsLetter(c)
      invariant forall c :: c in ltrk ==> ltrk[c] == WordsWith(wordlist[..n], c)
    {
      var w := wordlist[n];
      for i := 0 to 26
        invariant forall c :: c in ltrk <==> IsLetter(c)
        invariant forall c :: c in ltrk ==> ltrk[c] == WordsWith(wordlist[..n], c) + (if Rank(c) < i && c in w then 1 else 0)
      {
        LetterRank(i);
        var ltr := Alphabet()[i];
        if ltr in w {
          ltrk := ltrk[ltr := ltrk[ltr] + 1];
        }
      }
      forall c ensures WordsWith(wordlist[..n + 1], c) == WordsWith(wordlist[..n], c) + (if c in w then 1 else 0) {
        WordsWithSnoc(wordlist, n, c);
      }
    }
    assert wordlist[..|wordlist|] == wordlist;
  }

  /** The test of the last loop of `count_frequences`. */
  function Listed(without: string, ltrk: map<char, int>): char -> bool
  {
    c => c !in without && c in ltrk && ltrk[c] != 0
  }

  function CountAtLeast(ltrk: map<char, int>): (char, char) -> bool
  {
    (a, b) => a in ltrk && b in ltrk && ltrk[a] >= ltrk[b]
  }

  function TieAlphabetical(ltrk: map<char, int>): (char, char) -> bool
  {
    (a, b) => a in ltrk && b in ltrk && ltrk[a] == ltrk[b] ==> a < b
  }

  /** The last loop of `count_frequences`: keep, in order, the letters not in
      `without` whose count is not zero. */
  method KeepListed(ranked: string, ltrk: map<char, int>, without: string) returns (freqStr: string)
    requires forall k :: 0 <= k < |ranked| ==> ranked[k] in ltrk
    ensures freqStr == Filter(ranked, Listed(without, ltrk))
  {
    freqStr := "";
    for n := 0 to |ranked|
      invariant freqStr == Filter(ranked[..n], Listed(without, ltrk))
    {
      var val := ranked[n];
      FilterSnoc(ranked[..n], val, Listed(without, ltrk));
      assert ranked[..n + 1] == ranked[..n] + [val];
      if val !in without && ltrk[val] != 0 {
        freqStr := freqStr + [val];
      }
    }
    assert ranked[..|ranked|] == ranked;
  }

  /** `count_frequences(wordlist, without)`: the letters contained in some
      word and not in `without`, most words first, ties in alphabetical
      order. Letters in a single word are kept. */
  method CountFrequences(wordlist: seq<string>, without: string) returns (freqStr: string)
    ensures forall c :: c in freqStr <==> IsLetter(c) && c !in without && WordsWith(wordlist, c) > 0
    ensures NoDups(freqStr)
    ensures forall i, j :: 0 <= i < j < |freqStr| ==> WordsWith(wordlist, freqStr[i]) >= WordsWith(wordlist, freqStr[j])
    ensures forall i, j :: 0 <= i < j < |freqStr| && WordsWith(wordlist, freqStr[i]) == WordsWith(wordlist, freqStr[j])
              ==> freqStr[i] < freqStr[j]
  {
    var ltrk := CountWordsPerLetter(wordlist);
    AlphabetIsLetters();
    AlphabetNoDups();
    // `sorted(ltrk.items(), key=count, reverse=True)` is a stable sort.
    var freqDict := RankDescending(Alphabet(), ltrk);
    freqStr := KeepListed(freqDict, ltrk, without);
    FrequencyOrder(freqDict, ltrk, without, freqStr);
  }

  /** Filtering the stably sorted letters keeps them distinct, in
      non-increasing count, ties in alphabetical order. */
  lemma FrequencyOrder(ranked: string, ltrk: map<char, int>, without: string, freqStr: string)
    requires forall c :: c in ltrk <==> IsLetter(c)
    requires forall x :: x in ranked <==> x in Alphabet()
    requires forall k :: 0 <= k < |ranked| ==> ranked[k] in ltrk
    requires NoDups(ranked)
    requires forall i, j :: 0 <= i < j < |ranked| ==> ltrk[ranked[i]] >= ltrk[ranked[j]]
    requires forall i, j :: 0 <= i < j < |ranked| && ltrk[ranked[i]] == ltrk[ranked[j]]
               ==> IndexOf(Alphabet(), ranked[i]) < IndexOf(Alphabet(), ranked[j])
    requires freqStr == Filter(ranked, Listed(without, ltrk))
    ensures NoDups(freqStr)
    ensures Pairwise(freqStr, CountAtLeast(ltrk))
    ensures Pairwise(freqStr, TieAlphabetical(ltrk))
  {
    AlphabetIsLetters();
    FilterNoDups(ranked, Listed(without, ltrk));
    forall i, j | 0 <= i < j < |ranked| ensures TieAlphabetical(ltrk)(ranked[i], ranked[j]) {
      assert ranked[i] in ranked && ranked[j] in ranked;
      AlphabetIndex(ranked[i]);
      AlphabetIndex(ranked[j]);
    }
    FilterPairs(ranked, Listed(without, ltrk), CountAtLeast(ltrk));
    FilterPairs(ranked, Listed(without, ltrk), TieAlphabetical(ltrk));
  }

}
