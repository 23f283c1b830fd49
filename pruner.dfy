/** `prune_list`: the words still possible given the knowledge. The source
    builds two kinds of regular expression; here each is the predicate it
    stands for: a per-position pattern (`Slot`) and a minimum letter count. */
module Pruner {
  import opened Lists
  import opened Words
  import opened Feedback
  import opened KnowledgeBase

  /** One position of the anchored pattern: the known letter, a negated
      character class, or the wildcard `.`. */
  datatype Slot = Fixed(letter: char) | NoneOf(excluded: set<char>) | Any

  predicate SlotAdmits(slot: Slot, ch: char)
  {
    match slot
    case Fixed(letter) => ch == letter
    case NoneOf(excluded) => ch !in excluded
    case Any => true
  }

  /** The pattern piece for position `i`: the known letter if there is one;
      otherwise, when `position_not[i]` or `alpha_not` is non-empty, a class
      excluding their letters; otherwise the wildcard. */
  function SlotOf(k: Facts, i: nat): Slot
    requires WellFormed(k) && i < WordLength
  {
    if k.positionKnown[i].Some? then Fixed(k.positionKnown[i].value)
    else if k.positionNot[i] != [] || k.alphaNot != [] then NoneOf(set c | c in k.positionNot[i] + k.alphaNot)
    else Any
  }

  /** `^` + the slots + `$` matches `w`. */
  predicate Fits(slots: seq<Slot>, w: string)
  {
    |w| == |slots| && forall i :: 0 <= i < |w| ==> SlotAdmits(slots[i], w[i])
  }

  function FitsFn(slots: seq<Slot>): string -> bool
  {
    w => Fits(slots, w)
  }

  /** The search for `c(.*c)` repeated: at least `n` copies of `c`. */
  function AtLeastFn(c: char, n: nat): string -> bool
  {
    w => Count(w, c) >= n
  }

  /** The per-position test, stated on the knowledge itself. */
  predicate PositionsOk(k: Facts, w: string)
    requires WellFormed(k)
  {
    && |w| == WordLength
    && forall i :: 0 <= i < WordLength ==>
         if k.positionKnown[i].Some? then w[i] == k.positionKnown[i].value
         else w[i] !in k.positionNot[i] && w[i] !in k.alphaNot
  }

  /** The minimum-count test: at least `alpha_count[c]` copies of every letter `c`. */
  predicate CountsOk(k: Facts, w: string)
    requires WellFormed(k)
  {
    forall c :: c in k.alphaCount ==> Count(w, c) >= k.alphaCount[c]
  }

  predicate Admits(k: Facts, w: string)
    requires WellFormed(k)
  {
    PositionsOk(k, w) && CountsOk(k, w)
  }

  function AdmitsFn(k: Facts): string -> bool
    requires WellFormed(k)
  {
    w => Admits(k, w)
  }

  /** What `prune_list(words, known)` returns. */
  function Prune(k: Facts, words: seq<string>): (r: seq<string>)
    requires WellFormed(k)
    ensures IsSublist(r, words)
  {
    FilterIsSublist(words, AdmitsFn(k));
    Filter(words, AdmitsFn(k))
  }

  /** The anchored pattern of the first stage accepts exactly the words that
      pass the per-position test. */
  lemma SlotsMeanPositions(k: Facts, slots: seq<Slot>, w: string)
    requires WellFormed(k) && |slots| == WordLength
    requires forall i :: 0 <= i < WordLength ==> slots[i] == SlotOf(k, i)
    ensures Fits(slots, w) <==> PositionsOk(k, w)
  {
    if |w| == WordLength {
      forall i | 0 <= i < WordLength
        ensures SlotAdmits(slots[i], w[i])
            <==> if k.positionKnown[i].Some? then w[i] == k.positionKnown[i].value
                 else w[i] !in k.positionNot[i] && w[i] !in k.alphaNot
      {
        assert w[i] in k.positionNot[i] + k.alphaNot <==> w[i] in k.positionNot[i] || w[i] in k.alphaNot;
      }
    }
  }

  /** A word passing the first stage and the count tests of the first `n`
      letters of the alphabet. */
  predicate Passes(slots: seq<Slot>, k: Facts, n: nat, w: string)
    requires WellFormed(k) && n <= 26
  {
    AlphabetIsLetters();
    Fits(slots, w) && forall j :: 0 <= j < n ==> Count(w, Alphabet()[j]) >= k.alphaCount[Alphabet()[j]]
  }

  function PassesFn(slots: seq<Slot>, k: Facts, n: nat): string -> bool
    requires WellFormed(k) && n <= 26
  {
    w => Passes(slots, k, n, w)
  }

  /** After the whole alphabet, the two stages together are `Admits`. */
  lemma PassesAll(k: Facts, slots: seq<Slot>, w: string)
    requires WellFormed(k) && |slots| == WordLength
    requires forall i :: 0 <= i < WordLength ==> slots[i] == SlotOf(k, i)
    ensures Passes(slots, k, 26, w) <==> Admits(k, w)
  {
    SlotsMeanPositions(k, slots, w);
    if Passes(slots, k, 26, w) {
      AlphabetCounts(k, w);
    }
    if Admits(k, w) {
      CountsAlphabet(k, w);
    }
  }

  /** The 26 count tests, letter by letter, give the minimum-count test. */
  lemma AlphabetCounts(k: Facts, w: string)
    requires WellFormed(k)
    requires forall j :: 0 <= j < 26 ==> Count(w, Alphabet()[j]) >= k.alphaCount[Alphabet()[j]]
    ensures CountsOk(k, w)
  {
    AlphabetIsLetters();
    forall c | c in k.alphaCount ensures Count(w, c) >= k.alphaCount[c] {
      assert Alphabet()[c as int - 'A' as int] == c;
    }
  }

  /** The minimum-count test gives each of the 26 count tests. */
  lemma CountsAlphabet(k: Facts, w: string)
    requires WellFormed(k) && CountsOk(k, w)
    ensures forall j :: 0 <= j < 26 ==> Count(w, Alphabet()[j]) >= k.alphaCount[Alphabet()[j]]
  {
    forall j | 0 <= j < 26 ensures Count(w, Alphabet()[j]) >= k.alphaCount[Alphabet()[j]] {
      AlphabetLetter(j);
    }
  }

  lemma PassesSnoc(slots: seq<Slot>, k: Facts, n: nat, w: string)
    requires WellFormed(k) && n < 26
    ensures Alphabet()[n] in k.alphaCount
    ensures Passes(slots, k, n + 1, w)
        <==> Passes(slots, k, n, w) && AtLeastFn(Alphabet()[n], k.alphaCount[Alphabet()[n]])(w)
  {
    AlphabetLetter(n);
  }

  /** One more letter of the alphabet: filtering by its count test, which
      changes nothing when the count is 0. */
  lemma PassesStep(k: Facts, slots: seq<Slot>, n: nat, words: seq<string>)
    requires WellFormed(k) && n < 26
    ensures var c := Alphabet()[n];
      && c in k.alphaCount
      && Filter(Filter(words, PassesFn(slots, k, n)), AtLeastFn(c, k.alphaCount[c]))
         == Filter(words, PassesFn(slots, k, n + 1))
      && (k.alphaCount[c] == 0 ==> Filter(words, PassesFn(slots, k, n)) == Filter(words, PassesFn(slots, k, n + 1)))
  {
    var c := Alphabet()[n];
    forall w ensures PassesFn(slots, k, n + 1)(w) == (PassesFn(slots, k, n)(w) && AtLeastFn(c, k.alphaCount[c])(w)) {
      PassesSnoc(slots, k, n, w);
    }
    FilterFilter(words, PassesFn(slots, k, n), AtLeastFn(c, k.alphaCount[c]), PassesFn(slots, k, n + 1));
    if k.alphaCount[c] == 0 {
      FilterExt(words, PassesFn(slots, k, n), PassesFn(slots, k, n + 1));
    }
  }

  /** The first stage alone is passing the count tests of no letter. */
  lemma PassesNone(k: Facts, slots: seq<Slot>, words: seq<string>)
    requires WellFormed(k)
    ensures Filter(words, FitsFn(slots)) == Filter(words, PassesFn(slots, k, 0))
  {
    FilterExt(words, FitsFn(slots), PassesFn(slots, k, 0));
  }

  /** `prune_list(start_list, known)`: build the per-position pattern, keep
      the words it matches, then for each letter with a positive minimum
      count keep the words with that many copies. */
  method PruneList(startList: seq<string>, known: Knowledge) returns (pruned: seq<string>)
    requires known.Valid()
    ensures pruned == Prune(known.View(), startList)
  {
    var k := known.View();
    var slots: seq<Slot> := [];
    for pos := 0 to WordLength
      invariant |slots| == pos
      invariant forall i :: 0 <= i < pos ==> slots[i] == SlotOf(k, i)
    {
      if known.positionKnown[pos].Some? {
        slots := slots + [Fixed(known.positionKnown[pos].value)];
      } else if known.positionNot[pos] != [] || known.alphaNot != [] {
        slots := slots + [NoneOf(set c | c in known.positionNot[pos] + known.alphaNot)];
      } else {
        slots := slots + [Any];
      }
    }
    pruned := Filter(startList, FitsFn(slots));
    PassesNone(k, slots, startList);
    for i := 0 to |Alphabet()|
      invariant pruned == Filter(startList, PassesFn(slots, k, i))
    {
      PassesStep(k, slots, i, startList);
      var ltr := Alphabet()[i];
      if known.alphaCount[ltr] > 0 {
        pruned := Filter(pruned, AtLeastFn(ltr, known.alphaCount[ltr]));
      }
    }
    forall w ensures PassesFn(slots, k, 26)(w) == AdmitsFn(k)(w) {
      PassesAll(k, slots, w);
    }
    FilterExt(startList, PassesFn(slots, k, 26), AdmitsFn(k));
  }

  /** The result is an order-preserving sub-list of the input, holding
      exactly the input words that pass both tests. */
  lemma PruneSublist(k: Facts, words: seq<string>)
    requires WellFormed(k)
    ensures IsSublist(Prune(k, words), words)
    ensures forall w :: w in Prune(k, words) <==> w in words && Admits(k, w)
  {
    FilterIsSublist(words, AdmitsFn(k));
  }

  /** Pruning twice with the same knowledge equals pruning once. */
  lemma PruneIdempotent(k: Facts, words: seq<string>)
    requires WellFormed(k)
    ensures Prune(k, Prune(k, words)) == Prune(k, words)
  {
    FilterIdempotent(words, AdmitsFn(k));
  }

  /** Knowledge that is true of `s` admits `s`. */
  lemma SoundAdmits(s: string, k: Facts)
    requires WellFormed(k) && Sound(s, k)
    ensures Admits(k, s)
  {
    forall i | 0 <= i < WordLength && k.positionKnown[i].None?
      ensures s[i] !in k.alphaNot
    {
      if s[i] in k.alphaNot {
        SelectMembers(k.alphaStatus, {Miss}, Alphabet(), s[i]);
      }
    }
  }

  /** The check of the game loop: pruning with knowledge true of the
      solution keeps the solution. */
  lemma SolutionSurvives(s: string, k: Facts, words: seq<string>)
    requires WellFormed(k) && Sound(s, k) && s in words
    ensures s in Prune(k, words)
  {
    SoundAdmits(s, k);
  }

  /** Pruning with knowledge that admits fewer words keeps a sub-list of
      what pruning with the weaker knowledge keeps. */
  lemma PruneNarrows(k1: Facts, k2: Facts, words: seq<string>)
    requires WellFormed(k1) && WellFormed(k2)
    requires forall w :: Admits(k2, w) ==> Admits(k1, w)
    ensures IsSublist(Prune(k2, words), Prune(k1, words))
  {
    FilterMono(words, AdmitsFn(k2), AdmitsFn(k1));
  }

  /** A MISS letter of knowledge true of `s` is absent from `s`, so the true
      feedback cannot mark it and it stays in `alpha_not`. */
  lemma LearnKeepsExcluded(s: string, k: Facts, g: string, c: char)
    requires WellFormed(k) && IsWord(g) && Sound(s, k) && c in k.alphaNot
    ensures c !in s && c in Learn(k, g, Evaluate(s, g)).alphaNot
  {
    var r := Evaluate(s, g);
    SelectMembers(k.alphaStatus, {Miss}, Alphabet(), c);
    AlphabetIsLetters();
    MarkedIsMin(s, g, c);
    LearnStatus(k, g, r, c);
    LearnDerivedLetters(k, g, r, c);
  }

  /** Position `i` of a word admitted after learning the true feedback
      passes the old knowledge's test at `i`. */
  lemma LearnNarrowsAt(s: string, k: Facts, g: string, w: string, i: nat)
    requires WellFormed(k) && IsWord(g) && Sound(s, k) && i < WordLength
    requires PositionsOk(Learn(k, g, Evaluate(s, g)), w)
    ensures if k.positionKnown[i].Some? then w[i] == k.positionKnown[i].value
            else w[i] !in k.positionNot[i] && w[i] !in k.alphaNot
  {
    var r := Evaluate(s, g);
    var k' := Learn(k, g, r);
    LearnPositions(k, g, r, i);
    if k.positionKnown[i].None? {
      if r[i] == Hit {
        assert w[i] == s[i] && s[i] in s;
        if s[i] in k.alphaNot {
          LearnKeepsExcluded(s, k, g, s[i]);
        }
      } else {
        assert w[i] !in k'.positionNot[i];
        if w[i] in k.alphaNot {
          LearnKeepsExcluded(s, k, g, w[i]);
        }
      }
    }
  }

  /** Monotonic narrowing: after an update with the true feedback for a
      guess, every word the new knowledge admits was admitted before. */
  lemma LearnNarrows(s: string, k: Facts, g: string, w: string)
    requires WellFormed(k) && IsWord(g) && Sound(s, k)
    requires Admits(Learn(k, g, Evaluate(s, g)), w)
    ensures Admits(k, w)
  {
    var r := Evaluate(s, g);
    forall i | 0 <= i < WordLength
      ensures if k.positionKnown[i].Some? then w[i] == k.positionKnown[i].value
              else w[i] !in k.positionNot[i] && w[i] !in k.alphaNot
    {
      LearnNarrowsAt(s, k, g, w, i);
    }
    forall c | c in k.alphaCount ensures Count(w, c) >= k.alphaCount[c] {
      LearnCount(k, g, r, c);
    }
  }

  /** Pruning any list with the knowledge after an update keeps an
      order-preserving sub-list of what the knowledge before it keeps. */
  lemma LearnPrunesNarrower(s: string, k: Facts, g: string, words: seq<string>)
    requires WellFormed(k) && IsWord(g) && Sound(s, k)
    ensures IsSublist(Prune(Learn(k, g, Evaluate(s, g)), words), Prune(k, words))
  {
    var k' := Learn(k, g, Evaluate(s, g));
    forall w | Admits(k', w) ensures Admits(k, w) {
      LearnNarrows(s, k, g, w);
    }
    PruneNarrows(k, k', words);
  }
}
