/** The knowledge state: what the guesses so far prove about the solution.
    `Knowledge` is the object the game updates in place after every guess;
    `Facts` is the value of its fields, and `Learn` says in closed form what
    one `update` does to them. */
module KnowledgeBase {
  import opened Words
  import opened Feedback

  /** Status of a letter not yet seen in any guess. */
  const Unknown: char := ' '

  datatype Option<T> = None | Some(value: T)

  /** The fields of a `Knowledge` object (all but the word list), as one value. */
  datatype Facts = Facts(
    positionKnown: seq<Option<char>>,
    positionNot: seq<string>,
    alphaStatus: map<char, char>,
    alphaCount: map<char, nat>,
    alphaNot: string,
    alphaKnown: string)

  predicate IsStatus(st: char)
  {
    st == Unknown || IsMark(st)
  }

  predicate Ascending(s: string)
  {
    forall i, j :: 0 <= i < j < |s| ==> s[i] < s[j]
  }

  /** The letters of `letters`, in their order, whose status is in `want`. */
  function Select(status: map<char, char>, want: set<char>, letters: string): string
  {
    if letters == [] then []
    else
      var init, last := letters[..|letters| - 1], letters[|letters| - 1];
      assert letters == init + [last];
      Select(status, want, init) + (if last in status && status[last] in want then [last] else [])
  }

  /** A letter is selected exactly when it is one of `letters` with a wanted status. */
  lemma {:induction false} SelectMembers(status: map<char, char>, want: set<char>, letters: string, c: char)
    ensures c in Select(status, want, letters) <==> c in letters && c in status && status[c] in want
  {
    if letters != [] {
      var init, last := letters[..|letters| - 1], letters[|letters| - 1];
      assert letters == init + [last];
      SelectMembers(status, want, init, c);
    }
  }

  lemma SelectSnoc(status: map<char, char>, want: set<char>, letters: string, x: char)
    ensures Select(status, want, letters + [x])
         == Select(status, want, letters) + (if x in status && status[x] in want then [x] else [])
  {
    assert (letters + [x])[..|letters|] == letters;
  }

  /** One letter more of the alphabet, as the third loop of `update` reads it. */
  lemma SelectAlphabetStep(status: map<char, char>, i: nat)
    requires i < 26 && status.Keys == LetterSet()
    ensures Alphabet()[i] in status
    ensures var ch := Alphabet()[i];
      && Select(status, {Miss}, Alphabet()[..i + 1])
         == Select(status, {Miss}, Alphabet()[..i]) + (if status[ch] == Miss then [ch] else [])
      && Select(status, {Hit, Partial}, Alphabet()[..i + 1])
         == Select(status, {Hit, Partial}, Alphabet()[..i]) + (if status[ch] == Hit || status[ch] == Partial then [ch] else [])
  {
    var ch := Alphabet()[i];
    AlphabetLetter(i);
    assert Alphabet()[..i + 1] == Alphabet()[..i] + [ch];
    SelectSnoc(status, {Miss}, Alphabet()[..i], ch);
    SelectSnoc(status, {Hit, Partial}, Alphabet()[..i], ch);
  }

  /** Selecting from letters in alphabetical order keeps alphabetical order. */
  lemma {:induction false} SelectAscending(status: map<char, char>, want: set<char>, letters: string)
    requires Ascending(letters)
    ensures Ascending(Select(status, want, letters))
  {
    if letters != [] {
      var init, last := letters[..|letters| - 1], letters[|letters| - 1];
      assert letters == init + [last];
      assert Ascending(init);
      SelectAscending(status, want, init);
      var s := Select(status, want, init);
      forall i | 0 <= i < |s| ensures s[i] < last {
        SelectMembers(status, want, init, s[i]);
      }
    }
  }

  lemma AlphabetAscending()
    ensures Ascending(Alphabet())
  {
  }

  /** The keys of `alpha_status` and `alpha_count`: the letters A..Z. */
  function LetterSet(): (letters: set<char>)
    ensures forall c :: c in letters <==> IsLetter(c)
  {
    AlphabetIsLetters();
    set c | c in Alphabet()
  }

  predicate WellFormed(k: Facts)
  {
    && |k.positionKnown| == WordLength
    && |k.positionNot| == WordLength
    && k.alphaStatus.Keys == LetterSet()
    && k.alphaCount.Keys == LetterSet()
    && (forall c :: c in k.alphaStatus ==> IsStatus(k.alphaStatus[c]))
    && k.alphaNot == Select(k.alphaStatus, {Miss}, Alphabet())
    && k.alphaKnown == Select(k.alphaStatus, {Hit, Partial}, Alphabet())
  }

  /** When no letter of `letters` has a wanted status, nothing is selected. */
  lemma {:induction false} SelectNone(status: map<char, char>, want: set<char>, letters: string)
    requires forall c :: c in status ==> status[c] !in want
    ensures Select(status, want, letters) == []
  {
    if letters != [] {
      SelectNone(status, want, letters[..|letters| - 1]);
    }
  }

  /** What `Knowledge.__init__` sets up: nothing known. */
  function Initial(): (k: Facts)
    ensures WellFormed(k)
    ensures forall c :: c in k.alphaStatus ==> k.alphaStatus[c] == Unknown
    ensures forall c :: c in k.alphaCount ==> k.alphaCount[c] == 0
    ensures k.alphaNot == [] && k.alphaKnown == []
  {
    AlphabetIsLetters();
    var status := map c | c in Alphabet() :: Unknown;
    SelectNone(status, {Miss}, Alphabet());
    SelectNone(status, {Hit, Partial}, Alphabet());
    Facts(seq(WordLength, _ => None), seq(WordLength, _ => ""), status, map c | c in Alphabet() :: 0, "", "")
  }

  /** Status of a letter after the first loop of `update`: a HIT makes it HIT,
      a PARTIAL makes it PARTIAL unless it is already HIT. */
  function MarkPass(st: char, g: string, r: string, c: char): char
    requires |g| == |r|
  {
    if Tally(g, r, c, Hit) > 0 then Hit
    else if Tally(g, r, c, Partial) > 0 && st != Hit then Partial
    else st
  }

  /** Status of a letter after the global-MISS loop of `update`: a MISS makes
      it MISS unless it is HIT or PARTIAL by then. */
  function MissPass(st: char, g: string, r: string, c: char): char
    requires |g| == |r|
  {
    if Tally(g, r, c, Miss) > 0 && st != Hit && st != Partial then Miss else st
  }

  /** Every letter of `g` has a status. */
  predicate Covers(g: string, status: map<char, char>)
  {
    forall i :: 0 <= i < |g| ==> g[i] in status
  }

  lemma WordCovers(g: string, status: map<char, char>)
    requires IsWord(g) && status.Keys == LetterSet()
    ensures Covers(g, status)
  {
  }

  /** `position_known` once the first loop of `update` has read `n` marks. */
  function KnownUpTo(known: seq<Option<char>>, g: string, r: string, n: nat): (p: seq<Option<char>>)
    requires |known| == |g| == |r| && n <= |g|
    ensures |p| == |known|
  {
    if n == 0 then known
    else
      var p := KnownUpTo(known, g, r, n - 1);
      if r[n - 1] == Hit then p[n - 1 := Some(g[n - 1])] else p
  }

  /** `position_not` once the first loop of `update` has read `n` marks. */
  function ExcludedUpTo(excluded: seq<string>, g: string, r: string, n: nat): (p: seq<string>)
    requires |excluded| == |g| == |r| && n <= |g|
    ensures |p| == |excluded|
  {
    if n == 0 then excluded
    else
      var p := ExcludedUpTo(excluded, g, r, n - 1);
      if r[n - 1] == Miss || r[n - 1] == Partial then p[n - 1 := p[n - 1] + [g[n - 1]]] else p
  }

  /** `alpha_status` once the first loop of `update` has read `n` marks. */
  function MarkedUpTo(status: map<char, char>, g: string, r: string, n: nat): (s: map<char, char>)
    requires |g| == |r| && n <= |g| && Covers(g, status)
    ensures s.Keys == status.Keys
  {
    if n == 0 then status
    else
      var s := MarkedUpTo(status, g, r, n - 1);
      var c := g[n - 1];
      if r[n - 1] == Hit then s[c := Hit]
      else if r[n - 1] == Partial && s[c] != Hit then s[c := Partial]
      else s
  }

  /** `alpha_status` once the global-MISS loop of `update` has read `n` marks. */
  function MissedUpTo(status: map<char, char>, g: string, r: string, n: nat): (s: map<char, char>)
    requires |g| == |r| && n <= |g| && Covers(g, status)
    ensures s.Keys == status.Keys
  {
    if n == 0 then status
    else
      var s := MissedUpTo(status, g, r, n - 1);
      var c := g[n - 1];
      if r[n - 1] == Miss && s[c] != Hit && s[c] != Partial then s[c := Miss] else s
  }

  /** A position of `position_known` is set by a HIT there and is otherwise unchanged. */
  lemma {:induction false} KnownUpToAt(known: seq<Option<char>>, g: string, r: string, n: nat, i: nat)
    requires |known| == |g| == |r| && n <= |g| && i < |known|
    ensures KnownUpTo(known, g, r, n)[i] == if i < n && r[i] == Hit then Some(g[i]) else known[i]
  {
    if n > 0 {
      KnownUpToAt(known, g, r, n - 1, i);
    }
  }

  /** A position of `position_not` gains its guessed letter on a MISS or PARTIAL there. */
  lemma {:induction false} ExcludedUpToAt(excluded: seq<string>, g: string, r: string, n: nat, i: nat)
    requires |excluded| == |g| == |r| && n <= |g| && i < |excluded|
    ensures ExcludedUpTo(excluded, g, r, n)[i]
         == if i < n && (r[i] == Miss || r[i] == Partial) then excluded[i] + [g[i]] else excluded[i]
  {
    if n > 0 {
      ExcludedUpToAt(excluded, g, r, n - 1, i);
    }
  }

  /** The first loop leaves each letter with the status `MarkPass` gives from
      its marks so far. */
  lemma {:induction false} MarkedUpToAt(status: map<char, char>, g: string, r: string, n: nat, c: char)
    requires |g| == |r| && n <= |g| && Covers(g, status) && c in status
    ensures MarkedUpTo(status, g, r, n)[c] == MarkPass(status[c], g[..n], r[..n], c)
  {
    if n > 0 {
      MarkedUpToAt(status, g, r, n - 1, c);
      TallyLast(g, r, n, c, Hit);
      TallyLast(g, r, n, c, Partial);
    }
  }

  /** The global-MISS loop leaves each letter with the status `MissPass`
      gives from its marks so far. */
  lemma {:induction false} MissedUpToAt(status: map<char, char>, g: string, r: string, n: nat, c: char)
    requires |g| == |r| && n <= |g| && Covers(g, status) && c in status
    ensures MissedUpTo(status, g, r, n)[c] == MissPass(status[c], g[..n], r[..n], c)
  {
    if n > 0 {
      MissedUpToAt(status, g, r, n - 1, c);
      TallyLast(g, r, n, c, Miss);
    }
  }

  function Max(a: nat, b: nat): nat
  {
    if a < b then b else a
  }

  /** The `multi` dictionary of `update` after `n` marks: HIT and PARTIAL
      marks per letter, for the letters that have any. */
  function MarkCounts(g: string, r: string, n: nat): map<char, nat>
    requires |g| == |r| && n <= |g|
  {
    if n == 0 then map[]
    else
      var m := MarkCounts(g, r, n - 1);
      var c := g[n - 1];
      if r[n - 1] == Hit || r[n - 1] == Partial then
        if c !in m then m[c := 1] else m[c := m[c] + 1]
      else m
  }

  /** `multi` holds exactly the letters with a HIT or PARTIAL so far, each
      with its number of such marks. */
  lemma {:induction false} MarkCountsAt(g: string, r: string, n: nat, c: char)
    requires |g| == |r| && n <= |g|
    ensures c in MarkCounts(g, r, n) <==> Marked(g[..n], r[..n], c) > 0
    ensures c in MarkCounts(g, r, n) ==> MarkCounts(g, r, n)[c] == Marked(g[..n], r[..n], c)
  {
    if n > 0 {
      MarkCountsAt(g, r, n - 1, c);
      MarkedStep(g, r, n - 1, c);
    }
  }

  /** `alpha_count` once the letters of `multi` outside `todo` are applied. */
  function Raised(count: map<char, nat>, multi: map<char, nat>, todo: set<char>): (m: map<char, nat>)
    ensures m.Keys == count.Keys
  {
    map c | c in count :: if c in multi && c !in todo then Max(count[c], multi[c]) else count[c]
  }

  lemma MarkedStep(g: string, r: string, n: nat, c: char)
    requires |g| == |r| && n < |g|
    ensures Marked(g[..n + 1], r[..n + 1], c)
         == Marked(g[..n], r[..n], c) + (if g[n] == c && (r[n] == Hit || r[n] == Partial) then 1 else 0)
  {
    TallyStep(g, r, n, c, Hit);
    TallyStep(g, r, n, c, Partial);
  }

  /** `alpha_count` after `update`: each letter raised to its number of HIT
      and PARTIAL marks in the guess when that is larger. */
  function RaisedTo(count: map<char, nat>, g: string, r: string): (m: map<char, nat>)
    requires |g| == |r|
    ensures m.Keys == count.Keys
  {
    map c | c in count :: Max(count[c], Marked(g, r, c))
  }

  /** Applying every entry of the completed `multi` gives `RaisedTo`. */
  lemma RaisedAll(count: map<char, nat>, g: string, r: string)
    requires |g| == |r|
    ensures Raised(count, MarkCounts(g, r, |g|), {}) == RaisedTo(count, g, r)
  {
    assert g[..|g|] == g && r[..|r|] == r;
    var m := MarkCounts(g, r, |g|);
    forall c | c in count
      ensures Raised(count, m, {})[c] == RaisedTo(count, g, r)[c]
    {
      MarkCountsAt(g, r, |g|, c);
    }
  }

  /** Every key of the completed `multi` is a letter of the guess. */
  lemma MarkCountsLetters(g: string, r: string)
    requires IsWord(g) && |r| == |g|
    ensures MarkCounts(g, r, |g|).Keys <= LetterSet()
  {
    assert g[..|g|] == g && r[..|r|] == r;
    forall c | c in MarkCounts(g, r, |g|) ensures IsLetter(c) {
      MarkCountsAt(g, r, |g|, c);
      assert c in g;
      var i :| 0 <= i < |g| && g[i] == c;
    }
  }

  /** With every key still to do, nothing has been raised yet. */
  lemma RaiseNone(count: map<char, nat>, multi: map<char, nat>)
    ensures Raised(count, multi, multi.Keys) == count
  {
  }

  lemma RaiseStep(count: map<char, nat>, multi: map<char, nat>, todo: set<char>, letter: char)
    requires letter in todo && letter in count && letter in multi
    ensures var m := Raised(count, multi, todo);
      Raised(count, multi, todo - {letter})
      == if multi[letter] > m[letter] then m[letter := multi[letter]] else m
  {
  }

  /** The fields after the first loop of `update`. */
  function MarkPhase(k: Facts, g: string, r: string): Facts
    requires |k.positionKnown| == |k.positionNot| == WordLength && IsWord(g) && IsFeedback(r)
    requires Covers(g, k.alphaStatus)
  {
    k.(positionKnown := KnownUpTo(k.positionKnown, g, r, WordLength),
       positionNot := ExcludedUpTo(k.positionNot, g, r, WordLength),
       alphaStatus := MarkedUpTo(k.alphaStatus, g, r, WordLength))
  }

  /** The fields after the second loop of `update`. */
  function MissPhase(k: Facts, g: string, r: string): Facts
    requires IsWord(g) && IsFeedback(r) && Covers(g, k.alphaStatus)
  {
    k.(alphaStatus := MissedUpTo(k.alphaStatus, g, r, WordLength))
  }

  /** The fields after the third loop of `update`. */
  function DerivePhase(k: Facts): Facts
  {
    k.(alphaNot := Select(k.alphaStatus, {Miss}, Alphabet()),
       alphaKnown := Select(k.alphaStatus, {Hit, Partial}, Alphabet()))
  }

  /** The fields after the fourth loop of `update`. */
  function CountPhase(k: Facts, g: string, r: string): Facts
    requires IsWord(g) && IsFeedback(r)
  {
    k.(alphaCount := RaisedTo(k.alphaCount, g, r))
  }

  /** The statuses after the first two loops of `update`, letter by letter. */
  lemma StatusesAfter(k: Facts, g: string, r: string)
    requires IsWord(g) && IsFeedback(r) && k.alphaStatus.Keys == LetterSet()
    ensures Covers(g, k.alphaStatus)
    ensures var marked := MarkedUpTo(k.alphaStatus, g, r, WordLength);
      forall c :: c in k.alphaStatus ==>
        && marked[c] == MarkPass(k.alphaStatus[c], g, r, c)
        && MissedUpTo(marked, g, r, WordLength)[c] == MissPass(marked[c], g, r, c)
  {
    WordCovers(g, k.alphaStatus);
    assert g[..WordLength] == g && r[..WordLength] == r;
    var marked := MarkedUpTo(k.alphaStatus, g, r, WordLength);
    forall c | c in k.alphaStatus
      ensures marked[c] == MarkPass(k.alphaStatus[c], g, r, c)
      ensures MissedUpTo(marked, g, r, WordLength)[c] == MissPass(marked[c], g, r, c)
    {
      MarkedUpToAt(k.alphaStatus, g, r, WordLength, c);
      MissedUpToAt(marked, g, r, WordLength, c);
    }
  }

  /** The fields after `update(g, r)`: the four loops in turn. */
  function Learn(k: Facts, g: string, r: string): (k': Facts)
    requires WellFormed(k) && IsWord(g) && IsFeedback(r)
    ensures WellFormed(k')
  {
    WordCovers(g, k.alphaStatus);
    StatusesAfter(k, g, r);
    CountPhase(DerivePhase(MissPhase(MarkPhase(k, g, r), g, r)), g, r)
  }

  /** `update` never downgrades a letter: HIT stays HIT, PARTIAL can only
      become HIT, a letter with any status never returns to unknown, and a
      MISS letter stays MISS unless this guess marks it HIT or PARTIAL. A
      letter marked HIT or PARTIAL in this guess is known present, and MISS
      is set only for a letter with a MISS in this guess, no HIT or PARTIAL
      in it and no earlier HIT or PARTIAL. */
  lemma LearnStatus(k: Facts, g: string, r: string, c: char)
    requires WellFormed(k) && IsWord(g) && IsFeedback(r) && IsLetter(c)
    ensures var old_ := k.alphaStatus[c]; var now := Learn(k, g, r).alphaStatus[c];
      && (old_ == Hit ==> now == Hit)
      && (old_ == Partial ==> now == Hit || now == Partial)
      && (old_ != Unknown ==> now != Unknown)
      && (old_ == Miss && Marked(g, r, c) == 0 ==> now == Miss)
      && (Marked(g, r, c) > 0 ==> now == Hit || now == Partial)
      && (Tally(g, r, c, Hit) > 0 ==> now == Hit)
      && (now == Miss ==> old_ == Miss || (Marked(g, r, c) == 0 && Tally(g, r, c, Miss) > 0 && old_ != Hit && old_ != Partial))
  {
    StatusesAfter(k, g, r);
  }

  /** After `update`, `alpha_not` and `alpha_known` list the letters whose
      status is MISS, respectively HIT or PARTIAL, and no letter is in both. */
  lemma LearnDerivedLetters(k: Facts, g: string, r: string, c: char)
    requires WellFormed(k) && IsWord(g) && IsFeedback(r)
    ensures var k' := Learn(k, g, r);
      && (c in k'.alphaNot <==> IsLetter(c) && k'.alphaStatus[c] == Miss)
      && (c in k'.alphaKnown <==> IsLetter(c) && (k'.alphaStatus[c] == Hit || k'.alphaStatus[c] == Partial))
      && !(c in k'.alphaNot && c in k'.alphaKnown)
  {
    var st := Learn(k, g, r).alphaStatus;
    AlphabetIsLetters();
    SelectMembers(st, {Miss}, Alphabet(), c);
    SelectMembers(st, {Hit, Partial}, Alphabet(), c);
  }

  /** `alpha_not` and `alpha_known` are kept in alphabetical order. */
  lemma LearnDerivedAscending(k: Facts, g: string, r: string)
    requires WellFormed(k) && IsWord(g) && IsFeedback(r)
    ensures Ascending(Learn(k, g, r).alphaNot) && Ascending(Learn(k, g, r).alphaKnown)
  {
    var st := Learn(k, g, r).alphaStatus;
    AlphabetAscending();
    SelectAscending(st, {Miss}, Alphabet());
    SelectAscending(st, {Hit, Partial}, Alphabet());
  }

  /** The per-position fields change only where the guess says something:
      a HIT fixes the letter; a MISS or PARTIAL excludes it from that
      position. */
  lemma LearnPositions(k: Facts, g: string, r: string, i: nat)
    requires WellFormed(k) && IsWord(g) && IsFeedback(r) && i < WordLength
    ensures var k' := Learn(k, g, r);
      && k'.positionKnown[i] == (if r[i] == Hit then Some(g[i]) else k.positionKnown[i])
      && k'.positionNot[i] == (if r[i] == Hit then k.positionNot[i] else k.positionNot[i] + [g[i]])
  {
    KnownUpToAt(k.positionKnown, g, r, WordLength, i);
    ExcludedUpToAt(k.positionNot, g, r, WordLength, i);
  }

  /** `alpha_count` is raised to the number of HIT and PARTIAL marks of the
      letter in this guess when that is larger, and never lowered. */
  lemma LearnCount(k: Facts, g: string, r: string, c: char)
    requires WellFormed(k) && IsWord(g) && IsFeedback(r) && IsLetter(c)
    ensures var n := Learn(k, g, r).alphaCount[c];
      && n >= k.alphaCount[c] && n >= Marked(g, r, c)
      && (n == k.alphaCount[c] || n == Marked(g, r, c))
  {
    assert g[..WordLength] == g && r[..WordLength] == r;
  }

  /** Guesses paired with their results, one word and one result each. */
  predicate IsRun(guesses: seq<string>, results: seq<string>)
  {
    |guesses| == |results| && forall t :: 0 <= t < |guesses| ==> IsWord(guesses[t]) && IsFeedback(results[t])
  }

  lemma RunTail(guesses: seq<string>, results: seq<string>)
    requires IsRun(guesses, results) && guesses != []
    ensures IsWord(guesses[0]) && IsFeedback(results[0]) && IsRun(guesses[1..], results[1..])
  {
    assert forall t :: 0 <= t < |guesses| - 1 ==> guesses[1..][t] == guesses[t + 1] && results[1..][t] == results[t + 1];
  }

  /** A run of updates, one per (guess, result) pair. */
  function LearnAll(k: Facts, guesses: seq<string>, results: seq<string>): (k': Facts)
    requires WellFormed(k) && IsRun(guesses, results)
    ensures WellFormed(k')
    decreases |guesses|
  {
    if guesses == [] then k
    else
      RunTail(guesses, results);
      LearnAll(Learn(k, guesses[0], results[0]), guesses[1..], results[1..])
  }

  /** Over any run of updates a letter known present stays known present,
      and a HIT letter stays HIT. */
  lemma {:induction false} KnownStaysKnown(k: Facts, guesses: seq<string>, results: seq<string>, c: char)
    requires WellFormed(k) && IsRun(guesses, results) && IsLetter(c)
    requires k.alphaStatus[c] == Hit || k.alphaStatus[c] == Partial
    ensures var st := LearnAll(k, guesses, results).alphaStatus[c]; st == Hit || st == Partial
    ensures k.alphaStatus[c] == Hit ==> LearnAll(k, guesses, results).alphaStatus[c] == Hit
    decreases |guesses|
  {
    if guesses != [] {
      RunTail(guesses, results);
      LearnStatus(k, guesses[0], results[0], c);
      KnownStaysKnown(Learn(k, guesses[0], results[0]), guesses[1..], results[1..], c);
    }
  }

  /** A letter marked HIT or PARTIAL by guess `j` of a run is never MISS at
      the end of the run, whatever MISS marks it gets before or after. */
  lemma {:induction false} MarkedNeverMiss(k: Facts, guesses: seq<string>, results: seq<string>, c: char, j: nat)
    requires WellFormed(k) && IsRun(guesses, results) && IsLetter(c)
    requires j < |guesses| && Marked(guesses[j], results[j], c) > 0
    ensures LearnAll(k, guesses, results).alphaStatus[c] != Miss
    decreases j
  {
    if j == 0 {
      MarkedFirstNeverMiss(k, guesses, results, c);
    } else {
      MarkedLaterNeverMiss(k, guesses, results, c, j);
    }
  }

  /** `MarkedNeverMiss` when the mark comes after the first update. */
  lemma {:induction false} MarkedLaterNeverMiss(k: Facts, guesses: seq<string>, results: seq<string>, c: char, j: nat)
    requires WellFormed(k) && IsRun(guesses, results) && IsLetter(c)
    requires 0 < j < |guesses| && Marked(guesses[j], results[j], c) > 0
    ensures LearnAll(k, guesses, results).alphaStatus[c] != Miss
    decreases j, 0
  {
    RunTail(guesses, results);
    var k1, g, r := Learn(k, guesses[0], results[0]), guesses[1..], results[1..];
    assert WellFormed(k1);
    assert IsRun(g, r);
    assert j - 1 < |g|;
    assert g[j - 1] == guesses[j] && r[j - 1] == results[j];
    assert Marked(g[j - 1], r[j - 1], c) > 0;
    MarkedNeverMiss(k1, g, r, c, j - 1);
  }

  lemma MarkedFirstNeverMiss(k: Facts, guesses: seq<string>, results: seq<string>, c: char)
    requires WellFormed(k) && IsRun(guesses, results) && IsLetter(c)
    requires guesses != [] && Marked(guesses[0], results[0], c) > 0
    ensures LearnAll(k, guesses, results).alphaStatus[c] != Miss
  {
    RunTail(guesses, results);
    LearnStatus(k, guesses[0], results[0], c);
    KnownStaysKnown(Learn(k, guesses[0], results[0]), guesses[1..], results[1..], c);
  }

  /** The knowledge is true of `s`: known letters are where `s` has them,
      excluded letters are not at their position, MISS letters do not occur
      and every letter occurs at least `alpha_count` times. */
  predicate Sound(s: string, k: Facts)
    requires WellFormed(k)
  {
    && IsWord(s)
    && (forall i :: 0 <= i < WordLength ==> k.positionKnown[i].Some? ==> s[i] == k.positionKnown[i].value)
    && (forall i :: 0 <= i < WordLength ==> s[i] !in k.positionNot[i])
    && (forall c :: c in k.alphaStatus && k.alphaStatus[c] == Miss ==> c !in s)
    && (forall c :: c in k.alphaCount ==> k.alphaCount[c] <= Count(s, c))
  }

  lemma InitialSound(s: string)
    requires IsWord(s)
    ensures Sound(s, Initial())
  {
  }

  /** Learning the true feedback for any guess keeps the knowledge true. */
  lemma LearnSound(s: string, k: Facts, g: string)
    requires WellFormed(k) && IsWord(g) && Sound(s, k)
    ensures Sound(s, Learn(k, g, Evaluate(s, g)))
  {
    LearnSoundPositions(s, k, g);
    LearnSoundLetters(s, k, g);
  }

  /** The per-position half of `LearnSound`. */
  lemma LearnSoundPositions(s: string, k: Facts, g: string)
    requires WellFormed(k) && IsWord(g) && Sound(s, k)
    ensures var k' := Learn(k, g, Evaluate(s, g));
      forall i :: 0 <= i < WordLength ==>
        && (k'.positionKnown[i].Some? ==> s[i] == k'.positionKnown[i].value)
        && s[i] !in k'.positionNot[i]
  {
    var r := Evaluate(s, g);
    forall i | 0 <= i < WordLength
      ensures Learn(k, g, r).positionKnown[i].Some? ==> s[i] == Learn(k, g, r).positionKnown[i].value
      ensures s[i] !in Learn(k, g, r).positionNot[i]
    {
      LearnPositions(k, g, r, i);
    }
  }

  /** The per-letter half of `LearnSound`, over every letter. */
  lemma LearnSoundLetters(s: string, k: Facts, g: string)
    requires WellFormed(k) && IsWord(g) && Sound(s, k)
    ensures var k' := Learn(k, g, Evaluate(s, g));
      && (forall c :: c in k'.alphaStatus && k'.alphaStatus[c] == Miss ==> c !in s)
      && (forall c :: c in k'.alphaCount ==> k'.alphaCount[c] <= Count(s, c))
  {
    forall c | IsLetter(c)
      ensures Learn(k, g, Evaluate(s, g)).alphaStatus[c] == Miss ==> c !in s
      ensures Learn(k, g, Evaluate(s, g)).alphaCount[c] <= Count(s, c)
    {
      LearnSoundAt(s, k, g, c);
    }
  }

  /** The per-letter half of `LearnSound`: the true feedback never marks a
      letter of `s` MISS, and never shows more copies than `s` has. */
  lemma LearnSoundAt(s: string, k: Facts, g: string, c: char)
    requires WellFormed(k) && IsWord(g) && Sound(s, k) && IsLetter(c)
    ensures Learn(k, g, Evaluate(s, g)).alphaStatus[c] == Miss ==> c !in s
    ensures Learn(k, g, Evaluate(s, g)).alphaCount[c] <= Count(s, c)
  {
    var r := Evaluate(s, g);
    MarkedIsMin(s, g, c);
    LearnStatus(k, g, r, c);
    LearnCount(k, g, r, c);
  }

  /** The `Knowledge` object of one game. */
  class Knowledge {
    var positionKnown: seq<Option<char>>
    var positionNot: seq<string>
    var alphaStatus: map<char, char>
    var alphaKnown: string
    var alphaCount: map<char, nat>
    var alphaNot: string
    var wordlist: seq<string>

    function View(): Facts
      reads this
    {
      Facts(positionKnown, positionNot, alphaStatus, alphaCount, alphaNot, alphaKnown)
    }

    predicate Valid()
      reads this
    {
      WellFormed(View())
    }

    constructor (wordlist: seq<string>)
      ensures Valid() && View() == Initial() && this.wordlist == wordlist
    {
      var k := Initial();
      positionKnown, positionNot := k.positionKnown, k.positionNot;
      alphaStatus, alphaCount := k.alphaStatus, k.alphaCount;
      alphaNot, alphaKnown := "", "";
      this.wordlist := wordlist;
    }

    /** `update(guess, result)`: the four loops of the source, in order. */
    method Update(guess: string, result: string)
      requires Valid() && IsWord(guess) && IsFeedback(result)
      modifies this`positionKnown, this`positionNot, this`alphaStatus
      modifies this`alphaCount, this`alphaNot, this`alphaKnown
      ensures View() == Learn(old(View()), guess, result) && Valid()
    {
      WordCovers(guess, alphaStatus);
      MarkLoop(guess, result);
      MissLoop(guess, result);
      DeriveLetters();
      CountLoop(guess, result);
    }

    /** First loop of `update`: per-position facts and HIT/PARTIAL statuses. */
    method MarkLoop(guess: string, result: string)
      requires IsWord(guess) && IsFeedback(result)
      requires |positionKnown| == WordLength && |positionNot| == WordLength
      requires Covers(guess, alphaStatus)
      modifies this`positionKnown, this`positionNot, this`alphaStatus
      ensures View() == MarkPhase(old(View()), guess, result)
    {
      for pos := 0 to WordLength
        invariant positionKnown == KnownUpTo(old(positionKnown), guess, result, pos)
        invariant positionNot == ExcludedUpTo(old(positionNot), guess, result, pos)
        invariant alphaStatus == MarkedUpTo(old(alphaStatus), guess, result, pos)
      {
        var thisLetter := guess[pos];
        if result[pos] == Hit {
          positionKnown := positionKnown[pos := Some(thisLetter)];
          alphaStatus := alphaStatus[thisLetter := Hit];
        } else if result[pos] == Miss {
          positionNot := positionNot[pos := positionNot[pos] + [thisLetter]];
        } else if result[pos] == Partial {
          positionNot := positionNot[pos := positionNot[pos] + [thisLetter]];
          if alphaStatus[thisLetter] != Hit {
            alphaStatus := alphaStatus[thisLetter := Partial];
          }
        }
      }
    }

    /** Second loop of `update`: a MISS makes its letter MISS unless it is
        HIT or PARTIAL by now. */
    method MissLoop(guess: string, result: string)
      requires IsWord(guess) && IsFeedback(result) && Covers(guess, alphaStatus)
      modifies this`alphaStatus
      ensures View() == MissPhase(old(View()), guess, result)
    {
      for pos := 0 to WordLength
        invariant alphaStatus == MissedUpTo(old(alphaStatus), guess, result, pos)
      {
        if result[pos] == Miss && alphaStatus[guess[pos]] != Hit && alphaStatus[guess[pos]] != Partial {
          alphaStatus := alphaStatus[guess[pos] := Miss];
        }
      }
    }

    /** Third loop of `update`: recompute `alpha_not` and `alpha_known` from
        the statuses, in A..Z order. */
    method DeriveLetters()
      requires alphaStatus.Keys == LetterSet()
      modifies this`alphaNot, this`alphaKnown
      ensures View() == DerivePhase(old(View()))
    {
      alphaNot, alphaKnown := "", "";
      for i := 0 to |Alphabet()|
        invariant alphaNot == Select(alphaStatus, {Miss}, Alphabet()[..i])
        invariant alphaKnown == Select(alphaStatus, {Hit, Partial}, Alphabet()[..i])
      {
        SelectAlphabetStep(alphaStatus, i);
        var ch := Alphabet()[i];
        if alphaStatus[ch] == Miss {
          alphaNot := alphaNot + [ch];
        } else if alphaStatus[ch] == Hit || alphaStatus[ch] == Partial {
          alphaKnown := alphaKnown + [ch];
        }
      }
      assert Alphabet()[..|Alphabet()|] == Alphabet();
    }

    /** Fourth loop of `update`: count the HIT and PARTIAL marks per letter
        and raise `alpha_count` to that count where it is lower. */
    method CountLoop(guess: string, result: string)
      requires IsWord(guess) && IsFeedback(result)
      requires alphaCount.Keys == LetterSet()
      modifies this`alphaCount
      ensures View() == CountPhase(old(View()), guess, result)
    {
      var multi: map<char, nat> := map[];
      for pos := 0 to WordLength
        invariant multi == MarkCounts(guess, result, pos)
        invariant alphaCount == old(alphaCount)
      {
        var myletter := guess[pos];
        if result[pos] == Hit || result[pos] == Partial {
          if myletter !in multi {
            multi := multi[myletter := 1];
          } else {
            multi := multi[myletter := multi[myletter] + 1];
          }
        }
      }
      MarkCountsLetters(guess, result);
      var todo := multi.Keys;
      RaiseNone(alphaCount, multi);
      while todo != {}
        invariant todo <= multi.Keys <= alphaCount.Keys
        invariant alphaCount == Raised(old(alphaCount), multi, todo)
        decreases todo
      {
        var letter :| letter in todo;
        RaiseStep(old(alphaCount), multi, todo, letter);
        if multi[letter] > alphaCount[letter] {
          alphaCount := alphaCount[letter := multi[letter]];
        }
        todo := todo - {letter};
      }
      RaisedAll(old(alphaCount), guess, result);
    }
  }
}
