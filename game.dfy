/** One turn of the game loop: score the guess against the solution, learn
    from the marks, and prune the candidate words. Over any run of turns the
    solution stays among the candidates, and a wrong guess never does. */
module Game {
  import opened Lists
  import opened Words
  import opened Feedback
  import opened KnowledgeBase
  import opened Pruner
  import opened Valuator
  import opened Lexicon

  /** What the game loop carries from one turn to the next: the knowledge
      and `known.wordlist`. */
  datatype State = State(facts: Facts, words: seq<string>)

  /** The state right after `Knowledge(spelling_dictionary)`. */
  function Start(words: seq<string>): (st: State)
    ensures WellFormed(st.facts) && st.words == words
    ensures forall s :: IsWord(s) ==> Sound(s, st.facts)
  {
    State(Initial(), words)
  }

  /** `test_guess`, then `known.update`, then `prune_list`. */
  function Turn(st: State, solution: string, guess: string): (st': State)
    requires WellFormed(st.facts) && IsWord(solution) && IsWord(guess)
    ensures WellFormed(st'.facts)
  {
    var k := Learn(st.facts, guess, Evaluate(solution, guess));
    State(k, Prune(k, st.words))
  }

  predicate AllWords(guesses: seq<string>)
  {
    forall t :: 0 <= t < |guesses| ==> IsWord(guesses[t])
  }

  /** The turns of a game, one per guess. */
  function Play(st: State, solution: string, guesses: seq<string>): (st': State)
    requires WellFormed(st.facts) && IsWord(solution) && AllWords(guesses)
    ensures WellFormed(st'.facts)
    ensures IsSublist(st'.words, st.words)
    decreases |guesses|
  {
    if guesses == [] then SublistRefl(st.words); st
    else
      assert IsWord(guesses[0]) && AllWords(guesses[1..]) by {
        assert forall t :: 0 <= t < |guesses| - 1 ==> guesses[1..][t] == guesses[t + 1];
      }
      var next := Turn(st, solution, guesses[0]);
      var last := Play(next, solution, guesses[1..]);
      SublistTrans(last.words, next.words, st.words);
      last
  }

  /** The body of the loops of `do_human_guessing` and
      `do_computer_guessing`, without the printing. */
  method PlayTurn(solution: string, guess: string, known: Knowledge) returns (result: string)
    requires known.Valid() && IsWord(solution) && IsWord(guess)
    modifies known`positionKnown, known`positionNot, known`alphaStatus
    modifies known`alphaCount, known`alphaNot, known`alphaKnown, known`wordlist
    ensures result == Evaluate(solution, guess) && known.Valid()
    ensures State(known.View(), known.wordlist) == Turn(State(old(known.View()), old(known.wordlist)), solution, guess)
  {
    result := TestGuess(solution, guess);
    known.Update(guess, result);
    known.wordlist := PruneList(known.wordlist, known);
  }

  /** A turn keeps the knowledge true of the solution and the solution
      among the candidates, which only ever lose words. */
  lemma TurnKeepsSolution(st: State, solution: string, guess: string)
    requires WellFormed(st.facts) && IsWord(guess)
    requires Sound(solution, st.facts) && solution in st.words
    ensures Sound(solution, Turn(st, solution, guess).facts)
    ensures solution in Turn(st, solution, guess).words
    ensures IsSublist(Turn(st, solution, guess).words, st.words)
  {
    var k := Learn(st.facts, guess, Evaluate(solution, guess));
    LearnSound(solution, st.facts, guess);
    SolutionSurvives(solution, k, st.words);
    PruneSublist(k, st.words);
  }

  /** A guess other than the solution is pruned in its own turn: at a
      position where it differs from the solution it gets no HIT, so it
      either contradicts the known letter there or is excluded there. */
  lemma WrongGuessPruned(st: State, solution: string, guess: string)
    requires WellFormed(st.facts) && IsWord(guess)
    requires Sound(solution, st.facts) && guess != solution
    ensures guess !in Turn(st, solution, guess).words
  {
    var r := Evaluate(solution, guess);
    var k := Learn(st.facts, guess, r);
    var i :| 0 <= i < WordLength && guess[i] != solution[i];
    assert r[i] != Hit;
    LearnPositions(st.facts, guess, r, i);
    assert guess[i] in k.positionNot[i];
    assert !PositionsOk(k, guess);
    PruneSublist(k, st.words);
  }

  /** A wrong guess taken from the candidates leaves fewer candidates. */
  lemma WrongGuessShrinks(st: State, solution: string, guess: string)
    requires WellFormed(st.facts) && IsWord(guess)
    requires Sound(solution, st.facts) && guess != solution && guess in st.words
    ensures |Turn(st, solution, guess).words| < |st.words|
  {
    WrongGuessPruned(st, solution, guess);
    var k := Learn(st.facts, guess, Evaluate(solution, guess));
    PruneSublist(k, st.words);
    FilterShrinks(st.words, AdmitsFn(k), guess);
  }

  /** Over any sequence of guesses the knowledge stays true of the solution
      and the solution stays a candidate: the check after every turn of the
      game never fails. */
  lemma {:induction false} PlayKeepsSolution(st: State, solution: string, guesses: seq<string>)
    requires WellFormed(st.facts) && AllWords(guesses)
    requires Sound(solution, st.facts) && solution in st.words
    ensures Sound(solution, Play(st, solution, guesses).facts)
    ensures solution in Play(st, solution, guesses).words
    ensures IsSublist(Play(st, solution, guesses).words, st.words)
    decreases |guesses|
  {
    if guesses == [] {
      SublistRefl(st.words);
    } else {
      assert IsWord(guesses[0]) && AllWords(guesses[1..]) by {
        assert forall t :: 0 <= t < |guesses| - 1 ==> guesses[1..][t] == guesses[t + 1];
      }
      var next := Turn(st, solution, guesses[0]);
      TurnKeepsSolution(st, solution, guesses[0]);
      PlayKeepsSolution(next, solution, guesses[1..]);
      SublistTrans(Play(next, solution, guesses[1..]).words, next.words, st.words);
    }
  }

  /** A game that starts from a list holding the solution keeps it. */
  lemma GameKeepsSolution(words: seq<string>, solution: string, guesses: seq<string>)
    requires IsWord(solution) && solution in words && AllWords(guesses)
    ensures solution in Play(Start(words), solution, guesses).words
  {
    InitialSound(solution);
    PlayKeepsSolution(Start(words), solution, guesses);
  }

  /** No wrong guess of a game is a candidate at its end. */
  lemma {:induction false} PlayDropsWrongGuesses(st: State, solution: string, guesses: seq<string>, t: nat)
    requires WellFormed(st.facts) && AllWords(guesses)
    requires Sound(solution, st.facts) && solution in st.words
    requires t < |guesses| && guesses[t] != solution
    ensures guesses[t] !in Play(st, solution, guesses).words
    decreases |guesses|
  {
    var rest := guesses[1..];
    assert IsWord(guesses[0]) && AllWords(rest) by {
      assert forall u :: 0 <= u < |rest| ==> rest[u] == guesses[u + 1];
    }
    var next := Turn(st, solution, guesses[0]);
    TurnKeepsSolution(st, solution, guesses[0]);
    if t == 0 {
      WrongGuessPruned(st, solution, guesses[0]);
      PlayKeepsSolution(next, solution, rest);
      var last := Play(next, solution, rest).words;
      if guesses[0] in last {
        SublistMembers(last, next.words, guesses[0]);
      }
    } else {
      PlayLater(next, solution, guesses, t);
    }
  }

  /** The step of `PlayDropsWrongGuesses` for a guess after the first. */
  lemma {:induction false} PlayLater(next: State, solution: string, guesses: seq<string>, t: nat)
    requires AllWords(guesses) && 0 < t < |guesses| && guesses[t] != solution
    requires WellFormed(next.facts) && Sound(solution, next.facts) && solution in next.words
    ensures AllWords(guesses[1..])
    ensures guesses[t] !in Play(next, solution, guesses[1..]).words
    decreases |guesses|, 0
  {
    var rest := guesses[1..];
    assert rest[t - 1] == guesses[t];
    assert AllWords(rest) by {
      assert forall u :: 0 <= u < |rest| ==> rest[u] == guesses[u + 1];
    }
    PlayDropsWrongGuesses(next, solution, rest, t - 1);
  }

  /** Every word of the lists is a game word. */
  predicate WordsOnly(words: seq<string>)
  {
    forall w :: w in words ==> IsWord(w)
  }

  lemma WordsScorable(words: seq<string>)
    requires WordsOnly(words)
    ensures AllLetters(words)
    ensures forall w :: w in words ==> Scorable(w)
  {
  }

  /** `do_computer_guessing` for a given solution, without the printing:
      the solution is merged into the dictionary, and the computer guesses
      `calculate_guess` until the marks are all HIT. It always finds the
      solution, with no more guesses than the dictionary has words. */
  method ComputerGame(solution: string, dictionary: WordList) returns (history: seq<string>)
    requires IsWord(solution) && WordsOnly(dictionary.items)
    modifies dictionary
    ensures dictionary.items == Merged(old(dictionary.items), [solution])
    ensures history != [] && history[|history| - 1] == solution
    ensures forall t :: 0 <= t < |history| - 1 ==> history[t] != solution
    ensures forall w :: w in history ==> w in dictionary.items
    ensures |history| <= |dictionary.items|
  {
    var spelling := MergeLists(dictionary, [solution]);
    var words := spelling.items;
    MergedKeeps(old(dictionary.items), [solution]);
    assert WordsOnly(words);
    var known := new Knowledge(words);
    InitialSound(solution);
    history := GuessUntilSolved(solution, words, known);
  }

  /** The loop of `do_computer_guessing`, from a knowledge true of the
      solution and a candidate list holding it. */
  method GuessUntilSolved(solution: string, words: seq<string>, known: Knowledge) returns (history: seq<string>)
    requires IsWord(solution) && WordsOnly(words)
    requires known.Valid() && Sound(solution, known.View()) && known.wordlist == words && solution in words
    modifies known`positionKnown, known`positionNot, known`alphaStatus
    modifies known`alphaCount, known`alphaNot, known`alphaKnown, known`wordlist
    ensures history != [] && history[|history| - 1] == solution
    ensures forall t :: 0 <= t < |history| - 1 ==> history[t] != solution
    ensures forall w :: w in history ==> w in words
    ensures |history| <= |words|
  {
    SublistRefl(words);
    assert Progress(solution, words, known.wordlist, [], "");
    history := [];
    var guess := "";
    while !IsSolved(solution, guess)
      invariant known.Valid() && Sound(solution, known.View())
      invariant Progress(solution, words, known.wordlist, history, guess)
      decreases |known.wordlist| + (if IsSolved(solution, guess) then 0 else 1)
    {
      ghost var candidates := known.wordlist;
      var next := ComputerTurn(solution, words, known);
      ProgressStep(solution, words, candidates, known.wordlist, history, guess, next);
      guess := next;
      history := history + [guess];
    }
    ProgressEnd(solution, words, known.wordlist, history, guess);
  }

  /** What the loop of `do_computer_guessing` keeps: the solution is a
      candidate; the guesses so far come from the dictionary and only the
      last may be the solution; and each wrong guess cost a candidate. */
  predicate Progress(solution: string, words: seq<string>, candidates: seq<string>, history: seq<string>, guess: string)
  {
    && solution in candidates && IsSublist(candidates, words)
    && (forall w :: w in history ==> w in words)
    && (guess == solution ==> history != [] && history[|history| - 1] == solution)
    && (forall t :: 0 <= t < |history| && history[t] == solution ==> t == |history| - 1 && guess == solution)
    && |history| + |candidates| <= |words| + (if guess == solution then 1 else 0)
  }

  lemma ProgressStep(solution: string, words: seq<string>, candidates: seq<string>, candidates': seq<string>,
                     history: seq<string>, guess: string, next: string)
    requires Progress(solution, words, candidates, history, guess) && guess != solution
    requires next in candidates && solution in candidates' && IsSublist(candidates', candidates)
    requires |candidates'| + (if next == solution then 0 else 1) <= |candidates|
    ensures Progress(solution, words, candidates', history + [next], next)
  {
    SublistMembers(candidates, words, next);
    SublistTrans(candidates', candidates, words);
    var h := history + [next];
    assert forall t :: 0 <= t < |history| ==> h[t] == history[t];
  }

  lemma ProgressEnd(solution: string, words: seq<string>, candidates: seq<string>, history: seq<string>, guess: string)
    requires Progress(solution, words, candidates, history, guess) && guess == solution
    ensures history != [] && history[|history| - 1] == solution
    ensures forall t :: 0 <= t < |history| - 1 ==> history[t] != solution
    ensures |history| <= |words|
  {
    SublistLength(candidates, words);
  }

  /** One turn of `do_computer_guessing`: the guess `calculate_guess`
      picks from the candidates, then the turn. The candidates keep the
      solution and lose the guess when it is wrong. */
  method ComputerTurn(solution: string, words: seq<string>, known: Knowledge) returns (guess: string)
    requires known.Valid() && IsWord(solution) && Sound(solution, known.View())
    requires WordsOnly(words) && solution in known.wordlist && IsSublist(known.wordlist, words)
    modifies known`positionKnown, known`positionNot, known`alphaStatus
    modifies known`alphaCount, known`alphaNot, known`alphaKnown, known`wordlist
    ensures guess in old(known.wordlist)
    ensures known.Valid() && Sound(solution, known.View()) && solution in known.wordlist
    ensures IsSublist(known.wordlist, old(known.wordlist))
    ensures |known.wordlist| + (if guess == solution then 0 else 1) <= |old(known.wordlist)|
  {
    WordsScorable(words);
    forall w | w in known.wordlist ensures Scorable(w) {
      SublistMembers(known.wordlist, words, w);
    }
    guess := CalculateGuess(words, known);
    SublistMembers(known.wordlist, words, guess);
    ghost var before := State(known.View(), known.wordlist);
    var result := PlayTurn(solution, guess, known);
    TurnKeepsSolution(before, solution, guess);
    if guess != solution {
      WrongGuessShrinks(before, solution, guess);
    } else {
      SublistLength(known.wordlist, before.words);
    }
  }
}
