/** The feedback evaluator `test_guess`: scores a guess against a solution
    in two passes. The first pass marks exact matches HIT and blanks that
    solution letter; the second gives every other guess letter PARTIAL when
    it can consume a remaining solution letter, MISS otherwise. */
module Feedback {
  import opened Words

  const Hit: char := '*'
  const Partial: char := '?'
  const Miss: char := '-'

  predicate IsMark(m: char)
  {
    m == Hit || m == Partial || m == Miss
  }

  /** A result string: one mark per letter of a word. */
  predicate IsFeedback(r: string)
  {
    |r| == WordLength && forall i :: 0 <= i < |r| ==> IsMark(r[i])
  }

  /** Number of positions where the guess letter is `c` and the mark is `m`. */
  function Tally(g: string, r: string, c: char, m: char): (n: nat)
    requires |g| == |r|
    ensures n <= Count(g, c) && n <= Count(r, m)
  {
    if g == [] then 0
    else (if g[0] == c && r[0] == m then 1 else 0) + Tally(g[1..], r[1..], c, m)
  }

  /** Number of HIT and PARTIAL marks on letter `c`. */
  function Marked(g: string, r: string, c: char): nat
    requires |g| == |r|
  {
    Tally(g, r, c, Hit) + Tally(g, r, c, Partial)
  }

  lemma {:induction false} TallyConcat(g1: string, g2: string, r1: string, r2: string, c: char, m: char)
    requires |g1| == |r1| && |g2| == |r2|
    ensures Tally(g1 + g2, r1 + r2, c, m) == Tally(g1, r1, c, m) + Tally(g2, r2, c, m)
  {
    if g1 == [] {
      assert g1 + g2 == g2 && r1 + r2 == r2;
    } else {
      assert (g1 + g2)[1..] == g1[1..] + g2 && (r1 + r2)[1..] == r1[1..] + r2;
      TallyConcat(g1[1..], g2, r1[1..], r2, c, m);
    }
  }

  /** The tally of one letter and mark over a prefix one position longer. */
  lemma TallyStep(g: string, r: string, k: nat, c: char, m: char)
    requires |g| == |r| && k < |g|
    ensures Tally(g[..k + 1], r[..k + 1], c, m) == Tally(g[..k], r[..k], c, m) + (if g[k] == c && r[k] == m then 1 else 0)
  {
    assert g[..k + 1] == g[..k] + [g[k]] && r[..k + 1] == r[..k] + [r[k]];
    TallyConcat(g[..k], [g[k]], r[..k], [r[k]], c, m);
  }

  /** `TallyStep` stated at the longer prefix, of length `n`. */
  lemma TallyLast(g: string, r: string, n: nat, c: char, m: char)
    requires |g| == |r| && 0 < n <= |g|
    ensures Tally(g[..n], r[..n], c, m) == Tally(g[..n - 1], r[..n - 1], c, m) + (if g[n - 1] == c && r[n - 1] == m then 1 else 0)
  {
    TallyStep(g, r, n - 1, c, m);
  }

  /** Tallies over a prefix one position longer. */
  lemma TallyPrefix(g: string, r: string, k: nat)
    requires |g| == |r| && k < |g|
    ensures forall c, m ::
      Tally(g[..k + 1], r[..k + 1], c, m) == Tally(g[..k], r[..k], c, m) + (if g[k] == c && r[k] == m then 1 else 0)
  {
    forall c, m {
      TallyStep(g, r, k, c, m);
    }
  }

  /** The marks after the first pass: HIT where guess and solution agree, MISS elsewhere. */
  function FirstMarks(solution: string, guess: string): (marks: string)
    requires |solution| == |guess|
  {
    seq(|guess|, i requires 0 <= i < |guess| => if guess[i] == solution[i] then Hit else Miss)
  }

  /** The solution after the first pass: every letter matched by a HIT blanked out. */
  function FirstRest(solution: string, guess: string): (rest: string)
    requires |solution| == |guess|
  {
    seq(|guess|, i requires 0 <= i < |guess| => if guess[i] == solution[i] then ' ' else solution[i])
  }

  /** The second pass over the guess letters `g` with their first-pass `marks`:
      each non-HIT letter takes the first remaining occurrence in `rest`
      (PARTIAL, blanking it) or is a MISS. */
  function Partials(g: string, marks: string, rest: string): (r: string)
    requires |marks| == |g|
    ensures |r| == |g|
    ensures forall i :: 0 <= i < |g| ==> IsMark(r[i]) && (r[i] == Hit <==> marks[i] == Hit)
  {
    if g == [] then []
    else if marks[0] == Hit then [Hit] + Partials(g[1..], marks[1..], rest)
    else
      var idx := Find(rest, g[0]);
      if idx == -1 then [Miss] + Partials(g[1..], marks[1..], rest)
      else [Partial] + Partials(g[1..], marks[1..], SwapChr(rest, ' ', idx))
  }

  /** `test_guess(solution, guess)`. */
  function Evaluate(solution: string, guess: string): (r: string)
    requires IsWord(solution) && IsWord(guess)
    ensures IsFeedback(r)
    ensures forall i :: 0 <= i < |r| ==> (r[i] == Hit <==> guess[i] == solution[i])
  {
    Partials(guess, FirstMarks(solution, guess), FirstRest(solution, guess))
  }

  /** `test_guess`: the first loop, then the second. */
  method TestGuess(solution: string, guess: string) returns (theresult: string)
    requires IsWord(solution) && IsWord(guess)
    ensures theresult == Evaluate(solution, guess)
  {
    var marks, rest := HitPass(solution, guess);
    theresult := PartialPass(guess, marks, rest);
  }

  /** The first loop of `test_guess`: look for perfect hits. */
  method HitPass(solution: string, guess: string) returns (theresult: string, sol: string)
    requires IsWord(solution) && IsWord(guess)
    ensures theresult == FirstMarks(solution, guess) && sol == FirstRest(solution, guess)
  {
    theresult := [Miss, Miss, Miss, Miss, Miss];
    sol := solution;
    for pos := 0 to 5
      invariant |theresult| == 5 && |sol| == 5
      invariant forall i :: 0 <= i < pos ==> theresult[i] == (if guess[i] == solution[i] then Hit else Miss)
      invariant forall i :: 0 <= i < pos ==> sol[i] == (if guess[i] == solution[i] then ' ' else solution[i])
      invariant forall i :: pos <= i < 5 ==> theresult[i] == Miss && sol[i] == solution[i]
    {
      if guess[pos] == sol[pos] {
        theresult := SwapChr(theresult, Hit, pos);
        sol := SwapChr(sol, ' ', pos);
      }
    }
  }

  /** One step of the second pass, taken at position `pos`. */
  lemma PartialsUnfold(g: string, marks: string, rest: string, pos: nat)
    requires |marks| == |g| && pos < |g|
    ensures Partials(g[pos..], marks[pos..], rest) ==
      if marks[pos] == Hit then [Hit] + Partials(g[pos + 1..], marks[pos + 1..], rest)
      else if Find(rest, g[pos]) == -1 then [Miss] + Partials(g[pos + 1..], marks[pos + 1..], rest)
      else [Partial] + Partials(g[pos + 1..], marks[pos + 1..], SwapChr(rest, ' ', Find(rest, g[pos])))
  {
    assert g[pos..][1..] == g[pos + 1..] && marks[pos..][1..] == marks[pos + 1..];
  }

  /** The loop invariant of the second pass, after `pos` positions. */
  ghost predicate SecondPassAt(guess: string, marks: string, rest: string, res: string, sol: string, pos: nat)
    requires |guess| == |marks|
  {
    && pos <= |guess| && |res| == |guess|
    && (forall i :: pos <= i < |res| ==> res[i] == marks[i])
    && res[..pos] + Partials(guess[pos..], marks[pos..], sol) == Partials(guess, marks, rest)
  }

  /** One iteration of the second loop keeps its invariant: it writes the
      mark that the second pass gives position `pos`. */
  lemma SecondPassStep(guess: string, marks: string, rest: string, res: string, sol: string, pos: nat,
                       mark: char, sol': string)
    requires |guess| == |marks| && pos < |guess|
    requires SecondPassAt(guess, marks, rest, res, sol, pos)
    requires Partials(guess[pos..], marks[pos..], sol) == [mark] + Partials(guess[pos + 1..], marks[pos + 1..], sol')
    ensures SecondPassAt(guess, marks, rest, res[pos := mark], sol', pos + 1)
  {
    PrefixSnoc(res, pos, mark, Partials(guess[pos + 1..], marks[pos + 1..], sol'), Partials(guess, marks, rest));
  }

  /** Writing the head of the pending part into the prefix. */
  lemma PrefixSnoc(res: string, pos: nat, mark: char, tail: string, whole: string)
    requires pos < |res| && res[..pos] + ([mark] + tail) == whole
    ensures res[pos := mark][..pos + 1] + tail == whole
  {
    assert res[pos := mark][..pos + 1] == res[..pos] + [mark];
    assert (res[..pos] + [mark]) + tail == res[..pos] + ([mark] + tail);
  }

  /** What each branch of the second loop's body does to its invariant. */
  lemma SecondPassNext(guess: string, marks: string, rest: string, res: string, sol: string, pos: nat)
    requires |guess| == |marks| && pos < |guess| && (marks[pos] == Hit || marks[pos] == Miss)
    requires SecondPassAt(guess, marks, rest, res, sol, pos)
    ensures res[pos] == marks[pos]
    ensures res[pos] == Hit ==> SecondPassAt(guess, marks, rest, res, sol, pos + 1)
    ensures res[pos] != Hit && Find(sol, guess[pos]) == -1 ==> SecondPassAt(guess, marks, rest, res, sol, pos + 1)
    ensures res[pos] != Hit && Find(sol, guess[pos]) != -1 ==>
      SecondPassAt(guess, marks, rest, SwapChr(res, Partial, pos), SwapChr(sol, ' ', Find(sol, guess[pos])), pos + 1)
  {
    PartialsUnfold(guess, marks, sol, pos);
    var idx := Find(sol, guess[pos]);
    if res[pos] == Hit {
      SecondPassStep(guess, marks, rest, res, sol, pos, Hit, sol);
      assert res[pos := Hit] == res;
    } else if idx == -1 {
      SecondPassStep(guess, marks, rest, res, sol, pos, Miss, sol);
      assert res[pos := Miss] == res;
    } else {
      SecondPassStep(guess, marks, rest, res, sol, pos, Partial, SwapChr(sol, ' ', idx));
    }
  }

  /** The second loop of `test_guess`: look for partials, unless already a hit. */
  method PartialPass(guess: string, marks: string, rest: string) returns (theresult: string)
    requires |guess| == |marks| == 5
    requires forall i :: 0 <= i < 5 ==> marks[i] == Hit || marks[i] == Miss
    ensures theresult == Partials(guess, marks, rest)
  {
    theresult := marks;
    var sol := rest;
    for pos := 0 to 5
      invariant SecondPassAt(guess, marks, rest, theresult, sol, pos)
    {
      SecondPassNext(guess, marks, rest, theresult, sol, pos);
      if theresult[pos] != Hit {
        var idx := Find(sol, guess[pos]);
        if idx != -1 {
          theresult := SwapChr(theresult, Partial, pos);
          sol := SwapChr(sol, ' ', idx);
        }
      }
    }
    assert theresult[..5] == theresult;
  }

  /** Hits and misses of the first pass account for every occurrence of `c`
      in the guess; hits and the blanked solution account for every
      occurrence of `c` in the solution. */
  lemma {:induction false} FirstPassCounts(solution: string, guess: string, c: char)
    requires |solution| == |guess| && c != ' '
    ensures Tally(guess, FirstMarks(solution, guess), c, Hit)
          + Tally(guess, FirstMarks(solution, guess), c, Miss) == Count(guess, c)
    ensures Count(FirstRest(solution, guess), c)
          + Tally(guess, FirstMarks(solution, guess), c, Hit) == Count(solution, c)
  {
    if guess != [] {
      var marks, rest := FirstMarks(solution, guess), FirstRest(solution, guess);
      assert marks[1..] == FirstMarks(solution[1..], guess[1..]);
      assert rest[1..] == FirstRest(solution[1..], guess[1..]);
      FirstPassCounts(solution[1..], guess[1..], c);
    }
  }

  /** The second pass gives PARTIAL to as many non-HIT occurrences of `c`
      as there are unconsumed occurrences of `c` left in the solution. */
  lemma {:induction false} PartialsCount(g: string, marks: string, rest: string, c: char)
    requires |marks| == |g| && c != ' '
    requires forall i :: 0 <= i < |marks| ==> marks[i] == Hit || marks[i] == Miss
    ensures Tally(g, Partials(g, marks, rest), c, Hit) == Tally(g, marks, c, Hit)
    ensures Tally(g, Partials(g, marks, rest), c, Partial)
         == if Tally(g, marks, c, Miss) <= Count(rest, c) then Tally(g, marks, c, Miss) else Count(rest, c)
  {
    if g != [] {
      var r := Partials(g, marks, rest);
      if marks[0] == Hit {
        PartialsCount(g[1..], marks[1..], rest, c);
        assert r[1..] == Partials(g[1..], marks[1..], rest);
      } else {
        var idx := Find(rest, g[0]);
        if idx == -1 {
          PartialsCount(g[1..], marks[1..], rest, c);
          assert r[1..] == Partials(g[1..], marks[1..], rest);
          assert g[0] == c ==> Count(rest, c) == 0;
        } else {
          var rest' := SwapChr(rest, ' ', idx);
          PartialsCount(g[1..], marks[1..], rest', c);
          assert r[1..] == Partials(g[1..], marks[1..], rest');
          CountUpdate(rest, idx, ' ', c);
        }
      }
    }
  }

  /** For every letter, the HIT and PARTIAL marks on it number
      min(occurrences in the guess, occurrences in the solution). */
  lemma {:induction false} MarkedIsMin(solution: string, guess: string, c: char)
    requires IsWord(solution) && IsWord(guess)
    ensures var r := Evaluate(solution, guess);
      Marked(guess, r, c) == if Count(guess, c) <= Count(solution, c) then Count(guess, c) else Count(solution, c)
  {
    var r := Evaluate(solution, guess);
    if c == ' ' {
      assert c !in guess;
    } else {
      var marks, rest := FirstMarks(solution, guess), FirstRest(solution, guess);
      FirstPassCounts(solution, guess, c);
      PartialsCount(guess, marks, rest, c);
    }
  }

  /** A MISS on a letter that has no HIT or PARTIAL in the same guess proves
      the letter absent from the solution. */
  lemma MissMeansAbsent(solution: string, guess: string, i: nat)
    requires IsWord(solution) && IsWord(guess) && i < WordLength
    requires Evaluate(solution, guess)[i] == Miss
    requires Marked(guess, Evaluate(solution, guess), guess[i]) == 0
    ensures guess[i] !in solution
  {
    MarkedIsMin(solution, guess, guess[i]);
    assert guess[i] in guess;
  }

  /** The game stops exactly when the result is all HIT. */
  lemma SolvedIffAllHits(solution: string, guess: string)
    requires IsWord(solution) && IsWord(guess)
    ensures Evaluate(solution, guess) == [Hit, Hit, Hit, Hit, Hit] <==> IsSolved(solution, guess)
  {
    var r := Evaluate(solution, guess);
    if r == [Hit, Hit, Hit, Hit, Hit] {
      assert forall i :: 0 <= i < 5 ==> guess[i] == solution[i] by {
        forall i | 0 <= i < 5 ensures guess[i] == solution[i] {
          assert r[i] == Hit;
        }
      }
    }
  }

  lemma {:induction false} TallyZero(g: string, r: string, c: char, m: char, i: nat)
    requires |g| == |r| && i < |g|
    requires Tally(g, r, c, m) == 0
    ensures !(g[i] == c && r[i] == m)
  {
    if i > 0 {
      TallyZero(g[1..], r[1..], c, m, i - 1);
    }
  }

  /** A guess letter that does not occur in the solution is marked MISS. */
  lemma AbsentLetterIsMiss(solution: string, guess: string, i: nat)
    requires IsWord(solution) && IsWord(guess) && i < WordLength
    requires guess[i] !in solution
    ensures Evaluate(solution, guess)[i] == Miss
  {
    var r := Evaluate(solution, guess);
    MarkedIsMin(solution, guess, guess[i]);
    TallyZero(guess, r, guess[i], Partial, i);
  }

  /** The START / BLUNT case: only the final T is marked, as HIT. The guess's
      only T is that hit, so the T at position 1 of the solution is never
      matched and no PARTIAL is given. */
  lemma StartBlunt()
    ensures Evaluate("START", "BLUNT") == "----*"
  {
    var solution, guess := "START", "BLUNT";
    assert IsWord(solution) && IsWord(guess);
    var r := Evaluate(solution, guess);
    assert |r| == 5 && r[4] == Hit;
    AbsentLetterIsMiss(solution, guess, 0);
    AbsentLetterIsMiss(solution, guess, 1);
    AbsentLetterIsMiss(solution, guess, 2);
    AbsentLetterIsMiss(solution, guess, 3);
  }
}
