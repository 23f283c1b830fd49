# Wordle engine — a verified model

This project models the engine of `wordle.py`, a Wordle player and helper. The model covers:

- **Scoring a guess.** `test_guess` gives the marks `*` (hit), `?` (partial) and `-` (miss).
- **The knowledge object.** `Knowledge` records what the guesses so far reveal about the solution.
- **Pruning the candidates.** `prune_list` keeps the candidate words that agree with that knowledge.
- **Choosing the next guess.** This is the letter and word valuation: `valued_str`, `valued_list`, `most_valued_words`, `flip_dictionary`, `most_valued_letters`, `count_frequences` and `calculate_guess`.
- **Word-list helpers.** These are `merge_lists`, the line classifier of `load_wordlist`, and `anagram_strict` / `anagram_loose`.
- **One turn of a game and a whole computer game.** A turn scores the guess, updates the knowledge and prunes the candidates. A game repeats the turn until the computer guesses the solution.

## Modules

- **`Lists`** (`lists.dfy`): order-preserving `Filter`, sub-lists, `Dedup` and `IndexOf`, with their algebra. It models Python's `list(filter(...))`.
- **`Words`** (`words.dfy`): the alphabet, words of five letters A..Z, `swap_chr`, `is_solved`, `space_str` and `str.find`.
- **`Feedback`** (`feedback.dfy`): `test_guess`.
  - `Evaluate` is its specification: a hit pass, then a partial pass that consumes the letters of the solution still unused.
  - `TestGuess` is the two-loop method proved equal to `Evaluate`.
- **`KnowledgeBase`** (`knowledge.dfy`): the `Knowledge` object.
  - The class keeps the source's fields (`positionKnown`, `positionNot`, `alphaStatus`, `alphaCount`, `alphaNot`, `alphaKnown` and `wordlist`).
  - `Update` changes them in place in the source's four loops.
  - The value `Facts` and the function `Learn` specify the update.
  - `Sound(s, k)` states that knowledge `k` is true of solution `s`.
- **`Pruner`** (`pruner.dfy`): `prune_list` as two predicates.
  - The per-position pattern is the known letter, otherwise "none of `position_not[pos]` and `alpha_not`", otherwise any letter.
  - The per-letter test requires at least `alpha_count[c]` copies of `c`.
  - `PruneList` is the method with the source's loop over the alphabet.
- **`Ranking`** (`ranking.dfy`): `flip_dictionary` over an insertion-ordered dictionary, and `reversed(sorted(...))` over its keys. The dictionary is modelled as a key sequence plus a map.
- **`Valuator`** (`valuator.dfy`): letter values, word scores, the ranked word list, the guess choice, the most valued letters and the letter frequencies.
- **`Lexicon`** (`lexicon.dfy`): the `load_wordlist` line classifier, `merge_lists` (in place on a `WordList` object) and the anagram filters.
- **`Game`** (`game.dfy`): one turn (`Turn`, `PlayTurn`), any sequence of turns (`Play`), and the computer's game loop (`ComputerGame`).

## Model

| member | source | states |
|---|---|---|
| Words.SwapChr | wordle.py:227-231 | Replaces position `i` when `i` is inside the string. Past the end, it appends `c`. |
| Words.Find | wordle.py:262 | `str.find`: -1 exactly when the letter is absent, otherwise the index of its first occurrence. |
| Words.IsSolved | wordle.py:360-362 | A solved guess has the solution's length. Solved exactly when all five marks are hits: see `Feedback.SolvedIffAllHits`. |
| Words.SpaceStr | wordle.py:233-238 | The letters of the input, with one space between neighbours and none at the end. The empty string stays empty. |
| Words.Count | wordle.py:381-383 | Occurrences of a letter: at most the length, and zero exactly when the letter is absent. |
| Words.CountConcat | wordle.py:381-383 | The occurrence count adds up over concatenation. |
| Feedback.Evaluate | wordle.py:240-267 | Returns five marks, each `*`, `?` or `-`. Position `i` is `*` exactly when the guess and the solution agree there. |
| Feedback.TestGuess | wordle.py:240-267 | Running the hit loop and then the partial loop gives exactly `Evaluate`. |
| Feedback.HitPass | wordle.py:248-251 | The first loop marks every exact match as a hit and blanks that letter of the solution. |
| Feedback.PartialPass | wordle.py:259-265 | The second loop skips hits. Each other guess letter takes the first unused copy of that letter in the solution (a partial) or becomes a miss. |
| Feedback.Partials | wordle.py:259-265 | The second pass gives one mark per letter, each `*`, `?` or `-`, and a position is `*` exactly when the first pass marked it so. |
| Feedback.FirstPassCounts | wordle.py:248-251 | After the hit pass, the hits plus the unblanked copies of a letter equal its count in the solution. |
| Feedback.PartialsCount | wordle.py:259-265 | The partial pass keeps every hit. The partials on a letter are the minimum of its non-hit occurrences in the guess and its unused copies in the solution. |
| Feedback.MarkedIsMin | wordle.py:240-267 | For every letter, the number of `*` and `?` marks on it is the minimum of its counts in the guess and in the solution. |
| Feedback.MissMeansAbsent | wordle.py:259-265 | A miss on a letter with no hit or partial anywhere in the guess means the letter is absent from the solution. |
| Feedback.AbsentLetterIsMiss | wordle.py:259-265 | A guess letter absent from the solution is marked as a miss. |
| Feedback.SolvedIffAllHits | wordle.py:496 | The marks are `*****` exactly when the guess is the solution, which is what ends the game loop. |
| Feedback.StartBlunt | wordle.py:254-258 | Solution START, guess BLUNT gives `----*`. This is the correct answer, so the case the FIXME comment worries about is handled correctly. |
| KnowledgeBase.Initial | wordle.py:98-113 | The initial state: no position known, nothing excluded, every letter unknown with count 0, and empty `alpha_not` / `alpha_known`. |
| KnowledgeBase.Knowledge.constructor | wordle.py:98-113 | The new object's fields are `Initial()`, and its word list is the one given. |
| KnowledgeBase.Knowledge.Update | wordle.py:115-161 | The fields after the four loops are `Learn(old fields, guess, result)`. The word list is unchanged and the object stays well formed. |
| KnowledgeBase.Knowledge.MarkLoop | wordle.py:118-131 | The first loop. A hit fixes the position and sets the letter to HIT. A miss or partial appends the letter to `position_not`. A partial raises the letter to PARTIAL unless it is already HIT. |
| KnowledgeBase.Knowledge.MissLoop | wordle.py:136-138 | The second loop. A missed letter becomes MISS unless it is already HIT or PARTIAL. |
| KnowledgeBase.Knowledge.DeriveLetters | wordle.py:142-148 | `alpha_not` and `alpha_known` are rebuilt in A..Z order from the statuses. |
| KnowledgeBase.Knowledge.CountLoop | wordle.py:151-161 | Counts the hits and partials of each letter in the guess, and raises `alpha_count` to that number where it is larger. |
| KnowledgeBase.Learn | wordle.py:115-161 | The update keeps the state well formed: five positions, and a status and a count for every letter A..Z. |
| KnowledgeBase.StatusesAfter | wordle.py:121-138 | After the first two loops of `update`, each letter's status is the first loop's rule (a hit makes it HIT, a partial makes it PARTIAL unless HIT) followed by the second loop's rule (a miss makes it MISS unless HIT or PARTIAL). |
| KnowledgeBase.LearnStatus | wordle.py:121-138 | A status never goes down. HIT stays HIT, and PARTIAL can only become HIT. A letter with any status never returns to unknown. A MISS letter stays MISS unless this guess gives it a hit or partial. A letter with a hit or partial in this guess ends HIT or PARTIAL, and a hit makes it HIT. It becomes MISS only when it was MISS already, or had no hit or partial and at least one miss. |
| KnowledgeBase.LearnPositions | wordle.py:118-127 | A hit at `i` sets `position_known[i]` to the guess letter. A miss or partial at `i` appends the letter to `position_not[i]`. Other positions keep their values. |
| KnowledgeBase.LearnCount | wordle.py:151-161 | The new `alpha_count[c]` is the larger of the old value and the number of hits and partials on `c`, so it never decreases. |
| KnowledgeBase.LearnDerivedLetters | wordle.py:142-148 | `alpha_not` holds exactly the letters whose status is MISS. `alpha_known` holds exactly the HIT or PARTIAL letters. The two are disjoint. |
| KnowledgeBase.LearnDerivedAscending | wordle.py:142-148 | Both derived strings are in A..Z order. |
| KnowledgeBase.KnownStaysKnown | wordle.py:121-138 | Over any sequence of updates, a HIT or PARTIAL letter never falls back, and a HIT letter stays HIT. |
| KnowledgeBase.MarkedNeverMiss | wordle.py:133-138 | A letter with a hit or partial in any guess of a sequence is never MISS afterwards, even when the same guess also misses it. |
| KnowledgeBase.InitialSound | wordle.py:98-113 | The initial knowledge is true of every solution. |
| KnowledgeBase.LearnSound | wordle.py:115-161 | Updating knowledge that is true of `s` with the marks `test_guess(s, g)` gives knowledge still true of `s`. |
| KnowledgeBase.LearnSoundPositions | wordle.py:118-127 | After such an update, a known position holds the solution's letter, and no excluded letter is the solution's letter there. |
| KnowledgeBase.LearnSoundLetters | wordle.py:136-161 | After such an update, no MISS letter occurs in the solution, and each `alpha_count[c]` is at most the count of `c` in the solution. |
| Pruner.SlotsMeanPositions | wordle.py:318-327 | The per-position pattern matches a word exactly when each position holds the known letter, or else avoids `position_not[pos]` and `alpha_not`. |
| Pruner.PassesAll | wordle.py:318-339 | The position pattern followed by the 26 letter filters accepts exactly the words `Admits` describes. |
| Pruner.PruneList | wordle.py:314-340 | The method's result is `Prune(knowledge, start_list)`. |
| Pruner.Prune | wordle.py:314-340 | What `prune_list` returns is an order-preserving sub-list of the input. |
| Pruner.PruneSublist | wordle.py:330-340 | The pruned list is an order-preserving sub-list of the input. A word is in it exactly when it is in the input and passes both tests. |
| Pruner.PruneIdempotent | wordle.py:314-340 | Pruning twice with the same knowledge is pruning once. |
| Pruner.SoundAdmits | wordle.py:318-339 | Knowledge that is true of the solution accepts the solution. |
| Pruner.SolutionSurvives | wordle.py:500-502 | If the knowledge is true of the solution and the solution is in the list, pruning keeps it. This is the run-time check after every turn. |
| Pruner.PruneNarrows | wordle.py:314-340 | Knowledge that accepts fewer words prunes to a sub-list. |
| Pruner.LearnKeepsExcluded | wordle.py:136-148 | With the true feedback, a letter in `alpha_not` is absent from the solution and stays in `alpha_not` after the update. |
| Pruner.LearnNarrowsAt | wordle.py:318-327 | With the true feedback, a word passing the new per-position test at `i` passes the old one at `i`. |
| Pruner.LearnNarrows | wordle.py:314-340 | Monotonic narrowing: after an update with the true feedback of a solution the knowledge is true of, every word the new knowledge admits was admitted before. |
| Pruner.LearnPrunesNarrower | wordle.py:314-340 | Pruning any list after such an update gives an order-preserving sub-list of pruning it before the update. |
| Ranking.FlipOfAt | wordle.py:432-441 | A value is a key of the flipped dictionary exactly when some key has it. Its list is the keys with that value, in key order. |
| Ranking.FlipOrderNoDups | wordle.py:432-441 | The flipped keys in insertion order are distinct and cover every value. |
| Ranking.FlipDictionary | wordle.py:432-441 | The loop's insertion order and dictionary satisfy what `FlipOfAt` and `FlipOrderNoDups` state. |
| Ranking.SortDescSorted | wordle.py:416 | The descending ordering of a key list is strictly descending and has the same elements. |
| Ranking.SortedDescending | wordle.py:416 | The loop that picks the maximum each time returns the distinct values in strictly descending order. |
| Ranking.GroupedMembers | wordle.py:416-417 | Concatenating the groups for the chosen values holds exactly the keys whose value is chosen. |
| Ranking.GroupedNoDups | wordle.py:416-417 | With distinct keys and strictly descending values, the concatenated groups are distinct. |
| Ranking.GroupedDescending | wordle.py:416-417 | The concatenated groups are in non-increasing order of value. |
| Ranking.GroupedTies | wordle.py:416-417 | Keys with equal values keep their insertion order. |
| Ranking.ConcatGroups | wordle.py:416-417 | The loop over the sorted values appends each value's group, giving `Grouped` of all the values. |
| Ranking.GroupedRanking | wordle.py:416-417 | The groups of all values, largest first: each key once, values never increasing, ties in key order. |
| Ranking.RankDescending | wordle.py:413-418 | Flip, sort descending and concatenate: each key once, in non-increasing value, ties in key order. |
| Valuator.ValuedStr | wordle.py:365-392 | Each letter's value is its total occurrences in the list, minus `alpha_count[c] × (words containing c)`. The source's `max(0, …)` guards never change a count that is not negative. |
| Valuator.ZeroCounts | wordle.py:370-374 | The first loop of `valued_str`: both tables have exactly the letters A..Z as keys, each with 0. |
| Valuator.CountWordsWith | wordle.py:376-379 | Counts, for each letter, the words containing it. |
| Valuator.CountOccurrences | wordle.py:381-383 | Counts every occurrence of each letter, repeats included. |
| Valuator.CountLetters | wordle.py:382-383 | The inner loop over one word's letters: each letter's count grows by its occurrences in the word, and no key is added. |
| Valuator.ReduceKnown | wordle.py:386-390 | The reduction by the known counts gives `LetterValue`. |
| Valuator.WordsWithIsFilter | wordle.py:376-379 | Words containing a letter counts the words the filter "contains c" keeps. |
| Valuator.WordsWithBounds | wordle.py:376-383 | The number of words containing a letter is at most the list's length and at most the letter's occurrences. Both are zero together. |
| Valuator.CoveredLetterValue | wordle.py:386-390 | If no word has more copies of a letter than its known count, the letter's value is at most 0. |
| Valuator.WordValueDistinct | wordle.py:400-408 | A word's score is the sum of the values of its distinct letters. A repeated letter contributes 0 (`multi_penalty = 0`). |
| Valuator.ScoreWord | wordle.py:401-408 | The inner loop over the five letters computes `Score`. |
| Valuator.WordValueStep | wordle.py:402-408 | A letter already seen earlier in the word adds nothing. A first occurrence adds the letter's value. |
| Valuator.ScoreAll | wordle.py:400-408 | The loop over the words to score: keys are the distinct words in first-appearance order, each mapped to its score. |
| Valuator.ValuedList | wordle.py:395-409 | Letter values come from the list passed in, and the scored words are `known.wordlist`. The keys are its distinct words in first-appearance order, and each value is the word's score. |
| Valuator.MostValuedWords | wordle.py:411-418 | Each distinct candidate appears once, in non-increasing score. Ties keep the order of `known.wordlist`. |
| Valuator.CalculateGuess | wordle.py:209-214 | With a non-empty candidate list, the guess is a candidate with the highest score, and the first one in list order among equal scores. |
| Valuator.MostValuedLetters | wordle.py:420-429 | The letters with value at least 1, each once, in non-increasing value, with ties in A..Z order. |
| Valuator.TopGroups | wordle.py:425-428 | The loop stops at the first value below 1 and concatenates the groups of the values before it. |
| Valuator.CountWordsPerLetter | wordle.py:447-453 | For each letter, the number of words containing it. |
| Valuator.CountFrequences | wordle.py:444-461 | The letters that occur in some word and are not in `without`, each once. They are ordered by non-increasing word count, with ties in A..Z order. Letters with count 1 are kept. |
| Valuator.KeepListed | wordle.py:457-460 | The last loop of `count_frequences` keeps, in order, the ranked letters not in `without` whose count is not zero. |
| Valuator.FrequencyOrder | wordle.py:455-460 | Dropping the excluded and zero letters from the frequency ranking keeps it duplicate-free and ordered. |
| Lexicon.Classify | wordle.py:179-187 | An accepted line yields five letters A..Z. |
| Lexicon.StripLeft | wordle.py:179 | The left half of `strip()`: a suffix of the line that is empty or starts with a non-space character, everything dropped being white space. |
| Lexicon.StripRight | wordle.py:179 | The right half of `strip()`: a prefix of the text that is empty or ends with a non-space character, everything dropped being white space. |
| Lexicon.Strip | wordle.py:179 | `strip()` never lengthens the line and leaves no white space at either end. |
| Lexicon.Upper | wordle.py:179 | `upper()` keeps the length, leaves no lower-case ASCII letter and keeps every other character. |
| Lexicon.LoadWordlist | wordle.py:179-188 | The loop over the lines returns exactly the accepted words and the rejected lines, in file order. |
| Lexicon.AcceptedWordFrom | wordle.py:183-185 | Every loaded word comes from a line of the file that is accepted as that word. |
| Lexicon.AcceptedLineLoaded | wordle.py:183-185 | Every accepted line's word is loaded. |
| Lexicon.PaddedWordAccepted | wordle.py:179-185 | A five-letter word in either case, with white space around it, is loaded upper-cased. |
| Lexicon.StripSurrounded | wordle.py:179 | `strip()` removes exactly the white space around a text that starts and ends with a non-space character. |
| Lexicon.CommentIgnored | wordle.py:181-186 | A line whose first non-space character is `#`, with no line break, is ignored. |
| Lexicon.BlankIgnored | wordle.py:181-186 | A blank or all-white-space line is ignored. |
| Lexicon.WordList.constructor | wordle.py:163 | A list object holding the given words. |
| Lexicon.MergeLists | wordle.py:163-169 | Appends in place to `list1` and returns that same object. Its items become `Merged(old items, list2)`. |
| Lexicon.MergedKeeps | wordle.py:163-169 | The old list is a prefix of the result. The result holds exactly the words of both lists, and it has no duplicates if `list1` had none. |
| Lexicon.MergedIdempotent | wordle.py:163-169 | Merging the same list again changes nothing. |
| Lexicon.MergedPresent | wordle.py:163-169 | Merging words that are already present leaves the list unchanged. This is the case of a solution taken from the dictionary. |
| Lexicon.AnagramStrict | wordle.py:190-193 | `anagram_strict` returns an order-preserving sub-list of the word list. |
| Lexicon.AnagramLoose | wordle.py:195-203 | `anagram_loose` returns an order-preserving sub-list of what `anagram_strict` returns for the same letters. |
| Lexicon.ContainingEachIsFilter | wordle.py:200-202 | The loop of `anagram_loose` keeps, in order, exactly the words that contain every one of the letters. |
| Lexicon.StrictMembers | wordle.py:190-193 | `anagram_strict` is an order-preserving sub-list. Its words are exactly the non-empty ones made only of the letters. |
| Lexicon.StrictKeepsUnusedLetters | wordle.py:190-193 | As written, `anagram_strict(["SEES"], "set")` keeps SEES although it has no T, so the docstring's "use all of [letters]" is not what the code does. |
| Lexicon.LooseMembers | wordle.py:195-203 | `anagram_loose` is a sub-list of `anagram_strict`. Its words are made only of the letters and contain each of them. |
| Lexicon.LooseDropsOtherLetters | wordle.py:195-203 | As written, `anagram_loose(["STARE"], "st")` is empty, although STARE includes both letters. |
| Lexicon.AnagramIncluding | wordle.py:196 | The filter the `anagram_loose` docstring describes returns an order-preserving sub-list of the word list. |
| Lexicon.IncludingMembers | wordle.py:196 | The filter the docstring describes: the words containing every letter, with others allowed. It includes every word `anagram_loose` keeps. |
| Game.Start | wordle.py:488-489 | The state after `Knowledge(spelling_dictionary)`: well formed, holding the given list, and true of every five-letter solution. |
| Game.Turn | wordle.py:498-500 | One turn (`test_guess`, `update`, `prune_list`) keeps the knowledge well formed. |
| Game.PlayTurn | wordle.py:498-500 | The in-place turn on a `Knowledge` object returns the marks and leaves exactly the state `Turn` describes. |
| Game.Play | wordle.py:496-504 | Any sequence of turns keeps the knowledge well formed, and the candidates only lose words: the final list is an order-preserving sub-list of the first. |
| Game.TurnKeepsSolution | wordle.py:498-502 | A turn keeps the knowledge true of the solution, keeps the solution among the candidates, and only removes candidates. |
| Game.WrongGuessPruned | wordle.py:498-500 | After a wrong guess, that guess is no longer a candidate. |
| Game.WrongGuessShrinks | wordle.py:498-500 | A wrong guess that was a candidate makes the candidate list strictly shorter. |
| Game.PlayKeepsSolution | wordle.py:496-504 | After any sequence of guesses, the knowledge is still true of the solution, the solution is still a candidate, and the candidates form a sub-list of the start list. |
| Game.GameKeepsSolution | wordle.py:488-502 | From a fresh `Knowledge` over a list containing the solution, the "Have a problem!" message is never reached. |
| Game.PlayDropsWrongGuesses | wordle.py:496-504 | Every wrong guess of a game is missing from the final candidates. |
| Game.ComputerGame | wordle.py:508-529 | The computer's game: the dictionary becomes the merge with the solution. The guess history ends with the solution, with no earlier guess equal to it. Every guess is a dictionary word. |
| Game.GuessUntilSolved | wordle.py:518-528 | The loop terminates. The number of guesses is at most the number of words, because each wrong guess removes at least one candidate. |
| Game.ComputerTurn | wordle.py:520-526 | The guess is a current candidate. After the turn the knowledge is still true of the solution, the solution is still a candidate, and the list shrank unless the guess was right. |

## Left out

- File reading and printing are not modelled. `load_wordlist` is modelled on the file's lines, and its rejection message becomes the list `rejected`. `print_guess_result` and the prints in `calculate_guess` and the game loops are console output only.
- `ask_user_for_guess` and `ask_user_for_solution` read the terminal. In the model, the human's guesses are an arbitrary sequence of words (`Game.Play`), and the solution is a parameter.
- `fetch_random_solution` is random, and `does_the_human_guess` reads `sys.argv`. The solution is a parameter, and both games are modelled.
- `main` is a loop over I/O and is not modelled.
- `list_reduction` is not modelled. It passes the function `test_guess` where it means its `testguess` argument, and it never prunes.
- `fishing_guess` is not modelled, because it is an empty stub.
- The unused `position_knwon` field and the unused `frequency_dictionary` are not modelled.
- Regular expressions are replaced by the predicates they denote. The `prune_list` patterns become position and count tests. The `load_wordlist` patterns become five letters A..Z, or blank or `#` comment. The anagram character classes become membership in the letters. Regex metacharacters in `letters` are not modelled: `Lexicon.IsClassLetters` requires non-empty ASCII letters.
- KnowledgeBase.Knowledge.Update: requires every mark to be `*`, `?` or `-`. The source prints a message for any other mark and carries on.
- Feedback.TestGuess: requires the guess to be five letters A..Z already. The source upper-cases the guess first, and every caller passes upper-case dictionary words.
- Valuator.ValuedStr: the `alpha` parameter is fixed to `ALPHABET`, which every caller passes. The words must consist of letters A..Z: any other character makes `ltr_count[word_ltr] += 1` fail.
- Valuator.ScoreWord: requires the word's first five characters to be letters A..Z. The source indexes positions 0..4 and looks each letter up in the letter values, so it fails on any other word.
- Ranking.SortedDescending: `sorted` and `reversed` are Python builtins. They are modelled by a maximum-extraction loop. The dictionary's insertion order is a key sequence beside the map.
- Lexicon.Upper: `str.upper()` is modelled for ASCII letters only. Non-ASCII case mappings are not modelled. `str.strip()` is modelled with the Unicode white-space set.
- Valuator.CountFrequences: the comment promises to drop letters with frequency 1, but the code keeps them (`if val not in without and ltrk[val]`). The model follows the code.
- Pruner.LearnNarrows: narrowing is proved for the true feedback of a solution the knowledge is true of, which is every update the game makes. It does not hold for arbitrary marks: a hit at a position already fixed to another letter replaces `position_known[i]`, so the new knowledge admits words the old one rejected.
- Lexicon.AnagramStrict: the docstring says the words "use all of" the letters, but the code only checks that each word is made of them (`StrictKeepsUnusedLetters`). The `anagram_strict` docstring describes what the `anagram_loose` code does. The model follows the code.
- Pruner.Fits: the per-position pattern is modelled without the regex details that `Lexicon.Body` keeps (`$` also matching before a final line break, `.` not matching a line break). The pruner only sees stripped five-letter words, where these details change nothing.
- Game.ComputerGame: requires the solution to be five letters A..Z. `ask_user_for_solution` (wordle.py:346-358) lets the user confirm any text with "Use it anyway". On such text the source's loop fails. A solution that is too short makes `score_word` index past its end. A non-letter makes `valued_str` fail on the letter lookup. A six-letter solution is pruned by the five-slot pattern, so the game cannot end on it. `Game.GuessUntilSolved` and `Game.ComputerTurn` inherit the same requirement.
- Game.ComputerGame: the `guess_history` list of the source is the returned `history`. The call to `print_guess_result` is left out.

## Findings

| source | as written | input that shows it | evidently intended | confidence | as-written member | corrected member |
|---|---|---|---|---|---|---|
| wordle.py:195-203 | `anagram_loose` first keeps only words made entirely of `letters`, then those containing each letter. | `anagram_loose(["STARE"], "st")` returns `[]`. | The docstring promises "words that include all [letters] (& maybe others)", which gives `["STARE"]`. | not executed; medium (the docstring and code disagree, and nothing in the file calls the function) | Lexicon.LooseDropsOtherLetters | Lexicon.IncludingMembers |
