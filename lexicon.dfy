/** Word lists: how `load_wordlist` classifies each line of a word file,
    `merge_lists`, which appends one list to another in place, and the
    two anagram filters. */
module Lexicon {
  import opened Lists
  import opened Words

  /** The characters `str.strip()` removes: Unicode white space. */
  predicate IsSpace(c: char)
  {
    var n := c as int;
    || n == 32 || 9 <= n <= 13 || 28 <= n <= 31 || n == 0x85 || n == 0xA0
    || n == 0x1680 || 0x2000 <= n <= 0x200A || n == 0x2028 || n == 0x2029
    || n == 0x202F || n == 0x205F || n == 0x3000
  }

  /** `s` without its leading white space: a suffix of `s` that starts with
      a non-space character, everything dropped being white space. */
  function StripLeft(s: string): (r: string)
    ensures |r| <= |s| && r == s[|s| - |r|..]
    ensures forall i :: 0 <= i < |s| - |r| ==> IsSpace(s[i])
    ensures r == [] || !IsSpace(r[0])
  {
    if s != [] && IsSpace(s[0]) then StripLeft(s[1..]) else s
  }

  /** `s` without its trailing white space: a prefix of `s` that ends with
      a non-space character, everything dropped being white space. */
  function StripRight(s: string): (r: string)
    ensures |r| <= |s| && r == s[..|r|]
    ensures forall i :: |r| <= i < |s| ==> IsSpace(s[i])
    ensures r == [] || !IsSpace(r[|r| - 1])
  {
    if s != [] && IsSpace(s[|s| - 1]) then StripRight(s[..|s| - 1]) else s
  }

  /** `str.strip()`: no white space is left at either end. */
  function Strip(s: string): (r: string)
    ensures |r| <= |s|
    ensures r == [] || (!IsSpace(r[0]) && !IsSpace(r[|r| - 1]))
  {
    StripRight(StripLeft(s))
  }

  /** `str.upper()` on one character, for the ASCII letters. */
  function UpperChar(c: char): char
  {
    if 'a' <= c <= 'z' then (c as int - 'a' as int + 'A' as int) as char else c
  }

  /** `str.upper()` for ASCII text: no lower-case letter is left, and every
      other character is kept. */
  function Upper(s: string): (r: string)
    ensures |r| == |s|
    ensures forall i :: 0 <= i < |r| ==> !('a' <= r[i] <= 'z')
    ensures forall i :: 0 <= i < |s| && !('a' <= s[i] <= 'z') ==> r[i] == s[i]
  {
    seq(|s|, i requires 0 <= i < |s| => UpperChar(s[i]))
  }

  /** What `load_wordlist` does with one line of the file. */
  datatype Line = Accepted(word: string) | Ignored | Rejected(text: string)

  /** `^\s*(#.*)*$` on a stripped line: empty, or a comment with no line
      break inside (`.` stops at a line break). */
  predicate IsBlankOrComment(w: string)
  {
    w == [] || (w[0] == '#' && '\n' !in w)
  }

  /** Strip and upper-case the line; accept it when it is exactly five
      letters A..Z, ignore it when blank or a comment, reject it otherwise. */
  function Classify(line: string): (r: Line)
    ensures r.Accepted? ==> IsWord(r.word)
  {
    var w := Upper(Strip(line));
    if IsWord(w) then Accepted(w)
    else if IsBlankOrComment(w) then Ignored
    else Rejected(w)
  }

  /** The list `load_wordlist` returns for the lines of a file. */
  function AcceptedWords(lines: seq<string>): seq<string>
  {
    if lines == [] then []
    else
      var init := AcceptedWords(lines[..|lines| - 1]);
      match Classify(lines[|lines| - 1])
      case Accepted(w) => init + [w]
      case _ => init
  }

  /** The lines `load_wordlist` reports as rejected, after stripping and
      upper-casing. */
  function RejectedLines(lines: seq<string>): seq<string>
  {
    if lines == [] then []
    else
      var init := RejectedLines(lines[..|lines| - 1]);
      match Classify(lines[|lines| - 1])
      case Rejected(t) => init + [t]
      case _ => init
  }

  /** The loop of `load_wordlist` over the lines of the file; the message
      printed for a rejected line becomes the list `rejected`. */
  method LoadWordlist(lines: seq<string>) returns (newlist: seq<string>, rejected: seq<string>)
    ensures newlist == AcceptedWords(lines) && rejected == RejectedLines(lines)
  {
    newlist, rejected := [], [];
    for n := 0 to |lines|
      invariant newlist == AcceptedWords(lines[..n]) && rejected == RejectedLines(lines[..n])
    {
      LoadStep(lines, n);
      var w := Upper(Strip(lines[n]));
      if IsWord(w) {
        newlist := newlist + [w];
      } else if !IsBlankOrComment(w) {
        rejected := rejected + [w];
      }
    }
    assert lines[..|lines|] == lines;
  }

  /** Line `n` adds its word to the accepted words when it is accepted, and
      its text to the rejected lines when it is rejected. */
  lemma LoadStep(lines: seq<string>, n: nat)
    requires n < |lines|
    ensures var c := Classify(lines[n]);
      && AcceptedWords(lines[..n + 1]) == AcceptedWords(lines[..n]) + (if c.Accepted? then [c.word] else [])
      && RejectedLines(lines[..n + 1]) == RejectedLines(lines[..n]) + (if c.Rejected? then [c.text] else [])
  {
    assert lines[..n + 1][..n] == lines[..n];
  }

  /** Every word loaded comes from a line of the file, so it is five
      letters A..Z. */
  lemma {:induction false} AcceptedWordFrom(lines: seq<string>, w: string) returns (i: nat)
    requires w in AcceptedWords(lines)
    ensures i < |lines| && Classify(lines[i]) == Accepted(w) && IsWord(w)
  {
    var init := lines[..|lines| - 1];
    if w in AcceptedWords(init) {
      i := AcceptedWordFrom(init, w);
      assert lines[i] == init[i];
    } else {
      i := |lines| - 1;
    }
  }

  /** Every accepted line of the file gives a word of the list. */
  lemma {:induction false} AcceptedLineLoaded(lines: seq<string>, i: nat)
    requires i < |lines| && Classify(lines[i]).Accepted?
    ensures Classify(lines[i]).word in AcceptedWords(lines)
  {
    var init := lines[..|lines| - 1];
    AcceptedWordsSnoc(lines);
    if i < |init| {
      assert init[i] == lines[i];
      AcceptedLineLoaded(init, i);
    } else {
      assert lines[i] == lines[|lines| - 1];
    }
  }

  /** The last line adds its word when it is accepted, and nothing otherwise. */
  lemma AcceptedWordsSnoc(lines: seq<string>)
    requires lines != []
    ensures var last := Classify(lines[|lines| - 1]);
      AcceptedWords(lines) == AcceptedWords(lines[..|lines| - 1]) + (if last.Accepted? then [last.word] else [])
  {
  }

  /** A five-letter word in either case, with any white space around it, is
      loaded upper-cased. */
  lemma PaddedWordAccepted(before: string, s: string, after: string)
    requires forall i :: 0 <= i < |before| ==> IsSpace(before[i])
    requires forall i :: 0 <= i < |after| ==> IsSpace(after[i])
    requires |s| == WordLength && forall i :: 0 <= i < |s| ==> IsLetter(UpperChar(s[i]))
    ensures Classify(before + s + after) == Accepted(Upper(s))
  {
    var line := before + s + after;
    StripSurrounded(before, s, after);
    assert Strip(line) == s;
  }

  /** Stripping removes exactly the white space around a text that starts
      and ends with a non-space character. */
  lemma StripSurrounded(before: string, s: string, after: string)
    requires forall i :: 0 <= i < |before| ==> IsSpace(before[i])
    requires forall i :: 0 <= i < |after| ==> IsSpace(after[i])
    requires s != [] && !IsSpace(s[0]) && !IsSpace(s[|s| - 1])
    ensures Strip(before + s + after) == s
  {
    var t := s + after;
    assert before + s + after == before + t;
    StripLeftPadded(before, t);
    StripRightPadded(s, after);
  }

  /** White space in front of a text that starts with a non-space
      character is what `StripLeft` removes. */
  lemma StripLeftPadded(before: string, t: string)
    requires forall i :: 0 <= i < |before| ==> IsSpace(before[i])
    requires t != [] && !IsSpace(t[0])
    ensures StripLeft(before + t) == t
  {
    var line := before + t;
    assert line[|before|] == t[0];
    StripLeftAt(line, |before|);
    assert line[|before|..] == t;
  }

  /** White space after a text that ends with a non-space character is
      what `StripRight` removes. */
  lemma StripRightPadded(s: string, after: string)
    requires forall i :: 0 <= i < |after| ==> IsSpace(after[i])
    requires s != [] && !IsSpace(s[|s| - 1])
    ensures StripRight(s + after) == s
  {
    var l := s + after;
    assert l[|s| - 1] == s[|s| - 1];
    forall i | |s| <= i < |l| ensures IsSpace(l[i]) {
      assert l[i] == after[i - |s|];
    }
    StripRightAt(l, |s|);
    assert l[..|s|] == s;
  }

  /** Trailing white space after the last non-space character, at `k - 1`,
      is what `StripRight` removes. */
  lemma StripRightAt(line: string, k: nat)
    requires 0 < k <= |line| && !IsSpace(line[k - 1])
    requires forall i :: k <= i < |line| ==> IsSpace(line[i])
    ensures StripRight(line) == line[..k]
  {
    var r := StripRight(line);
    assert |r| >= k;
    assert |r| <= k;
  }

  /** Leading white space up to the first non-space character at `k` is
      what `StripLeft` removes. */
  lemma StripLeftAt(line: string, k: nat)
    requires k < |line| && !IsSpace(line[k])
    requires forall i :: 0 <= i < k ==> IsSpace(line[i])
    ensures StripLeft(line) == line[k..]
  {
    var l := StripLeft(line);
    assert |line| - |l| >= k;
    assert |line| - |l| <= k;
  }

  /** A line whose first non-space character is `#`, with no line break,
      is ignored. */
  lemma CommentIgnored(line: string, k: nat)
    requires k < |line| && line[k] == '#' && '\n' !in line
    requires forall i :: 0 <= i < k ==> IsSpace(line[i])
    ensures Classify(line) == Ignored
  {
    StripLeftAt(line, k);
    var l := line[k..];
    var w := StripRight(l);
    assert w != [];
    assert w[0] == '#';
    UpperKeeps(w);
  }

  /** Upper-casing keeps `#` in front and brings in no line break. */
  lemma UpperKeeps(w: string)
    requires w != [] && w[0] == '#' && '\n' !in w
    ensures Upper(w)[0] == '#' && '\n' !in Upper(w)
  {
    var u := Upper(w);
    forall i | 0 <= i < |u| ensures u[i] != '\n' {
      assert w[i] in w;
    }
  }

  /** A line of white space only is ignored. */
  lemma BlankIgnored(line: string)
    requires forall i :: 0 <= i < |line| ==> IsSpace(line[i])
    ensures Classify(line) == Ignored
  {
    var l := StripLeft(line);
    assert l == [];
  }

  /** A list the program changes in place. */
  class WordList {
    var items: seq<string>

    constructor (items: seq<string>)
      ensures this.items == items
    {
      this.items := items;
    }
  }

  /** The list `merge_lists` leaves behind: `list1`, then each word of
      `list2` not already present, in order. */
  function Merged(list1: seq<string>, list2: seq<string>): seq<string>
    decreases |list2|
  {
    if list2 == [] then list1
    else Merged(if list2[0] in list1 then list1 else list1 + [list2[0]], list2[1..])
  }

  /** `merge_lists(list1, list2)`: appends to `list1` itself and returns it. */
  method MergeLists(list1: WordList, list2: seq<string>) returns (r: WordList)
    modifies list1
    ensures r == list1 && list1.items == Merged(old(list1.items), list2)
  {
    ghost var rest := list2;
    for n := 0 to |list2|
      invariant rest == list2[n..]
      invariant Merged(list1.items, rest) == Merged(old(list1.items), list2)
    {
      var w := list2[n];
      if w !in list1.items {
        list1.items := list1.items + [w];
      }
      rest := rest[1..];
    }
    r := list1;
  }

  /** The old contents stay first and in order; a word is in the result
      exactly when it was in either list; a list without repeats stays
      without repeats. */
  lemma {:induction false} MergedKeeps(list1: seq<string>, list2: seq<string>)
    ensures |Merged(list1, list2)| >= |list1| && Merged(list1, list2)[..|list1|] == list1
    ensures forall w :: w in Merged(list1, list2) <==> w in list1 || w in list2
    ensures NoDups(list1) ==> NoDups(Merged(list1, list2))
    decreases |list2|
  {
    if list2 != [] {
      var w := list2[0];
      var next := if w in list1 then list1 else list1 + [w];
      MergedKeeps(next, list2[1..]);
      assert next[..|list1|] == list1;
      assert forall x :: x in list2 <==> x == w || x in list2[1..];
      if NoDups(list1) && w !in list1 {
        NoDupsConcat(list1, [w]);
      }
    }
  }

  /** Merging a second time adds nothing. */
  lemma MergedIdempotent(list1: seq<string>, list2: seq<string>)
    ensures Merged(Merged(list1, list2), list2) == Merged(list1, list2)
  {
    MergedKeeps(list1, list2);
    MergedPresent(Merged(list1, list2), list2);
  }

  /** Merging words that are all present leaves the list as it was. */
  lemma {:induction false} MergedPresent(list1: seq<string>, list2: seq<string>)
    requires forall w :: w in list2 ==> w in list1
    ensures Merged(list1, list2) == list1
    decreases |list2|
  {
    if list2 != [] {
      assert list2[0] in list2;
      forall w | w in list2[1..] ensures w in list1 {
        assert w in list2;
      }
      MergedPresent(list1, list2[1..]);
    }
  }

  /** `letters.upper()`, for the character class of the anagram patterns. */
  predicate IsClassLetters(letters: string)
  {
    |letters| > 0 && forall i :: 0 <= i < |letters| ==> IsLetter(UpperChar(letters[i]))
  }

  /** `^[letters]+$` matches `w`: one or more characters, all in `letters`;
      `$` also matches before a final line break. */
  predicate MadeOf(letters: string, w: string)
  {
    |Body(w)| > 0 && forall i :: 0 <= i < |Body(w)| ==> Body(w)[i] in letters
  }

  /** `w` without one final line break. */
  function Body(w: string): string
  {
    if w != [] && w[|w| - 1] == '\n' then w[..|w| - 1] else w
  }

  /** For a word with no final line break, `MadeOf` is a test of every character. */
  lemma MadeOfPlain(letters: string, w: string)
    requires w == [] || w[|w| - 1] != '\n'
    ensures MadeOf(letters, w) <==> |w| > 0 && forall i :: 0 <= i < |w| ==> w[i] in letters
  {
  }

  function MadeOfFn(letters: string): string -> bool
  {
    w => MadeOf(letters, w)
  }

  /** The search for `c` succeeds on `w`. */
  function HasFn(c: char): string -> bool
  {
    w => c in w
  }

  /** `anagram_strict(wordlist, letters)`: the words made only of `letters`. */
  function AnagramStrict(wordlist: seq<string>, letters: string): (r: seq<string>)
    requires IsClassLetters(letters)
    ensures IsSublist(r, wordlist)
  {
    FilterIsSublist(wordlist, MadeOfFn(Upper(letters)));
    Filter(wordlist, MadeOfFn(Upper(letters)))
  }

  /** The loop of `anagram_loose`: keep, one letter after the other, the
      words containing that letter. */
  function ContainingEach(words: seq<string>, letters: string): seq<string>
    decreases |letters|
  {
    if letters == [] then words else ContainingEach(Filter(words, HasFn(letters[0])), letters[1..])
  }

  /** `anagram_loose(wordlist, letters)`: the words made only of `letters`,
      then only those containing each of them. */
  function AnagramLoose(wordlist: seq<string>, letters: string): (r: seq<string>)
    requires IsClassLetters(letters)
    ensures IsSublist(r, AnagramStrict(wordlist, letters))
  {
    ContainingEachIsFilter(AnagramStrict(wordlist, letters), Upper(letters));
    FilterIsSublist(AnagramStrict(wordlist, letters), HasAllFn(Upper(letters)));
    ContainingEach(AnagramStrict(wordlist, letters), Upper(letters))
  }

  lemma StrictMembers(wordlist: seq<string>, letters: string)
    requires IsClassLetters(letters)
    ensures IsSublist(AnagramStrict(wordlist, letters), wordlist)
    ensures forall w :: w in AnagramStrict(wordlist, letters) <==> w in wordlist && MadeOf(Upper(letters), w)
  {
    FilterIsSublist(wordlist, MadeOfFn(Upper(letters)));
  }

  /** The words containing every one of `letters`. */
  function HasAllFn(letters: string): string -> bool
  {
    w => forall c :: c in letters ==> c in w
  }

  /** The loop of `anagram_loose` keeps, in order, the words that contain
      every letter. */
  lemma {:induction false} ContainingEachIsFilter(words: seq<string>, letters: string)
    ensures ContainingEach(words, letters) == Filter(words, HasAllFn(letters))
    decreases |letters|
  {
    if letters == [] {
      FilterKeepsAll(words, HasAllFn(letters));
    } else {
      var kept := Filter(words, HasFn(letters[0]));
      ContainingEachIsFilter(kept, letters[1..]);
      assert forall c :: c in letters <==> c == letters[0] || c in letters[1..];
      FilterFilter(words, HasFn(letters[0]), HasAllFn(letters[1..]), HasAllFn(letters));
    }
  }

  /** `anagram_loose` keeps a sub-list of what `anagram_strict` keeps: the
      words made only of `letters` that use every one of them. */
  lemma LooseMembers(wordlist: seq<string>, letters: string)
    requires IsClassLetters(letters)
    ensures IsSublist(AnagramLoose(wordlist, letters), AnagramStrict(wordlist, letters))
    ensures forall w :: w in AnagramLoose(wordlist, letters) <==>
      (w in wordlist && MadeOf(Upper(letters), w) && forall c :: c in Upper(letters) ==> c in w)
  {
    StrictMembers(wordlist, letters);
    ContainingEachIsFilter(AnagramStrict(wordlist, letters), Upper(letters));
    FilterIsSublist(AnagramStrict(wordlist, letters), HasAllFn(Upper(letters)));
  }

  /** Both tests of `anagram_loose` at once. */
  function LooseFn(letters: string): string -> bool
  {
    w => MadeOf(letters, w) && HasAllFn(letters)(w)
  }

  /** What the description of `anagram_loose` promises: the words that
      include every letter, other letters allowed. */
  function AnagramIncluding(wordlist: seq<string>, letters: string): (r: seq<string>)
    requires IsClassLetters(letters)
    ensures IsSublist(r, wordlist)
  {
    ContainingEachIsFilter(wordlist, Upper(letters));
    FilterIsSublist(wordlist, HasAllFn(Upper(letters)));
    ContainingEach(wordlist, Upper(letters))
  }

  /** The intended filter keeps, in order, exactly the words using every
      letter, and everything `anagram_loose` keeps. */
  lemma IncludingMembers(wordlist: seq<string>, letters: string)
    requires IsClassLetters(letters)
    ensures forall w :: w in AnagramIncluding(wordlist, letters) <==>
      w in wordlist && forall c :: c in Upper(letters) ==> c in w
    ensures IsSublist(AnagramLoose(wordlist, letters), AnagramIncluding(wordlist, letters))
  {
    var u := Upper(letters);
    ContainingEachIsFilter(wordlist, u);
    ContainingEachIsFilter(AnagramStrict(wordlist, letters), u);
    FilterFilter(wordlist, MadeOfFn(u), HasAllFn(u), LooseFn(u));
    FilterMono(wordlist, LooseFn(u), HasAllFn(u));
  }

  /** `anagram_strict` keeps a word that leaves some of the letters unused:
      SEES is made of S, E and T but has no T. */
  lemma StrictKeepsUnusedLetters()
    ensures AnagramStrict(["SEES"], "set") == ["SEES"]
  {
    var u := Upper("set");
    assert u == "SET";
    var w := "SEES";
    assert w[|w| - 1] != '\n';
    MadeOfPlain(u, w);
    assert w[0] in u && w[1] in u && w[2] in u && w[3] in u;
    assert MadeOf(u, w);
  }

  /** `anagram_loose` drops a word that has the letters and others too. */
  lemma LooseDropsOtherLetters()
    ensures AnagramLoose(["STARE"], "st") == []
    ensures AnagramIncluding(["STARE"], "st") == ["STARE"]
  {
    var u := Upper("st");
    assert u == "ST";
    var w := "STARE";
    assert w[|w| - 1] != '\n' && w[2] == 'A' && 'A' !in u;
    MadeOfPlain(u, w);
    assert !MadeOf(u, w);
    assert AnagramStrict(["STARE"], "st") == [];
    assert 'S' in "STARE" && 'T' in "STARE";
    ContainingEachIsFilter(["STARE"], u);
    assert HasAllFn(u)("STARE");
  }
}
