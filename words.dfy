/** Words of the game: five upper-case letters A..Z, and the small string
    helpers of the program (`swap_chr`, `str.find`, `space_str`,
    `is_solved`) together with letter counting. */
module Words {

  const WordLength: nat := 5

  predicate IsLetter(c: char)
  {
    'A' <= c <= 'Z'
  }

  /** ALPHABET, the letters A..Z in order. */
  function Alphabet(): string { seq(26, i => if 0 <= i < 26 then ('A' as int + i) as char else 'A') }

  predicate IsWord(w: string)
  {
    |w| == WordLength && forall i :: 0 <= i < |w| ==> IsLetter(w[i])
  }

  lemma AlphabetIsLetters()
    ensures |Alphabet()| == 26
    ensures forall c :: c in Alphabet() <==> IsLetter(c)
    ensures forall i :: 0 <= i < 26 ==> Alphabet()[i] as int - 'A' as int == i
  {
    forall c | IsLetter(c) ensures c in Alphabet() {
      assert Alphabet()[c as int - 'A' as int] == c;
    }
    forall c | c in Alphabet() ensures IsLetter(c) {
      var i :| 0 <= i < 26 && Alphabet()[i] == c;
    }
  }

  lemma AlphabetLetter(i: nat)
    requires i < 26
    ensures IsLetter(Alphabet()[i])
  {
  }

  /** Number of occurrences of `c` in `s`. */
  function Count(s: string, c: char): (n: nat)
    ensures n <= |s|
    ensures n == 0 <==> c !in s
  {
    if s == [] then 0 else (if s[0] == c then 1 else 0) + Count(s[1..], c)
  }

  lemma {:induction false} CountConcat(a: string, b: string, c: char)
    ensures Count(a + b, c) == Count(a, c) + Count(b, c)
  {
    if a == [] {
      assert a + b == b;
    } else {
      assert (a + b)[1..] == a[1..] + b;
      CountConcat(a[1..], b, c);
    }
  }

  /** Counting over a prefix one letter longer. */
  lemma CountPrefix(s: string, k: nat, c: char)
    requires k < |s|
    ensures Count(s[..k + 1], c) == Count(s[..k], c) + (if s[k] == c then 1 else 0)
  {
    assert s[..k + 1] == s[..k] + [s[k]];
    CountConcat(s[..k], [s[k]], c);
  }

  /** Overwriting one position moves one occurrence from the old letter to the new one. */
  lemma {:induction false} CountUpdate(s: string, i: nat, x: char, c: char)
    requires i < |s|
    ensures Count(s[i := x], c) == Count(s, c) - (if s[i] == c then 1 else 0) + (if x == c then 1 else 0)
  {
    if i > 0 {
      assert s[i := x][1..] == s[1..][i - 1 := x];
      CountUpdate(s[1..], i - 1, x, c);
    } else {
      assert s[i := x][1..] == s[1..];
    }
  }

  /** `swap_chr(s, c, i)`: `s` with `c` in position `i`; past the end, `c` is appended. */
  function SwapChr(s: string, c: char, i: nat): (r: string)
    ensures i < |s| ==> r == s[i := c]
    ensures i >= |s| ==> r == s + [c]
  {
    var before := if i < |s| then s[..i] else s;
    var after := if i < |s| - 1 then s[i + 1..] else "";
    before + [c] + after
  }

  /** `s.find(c)`: the first index of `c` in `s`, or -1 when `c` does not occur. */
  function Find(s: string, c: char): (idx: int)
    ensures -1 <= idx < |s|
    ensures idx == -1 <==> c !in s
    ensures idx >= 0 ==> s[idx] == c && c !in s[..idx]
  {
    if s == [] then -1
    else if s[0] == c then 0
    else
      var k := Find(s[1..], c);
      assert s[1..][..if k < 0 then 0 else k] == s[1..if k < 0 then 1 else k + 1];
      if k == -1 then -1 else k + 1
  }

  /** `is_solved`: the game ends when the guess is the solution. */
  function IsSolved(solution: string, guess: string): (solved: bool)
    ensures solved ==> |guess| == |solution|
  {
    guess == solution
  }

  /** `space_str`: the characters of `str` separated by single spaces. */
  method SpaceStr(str: string) returns (r: string)
    ensures |r| == if str == [] then 0 else 2 * |str| - 1
    ensures forall j :: 0 <= j < |r| && j % 2 == 0 ==> r[j] == str[j / 2]
    ensures forall j :: 0 <= j < |r| && j % 2 == 1 ==> r[j] == ' '
  {
    var s := "";
    for k := 0 to |str|
      invariant |s| == 2 * k
      invariant forall j :: 0 <= j < |s| && j % 2 == 0 ==> s[j] == str[j / 2]
      invariant forall j :: 0 <= j < |s| && j % 2 == 1 ==> s[j] == ' '
    {
      s := s + [str[k], ' '];
    }
    // Python's s[:-1] drops the trailing space, and leaves '' as it is.
    r := if s == "" then s else s[..|s| - 1];
  }
}
