/**
 * The std::string operations the program relies on (find, find_first_not_of,
 * find_last_not_of, substr) with their npos and size_t conventions, and `trim`.
 */
module CppStrings {

  /** std::string::npos: the largest value of a 64-bit size_t. */
  const NPOS: int := 0xFFFF_FFFF_FFFF_FFFF

  /** Every std::string is shorter than npos. */
  type CppString = s: string | |s| < NPOS

  predicate AllSpaces(s: string) {
    forall j :: 0 <= j < |s| ==> s[j] == ' '
  }

  /** `n` space characters. */
  function Blanks(n: nat): (r: string)
    ensures |r| == n && AllSpaces(r)
  {
    seq(n, _ => ' ')
  }

  /** The smaller of two sizes: the count substr clamps to what is left. */
  function SizeMin(a: int, b: int): int { if a <= b then a else b }

  /** Subtraction of two size_t values, which wraps around modulo 2^64. */
  function SizeSub(a: int, b: int): (r: int)
    requires 0 <= a <= NPOS && 0 <= b <= NPOS
    ensures 0 <= r <= NPOS
    ensures (r + b) % (NPOS + 1) == a
  {
    if b <= a then a - b else a - b + NPOS + 1
  }

  /** `s.find(c, pos)`: the first index at or after `pos` holding `c`, or npos. */
  function Find(s: CppString, c: char, pos: nat): (r: int)
    ensures r == NPOS || (pos <= r < |s| && s[r] == c)
    ensures forall j :: pos <= j < |s| && (r == NPOS || j < r) ==> s[j] != c
    decreases |s| - pos
  {
    if pos >= |s| then NPOS
    else if s[pos] == c then pos
    else Find(s, c, pos + 1)
  }

  /** `s.find_first_not_of(c, pos)`: the first index at or after `pos` not holding `c`, or npos. */
  function FindFirstNotOf(s: CppString, c: char, pos: nat): (r: int)
    ensures r == NPOS || (pos <= r < |s| && s[r] != c)
    ensures forall j :: pos <= j < |s| && (r == NPOS || j < r) ==> s[j] == c
    decreases |s| - pos
  {
    if pos >= |s| then NPOS
    else if s[pos] != c then pos
    else FindFirstNotOf(s, c, pos + 1)
  }

  /** `s.find_last_not_of(c)` restricted to the first `n` characters: the last such index, or npos. */
  function FindLastNotOf(s: CppString, c: char, n: nat): (r: int)
    requires n <= |s|
    ensures r == NPOS || (0 <= r < n && s[r] != c)
    ensures forall j :: 0 <= j < n && (r == NPOS || r < j) ==> s[j] == c
  {
    if n == 0 then NPOS
    else if s[n - 1] != c then n - 1
    else FindLastNotOf(s, c, n - 1)
  }

  /**
   * `s.substr(pos, count)`: at most `count` characters starting at `pos`. The program
   * never passes a `pos` beyond the end, so the out_of_range case is a precondition.
   */
  function Substr(s: CppString, pos: int, count: int): (r: CppString)
    requires 0 <= pos <= |s| && 0 <= count
    ensures |r| == SizeMin(count, |s| - pos)
    ensures forall j :: 0 <= j < |r| ==> r[j] == s[pos + j]
  {
    s[pos..pos + SizeMin(count, |s| - pos)]
  }

  /** A substr that stays inside the string is the slice it covers. */
  lemma SubstrWithin(s: CppString, pos: nat, count: nat)
    requires pos + count <= |s|
    ensures Substr(s, pos, count) == s[pos..pos + count]
  {
  }

  /** A substr whose count reaches past the end runs to the end. */
  lemma SubstrToEnd(s: CppString, pos: nat, count: nat)
    requires pos <= |s| <= pos + count
    ensures Substr(s, pos, count) == s[pos..]
  {
  }

  /**
   * `trim`: removes leading and trailing spaces (only ' ', not tabs). A string made
   * only of spaces, the empty string included, comes back unchanged.
   */
  function Trim(s: CppString): (r: CppString)
    ensures AllSpaces(s) ==> r == s
    ensures !AllSpaces(s) ==> |r| > 0 && r[0] != ' ' && r[|r| - 1] != ' '
    ensures !AllSpaces(s) ==> exists lead, trail :: s == Blanks(lead) + r + Blanks(trail)
  {
    var first := FindFirstNotOf(s, ' ', 0);
    if first == NPOS then
      assert AllSpaces(s);
      s
    else
      var last := FindLastNotOf(s, ' ', |s|);
      assert first <= last < |s|;
      var r := Substr(s, first, last - first + 1);
      TrimSlice(s, first, last, r);
      r
  }

  /**
   * What trim keeps: the characters from the first to the last non-space, which
   * start and end with a non-space and sit between two runs of spaces.
   */
  lemma TrimSlice(s: CppString, first: nat, last: nat, r: string)
    requires first <= last < |s| && s[first] != ' ' && s[last] != ' '
    requires r == Substr(s, first, last - first + 1)
    requires forall j :: 0 <= j < first ==> s[j] == ' '
    requires forall j :: last < j < |s| ==> s[j] == ' '
    ensures |r| > 0 && r[0] != ' ' && r[|r| - 1] != ' ' &&
            exists lead, trail :: s == Blanks(lead) + r + Blanks(trail)
  {
    assert r == s[first..last + 1];
    var t := Blanks(first) + r + Blanks(|s| - 1 - last);
    assert |t| == |s|;
    forall j | 0 <= j < |s|
      ensures t[j] == s[j]
    {
      if j < first {
      } else if j <= last {
        assert t[j] == r[j - first];
      } else {
        assert t[j] == Blanks(|s| - 1 - last)[j - last - 1];
      }
    }
    assert s == Blanks(first) + r + Blanks(|s| - 1 - last);
  }

  /** Trimming a second time changes nothing. */
  lemma TrimIdempotent(s: CppString)
    ensures Trim(Trim(s)) == Trim(s)
  {
    var r := Trim(s);
    if !AllSpaces(s) {
      assert FindFirstNotOf(r, ' ', 0) == 0;
      assert FindLastNotOf(r, ' ', |r|) == |r| - 1;
    }
  }

  /**
   * Trim recovers the text between any run of leading and trailing spaces, as long
   * as that text neither starts nor ends with a space.
   */
  lemma {:induction false} TrimPadded(lead: nat, t: string, trail: nat)
    requires t != [] && t[0] != ' ' && t[|t| - 1] != ' '
    requires lead + |t| + trail < NPOS
    ensures Trim(Blanks(lead) + t + Blanks(trail)) == t
  {
    var s: CppString := Blanks(lead) + t + Blanks(trail);
    assert s[lead] == t[0];
    assert s[lead + |t| - 1] == t[|t| - 1];
    var first := FindFirstNotOf(s, ' ', 0);
    assert forall j :: 0 <= j < lead ==> s[j] == ' ';
    assert first == lead;
    var last := FindLastNotOf(s, ' ', |s|);
    assert forall j :: lead + |t| <= j < |s| ==> s[j] == Blanks(trail)[j - lead - |t|];
    assert last == lead + |t| - 1;
    assert s[first..last + 1] == t;
  }

  /** Only the space character is stripped: a tab at either end stays. */
  lemma TrimKeepsTabs()
    ensures Trim(" \t5 ") == "\t5"
  {
    TrimPadded(1, "\t5", 1);
    assert " \t5 " == Blanks(1) + "\t5" + Blanks(1);
  }
}
