/**
 * The string primitives the watcher relies on, with the meaning of the Python
 * built-ins it calls: str.strip(), str.split(sep), sep.join(parts), str.lower(),
 * str.endswith(suffix), str.replace(old, new), iteration over the lines of a
 * file opened in text mode, and the decimal spelling of a timestamp.
 */
module Text {

  /** Python's str.isspace(): exactly the characters str.strip() removes from either end. */
  predicate IsSpace(c: char) {
    ('\t' <= c <= '\r') || ('\U{1C}' <= c <= '\U{1F}') || c == ' ' || c == '\U{85}' || c == '\U{A0}'
    || c == '\U{1680}' || ('\U{2000}' <= c <= '\U{200A}') || c == '\U{2028}' || c == '\U{2029}'
    || c == '\U{202F}' || c == '\U{205F}' || c == '\U{3000}'
  }

  function TrimLeft(s: string): (r: string)
    ensures |r| <= |s| && r == s[|s| - |r|..]
    ensures forall i :: 0 <= i < |s| - |r| ==> IsSpace(s[i])
    ensures r == [] || !IsSpace(r[0])
    decreases |s|
  {
    if s != [] && IsSpace(s[0]) then TrimLeft(s[1..]) else s
  }

  function TrimRight(s: string): (r: string)
    ensures |r| <= |s| && r == s[..|r|]
    ensures forall i :: |r| <= i < |s| ==> IsSpace(s[i])
    ensures r == [] || !IsSpace(r[|r| - 1])
    decreases |s|
  {
    if s != [] && IsSpace(s[|s| - 1]) then TrimRight(s[..|s| - 1]) else s
  }

  /** A string that str.strip() leaves as it is: empty, or starting and ending with a non-space. */
  predicate Stripped(s: string) {
    s == [] || (!IsSpace(s[0]) && !IsSpace(s[|s| - 1]))
  }

  /** Every character of a slice is a character of the whole. */
  lemma SliceChars(s: string, i: nat, j: nat)
    requires i <= j <= |s|
    ensures forall c :: c in s[i..j] ==> c in s
  {
    forall c | c in s[i..j] ensures c in s {
      var k :| 0 <= k < j - i && s[i..j][k] == c;
      assert s[i + k] == c;
    }
  }

  /** r is the run of s starting at i, with nothing but whitespace before and after it. */
  predicate WhitespaceAround(s: string, r: string, i: int) {
    0 <= i <= |s| - |r| && r == s[i..i + |r|]
    && (forall j :: 0 <= j < i ==> IsSpace(s[j]))
    && (forall j :: i + |r| <= j < |s| ==> IsSpace(s[j]))
  }

  /** Python's str.strip() without arguments: the line with its leading and trailing whitespace removed. */
  function Strip(s: string): (r: string)
    ensures Stripped(r)
    ensures forall c :: c in r ==> c in s
    ensures Stripped(s) ==> r == s
  {
    var t := TrimLeft(s);
    SliceChars(s, |s| - |t|, |s|);
    SliceChars(t, 0, |TrimRight(t)|);
    TrimRight(t)
  }

  /** A suffix after leading whitespace, cut before trailing whitespace, is a run with only whitespace around it. */
  lemma RunBetween(s: string, t: string, r: string)
    requires |t| <= |s| && t == s[|s| - |t|..]
    requires forall j :: 0 <= j < |s| - |t| ==> IsSpace(s[j])
    requires |r| <= |t| && r == t[..|r|]
    requires forall j :: |r| <= j < |t| ==> IsSpace(t[j])
    ensures WhitespaceAround(s, r, |s| - |t|)
  {
    var i := |s| - |t|;
    forall j | i + |r| <= j < |s| ensures IsSpace(s[j]) {
      assert s[j] == t[j - i];
    }
  }

  /**
   * What str.strip() removes is whitespace and only that: the stripped line is a run of
   * the line with nothing but whitespace before and after it.
   */
  lemma StripIsRun(s: string)
    ensures exists i :: WhitespaceAround(s, Strip(s), i)
  {
    var t := TrimLeft(s);
    var r := TrimRight(t);
    RunBetween(s, t, r);
    assert Strip(s) == r;
  }

  /** Python's s.split(sep) with an explicit one-character separator: never empty, one more part than separators. */
  function Split(s: string, sep: char): (parts: seq<string>)
    ensures |parts| >= 1
    ensures forall i :: 0 <= i < |parts| ==> sep !in parts[i]
    ensures forall i, c :: 0 <= i < |parts| && c in parts[i] ==> c in s
    decreases |s|
  {
    if s == [] then [[]]
    else
      var rest := Split(s[1..], sep);
      assert forall c :: c in s[1..] ==> c in s;
      if s[0] == sep then [[]] + rest
      else
        assert forall c :: c in [s[0]] + rest[0] ==> c == s[0] || c in rest[0];
        [[s[0]] + rest[0]] + rest[1..]
  }

  /** Python's sep.join(parts) for a non-empty list of parts. */
  function Join(parts: seq<string>, sep: char): string
    requires |parts| >= 1
    decreases |parts|
  {
    if |parts| == 1 then parts[0] else parts[0] + [sep] + Join(parts[1..], sep)
  }

  lemma {:induction false} SplitWithoutSeparator(p: string, sep: char)
    requires sep !in p
    ensures Split(p, sep) == [p]
    decreases |p|
  {
    if p != [] {
      SplitWithoutSeparator(p[1..], sep);
      assert [p[0]] + p[1..] == p;
    }
  }

  lemma {:induction false} SplitAtFirstSeparator(p: string, sep: char, rest: string)
    requires sep !in p
    ensures Split(p + [sep] + rest, sep) == [p] + Split(rest, sep)
    decreases |p|
  {
    var s := p + [sep] + rest;
    if p == [] {
      assert s[1..] == rest;
    } else {
      assert s[1..] == p[1..] + [sep] + rest;
      SplitAtFirstSeparator(p[1..], sep, rest);
      assert [p[0]] + p[1..] == p;
    }
  }

  /** Splitting a join recovers the parts, as long as no part contains the separator. */
  lemma {:induction false} SplitJoin(parts: seq<string>, sep: char)
    requires |parts| >= 1
    requires forall i :: 0 <= i < |parts| ==> sep !in parts[i]
    ensures Split(Join(parts, sep), sep) == parts
    decreases |parts|
  {
    if |parts| == 1 {
      SplitWithoutSeparator(parts[0], sep);
    } else {
      SplitJoin(parts[1..], sep);
      SplitAtFirstSeparator(parts[0], sep, Join(parts[1..], sep));
      assert [parts[0]] + parts[1..] == parts;
    }
  }

  /** Joining the parts of a split gives back the original string. */
  lemma {:induction false} JoinSplit(s: string, sep: char)
    ensures Join(Split(s, sep), sep) == s
    decreases |s|
  {
    if s != [] {
      JoinSplit(s[1..], sep);
      assert [s[0]] + s[1..] == s;
    }
  }

  function LowerChar(c: char): char {
    if 'A' <= c <= 'Z' then (c as int + 32) as char else c
  }

  /** Python's str.lower(), on the ASCII letters. */
  function Lower(s: string): (r: string)
    ensures |r| == |s|
    ensures forall i :: 0 <= i < |s| ==> r[i] == LowerChar(s[i])
    decreases |s|
  {
    if s == [] then [] else [LowerChar(s[0])] + Lower(s[1..])
  }

  /** Python's s.endswith(suffix). */
  predicate EndsWith(s: string, suffix: string) {
    |suffix| <= |s| && s[|s| - |suffix|..] == suffix
  }

  lemma EndsWithTrans(s: string, t: string, u: string)
    requires EndsWith(s, t) && EndsWith(t, u)
    ensures EndsWith(s, u)
  {
    assert s[|s| - |u|..] == s[|s| - |t|..][|t| - |u|..];
  }

  /** A concatenation ends with its second part. */
  lemma EndsWithAppend(a: string, b: string)
    ensures EndsWith(a + b, b)
  {
    assert (a + b)[|a|..] == b;
  }

  /** Two strings that end with suffixes of equal length but different content are different strings. */
  lemma DifferentSuffixes(a: string, b: string, x: string, y: string)
    requires EndsWith(a, x) && EndsWith(b, y)
    requires |x| == |y| && x != y
    ensures a != b
  {
  }

  /** Python's s.replace(pattern, replacement): every occurrence, scanned left to right without overlap. */
  function ReplaceAll(s: string, pattern: string, replacement: string): string
    requires |pattern| > 0
    decreases |s|
  {
    if |s| < |pattern| then s
    else if s[..|pattern|] == pattern then replacement + ReplaceAll(s[|pattern|..], pattern, replacement)
    else [s[0]] + ReplaceAll(s[1..], pattern, replacement)
  }

  predicate IsLineBreak(c: char) {
    c == '\n' || c == '\r'
  }

  predicate NoLineBreak(s: string) {
    '\n' !in s && '\r' !in s
  }

  /** Index of the first line break in s, or |s| when there is none. */
  function LineEnd(s: string): (i: nat)
    ensures i <= |s|
    ensures forall j :: 0 <= j < i ==> !IsLineBreak(s[j])
    ensures i < |s| ==> IsLineBreak(s[i])
    decreases |s|
  {
    if s == [] || IsLineBreak(s[0]) then 0 else 1 + LineEnd(s[1..])
  }

  /**
   * The lines Python yields when it iterates over a file opened in text mode
   * (universal newlines: "\n", "\r\n" and a lone "\r" each end a line), without
   * their terminators; a final line without a terminator is still a line.
   */
  function Lines(s: string): (ls: seq<string>)
    ensures forall i :: 0 <= i < |ls| ==> NoLineBreak(ls[i])
    decreases |s|
  {
    if s == [] then []
    else
      var i := LineEnd(s);
      assert NoLineBreak(s[..i]) by {
        forall c | c in s[..i] ensures !IsLineBreak(c) {
          var j :| 0 <= j < i && s[..i][j] == c;
        }
      }
      if i == |s| then [s]
      else if s[i] == '\r' && i + 1 < |s| && s[i + 1] == '\n' then [s[..i]] + Lines(s[i + 2..])
      else [s[..i]] + Lines(s[i + 1..])
  }

  /** The text a writer produces by writing each line followed by "\n". */
  function Unlines(ls: seq<string>): string
    decreases |ls|
  {
    if ls == [] then [] else Unlines(ls[..|ls| - 1]) + ls[|ls| - 1] + "\n"
  }

  lemma {:induction false} LineEndOfTerminated(l: string, rest: string)
    requires NoLineBreak(l)
    ensures LineEnd(l + "\n" + rest) == |l|
    decreases |l|
  {
    if l != [] {
      assert (l + "\n" + rest)[1..] == l[1..] + "\n" + rest;
      assert l[0] in l;
      assert forall c :: c in l[1..] ==> c in l;
      LineEndOfTerminated(l[1..], rest);
    }
  }

  lemma LinesOfTerminated(l: string, rest: string)
    requires NoLineBreak(l)
    ensures Lines(l + "\n" + rest) == [l] + Lines(rest)
  {
    var s := l + "\n" + rest;
    LineEndOfTerminated(l, rest);
    assert s[..|l|] == l;
    assert s[|l| + 1..] == rest;
  }

  /** Reading back what a writer wrote line by line gives the same lines, when none holds a line break. */
  lemma {:induction false} LinesUnlines(ls: seq<string>)
    requires forall i :: 0 <= i < |ls| ==> NoLineBreak(ls[i])
    ensures Lines(Unlines(ls)) == ls
    decreases |ls|
  {
    if ls != [] {
      UnlinesFront(ls);
      LinesUnlines(ls[1..]);
      LinesOfTerminated(ls[0], Unlines(ls[1..]));
      assert [ls[0]] + ls[1..] == ls;
    }
  }

  lemma {:induction false} UnlinesFront(ls: seq<string>)
    requires ls != []
    ensures Unlines(ls) == ls[0] + "\n" + Unlines(ls[1..])
    decreases |ls|
  {
    if |ls| > 1 {
      UnlinesFront(ls[..|ls| - 1]);
      assert ls[..|ls| - 1][1..] == ls[1..][..|ls[1..]| - 1];
      assert ls[..|ls| - 1][0] == ls[0];
    }
  }

  predicate IsDigit(c: char) {
    '0' <= c <= '9'
  }

  predicate AllDigits(s: string) {
    forall i :: 0 <= i < |s| ==> IsDigit(s[i])
  }

  /** The number a run of decimal digits spells. */
  function DigitsValue(s: string): nat
    requires AllDigits(s)
    decreases |s|
  {
    if s == [] then 0 else DigitsValue(s[..|s| - 1]) * 10 + (s[|s| - 1] as int - '0' as int)
  }

  function DigitChar(d: nat): (c: char)
    requires d < 10
    ensures IsDigit(c) && c as int - '0' as int == d
  {
    ('0' as int + d) as char
  }

  /** The shortest decimal spelling of n. */
  function ShowNat(n: nat): (s: string)
    ensures |s| >= 1 && AllDigits(s)
    decreases n
  {
    if n < 10 then [DigitChar(n)] else ShowNat(n / 10) + [DigitChar(n % 10)]
  }

  /** Reading the decimal spelling of a number gives the number back. */
  lemma {:induction false} ShowNatValue(n: nat)
    ensures DigitsValue(ShowNat(n)) == n
    decreases n
  {
    if n >= 10 {
      ShowNatValue(n / 10);
      var s := ShowNat(n);
      assert s[..|s| - 1] == ShowNat(n / 10);
    }
  }
}
