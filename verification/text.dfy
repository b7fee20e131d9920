/**
 * The string operations the report readers rely on, with Python's meaning:
 * `str.strip()`, `str.isdigit()` on ASCII digits, `int()` of a token,
 * `str.split()` and `str.split(sep)`, `sep.join(...)`, the line iteration
 * of a text file, and the `%d` / `str()` rendering of integers.
 */
module Text {
  import opened Wrappers

  /** `str.isspace()` for one character: the characters Python treats as whitespace. */
  predicate IsSpace(c: char)
  {
    var k := c as int;
    || (0x09 <= k <= 0x0D) || (0x1C <= k <= 0x20) || k == 0x85 || k == 0xA0 || k == 0x1680
    || (0x2000 <= k <= 0x200A) || k == 0x2028 || k == 0x2029 || k == 0x202F || k == 0x205F || k == 0x3000
  }

  /** Every character of `s` is whitespace. */
  predicate AllSpace(s: string)
  {
    forall i | 0 <= i < |s| :: IsSpace(s[i])
  }

  /** `s.lstrip()`: drops the leading whitespace and nothing else. */
  function StripLeft(s: string): string
  {
    if s != [] && IsSpace(s[0]) then StripLeft(s[1..]) else s
  }

  /** `s.rstrip()`: drops the trailing whitespace and nothing else. */
  function StripRight(s: string): string
  {
    if s != [] && IsSpace(s[|s| - 1]) then StripRight(s[..|s| - 1]) else s
  }

  /** `s.strip()`. */
  function Strip(s: string): string
  {
    StripRight(StripLeft(s))
  }

  /** What `lstrip` leaves: a suffix of `s` that does not start with whitespace, after nothing but whitespace. */
  lemma {:induction false} StripLeftSpec(s: string)
    ensures |StripLeft(s)| <= |s| && StripLeft(s) == s[|s| - |StripLeft(s)|..]
    ensures StripLeft(s) == [] || !IsSpace(StripLeft(s)[0])
    ensures AllSpace(s[..|s| - |StripLeft(s)|])
  {
    if s != [] && IsSpace(s[0]) {
      StripLeftSpec(s[1..]);
      var r := StripLeft(s[1..]);
      forall i | 0 <= i < |s| - |r| ensures IsSpace(s[i]) {
        if i > 0 {
          assert s[i] == s[1..][..|s| - 1 - |r|][i - 1];
        }
      }
    }
  }

  /** What `rstrip` leaves: a prefix of `s` that does not end with whitespace, before nothing but whitespace. */
  lemma {:induction false} StripRightSpec(s: string)
    ensures |StripRight(s)| <= |s| && StripRight(s) == s[..|StripRight(s)|]
    ensures StripRight(s) == [] || !IsSpace(StripRight(s)[|StripRight(s)| - 1])
    ensures AllSpace(s[|StripRight(s)|..])
  {
    if s != [] && IsSpace(s[|s| - 1]) {
      StripRightSpec(s[..|s| - 1]);
      var r := StripRight(s[..|s| - 1]);
      forall i | |r| <= i < |s| ensures IsSpace(s[i]) {
        if i < |s| - 1 {
          assert s[i] == s[..|s| - 1][|r|..][i - |r|];
        }
      }
    }
  }

  /** Whitespace in front of a text that does not start with whitespace is exactly what `lstrip` removes. */
  lemma {:induction false} StripLeftOf(a: string, m: string)
    requires AllSpace(a) && (m == [] || !IsSpace(m[0]))
    ensures StripLeft(a + m) == m
  {
    if a != [] {
      assert (a + m)[1..] == a[1..] + m;
      StripLeftOf(a[1..], m);
    }
  }

  /** Whitespace after a text that does not end with whitespace is exactly what `rstrip` removes. */
  lemma {:induction false} StripRightOf(m: string, b: string)
    requires AllSpace(b) && (m == [] || !IsSpace(m[|m| - 1]))
    ensures StripRight(m + b) == m
  {
    if b != [] {
      assert (m + b)[..|m + b| - 1] == m + b[..|b| - 1];
      StripRightOf(m, b[..|b| - 1]);
    }
  }

  /**
   * `strip` recovers a text from any whitespace padding around it, as long
   * as the text itself neither starts nor ends with whitespace.
   */
  lemma StripOf(a: string, m: string, b: string)
    requires AllSpace(a) && AllSpace(b)
    requires m == [] || (!IsSpace(m[0]) && !IsSpace(m[|m| - 1]))
    ensures Strip(a + m + b) == m
  {
    if m == [] {
      assert a + m + b == a + b;
      StripLeftOf(a + b, []);
      assert a + b + [] == a + b;
    } else {
      assert a + m + b == a + (m + b);
      StripLeftOf(a, m + b);
      StripRightOf(m, b);
    }
  }

  /** An ASCII decimal digit. */
  predicate IsDigit(c: char)
  {
    '0' <= c <= '9'
  }

  /** `s.isdigit()` restricted to ASCII: non-empty and all digits. */
  predicate IsDigits(s: string)
  {
    |s| >= 1 && forall i | 0 <= i < |s| :: IsDigit(s[i])
  }

  /** The value of an ASCII digit. */
  function DigitValue(c: char): (d: nat)
    requires IsDigit(c)
    ensures d < 10
  {
    c as int - '0' as int
  }

  /** The digit character for `d < 10`. */
  function DigitChar(d: nat): (c: char)
    requires d < 10
    ensures IsDigit(c) && DigitValue(c) == d
  {
    ('0' as int + d) as char
  }

  /** The decimal value of a digit string, most significant digit first, as `int()` reads it. */
  function DigitsValue(s: string): nat
    requires forall i | 0 <= i < |s| :: IsDigit(s[i])
  {
    if s == [] then 0 else 10 * DigitsValue(s[..|s| - 1]) + DigitValue(s[|s| - 1])
  }

  /** `"%d"` / `str()` of a non-negative integer: its decimal digits, no leading zero. */
  function NatText(n: nat): (s: string)
    ensures IsDigits(s)
    ensures |s| >= 2 ==> s[0] != '0'
  {
    if n < 10 then [DigitChar(n)] else NatText(n / 10) + [DigitChar(n % 10)]
  }

  /** Reading the rendered digits back gives the number. */
  lemma {:induction false} NatTextValue(n: nat)
    ensures DigitsValue(NatText(n)) == n
  {
    if n >= 10 {
      NatTextValue(n / 10);
      var s := NatText(n);
      assert s[..|s| - 1] == NatText(n / 10);
    }
  }

  /** `"%d"` / `str()` of any integer: a minus sign before the digits of a negative number. */
  function IntText(i: int): (s: string)
    ensures |s| >= 1 && !IsSpace(s[0]) && !IsSpace(s[|s| - 1])
    ensures forall k | 0 <= k < |s| :: !IsSpace(s[k]) && s[k] != ':'
  {
    if i < 0 then "-" + NatText(-i) else NatText(i)
  }

  /** `int(token)` for a token without whitespace: an optional sign, then ASCII digits; anything else fails. */
  function ParseInt(s: string): (r: Option<int>)
    ensures IsDigits(s) ==> r == Some(DigitsValue(s))
    ensures s == [] ==> r == None
  {
    if IsDigits(s) then Some(DigitsValue(s))
    else if |s| >= 2 && s[0] == '-' && IsDigits(s[1..]) then Some(0 - DigitsValue(s[1..]) as int)
    else if |s| >= 2 && s[0] == '+' && IsDigits(s[1..]) then Some(DigitsValue(s[1..]))
    else None
  }

  /** `int(str(i)) == i`. */
  lemma IntTextRoundTrip(i: int)
    ensures ParseInt(IntText(i)) == Some(i)
  {
    if i < 0 {
      NatTextValue(-i);
      assert IntText(i)[1..] == NatText(-i);
    } else {
      NatTextValue(i);
    }
  }

  /** The length of the first line of `s`, its `'\n'` included when there is one. */
  function LineLength(s: string): (k: nat)
    ensures k <= |s| && (s != [] ==> k >= 1)
    ensures forall i | 0 <= i < k - 1 :: s[i] != '\n'
    ensures 1 <= k < |s| ==> s[k - 1] == '\n'
    ensures k == |s| && k >= 1 && s[k - 1] != '\n' ==> forall i | 0 <= i < |s| :: s[i] != '\n'
  {
    if s == [] then 0 else if s[0] == '\n' then 1 else 1 + LineLength(s[1..])
  }

  /** `for line in f`: the lines of a file, each with its `'\n'`; the last may lack one. */
  function Lines(s: string): (ls: seq<string>)
    ensures forall k | 0 <= k < |ls| :: |ls[k]| >= 1
    decreases |s|
  {
    if s == [] then [] else [s[..LineLength(s)]] + Lines(s[LineLength(s)..])
  }

  /** Writing lines one after the other. */
  function Concat(ls: seq<string>): string
  {
    if ls == [] then [] else ls[0] + Concat(ls[1..])
  }

  /** A complete line: ends with its only `'\n'`. */
  predicate IsLine(l: string)
  {
    |l| >= 1 && l[|l| - 1] == '\n' && forall i | 0 <= i < |l| - 1 :: l[i] != '\n'
  }

  /** Splitting a text into lines loses nothing. */
  lemma {:induction false} ConcatLines(s: string)
    ensures Concat(Lines(s)) == s
    decreases |s|
  {
    if s != [] {
      var k := LineLength(s);
      ConcatLines(s[k..]);
      assert s[..k] + s[k..] == s;
    }
  }

  /** The first line of a complete line followed by more text is that line. */
  lemma {:induction false} LineLengthOfLine(l: string, rest: string)
    requires IsLine(l)
    ensures LineLength(l + rest) == |l|
    decreases |l|
  {
    if l[0] != '\n' {
      assert (l + rest)[1..] == l[1..] + rest;
      LineLengthOfLine(l[1..], rest);
    }
  }

  /** Text written as complete lines is read back as exactly those lines. */
  lemma {:induction false} LinesConcat(ls: seq<string>)
    requires forall k | 0 <= k < |ls| :: IsLine(ls[k])
    ensures Lines(Concat(ls)) == ls
  {
    if ls != [] {
      var s := Concat(ls);
      LineLengthOfLine(ls[0], Concat(ls[1..]));
      assert s[..|ls[0]|] == ls[0];
      assert s[|ls[0]|..] == Concat(ls[1..]);
      LinesConcat(ls[1..]);
    }
  }

  /** A non-empty run of non-whitespace characters. */
  predicate IsWord(w: string)
  {
    |w| >= 1 && forall i | 0 <= i < |w| :: !IsSpace(w[i])
  }

  /** The length of the leading run of non-whitespace characters. */
  function WordLength(s: string): (k: nat)
    ensures k <= |s|
    ensures forall i | 0 <= i < k :: !IsSpace(s[i])
    ensures k < |s| ==> IsSpace(s[k])
  {
    if s == [] || IsSpace(s[0]) then 0 else 1 + WordLength(s[1..])
  }

  /** `s.split()`: the maximal runs of non-whitespace characters, in order. */
  function Words(s: string): seq<string>
    decreases |s|
  {
    var t := StripLeft(s);
    StripLeftSpec(s);
    if t == [] then [] else
      var k := WordLength(t);
      [t[..k]] + Words(t[k..])
  }

  /** A word with no whitespace in it, then whitespace: `split()` finds that word first. */
  lemma {:induction false} WordLengthOf(w: string, rest: string)
    requires forall i | 0 <= i < |w| :: !IsSpace(w[i])
    requires rest == [] || IsSpace(rest[0])
    ensures WordLength(w + rest) == |w|
    decreases |w|
  {
    if w != [] {
      assert (w + rest)[1..] == w[1..] + rest;
      WordLengthOf(w[1..], rest);
    }
  }

  /** Whitespace, one word, then text starting with whitespace (or nothing): `split()` yields that word first. */
  lemma WordsCons(a: string, w: string, rest: string)
    requires AllSpace(a) && IsWord(w) && (rest == [] || IsSpace(rest[0]))
    ensures Words(a + w + rest) == [w] + Words(rest)
  {
    assert a + w + rest == a + (w + rest);
    StripLeftOf(a, w + rest);
    WordLengthOf(w, rest);
    assert (w + rest)[..|w|] == w;
    assert (w + rest)[|w|..] == rest;
  }

  /** Only whitespace: `split()` yields nothing. */
  lemma WordsOfSpace(tail: string)
    requires AllSpace(tail)
    ensures Words(tail) == []
  {
    StripLeftOf(tail, []);
    assert tail + [] == tail;
  }

  /** `(" " + y + tail).split() == [y]` for a word `y` and a whitespace `tail`. */
  lemma WordsOfLast(y: string, tail: string)
    requires IsWord(y) && AllSpace(tail)
    ensures Words(" " + y + tail) == [y]
  {
    WordsOfSpace(tail);
    WordsCons(" ", y, tail);
  }

  /** `(x + " " + y + tail).split() == [x, y]` for words `x`, `y` and a whitespace `tail`. */
  lemma WordsOfPair(x: string, y: string, tail: string)
    requires IsWord(x) && IsWord(y) && AllSpace(tail)
    ensures Words(x + " " + y + tail) == [x, y]
  {
    var r := " " + y + tail;
    assert x + " " + y + tail == [] + x + r;
    WordsOfLast(y, tail);
    WordsCons([], x, r);
  }

  /** `sep` occurs in `s` at position `i`. */
  predicate OccursAt(s: string, sep: string, i: nat)
  {
    i + |sep| <= |s| && s[i..i + |sep|] == sep
  }

  /** Occurrences in `s[1..]` are the occurrences in `s` one position later. */
  lemma OccursShift(s: string, sep: string, i: nat)
    requires |s| >= 1
    ensures OccursAt(s, sep, i + 1) == OccursAt(s[1..], sep, i)
  {
    if i + 1 + |sep| <= |s| {
      var u, v := s[i + 1..i + 1 + |sep|], s[1..][i..i + |sep|];
      forall k | 0 <= k < |sep| ensures u[k] == v[k] {
      }
      assert u == v;
    }
  }

  /** The first position where `sep` occurs in `s`. */
  function Find(s: string, sep: string): (r: Option<nat>)
    requires |sep| >= 1
    ensures r.Some? ==> OccursAt(s, sep, r.value)
    ensures r.Some? ==> forall i: nat | i < r.value :: !OccursAt(s, sep, i)
    ensures r.None? ==> forall i: nat :: !OccursAt(s, sep, i)
    decreases |s|
  {
    if |s| < |sep| then None
    else if s[..|sep|] == sep then Some(0)
    else
      var r := Find(s[1..], sep);
      forall i: nat ensures OccursAt(s, sep, i + 1) == OccursAt(s[1..], sep, i) {
        OccursShift(s, sep, i);
      }
      assert !OccursAt(s, sep, 0);
      if r.None? then
        assert forall i: nat :: !OccursAt(s, sep, i) by {
          forall i: nat ensures !OccursAt(s, sep, i) {
            if i > 0 {
              assert !OccursAt(s[1..], sep, i - 1);
            }
          }
        }
        None
      else
        assert forall i: nat | i < r.value + 1 :: !OccursAt(s, sep, i) by {
          forall i: nat | i < r.value + 1 ensures !OccursAt(s, sep, i) {
            if i > 0 {
              assert !OccursAt(s[1..], sep, i - 1);
            }
          }
        }
        Some(r.value + 1)
  }

  /** `s.split(sep)`: the pieces between the non-overlapping occurrences of `sep`, left to right. */
  function SplitOn(s: string, sep: string): (parts: seq<string>)
    requires |sep| >= 1
    ensures |parts| >= 1
    decreases |s|
  {
    match Find(s, sep)
      case None => [s]
      case Some(i) => [s[..i]] + SplitOn(s[i + |sep|..], sep)
  }

  /** `sep.join(parts)`. */
  function JoinWith(parts: seq<string>, sep: string): string
  {
    if parts == [] then []
    else if |parts| == 1 then parts[0]
    else parts[0] + sep + JoinWith(parts[1..], sep)
  }

  /** `sep.join(s.split(sep)) == s`: splitting loses nothing. */
  lemma {:induction false} JoinSplit(s: string, sep: string)
    requires |sep| >= 1
    ensures JoinWith(SplitOn(s, sep), sep) == s
    decreases |s|
  {
    if Find(s, sep).Some? {
      var i := SplitFirst(s, sep);
      var rest := s[i + |sep|..];
      JoinSplit(rest, sep);
      JoinCons(s[..i], SplitOn(rest, sep), sep);
    }
  }

  /** At the first occurrence `i` of `sep`, the text is `s[..i] + sep + rest` and splits into `s[..i]` and the pieces of `rest`. */
  lemma SplitFirst(s: string, sep: string) returns (i: nat)
    requires |sep| >= 1 && Find(s, sep).Some?
    ensures i == Find(s, sep).value && i + |sep| <= |s|
    ensures s == s[..i] + sep + s[i + |sep|..]
    ensures SplitOn(s, sep) == [s[..i]] + SplitOn(s[i + |sep|..], sep)
  {
    i := Find(s, sep).value;
    assert s == s[..i] + s[i..i + |sep|] + s[i + |sep|..];
  }

  /** Joining a piece in front of at least one more piece puts `sep` between them. */
  lemma JoinCons(a: string, ps: seq<string>, sep: string)
    requires |ps| >= 1
    ensures JoinWith([a] + ps, sep) == a + sep + JoinWith(ps, sep)
  {
    assert ([a] + ps)[1..] == ps;
  }

  /** `s` holds no character equal to the first character of `sep`, so no occurrence of `sep` starts inside it. */
  predicate Avoids(s: string, sep: string)
    requires |sep| >= 1
  {
    forall i | 0 <= i < |s| :: s[i] != sep[0]
  }

  /** A text avoiding `sep`'s first character is one piece. */
  lemma AvoidsFind(s: string, sep: string)
    requires |sep| >= 1 && Avoids(s, sep)
    ensures Find(s, sep) == None
    ensures SplitOn(s, sep) == [s]
  {
    forall i: nat ensures !OccursAt(s, sep, i) {
      if i + |sep| <= |s| {
        assert s[i..i + |sep|][0] == s[i];
      }
    }
  }

  /** `(a + sep + b).split(sep) == [a, b]` when neither side contains a character that could start `sep`. */
  lemma SplitOnPair(a: string, b: string, sep: string)
    requires |sep| >= 1 && Avoids(a, sep) && Avoids(b, sep)
    ensures SplitOn(a + sep + b, sep) == [a, b]
  {
    var s := a + sep + b;
    assert s[|a|..|a| + |sep|] == sep;
    assert OccursAt(s, sep, |a|);
    forall i: nat | i < |a| ensures !OccursAt(s, sep, i) {
    }
    assert s[..|a|] == a;
    assert s[|a| + |sep|..] == b;
    AvoidsFind(b, sep);
  }
}
