/**
 * The string handling the installer relies on: Java's `String.split` with a
 * one-character delimiter, `BufferedReader.readLine` line splitting, and the
 * decimal rendering of an index (`"external-" + i`).
 */
module Text {

  /** The pieces of `s` between occurrences of `d`, empty pieces included:
      on '/', "a//b" gives ["a", "", "b"] and "" gives [""]. */
  function SplitOn(s: string, d: char): (r: seq<string>)
    ensures |r| >= 1
    ensures forall i :: 0 <= i < |r| ==> d !in r[i]
  {
    if s == [] then [[]]
    else
      var rest := SplitOn(s[1..], d);
      if s[0] == d then [[]] + rest else [[s[0]] + rest[0]] + rest[1..]
  }

  /** The pieces joined back with `d` between them. */
  function Join(parts: seq<string>, d: char): string
  {
    if parts == [] then []
    else if |parts| == 1 then parts[0]
    else parts[0] + [d] + Join(parts[1..], d)
  }

  lemma {:induction false} SplitOnAppend(x: string, d: char, y: string)
    ensures SplitOn(x + [d] + y, d) == SplitOn(x, d) + SplitOn(y, d)
  {
    if x == [] {
      assert x + [d] + y == [d] + y;
      assert ([d] + y)[1..] == y;
    } else {
      assert (x + [d] + y)[0] == x[0];
      assert (x + [d] + y)[1..] == x[1..] + [d] + y;
      SplitOnAppend(x[1..], d, y);
    }
  }

  lemma {:induction false} SplitOnPlain(x: string, d: char)
    requires d !in x
    ensures SplitOn(x, d) == [x]
  {
    if x != [] {
      SplitOnPlain(x[1..], d);
      assert [x[0]] + x[1..] == x;
    }
  }

  /** Splitting undoes joining: the pieces come back exactly. */
  lemma {:induction false} SplitJoin(parts: seq<string>, d: char)
    requires |parts| >= 1
    requires forall i :: 0 <= i < |parts| ==> d !in parts[i]
    ensures SplitOn(Join(parts, d), d) == parts
  {
    if |parts| == 1 {
      SplitOnPlain(parts[0], d);
    } else {
      SplitOnAppend(parts[0], d, Join(parts[1..], d));
      SplitOnPlain(parts[0], d);
      SplitJoin(parts[1..], d);
      assert [parts[0]] + parts[1..] == parts;
    }
  }

  /** Joining undoes splitting: the string comes back exactly. */
  lemma {:induction false} JoinSplit(s: string, d: char)
    ensures Join(SplitOn(s, d), d) == s
  {
    if s != [] {
      var rest := SplitOn(s[1..], d);
      JoinSplit(s[1..], d);
      if s[0] == d {
        assert SplitOn(s, d) == [[]] + rest;
        assert ([[]] + rest)[1..] == rest;
        assert [d] + s[1..] == s;
      } else {
        var r := SplitOn(s, d);
        assert r == [[s[0]] + rest[0]] + rest[1..];
        if |rest| == 1 {
          assert Join(r, d) == [s[0]] + rest[0];
        } else {
          assert r[1..] == rest[1..];
          assert Join(rest, d) == rest[0] + [d] + Join(rest[1..], d);
        }
        assert [s[0]] + s[1..] == s;
      }
    }
  }

  /** `ps` without its trailing empty strings. */
  function DropTrailingEmpty(ps: seq<string>): (r: seq<string>)
    ensures r <= ps
    ensures r == [] || r[|r| - 1] != []
    ensures forall i :: |r| <= i < |ps| ==> ps[i] == []
  {
    if ps == [] then []
    else if ps[|ps| - 1] == [] then DropTrailingEmpty(ps[..|ps| - 1])
    else ps
  }

  /** Java's `s.split(String.valueOf(d))` (limit 0): a string without `d`
      comes back whole (so "" gives [""]); otherwise the pieces with every
      trailing empty piece removed, while a leading empty piece is kept. */
  function JavaSplit(s: string, d: char): (r: seq<string>)
    ensures forall i :: 0 <= i < |r| ==> d !in r[i]
    ensures d !in s ==> r == [s]
    ensures d in s ==> r == [] || r[|r| - 1] != []
  {
    if d !in s then [s] else DropTrailingEmpty(SplitOn(s, d))
  }

  /** A run of `k` copies of `c`. */
  function Repeat(c: char, k: nat): (r: string)
    ensures |r| == k && forall i :: 0 <= i < k ==> r[i] == c
  {
    if k == 0 then [] else [c] + Repeat(c, k - 1)
  }

  /** The length of the first line of `text`: the index of its first '\n' or
      '\r', or the whole length if it has none. */
  function LineLength(text: string): (n: nat)
    ensures n <= |text|
    ensures forall i :: 0 <= i < n ==> text[i] != '\n' && text[i] != '\r'
    ensures n < |text| ==> text[n] == '\n' || text[n] == '\r'
  {
    if text == [] || text[0] == '\n' || text[0] == '\r' then 0
    else 1 + LineLength(text[1..])
  }

  /** What follows the first line and its terminator ("\n", "\r" or "\r\n"). */
  function AfterLine(text: string): (rest: string)
    ensures |rest| < |text| || (text == [] && rest == [])
  {
    var n := LineLength(text);
    if n == |text| then []
    else if text[n] == '\r' && n + 1 < |text| && text[n + 1] == '\n' then text[n + 2..]
    else text[n + 1..]
  }

  /** The lines `BufferedReader.readLine` returns until it returns null: a line
      ends at '\n', '\r' or "\r\n"; a last line without terminator is still a
      line; a terminator at the very end starts no further line. */
  function ReadLines(text: string): (lines: seq<string>)
    ensures forall i :: 0 <= i < |lines| ==> '\n' !in lines[i] && '\r' !in lines[i]
    decreases |text|
  {
    if text == [] then []
    else [text[..LineLength(text)]] + ReadLines(AfterLine(text))
  }

  /** Each line followed by '\n', the way a text file is written out. */
  function Terminated(lines: seq<string>): string
  {
    if lines == [] then [] else lines[0] + "\n" + Terminated(lines[1..])
  }

  /** A line ends at the first terminator character that follows it. */
  lemma {:induction false} LineLengthOf(line: string, rest: string)
    requires '\n' !in line && '\r' !in line
    requires rest != [] && (rest[0] == '\n' || rest[0] == '\r')
    ensures LineLength(line + rest) == |line|
  {
    if line != [] {
      assert (line + rest)[1..] == line[1..] + rest;
      LineLengthOf(line[1..], rest);
    }
  }

  /** `readLine` splits at "\n", at "\r\n" and at a lone "\r": the first line
      is the text before the terminator, and reading goes on after it. */
  lemma ReadLinesSplit(line: string, terminator: string, rest: string)
    requires '\n' !in line && '\r' !in line
    requires terminator == "\n" || terminator == "\r\n" || (terminator == "\r" && (rest == [] || rest[0] != '\n'))
    ensures ReadLines(line + terminator + rest) == [line] + ReadLines(rest)
  {
    var text := line + terminator + rest;
    LineLengthOf(line, terminator + rest);
    assert text == line + (terminator + rest);
    assert text[..|line|] == line;
    assert text[|line| + |terminator|..] == rest;
  }

  /** Reading the lines back from a '\n'-terminated text gives the lines written. */
  lemma {:induction false} ReadLinesTerminated(lines: seq<string>)
    requires forall i :: 0 <= i < |lines| ==> '\n' !in lines[i] && '\r' !in lines[i]
    ensures ReadLines(Terminated(lines)) == lines
  {
    if lines != [] {
      var text := Terminated(lines);
      var line := lines[0];
      LineLengthOf(line, "\n" + Terminated(lines[1..]));
      assert text == line + ("\n" + Terminated(lines[1..]));
      assert text[..|line|] == line;
      assert text[|line|] == '\n';
      assert AfterLine(text) == Terminated(lines[1..]);
      ReadLinesTerminated(lines[1..]);
      assert [lines[0]] + lines[1..] == lines;
    }
  }

  function Digit(n: nat): (c: char)
    requires n < 10
    ensures '0' <= c <= '9'
  {
    ('0' as int + n) as char
  }

  /** `String.valueOf(n)` for a non-negative `n`: its decimal digits, no leading zero. */
  function Decimal(n: nat): (s: string)
    ensures 1 <= |s|
    ensures n >= 10 ==> |s| >= 2
    ensures forall i :: 0 <= i < |s| ==> '0' <= s[i] <= '9'
  {
    if n < 10 then [Digit(n)] else Decimal(n / 10) + [Digit(n % 10)]
  }

  /** Distinct numbers have distinct decimal renderings. */
  lemma {:induction false} DecimalInjective(a: nat, b: nat)
    requires Decimal(a) == Decimal(b)
    ensures a == b
  {
    var sa, sb := Decimal(a), Decimal(b);
    if a < 10 && b < 10 {
      assert sa[0] == Digit(a) && sb[0] == Digit(b);
    } else if a >= 10 && b >= 10 {
      assert sa[..|sa| - 1] == Decimal(a / 10);
      assert sb[..|sb| - 1] == Decimal(b / 10);
      DecimalInjective(a / 10, b / 10);
      assert sa[|sa| - 1] == Digit(a % 10);
      assert sb[|sb| - 1] == Digit(b % 10);
    }
  }
}
