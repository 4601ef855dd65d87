/** The string operations of the core: Python's `str.strip()`, splitting and
    joining on line feeds, and reading hexadecimal or decimal digit strings. */
module Text {

  /** Python's `str.isspace()` for one character. */
  predicate IsSpace(c: char)
  {
    var u := c as int;
    (0x09 <= u <= 0x0d) || (0x1c <= u <= 0x20) || u == 0x85 || u == 0xa0
    || u == 0x1680 || (0x2000 <= u <= 0x200a) || u == 0x2028 || u == 0x2029
    || u == 0x202f || u == 0x205f || u == 0x3000
  }

  predicate AllSpace(s: string)
  {
    forall k :: 0 <= k < |s| ==> IsSpace(s[k])
  }

  /** Neither end of `s` is whitespace. */
  predicate Stripped(s: string)
  {
    s == [] || (!IsSpace(s[0]) && !IsSpace(s[|s| - 1]))
  }

  function TrimStart(s: string): string
  {
    if s != [] && IsSpace(s[0]) then TrimStart(s[1..]) else s
  }

  function TrimEnd(s: string): string
  {
    if s != [] && IsSpace(s[|s| - 1]) then TrimEnd(s[..|s| - 1]) else s
  }

  /** `s.strip()` */
  function Strip(s: string): string
  {
    TrimEnd(TrimStart(s))
  }

  lemma {:induction false} TrimStartBounds(s: string) returns (i: nat)
    ensures i <= |s| && TrimStart(s) == s[i..]
    ensures AllSpace(s[..i])
    ensures TrimStart(s) == [] || !IsSpace(TrimStart(s)[0])
  {
    if s != [] && IsSpace(s[0]) {
      var i' := TrimStartBounds(s[1..]);
      i := i' + 1;
      assert s[1..][i'..] == s[i..];
      assert forall k :: 1 <= k < i ==> s[..i][k] == s[1..][..i'][k - 1];
    } else {
      i := 0;
    }
  }

  lemma {:induction false} TrimEndBounds(s: string) returns (j: nat)
    ensures j <= |s| && TrimEnd(s) == s[..j]
    ensures AllSpace(s[j..])
    ensures TrimEnd(s) == [] || !IsSpace(TrimEnd(s)[|TrimEnd(s)| - 1])
  {
    if s != [] && IsSpace(s[|s| - 1]) {
      var init := s[..|s| - 1];
      j := TrimEndBounds(init);
      assert init[..j] == s[..j];
      assert forall k :: 0 <= k < |s| - 1 - j ==> s[j..][k] == init[j..][k];
    } else {
      j := |s|;
    }
  }

  /** `s.strip()` removes whitespace from both ends and nothing else: it is
      the infix `s[i..j]`, everything outside it is whitespace, and neither of
      its ends is whitespace. */
  lemma StripBounds(s: string) returns (i: nat, j: nat)
    ensures i <= j <= |s| && Strip(s) == s[i..j]
    ensures AllSpace(s[..i]) && AllSpace(s[j..])
    ensures Stripped(Strip(s))
  {
    i := TrimStartBounds(s);
    var t := s[i..];
    var j' := TrimEndBounds(t);
    j := i + j';
    assert t[..j'] == s[i..j];
    assert forall k :: 0 <= k < |s| - j ==> s[j..][k] == t[j'..][k];
    if Strip(s) != [] {
      assert Strip(s)[0] == TrimStart(s)[0];
    }
  }

  lemma {:induction false} TrimStartPadded(pre: string, rest: string)
    requires AllSpace(pre)
    requires rest == [] || !IsSpace(rest[0])
    ensures TrimStart(pre + rest) == rest
  {
    if pre != [] {
      assert (pre + rest)[1..] == pre[1..] + rest;
      TrimStartPadded(pre[1..], rest);
    }
  }

  lemma {:induction false} TrimEndPadded(rest: string, post: string)
    requires AllSpace(post)
    requires rest == [] || !IsSpace(rest[|rest| - 1])
    ensures TrimEnd(rest + post) == rest
  {
    if post != [] {
      assert (rest + post)[..|rest + post| - 1] == rest + post[..|post| - 1];
      TrimEndPadded(rest, post[..|post| - 1]);
    }
  }

  /** Surrounding whitespace of a stripped core is removed exactly. */
  lemma StripPadded(pre: string, core: string, post: string)
    requires AllSpace(pre) && AllSpace(post) && Stripped(core)
    ensures Strip(pre + core + post) == core
  {
    if core == [] {
      assert pre + core + post == pre + post;
      assert AllSpace(pre + post);
      TrimStartPadded(pre + post, []);
      assert pre + post + [] == pre + post;
    } else {
      assert pre + core + post == pre + (core + post);
      TrimStartPadded(pre, core + post);
      TrimEndPadded(core, post);
    }
  }

  /** Stripping a stripped string changes nothing. */
  lemma StripStripped(s: string)
    requires Stripped(s)
    ensures Strip(s) == s
  {
    StripPadded([], s, []);
    assert [] + s + [] == s;
  }

  // ---------------------------------------------------------------------
  // Lines

  /** `s.split("\n")`: always at least one line, none containing a line feed. */
  function Split(s: string): (r: seq<string>)
    ensures |r| >= 1
  {
    if s == [] then [[]]
    else
      var rest := Split(s[1..]);
      if s[0] == '\n' then [[]] + rest else [[s[0]] + rest[0]] + rest[1..]
  }

  /** `"\n".join(lines)` */
  function Join(lines: seq<string>): string
  {
    if |lines| == 0 then []
    else if |lines| == 1 then lines[0]
    else lines[0] + "\n" + Join(lines[1..])
  }

  predicate NoLineFeed(s: string)
  {
    forall k :: 0 <= k < |s| ==> s[k] != '\n'
  }

  function LineFeeds(s: string): nat
  {
    if s == [] then 0 else (if s[0] == '\n' then 1 else 0) + LineFeeds(s[1..])
  }

  /** Splitting yields line-feed free lines, one more than the line feeds,
      and joining them gives the string back. */
  lemma SplitJoin(s: string)
    ensures forall i :: 0 <= i < |Split(s)| ==> NoLineFeed(Split(s)[i])
    ensures |Split(s)| == LineFeeds(s) + 1
    ensures Join(Split(s)) == s
  {
    SplitLinesClean(s);
    SplitCount(s);
    SplitThenJoin(s);
  }

  lemma {:induction false} SplitLinesClean(s: string)
    ensures forall i :: 0 <= i < |Split(s)| ==> NoLineFeed(Split(s)[i])
  {
    if s != [] {
      SplitLinesClean(s[1..]);
      var rest := Split(s[1..]);
      if s[0] != '\n' {
        var first := [s[0]] + rest[0];
        assert forall k :: 1 <= k < |first| ==> first[k] == rest[0][k - 1];
      }
    }
  }

  lemma {:induction false} SplitCount(s: string)
    ensures |Split(s)| == LineFeeds(s) + 1
  {
    if s != [] {
      SplitCount(s[1..]);
    }
  }

  lemma {:induction false} SplitThenJoin(s: string)
    ensures Join(Split(s)) == s
  {
    if s != [] {
      var rest := Split(s[1..]);
      SplitThenJoin(s[1..]);
      assert s == [s[0]] + s[1..];
      if s[0] == '\n' {
        var empty: string := [];
        assert Split(s) == [empty] + rest;
        assert ([empty] + rest)[1..] == rest;
        assert s == empty + "\n" + s[1..];
      } else {
        var r := Split(s);
        assert r[0] == [s[0]] + rest[0];
        assert r[1..] == rest[1..];
        if |rest| > 1 {
          assert Join(rest) == rest[0] + "\n" + Join(rest[1..]);
        }
      }
    }
  }

  /** A line-feed free string is a single line. */
  lemma {:induction false} SplitNoLineFeed(s: string)
    requires NoLineFeed(s)
    ensures Split(s) == [s]
  {
    if s != [] {
      SplitNoLineFeed(s[1..]);
      assert [s[0]] + s[1..] == s;
    }
  }

  /** Splitting after a first line-feed free line. */
  lemma {:induction false} SplitAfterLine(a: string, b: string)
    requires NoLineFeed(a)
    ensures Split(a + "\n" + b) == [a] + Split(b)
  {
    if a == [] {
      assert a + "\n" + b == "\n" + b;
      assert ("\n" + b)[1..] == b;
    } else {
      assert (a + "\n" + b)[1..] == a[1..] + "\n" + b;
      SplitAfterLine(a[1..], b);
      assert [a[0]] + a[1..] == a;
    }
  }

  /** Joining line-feed free lines and splitting gives the lines back. */
  lemma {:induction false} JoinSplit(lines: seq<string>)
    requires |lines| >= 1
    requires forall i :: 0 <= i < |lines| ==> NoLineFeed(lines[i])
    ensures Split(Join(lines)) == lines
  {
    if |lines| == 1 {
      SplitNoLineFeed(lines[0]);
    } else {
      JoinSplit(lines[1..]);
      SplitAfterLine(lines[0], Join(lines[1..]));
      assert [lines[0]] + lines[1..] == lines;
    }
  }

  /** Joining, seen from the last line. */
  lemma {:induction false} JoinLast(lines: seq<string>)
    requires |lines| >= 2
    ensures Join(lines) == Join(lines[..|lines| - 1]) + "\n" + lines[|lines| - 1]
  {
    if |lines| > 2 {
      var init := lines[..|lines| - 1];
      JoinLast(lines[1..]);
      assert lines[1..][..|lines| - 2] == init[1..];
      assert init[0] == lines[0];
    }
  }

  /** The lines of `text.split("\n")` are line-feed free and stripped. */
  predicate CleanLines(lines: seq<string>)
  {
    forall i :: 0 <= i < |lines| ==> NoLineFeed(lines[i]) && Stripped(lines[i])
  }

  /** Removing the leading whitespace of joined clean lines drops the
      leading empty lines (keeping at least one line). */
  lemma {:induction false} TrimStartJoin(lines: seq<string>) returns (a: nat)
    requires |lines| >= 1 && CleanLines(lines)
    ensures a < |lines| && TrimStart(Join(lines)) == Join(lines[a..])
    ensures forall i :: 0 <= i < a ==> lines[i] == []
  {
    if |lines| > 1 && lines[0] == [] {
      var rest := lines[1..];
      var a' := TrimStartJoin(rest);
      a := a' + 1;
      var j := Join(lines);
      assert j == lines[0] + "\n" + Join(rest);
      assert j == "\n" + Join(rest);
      assert j[1..] == Join(rest);
      assert rest[a'..] == lines[a..];
    } else if lines[0] != [] {
      a := 0;
      var j := Join(lines);
      if |lines| > 1 {
        assert j == lines[0] + ("\n" + Join(lines[1..]));
      }
      assert j[0] == lines[0][0];
      assert lines[0..] == lines;
    } else {
      a := 0;
      assert lines[0..] == lines;
    }
  }

  /** Removing the trailing whitespace of joined clean lines drops the
      trailing empty lines (keeping at least one line). */
  lemma {:induction false} TrimEndJoin(lines: seq<string>) returns (k: nat)
    requires |lines| >= 1 && CleanLines(lines)
    ensures 1 <= k <= |lines| && TrimEnd(Join(lines)) == Join(lines[..k])
    ensures forall i :: k <= i < |lines| ==> lines[i] == []
  {
    var n := |lines|;
    if n > 1 && lines[n - 1] == [] {
      var init := lines[..n - 1];
      assert CleanLines(init) by {
        forall i | 0 <= i < |init| ensures NoLineFeed(init[i]) && Stripped(init[i]) {
          assert init[i] == lines[i];
        }
      }
      k := TrimEndJoin(init);
      JoinLast(lines);
      TrimEndLineFeed(Join(init));
      assert Join(lines) == Join(init) + "\n";
      assert init[..k] == lines[..k];
    } else if lines[n - 1] != [] {
      k := n;
      var last := lines[n - 1];
      if n > 1 {
        JoinLast(lines);
        EndsWith(Join(lines[..n - 1]) + "\n", last);
      }
      assert lines[..n] == lines;
    } else {
      k := 1;
      assert lines[..1] == lines;
    }
  }

  lemma TrimEndLineFeed(x: string)
    ensures TrimEnd(x + "\n") == TrimEnd(x)
  {
    var y := x + "\n";
    assert IsSpace(y[|y| - 1]);
    assert y[..|y| - 1] == x;
  }

  /** A string ending in a non-space character is its own TrimEnd. */
  lemma EndsWith(x: string, last: string)
    requires last != [] && !IsSpace(last[|last| - 1])
    ensures TrimEnd(x + last) == x + last
  {
    var y := x + last;
    assert y[|y| - 1] == last[|last| - 1];
  }

  /** Stripping joined clean lines keeps a contiguous run of them: only
      empty lines at either end go. */
  lemma StripJoin(lines: seq<string>) returns (a: nat, b: nat)
    requires |lines| >= 1 && CleanLines(lines)
    ensures a < b <= |lines| && Strip(Join(lines)) == Join(lines[a..b])
    ensures forall i :: 0 <= i < a ==> lines[i] == []
    ensures forall i :: b <= i < |lines| ==> lines[i] == []
  {
    a := TrimStartJoin(lines);
    var rest := lines[a..];
    assert forall i :: 0 <= i < |rest| ==> rest[i] == lines[a + i];
    var k := TrimEndJoin(rest);
    b := a + k;
    assert rest[..k] == lines[a..b];
  }

  // ---------------------------------------------------------------------
  // Digit strings

  predicate IsHexDigit(c: char)
  {
    ('0' <= c <= '9') || ('a' <= c <= 'f') || ('A' <= c <= 'F')
  }

  function HexDigitValue(c: char): (d: nat)
    requires IsHexDigit(c)
    ensures d < 16
  {
    if '0' <= c <= '9' then c as int - '0' as int
    else if 'a' <= c <= 'f' then c as int - 'a' as int + 10
    else c as int - 'A' as int + 10
  }

  predicate AllHex(s: string)
  {
    forall k :: 0 <= k < |s| ==> IsHexDigit(s[k])
  }

  /** `int(s, 16)` for a string of hex digits, of any length. */
  function HexValue(s: string): nat
    requires AllHex(s)
  {
    if s == [] then 0 else HexValue(s[..|s| - 1]) * 16 + HexDigitValue(s[|s| - 1])
  }

  function HexDigit(d: nat): (c: char)
    requires d < 16
    ensures IsHexDigit(c) && HexDigitValue(c) == d
  {
    if d < 10 then ('0' as int + d) as char else ('a' as int + d - 10) as char
  }

  /** The shortest lower-case hex spelling of n. */
  function HexDigits(n: nat): (s: string)
    ensures s != [] && AllHex(s) && Stripped(s)
  {
    if n < 16 then [HexDigit(n)] else HexDigits(n / 16) + [HexDigit(n % 16)]
  }

  /** Reading the hex spelling of n gives back n. */
  lemma {:induction false} HexRoundTrip(n: nat)
    ensures HexValue(HexDigits(n)) == n
  {
    if n >= 16 {
      HexRoundTrip(n / 16);
      var s := HexDigits(n);
      assert s[..|s| - 1] == HexDigits(n / 16);
    }
  }

  predicate IsDecimalDigit(c: char)
  {
    '0' <= c <= '9'
  }

  predicate AllDecimal(s: string)
  {
    forall k :: 0 <= k < |s| ==> IsDecimalDigit(s[k])
  }

  /** `int(s)` for a string of decimal digits. */
  function DecimalValue(s: string): nat
    requires AllDecimal(s)
  {
    if s == [] then 0 else DecimalValue(s[..|s| - 1]) * 10 + (s[|s| - 1] as int - '0' as int)
  }
}
