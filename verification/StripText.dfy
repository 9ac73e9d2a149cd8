/** Python's `str.strip`. */
module StripText {

  /** Python's `str.isspace` for one character. */
  predicate Space(c: char) {
    var n := c as int;
    9 <= n <= 13 || 28 <= n <= 32 || n == 0x85 || n == 0xA0 || n == 0x1680 || 0x2000 <= n <= 0x200A
    || n == 0x2028 || n == 0x2029 || n == 0x202F || n == 0x205F || n == 0x3000
  }

  /** Among the first 128 characters: tab to carriage return, the four separators, and the blank. */
  lemma SpacesExactly(c: char)
    requires c as int < 128
    ensures Space(c) <==> c as int in {9, 10, 11, 12, 13, 28, 29, 30, 31, 32}
  {}

  function LStrip(s: string): string {
    if s != "" && Space(s[0]) then LStrip(s[1..]) else s
  }

  function RStrip(s: string): string {
    if s != "" && Space(s[|s| - 1]) then RStrip(s[..|s| - 1]) else s
  }

  function Strip(s: string): string {
    RStrip(LStrip(s))
  }

  lemma StripLine(body: string)
    requires body != "" && !Space(body[0]) && !Space(body[|body| - 1])
    ensures Strip(body + "\n") == body
  {
    var line := body + "\n";
    assert line[..|line| - 1] == body;
    assert RStrip(body) == body;
  }

  lemma {:induction false} RStripIsPrefix(s: string)
    ensures RStrip(s) <= s
  {
    if s != "" && Space(s[|s| - 1]) { RStripIsPrefix(s[..|s| - 1]); }
  }

  lemma {:induction false} LStripBefore(x: string, y: string)
    ensures LStrip(x) != "" ==> LStrip(x + y) == LStrip(x) + y
    ensures LStrip(x) == "" ==> LStrip(x + y) == LStrip(y)
  {
    if x == "" {
      assert x + y == y;
    } else {
      assert (x + y)[0] == x[0] && (x + y)[1..] == x[1..] + y;
      if Space(x[0]) { LStripBefore(x[1..], y); }
    }
  }

  /** A line feed more does not change a stripped line. */
  lemma StripIgnoresLineFeed(x: string)
    ensures Strip(x + "\n") == Strip(x)
  {
    LStripBefore(x, "\n");
    var s := LStrip(x);
    if s == "" {
      assert LStrip("\n") == "" by { assert "\n"[1..] == ""; }
    } else {
      assert (s + "\n")[..|s|] == s;
    }
  }

  /** A written line behind a non-blank fragment: nothing is stripped between the two. */
  lemma StripGlued(x: string, l: string)
    requires Strip(x) != "" && |l| >= 2 && l[|l| - 1] == '\n' && !Space(l[|l| - 2])
    ensures Strip(x) <= LStrip(x) <= Strip(x + l)
  {
    var s, body := LStrip(x), l[..|l| - 1];
    LStripBefore(x, l);
    RStripIsPrefix(s);
    assert (s + l)[..|s + l| - 1] == s + body;
    assert RStrip(s + body) == s + body;
    assert Strip(x + l) == s + body;
  }

  predicate Blank(s: string) {
    forall i :: 0 <= i < |s| ==> Space(s[i])
  }

  /** `r` is `s` without white space at its ends, found between `i` and `j`. */
  predicate StrippedAt(r: string, s: string, i: nat, j: nat) {
    && i <= j <= |s| && r == s[i..j] && Blank(s[..i]) && Blank(s[j..])
    && (r == "" || (!Space(r[0]) && !Space(r[|r| - 1])))
  }

  lemma {:induction false} LStripAt(s: string) returns (i: nat)
    ensures i <= |s| && LStrip(s) == s[i..] && Blank(s[..i]) && (i < |s| ==> !Space(s[i]))
  {
    if s != "" && Space(s[0]) {
      var k := LStripAt(s[1..]);
      i := k + 1;
      assert s[..i] == [s[0]] + s[1..][..k];
    } else {
      i := 0;
    }
  }

  lemma {:induction false} RStripAt(s: string) returns (j: nat)
    ensures j <= |s| && RStrip(s) == s[..j] && Blank(s[j..]) && (j > 0 ==> !Space(s[j - 1]))
  {
    if s != "" && Space(s[|s| - 1]) {
      var n := |s| - 1;
      j := RStripAt(s[..n]);
      assert s[j..] == s[..n][j..] + [s[n]] && s[..n][..j] == s[..j];
    } else {
      j := |s|;
    }
  }

  /** Stripping takes away white space at both ends, all of it and nothing else. */
  lemma StripExactly(s: string) returns (i: nat, j: nat)
    ensures StrippedAt(Strip(s), s, i, j)
  {
    i := LStripAt(s);
    var k := RStripAt(s[i..]);
    j := i + k;
    assert s[i..][..k] == s[i..j] && s[i..][k..] == s[j..];
  }
}
