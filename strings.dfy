/** The Python string operations the grading script relies on: `str.strip()`,
    `str.split(',')`, `','.join(...)`, `str.startswith(...)` and
    `str.isdigit()`, on strings as sequences of characters. */
module Strings {

  /** Characters `str.strip()` removes: those of `str.isspace()` in the
      Latin-1 range (tab, newline, vertical tab, form feed, carriage return,
      the four separator controls 0x1C..0x1F, space, NEL and NBSP). */
  predicate IsSpace(c: char) {
    c == ' ' || ('\t' <= c <= '\r') || ('\U{1C}' <= c <= '\U{1F}') || c == '\U{85}' || c == '\U{A0}'
  }

  predicate AllSpace(s: string) {
    forall i :: 0 <= i < |s| ==> IsSpace(s[i])
  }

  /** `c.isdigit()` restricted to the ASCII digits. */
  predicate IsDigit(c: char) {
    '0' <= c <= '9'
  }

  /** `s.isdigit()`: false on the empty string, true when every character is a digit. */
  predicate IsDigits(s: string) {
    |s| > 0 && forall i :: 0 <= i < |s| ==> IsDigit(s[i])
  }

  /** `s.startswith(p)`. */
  predicate StartsWith(s: string, p: string) {
    |p| <= |s| && s[..|p|] == p
  }

  /** Leading whitespace removed. */
  function StripLeft(s: string): (r: string)
    ensures |r| <= |s|
    ensures r == s[|s| - |r|..]
    ensures r == [] || !IsSpace(r[0])
  {
    if |s| > 0 && IsSpace(s[0]) then StripLeft(s[1..]) else s
  }

  /** Trailing whitespace removed. */
  function StripRight(s: string): (r: string)
    ensures |r| <= |s|
    ensures r == s[..|r|]
    ensures r == [] || !IsSpace(r[|r| - 1])
  {
    if |s| > 0 && IsSpace(s[|s| - 1]) then StripRight(s[..|s| - 1]) else s
  }

  /** `s.strip()`: the middle of `s` between whitespace runs at both ends. */
  function Strip(s: string): (r: string)
    ensures r == [] || (!IsSpace(r[0]) && !IsSpace(r[|r| - 1]))
  {
    StripRight(StripLeft(s))
  }

  lemma {:induction false} StripLeftPadded(a: string, s: string)
    requires AllSpace(a)
    ensures StripLeft(a + s) == StripLeft(s)
  {
    if a != [] {
      var t := a + s;
      assert t[0] == a[0] && IsSpace(a[0]);
      assert StripLeft(t) == StripLeft(t[1..]);
      assert t[1..] == a[1..] + s;
      StripLeftPadded(a[1..], s);
    } else {
      assert a + s == s;
    }
  }

  lemma {:induction false} StripRightPadded(s: string, b: string)
    requires AllSpace(b)
    ensures StripRight(s + b) == StripRight(s)
  {
    if b != [] {
      var t := s + b;
      assert t[|t| - 1] == b[|b| - 1] && IsSpace(b[|b| - 1]);
      assert StripRight(t) == StripRight(t[..|t| - 1]);
      assert t[..|t| - 1] == s + b[..|b| - 1];
      StripRightPadded(s, b[..|b| - 1]);
    } else {
      assert s + b == s;
    }
  }

  /** Stripping from the left stops at the first non-space character, so
      whatever follows that character is kept. */
  lemma {:induction false} StripLeftAppend(t: string, b: string)
    requires !AllSpace(t)
    ensures StripLeft(t + b) == StripLeft(t) + b
  {
    assert t != [];
    if IsSpace(t[0]) {
      assert (t + b)[1..] == t[1..] + b;
      StripLeftAppend(t[1..], b);
    }
  }

  lemma {:induction false} StripLeftAllSpace(s: string)
    requires AllSpace(s)
    ensures StripLeft(s) == []
  {
    if s != [] {
      StripLeftAllSpace(s[1..]);
    }
  }

  /** Whitespace added at either end of a line never changes `strip()`. */
  lemma StripPadded(a: string, s: string, b: string)
    requires AllSpace(a) && AllSpace(b)
    ensures Strip(a + s + b) == Strip(s)
  {
    assert a + s + b == a + (s + b);
    StripLeftPadded(a, s + b);
    if AllSpace(s) {
      assert AllSpace(s + b);
      StripLeftAllSpace(s + b);
      StripLeftAllSpace(s);
    } else {
      StripLeftAppend(s, b);
      StripRightPadded(StripLeft(s), b);
    }
  }

  /** A string with no whitespace at its ends is left as it is by `strip()`. */
  lemma StripNoop(s: string)
    requires s == [] || (!IsSpace(s[0]) && !IsSpace(s[|s| - 1]))
    ensures Strip(s) == s
  {
  }

  /** Number of occurrences of `c` in `s`. */
  function Occurrences(s: string, c: char): nat {
    if s == [] then 0 else (if s[0] == c then 1 else 0) + Occurrences(s[1..], c)
  }

  /** `s.split(',')`: the fields between commas, always at least one
      (`''.split(',') == ['']`), one more than there are commas, and none
      containing a comma. */
  function Split(s: string): (r: seq<string>)
    ensures |r| == Occurrences(s, ',') + 1
    ensures forall i :: 0 <= i < |r| ==> ',' !in r[i]
  {
    if s == [] then [""]
    else
      var rest := Split(s[1..]);
      if s[0] == ',' then [""] + rest
      else [[s[0]] + rest[0]] + rest[1..]
  }

  /** `','.join(parts)`. */
  function Join(parts: seq<string>): string {
    if parts == [] then ""
    else if |parts| == 1 then parts[0]
    else parts[0] + "," + Join(parts[1..])
  }

  /** Joining the fields of a split gives back the string. */
  lemma {:induction false} JoinSplit(s: string)
    ensures Join(Split(s)) == s
  {
    if s != [] {
      var rest := Split(s[1..]);
      JoinSplit(s[1..]);
      if s[0] == ',' {
        assert Split(s)[1..] == rest;
      } else if |rest| > 1 {
        assert Split(s)[1..] == rest[1..];
        assert Join(rest) == rest[0] + "," + Join(rest[1..]);
      }
    }
  }

  lemma {:induction false} SplitNoComma(x: string)
    requires ',' !in x
    ensures Split(x) == [x]
  {
    if x != [] {
      assert x[0] != ',' && ',' !in x[1..];
      SplitNoComma(x[1..]);
      assert [x[0]] + x[1..] == x;
    }
  }

  /** A comma-free prefix followed by a comma becomes the first field. */
  lemma {:induction false} SplitConcat(x: string, y: string)
    requires ',' !in x
    ensures Split(x + "," + y) == [x] + Split(y)
  {
    if x == [] {
      assert (x + "," + y)[1..] == y;
    } else {
      assert (x + "," + y)[1..] == x[1..] + "," + y;
      assert ',' !in x[1..];
      SplitConcat(x[1..], y);
      assert [x[0]] + x[1..] == x;
    }
  }

  /** Splitting comma-free fields after joining them gives back the fields. */
  lemma {:induction false} SplitJoin(parts: seq<string>)
    requires |parts| >= 1
    requires forall i :: 0 <= i < |parts| ==> ',' !in parts[i]
    ensures Split(Join(parts)) == parts
  {
    if |parts| == 1 {
      SplitNoComma(parts[0]);
    } else {
      SplitJoin(parts[1..]);
      SplitConcat(parts[0], Join(parts[1..]));
    }
  }

  /** Position of the first `c` in `s`. */
  function IndexOf(s: string, c: char): (r: nat)
    requires c in s
    ensures r < |s| && s[r] == c && c !in s[..r]
  {
    if s[0] == c then 0
    else
      assert c in s[1..];
      1 + IndexOf(s[1..], c)
  }

  /** The first field of a split is everything before the first comma, and the
      remaining fields are the split of everything after it. */
  lemma SplitAtFirstComma(s: string)
    requires ',' in s
    ensures Split(s) == [s[..IndexOf(s, ',')]] + Split(s[IndexOf(s, ',') + 1..])
  {
    var i := IndexOf(s, ',');
    assert s == s[..i] + "," + s[i + 1..];
    SplitConcat(s[..i], s[i + 1..]);
  }
}
