/**
  The string operations the core relies on: `str.lower()` (ASCII letters
  only), `str.strip()`, `str.split(',')` and `','.join(...)`.
 */
module Text {

  predicate IsUpperAscii(c: char) {
    'A' <= c <= 'Z'
  }

  function LowerChar(c: char): (r: char)
    ensures !IsUpperAscii(r)
    ensures IsUpperAscii(c) ==> r as int == c as int + 32
    ensures !IsUpperAscii(c) ==> r == c
  {
    if IsUpperAscii(c) then (c as int + 32) as char else c
  }

  /** Lower-case every ASCII capital; every other character is kept. */
  function Lower(s: string): (r: string)
    ensures |r| == |s|
    ensures forall i :: 0 <= i < |s| ==> r[i] == LowerChar(s[i])
  {
    seq(|s|, i requires 0 <= i < |s| => LowerChar(s[i]))
  }

  lemma LowerIsIdempotent(s: string)
    ensures Lower(Lower(s)) == Lower(s)
  {
  }

  /** The characters for which Python's `str.isspace()` holds. */
  predicate IsSpace(c: char) {
    var n := c as int;
    || 0x09 <= n <= 0x0D || 0x1C <= n <= 0x20
    || n == 0x85 || n == 0xA0 || n == 0x1680
    || 0x2000 <= n <= 0x200A || n == 0x2028 || n == 0x2029
    || n == 0x202F || n == 0x205F || n == 0x3000
  }

  /** Neither end of `s` is whitespace. */
  predicate IsStripped(s: string) {
    s == [] || (!IsSpace(s[0]) && !IsSpace(s[|s| - 1]))
  }

  /** `s` with its leading whitespace removed. */
  function StripStart(s: string): (r: string)
    ensures |r| <= |s|
  {
    if s != [] && IsSpace(s[0]) then StripStart(s[1..]) else s
  }

  /** `s` with its trailing whitespace removed. */
  function StripEnd(s: string): (r: string)
    ensures |r| <= |s|
  {
    if s != [] && IsSpace(s[|s| - 1]) then StripEnd(s[..|s| - 1]) else s
  }

  lemma {:induction false} StripStartSpec(s: string)
    ensures var r := StripStart(s);
      && (forall i :: 0 <= i < |r| ==> r[i] == s[|s| - |r| + i])
      && (forall i :: 0 <= i < |s| - |r| ==> IsSpace(s[i]))
      && (r == [] || !IsSpace(r[0]))
  {
    if s != [] && IsSpace(s[0]) {
      StripStartSpec(s[1..]);
    }
  }

  lemma {:induction false} StripEndSpec(s: string)
    ensures var r := StripEnd(s);
      && (forall i :: 0 <= i < |r| ==> r[i] == s[i])
      && (forall i :: |r| <= i < |s| ==> IsSpace(s[i]))
      && (r == [] || !IsSpace(r[|r| - 1]))
  {
    if s != [] && IsSpace(s[|s| - 1]) {
      StripEndSpec(s[..|s| - 1]);
    }
  }

  /** `s` is `r` with whitespace, and only whitespace, around it; `r` starts at `start`. */
  predicate StripsTo(s: string, r: string, start: int) {
    && 0 <= start && start + |r| <= |s|
    && (forall i :: 0 <= i < |r| ==> r[i] == s[start + i])
    && (forall i :: 0 <= i < start ==> IsSpace(s[i]))
    && (forall i :: start + |r| <= i < |s| ==> IsSpace(s[i]))
  }

  /** `str.strip()` with no argument. */
  function Strip(s: string): string {
    StripEnd(StripStart(s))
  }

  /** Strip leaves no whitespace at either end and removes whitespace, and only whitespace, from the two ends. */
  lemma StripSpec(s: string)
    ensures IsStripped(Strip(s))
    ensures StripsTo(s, Strip(s), |s| - |StripStart(s)|)
  {
    StripIsStripped(s);
    StripRemovesOnlySpace(s);
  }

  lemma StripIsStripped(s: string)
    ensures IsStripped(Strip(s))
  {
    var t := StripStart(s);
    var r := StripEnd(t);
    StripStartSpec(s);
    StripEndSpec(t);
    if r != [] {
      assert r[0] == t[0];
    }
  }

  lemma StripRemovesOnlySpace(s: string)
    ensures StripsTo(s, Strip(s), |s| - |StripStart(s)|)
  {
    StripStartSpec(s);
    StripEndSpec(StripStart(s));
  }

  /** `s.split(sep)`: the pieces between separators, always at least one. */
  function Split(s: string, sep: char): (r: seq<string>)
    ensures |r| >= 1
    ensures forall i :: 0 <= i < |r| ==> sep !in r[i]
  {
    if s == [] then [""]
    else
      var rest := Split(s[1..], sep);
      if s[0] == sep then [""] + rest
      else [[s[0]] + rest[0]] + rest[1..]
  }

  /** `sep.join(xs)`. */
  function Join(xs: seq<string>, sep: char): (r: string)
    ensures |xs| == 1 ==> r == xs[0]
    ensures forall i :: 0 <= i < |xs| ==> |xs[i]| <= |r|
  {
    if xs == [] then ""
    else if |xs| == 1 then xs[0]
    else xs[0] + [sep] + Join(xs[1..], sep)
  }

  /** Joining the pieces of a split gives back the string. */
  lemma {:induction false} JoinSplit(s: string, sep: char)
    ensures Join(Split(s, sep), sep) == s
  {
    if s != [] {
      var rest := Split(s[1..], sep);
      JoinSplit(s[1..], sep);
      if s[0] == sep {
        assert ([""] + rest)[1..] == rest;
      } else {
        var xs := [[s[0]] + rest[0]] + rest[1..];
        if |rest| == 1 {
        } else {
          assert xs[1..] == rest[1..];
          assert Join(rest, sep) == rest[0] + [sep] + Join(rest[1..], sep);
        }
      }
    }
  }

  lemma {:induction false} SplitOfPlainString(a: string, sep: char)
    requires sep !in a
    ensures Split(a, sep) == [a]
  {
    if a != [] {
      SplitOfPlainString(a[1..], sep);
      assert a[0] != sep;
      assert [a[0]] + a[1..] == a;
    }
  }

  lemma {:induction false} SplitAtSeparator(a: string, b: string, sep: char)
    requires sep !in a
    ensures Split(a + [sep] + b, sep) == [a] + Split(b, sep)
  {
    if a == [] {
      assert ([sep] + b)[1..] == b;
    } else {
      assert (a + [sep] + b)[1..] == a[1..] + [sep] + b;
      SplitAtSeparator(a[1..], b, sep);
      assert [a[0]] + a[1..] == a;
    }
  }

  /** Splitting a join of separator-free pieces gives back the pieces. */
  lemma {:induction false} SplitJoin(xs: seq<string>, sep: char)
    requires |xs| >= 1
    requires forall i :: 0 <= i < |xs| ==> sep !in xs[i]
    ensures Split(Join(xs, sep), sep) == xs
  {
    if |xs| == 1 {
      SplitOfPlainString(xs[0], sep);
    } else {
      SplitJoin(xs[1..], sep);
      SplitAtSeparator(xs[0], Join(xs[1..], sep), sep);
    }
  }
}
