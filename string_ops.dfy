/**
  The Python `str` built-ins the recommender relies on, over `string` (= `seq<char>`):
  `lower`, `strip`, `split` with a one-character separator, `join`, and the decimal
  rendering of an `int` inside an f-string.
 */
module StringOps {
  import opened Seqs

  /** An ASCII decimal digit. */
  predicate IsDigit(c: char)
  {
    '0' <= c <= '9'
  }

  /** An ASCII upper-case letter. */
  predicate IsUpper(c: char)
  {
    'A' <= c <= 'Z'
  }

  /** `c.isspace()`: the characters `str.strip()` removes, by code point. */
  predicate IsSpace(c: char)
  {
    var n := c as int;
    (9 <= n <= 13) || (28 <= n <= 32) || n == 0x85 || n == 0xA0 || n == 0x1680
    || (0x2000 <= n <= 0x200A) || n == 0x2028 || n == 0x2029 || n == 0x202F
    || n == 0x205F || n == 0x3000
  }

  /* ---------------------------------------------------------------- lower */

  function LowerChar(c: char): char
  {
    if IsUpper(c) then (c as int - 'A' as int + 'a' as int) as char else c
  }

  /** `s.lower()` on the ASCII letters. */
  function Lower(s: string): (r: string)
    ensures |r| == |s|
    ensures forall i :: 0 <= i < |r| ==> !IsUpper(r[i])
    ensures forall i :: 0 <= i < |s| && IsUpper(s[i]) ==> r[i] as int == s[i] as int + ('a' as int - 'A' as int)
    ensures forall i :: 0 <= i < |s| && !IsUpper(s[i]) ==> r[i] == s[i]
  {
    Map(s, LowerChar)
  }

  /** Lower-casing twice is lower-casing once. */
  lemma LowerIdempotent(s: string)
    ensures Lower(Lower(s)) == Lower(s)
  {
  }

  /* ---------------------------------------------------------------- strip */

  function StripLeading(s: string): string
    decreases |s|
  {
    if s != [] && IsSpace(s[0]) then StripLeading(s[1..]) else s
  }

  function StripTrailing(s: string): string
    decreases |s|
  {
    if s != [] && IsSpace(s[|s| - 1]) then StripTrailing(s[..|s| - 1]) else s
  }

  /** `s.strip()`. */
  function Strip(s: string): string
  {
    StripTrailing(StripLeading(s))
  }

  /** `lstrip` keeps a suffix, removes only white space and leaves no leading white space. */
  lemma {:induction false} StripLeadingSpec(s: string)
    ensures var r := StripLeading(s);
      && |r| <= |s| && r == s[|s| - |r|..]
      && (forall i :: 0 <= i < |s| - |r| ==> IsSpace(s[i]))
      && (r == [] || !IsSpace(r[0]))
    decreases |s|
  {
    if s != [] && IsSpace(s[0]) {
      StripLeadingSpec(s[1..]);
      var r := StripLeading(s[1..]);
      assert s[1..][|s| - 1 - |r|..] == s[|s| - |r|..];
      forall i | 0 <= i < |s| - |r| ensures IsSpace(s[i]) {
        if i > 0 { assert s[i] == s[1..][i - 1]; }
      }
    }
  }

  /** `rstrip` keeps a prefix, removes only white space and leaves no trailing white space. */
  lemma {:induction false} StripTrailingSpec(s: string)
    ensures var r := StripTrailing(s);
      && |r| <= |s| && r == s[..|r|]
      && (forall i :: |r| <= i < |s| ==> IsSpace(s[i]))
      && (r == [] || !IsSpace(r[|r| - 1]))
    decreases |s|
  {
    if s != [] && IsSpace(s[|s| - 1]) {
      StripTrailingSpec(s[..|s| - 1]);
      var r := StripTrailing(s[..|s| - 1]);
      assert s[..|s| - 1][..|r|] == s[..|r|];
      forall i | |r| <= i < |s| ensures IsSpace(s[i]) {
        if i < |s| - 1 { assert s[i] == s[..|s| - 1][i]; }
      }
    }
  }

  /**
    `s.strip()` is empty exactly when `s` is blank (all white space); otherwise it
    neither starts nor ends with white space, and what it removed was white space.
   */
  lemma StripSpec(s: string)
    ensures Strip(s) == [] <==> forall i :: 0 <= i < |s| ==> IsSpace(s[i])
    ensures Strip(s) != [] ==> !IsSpace(Strip(s)[0]) && !IsSpace(Strip(s)[|Strip(s)| - 1])
    ensures |Strip(s)| <= |s|
    ensures var a := |s| - |StripLeading(s)|;
      && 0 <= a && a + |Strip(s)| <= |s| && Strip(s) == s[a..a + |Strip(s)|]
      && (forall i :: 0 <= i < a ==> IsSpace(s[i]))
      && (forall i :: a + |Strip(s)| <= i < |s| ==> IsSpace(s[i]))
  {
    StripLeadingSpec(s);
    var t := StripLeading(s);
    StripTrailingSpec(t);
    var r := StripTrailing(t);
    if r != [] {
      assert r[0] == t[0];
    }
    var a := |s| - |t|;
    assert r == s[a..a + |r|];
    forall i | a + |r| <= i < |s| ensures IsSpace(s[i]) {
      assert s[i] == t[i - a];
    }
  }

  /* ---------------------------------------------------------------- split / join */

  /**
    `s.split(sep)` for a one-character separator: the pieces between separators,
    including empty ones; `"".split(sep) == [""]`.
   */
  function Split(s: string, sep: char): (pieces: seq<string>)
    ensures |pieces| > 0
    decreases |s|
  {
    if s == [] then [""] else Prepend(s[0], Split(s[1..], sep), sep)
  }

  /** The pieces of `[c] + t`, given the pieces of `t`: a separator opens a new empty piece. */
  function Prepend(c: char, pieces: seq<string>, sep: char): (r: seq<string>)
    requires |pieces| > 0
    ensures |r| > 0
  {
    if c == sep then [""] + pieces else [[c] + pieces[0]] + pieces[1..]
  }

  lemma SplitCons(c: char, t: string, sep: char)
    ensures Split([c] + t, sep) == Prepend(c, Split(t, sep), sep)
  {
    assert ([c] + t)[1..] == t;
  }

  /** There is one more piece than there are separators, and no piece holds a separator. */
  lemma {:induction false} SplitSpec(s: string, sep: char)
    ensures |Split(s, sep)| == multiset(s)[sep] + 1
    ensures forall i :: 0 <= i < |Split(s, sep)| ==> sep !in Split(s, sep)[i]
    decreases |s|
  {
    if s != [] {
      SplitSpec(s[1..], sep);
      assert s == [s[0]] + s[1..];
      assert multiset(s) == multiset([s[0]]) + multiset(s[1..]);
      var rest := Split(s[1..], sep);
      if s[0] != sep {
        assert Split(s, sep)[0] == [s[0]] + rest[0];
        forall i | 0 < i < |Split(s, sep)| ensures sep !in Split(s, sep)[i] {
          assert Split(s, sep)[i] == rest[i];
        }
      }
    }
  }

  /** `sep.join(parts)`. */
  function Join(parts: seq<string>, sep: string): string
  {
    if |parts| == 0 then ""
    else if |parts| == 1 then parts[0]
    else parts[0] + sep + Join(parts[1..], sep)
  }

  /** Joining the pieces of a split with the same separator gives back the string. */
  lemma {:induction false} JoinSplit(s: string, sep: char)
    ensures Join(Split(s, sep), [sep]) == s
    decreases |s|
  {
    if s != [] {
      JoinSplit(s[1..], sep);
      var rest := Split(s[1..], sep);
      var pieces := Split(s, sep);
      if s[0] == sep {
        assert pieces[1..] == rest;
      } else if |rest| > 1 {
        assert pieces[1..] == rest[1..];
        assert Join(rest, [sep]) == rest[0] + [sep] + Join(rest[1..], [sep]);
      }
    }
  }

  lemma PrependAppend(c: char, front: seq<string>, back: seq<string>, sep: char)
    requires |front| > 0
    ensures Prepend(c, front + back, sep) == Prepend(c, front, sep) + back
  {
    if c != sep {
      assert (front + back)[0] == front[0];
      assert (front + back)[1..] == front[1..] + back;
    }
  }

  /** Splitting around one separator splits each side. */
  lemma {:induction false} SplitAround(a: string, b: string, sep: char)
    ensures Split(a + [sep] + b, sep) == Split(a, sep) + Split(b, sep)
    decreases |a|
  {
    if a == [] {
      assert a + [sep] + b == [sep] + b;
      SplitCons(sep, b, sep);
    } else {
      SplitAround(a[1..], b, sep);
      assert a == [a[0]] + a[1..];
      assert a + [sep] + b == [a[0]] + (a[1..] + [sep] + b);
      SplitCons(a[0], a[1..] + [sep] + b, sep);
      SplitCons(a[0], a[1..], sep);
      PrependAppend(a[0], Split(a[1..], sep), Split(b, sep), sep);
    }
  }

  /** A string without the separator is a single piece. */
  lemma {:induction false} SplitWithoutSeparator(s: string, sep: char)
    requires sep !in s
    ensures Split(s, sep) == [s]
    decreases |s|
  {
    if s != [] {
      assert sep !in s[1..];
      SplitWithoutSeparator(s[1..], sep);
      assert s == [s[0]] + s[1..];
    }
  }

  /** Two separator-free strings around one separator are the two pieces. */
  lemma SplitPair(a: string, b: string, sep: char)
    requires sep !in a && sep !in b
    ensures Split(a + [sep] + b, sep) == [a, b]
  {
    SplitAround(a, b, sep);
    SplitWithoutSeparator(a, sep);
    SplitWithoutSeparator(b, sep);
  }

  /** Splitting a join of separator-free parts gives back the parts. */
  lemma {:induction false} SplitJoin(parts: seq<string>, sep: char)
    requires |parts| > 0
    requires forall i :: 0 <= i < |parts| ==> sep !in parts[i]
    ensures Split(Join(parts, [sep]), sep) == parts
  {
    SplitWithoutSeparator(parts[0], sep);
    if |parts| > 1 {
      SplitJoin(parts[1..], sep);
      SplitAround(parts[0], Join(parts[1..], [sep]), sep);
      assert parts == [parts[0]] + parts[1..];
    }
  }

  /** Joining two non-empty lists puts one separator between their joins. */
  lemma {:induction false} JoinAppend(a: seq<string>, b: seq<string>, sep: string)
    requires a != [] && b != []
    ensures Join(a + b, sep) == Join(a, sep) + sep + Join(b, sep)
    decreases |a|
  {
    assert (a + b)[0] == a[0];
    assert (a + b)[1..] == a[1..] + b;
    if |a| > 1 {
      JoinAppend(a[1..], b, sep);
    }
  }

  /** The lines of a `'\n'.join` of lines without newlines; an empty join reads as one empty line. */
  function JoinedLines(parts: seq<string>): seq<string>
  {
    if parts == [] then [""] else parts
  }

  /* ---------------------------------------------------------------- integers */

  function DigitChar(d: nat): (c: char)
    requires d < 10
    ensures IsDigit(c) && c as int - '0' as int == d
  {
    ('0' as int + d) as char
  }

  /** `f"{n}"` for a non-negative `int`: its decimal digits, most significant first. */
  function NatToString(n: nat): (r: string)
    ensures |r| > 0
    ensures forall i :: 0 <= i < |r| ==> IsDigit(r[i])
    decreases n
  {
    if n < 10 then [DigitChar(n)] else NatToString(n / 10) + [DigitChar(n % 10)]
  }

  /** `int(s)` for a string of decimal digits. */
  function DigitsValue(s: string): nat
    requires forall i :: 0 <= i < |s| ==> IsDigit(s[i])
  {
    if s == [] then 0
    else
      assert IsDigit(s[|s| - 1]);
      DigitsValue(s[..|s| - 1]) * 10 + (s[|s| - 1] as int - '0' as int)
  }

  /** The decimal rendering reads back as the same number and has no leading zero. */
  lemma {:induction false} NatToStringRoundTrip(n: nat)
    ensures DigitsValue(NatToString(n)) == n
    ensures NatToString(n)[0] == '0' ==> n == 0
    decreases n
  {
    if n >= 10 {
      NatToStringRoundTrip(n / 10);
      var s := NatToString(n);
      assert s[..|s| - 1] == NatToString(n / 10);
      assert s[0] == NatToString(n / 10)[0];
    }
  }
}
