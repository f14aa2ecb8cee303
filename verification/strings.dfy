/**
 The two functions of Go's `strings` package that the price normaliser uses:
 `Split` with a one-character separator and `TrimSpace`. Strings are sequences
 of Unicode code points (Go's runes).
 */
module GoStrings {

  /** Go's `unicode.IsSpace`: the Latin-1 white space characters and the other
      characters with the Unicode White_Space property. */
  predicate IsSpace(c: char) {
    var n := c as int;
    || 0x09 <= n <= 0x0D
    || n == 0x20
    || n == 0x85
    || n == 0xA0
    || n == 0x1680
    || 0x2000 <= n <= 0x200A
    || n == 0x2028
    || n == 0x2029
    || n == 0x202F
    || n == 0x205F
    || n == 0x3000
  }

  /** A string with no white space at either end. */
  predicate Trimmed(s: string) {
    s == [] || (!IsSpace(s[0]) && !IsSpace(s[|s| - 1]))
  }

  /** `strings.Join(parts, string([sep]))`. */
  function Join(parts: seq<string>, sep: char): string
  {
    if |parts| == 0 then ""
    else if |parts| == 1 then parts[0]
    else parts[0] + [sep] + Join(parts[1..], sep)
  }

  /** `strings.Split(s, string([sep]))`: the pieces between the occurrences of
      `sep`; a string without `sep` (the empty string included) is one piece. */
  function Split(s: string, sep: char): (parts: seq<string>)
    ensures |parts| == multiset(s)[sep] + 1
    ensures forall i :: 0 <= i < |parts| ==> sep !in parts[i]
    ensures Join(parts, sep) == s
    decreases |s|
  {
    if |s| == 0 then [""]
    else
      var rest := Split(s[1..], sep);
      assert s == [s[0]] + s[1..];
      if s[0] == sep then
        SplitStepAtSeparator(s[1..], sep, rest);
        [""] + rest
      else
        SplitStepInPiece(s[0], s[1..], sep, rest);
        [[s[0]] + rest[0]] + rest[1..]
  }

  /** A separator in front of `t` starts a new, empty first piece. */
  lemma SplitStepAtSeparator(t: string, sep: char, rest: seq<string>)
    requires |rest| == multiset(t)[sep] + 1
    requires forall i :: 0 <= i < |rest| ==> sep !in rest[i]
    requires Join(rest, sep) == t
    ensures var parts := [""] + rest;
            && |parts| == multiset([sep] + t)[sep] + 1
            && (forall i :: 0 <= i < |parts| ==> sep !in parts[i])
            && Join(parts, sep) == [sep] + t
  {
    var parts := [""] + rest;
    assert multiset([sep] + t) == multiset{sep} + multiset(t);
    JoinCons("", rest, sep);
    assert "" + [sep] + t == [sep] + t;
    forall i | 0 <= i < |parts|
      ensures sep !in parts[i]
    {
      if i > 0 {
        assert parts[i] == rest[i - 1];
      }
    }
  }

  /** Any other character in front of `t` extends the first piece. */
  lemma SplitStepInPiece(c: char, t: string, sep: char, rest: seq<string>)
    requires c != sep
    requires |rest| == multiset(t)[sep] + 1
    requires forall i :: 0 <= i < |rest| ==> sep !in rest[i]
    requires Join(rest, sep) == t
    ensures var parts := [[c] + rest[0]] + rest[1..];
            && |parts| == multiset([c] + t)[sep] + 1
            && (forall i :: 0 <= i < |parts| ==> sep !in parts[i])
            && Join(parts, sep) == [c] + t
  {
    var parts := [[c] + rest[0]] + rest[1..];
    assert multiset([c] + t) == multiset{c} + multiset(t);
    JoinExtendFirst(c, rest, sep);
    assert sep !in rest[0];
    forall i | 0 <= i < |parts|
      ensures sep !in parts[i]
    {
      if i > 0 {
        assert parts[i] == rest[i];
      }
    }
  }

  lemma JoinCons(first: string, others: seq<string>, sep: char)
    ensures Join([first] + others, sep) == if |others| == 0 then first else first + [sep] + Join(others, sep)
  {
    assert ([first] + others)[1..] == others;
  }

  lemma JoinExtendFirst(c: char, rest: seq<string>, sep: char)
    requires |rest| >= 1
    ensures Join([[c] + rest[0]] + rest[1..], sep) == [c] + Join(rest, sep)
  {
    JoinCons([c] + rest[0], rest[1..], sep);
    JoinCons(rest[0], rest[1..], sep);
    assert [rest[0]] + rest[1..] == rest;
  }

  /** A string that does not contain the separator is a single piece. */
  lemma SplitNoSeparator(s: string, sep: char)
    requires sep !in s
    ensures Split(s, sep) == [s]
  {
    var parts := Split(s, sep);
    assert multiset(s)[sep] == 0;
    assert |parts| == 1;
  }

  /** A string that starts with the separator and has no other splits into
      "" and the rest. */
  lemma SplitLeadingSeparator(t: string, sep: char)
    requires sep !in t
    ensures Split([sep] + t, sep) == ["", t]
  {
    assert ([sep] + t)[0] == sep && ([sep] + t)[1..] == t;
    SplitNoSeparator(t, sep);
  }

  /** Splitting at the first separator: the part before it is the first piece. */
  lemma {:induction false} SplitAtSeparator(p: string, sep: char, t: string)
    requires sep !in p
    ensures Split(p + [sep] + t, sep) == [p] + Split(t, sep)
    decreases |p|
  {
    var s := p + [sep] + t;
    if |p| == 0 {
      assert s[0] == sep && s[1..] == t;
    } else {
      assert s[0] == p[0] && s[0] != sep;
      assert s[1..] == p[1..] + [sep] + t;
      SplitAtSeparator(p[1..], sep, t);
      var rest := Split(s[1..], sep);
      assert rest == [p[1..]] + Split(t, sep);
      assert rest[0] == p[1..] && rest[1..] == Split(t, sep);
      assert [p[0]] + p[1..] == p;
    }
  }

  /** Split inverts Join on pieces free of the separator (the converse,
      `Join(Split(s)) == s`, is part of Split's contract). */
  lemma {:induction false} SplitJoin(parts: seq<string>, sep: char)
    requires |parts| >= 1
    requires forall i :: 0 <= i < |parts| ==> sep !in parts[i]
    ensures Split(Join(parts, sep), sep) == parts
    decreases |parts|
  {
    if |parts| == 1 {
      SplitNoSeparator(parts[0], sep);
    } else {
      SplitJoin(parts[1..], sep);
      SplitAtSeparator(parts[0], sep, Join(parts[1..], sep));
      assert [parts[0]] + parts[1..] == parts;
    }
  }

  /** Drops the leading white space. */
  function TrimLeft(s: string): (r: string)
    ensures |r| <= |s| && r == s[|s| - |r|..]
    ensures forall k :: 0 <= k < |s| - |r| ==> IsSpace(s[k])
    ensures r == [] || !IsSpace(r[0])
  {
    if |s| > 0 && IsSpace(s[0]) then TrimLeft(s[1..]) else s
  }

  /** Drops the trailing white space. */
  function TrimRight(s: string): (r: string)
    ensures |r| <= |s| && r == s[..|r|]
    ensures forall k :: |r| <= k < |s| ==> IsSpace(s[k])
    ensures r == [] || !IsSpace(r[|r| - 1])
  {
    if |s| > 0 && IsSpace(s[|s| - 1]) then TrimRight(s[..|s| - 1]) else s
  }

  /** The number of white space characters that `s` starts with. */
  function LeadingSpace(s: string): (n: nat)
    ensures n <= |s| && TrimLeft(s) == s[n..]
  {
    |s| - |TrimLeft(s)|
  }

  /** `strings.TrimSpace`: the slice of `s` left after removing white space at
      both ends. */
  function TrimSpace(s: string): (r: string)
    ensures Trimmed(r)
    ensures LeadingSpace(s) + |r| <= |s| && r == s[LeadingSpace(s)..LeadingSpace(s) + |r|]
    ensures forall k :: 0 <= k < LeadingSpace(s) ==> IsSpace(s[k])
    ensures forall k :: LeadingSpace(s) + |r| <= k < |s| ==> IsSpace(s[k])
  {
    TrimRightOfSuffix(s, LeadingSpace(s));
    TrimRight(TrimLeft(s))
  }

  /** Trimming the end of a suffix `s[lo..]` leaves a slice of `s`, and only
      white space follows it in `s`. */
  lemma TrimRightOfSuffix(s: string, lo: nat)
    requires lo <= |s|
    ensures var r := TrimRight(s[lo..]);
            lo + |r| <= |s| && r == s[lo..lo + |r|] && forall k :: lo + |r| <= k < |s| ==> IsSpace(s[k])
  {
    var left := s[lo..];
    var r := TrimRight(left);
    assert r == left[..|r|];
    forall k | lo + |r| <= k < |s|
      ensures IsSpace(s[k])
    {
      assert s[k] == left[k - lo];
    }
  }

  /** Trimming takes out no character other than white space, so every
      character of the result occurs in the input. */
  lemma TrimSpaceSubset(s: string, c: char)
    requires c in TrimSpace(s)
    ensures c in s
  {
    var r := TrimSpace(s);
    var lo := LeadingSpace(s);
    var k :| 0 <= k < |r| && r[k] == c;
    assert s[lo + k] == c;
  }

  /** A trimmed string is left as it is; in particular TrimSpace is idempotent. */
  lemma TrimSpaceOfTrimmed(s: string)
    requires Trimmed(s)
    ensures TrimSpace(s) == s
  {
  }

  lemma TrimSpaceIdempotent(s: string)
    ensures TrimSpace(TrimSpace(s)) == TrimSpace(s)
  {
    TrimSpaceOfTrimmed(TrimSpace(s));
  }
}
