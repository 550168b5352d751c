/** The Python `str` operations the downloader relies on: the substring test
    `w in s`, `s.replace(pat, sub)`, `s.split(sep)`, `sep.join(parts)` and
    `s.lower()` (on ASCII letters). */
module Strings {

  /** Concatenation of sequences is associative. */
  lemma ConcatAssoc<T>(a: seq<T>, b: seq<T>, c: seq<T>)
    ensures (a + b) + c == a + (b + c)
  {
  }

  /** `w in s`: w occurs in s as a contiguous block. */
  predicate Contains(s: string, w: string)
    decreases |s|
  {
    |w| <= |s| && (s[..|w|] == w || (0 < |s| && Contains(s[1..], w)))
  }

  /** `s.replace(pat, sub)`: occurrences of pat are found from the left and
      replaced without overlapping. */
  function Replace(s: string, pat: string, sub: string): string
    requires |pat| > 0
    decreases |s|
  {
    if |s| < |pat| then s
    else if s[..|pat|] == pat then sub + Replace(s[|pat|..], pat, sub)
    else [s[0]] + Replace(s[1..], pat, sub)
  }

  /** `s.split(sep)`: the pieces between the occurrences of sep, found from
      the left; there is always at least one piece. */
  function Split(s: string, sep: string): (parts: seq<string>)
    requires |sep| > 0
    ensures |parts| > 0
    ensures !Contains(s, sep) ==> parts == [s]
    decreases |s|
  {
    if |s| < |sep| then [s]
    else if s[..|sep|] == sep then [""] + Split(s[|sep|..], sep)
    else
      var rest := Split(s[1..], sep);
      assert !Contains(s, sep) ==> rest == [s[1..]] && s == [s[0]] + s[1..];
      [[s[0]] + rest[0]] + rest[1..]
  }

  /** `sep.join(parts)`. */
  function Join(sep: string, parts: seq<string>): string
    requires |parts| > 0
  {
    if |parts| == 1 then parts[0] else parts[0] + sep + Join(sep, parts[1..])
  }

  lemma JoinPrependToFirst(c: char, parts: seq<string>, sep: string)
    requires |parts| > 0
    ensures Join(sep, [[c] + parts[0]] + parts[1..]) == [c] + Join(sep, parts)
  {
    var glued := [[c] + parts[0]] + parts[1..];
    if |parts| > 1 {
      assert glued[1..] == parts[1..];
      assert Join(sep, glued) == ([c] + parts[0]) + sep + Join(sep, parts[1..]);
    }
  }

  /** A join whose first piece is empty starts with the separator. */
  lemma JoinEmptyFirst(parts: seq<string>, sep: string)
    requires |parts| > 0
    ensures Join(sep, [""] + parts) == sep + Join(sep, parts)
  {
    var glued := [""] + parts;
    assert glued[1..] == parts;
  }

  /** Joining the pieces of a split with `sub` is the same as replacing every
      occurrence of the separator by `sub`. */
  lemma {:induction false} JoinSplitIsReplace(s: string, sep: string, sub: string)
    requires |sep| > 0
    ensures Join(sub, Split(s, sep)) == Replace(s, sep, sub)
    decreases |s|
  {
    if |s| < |sep| {
    } else if s[..|sep|] == sep {
      var rest := Split(s[|sep|..], sep);
      assert Split(s, sep) == [""] + rest;
      assert Replace(s, sep, sub) == sub + Replace(s[|sep|..], sep, sub);
      JoinSplitIsReplace(s[|sep|..], sep, sub);
      JoinEmptyFirst(rest, sub);
    } else {
      var rest := Split(s[1..], sep);
      assert Split(s, sep) == [[s[0]] + rest[0]] + rest[1..];
      assert Replace(s, sep, sub) == [s[0]] + Replace(s[1..], sep, sub);
      JoinSplitIsReplace(s[1..], sep, sub);
      JoinPrependToFirst(s[0], rest, sub);
    }
  }

  /** A string without any occurrence of the pattern is left as it is. */
  lemma {:induction false} ReplaceAbsent(s: string, pat: string, sub: string)
    requires |pat| > 0 && !Contains(s, pat)
    ensures Replace(s, pat, sub) == s
    decreases |s|
  {
    if |s| < |pat| {
    } else {
      ReplaceAbsent(s[1..], pat, sub);
      assert s == [s[0]] + s[1..];
    }
  }

  /** A leading character that cannot start the pattern is copied. */
  lemma ReplaceCons(c: char, t: string, pat: string, sub: string)
    requires |pat| > 0 && c != pat[0]
    ensures Replace([c] + t, pat, sub) == [c] + Replace(t, pat, sub)
  {
    var s := [c] + t;
    assert s[1..] == t;
    if |pat| <= |s| {
      assert s[..|pat|][0] == c;
    }
  }

  /** A leading occurrence of the pattern is replaced. */
  lemma ReplaceHead(pat: string, t: string, sub: string)
    requires |pat| > 0
    ensures Replace(pat + t, pat, sub) == sub + Replace(t, pat, sub)
  {
    var s := pat + t;
    assert s[..|pat|] == pat;
    assert s[|pat|..] == t;
  }

  /** Replacing a single character distributes over concatenation. */
  lemma {:induction false} ReplaceCharConcat(a: string, b: string, c: char, sub: string)
    ensures Replace(a + b, [c], sub) == Replace(a, [c], sub) + Replace(b, [c], sub)
    decreases |a|
  {
    if a == [] {
      assert a + b == b;
    } else {
      ReplaceCharConcat(a[1..], b, c, sub);
      assert a == [a[0]] + a[1..];
      assert a + b == [a[0]] + (a[1..] + b);
      if a[0] == c {
        ReplaceHead([c], a[1..] + b, sub);
        ReplaceHead([c], a[1..], sub);
      } else {
        ReplaceCons(a[0], a[1..] + b, [c], sub);
        ReplaceCons(a[0], a[1..], [c], sub);
      }
    }
  }

  /** Replacing a character that does not occur changes nothing. */
  lemma {:induction false} ReplaceCharAbsent(s: string, c: char, sub: string)
    requires c !in s
    ensures Replace(s, [c], sub) == s
    decreases |s|
  {
    if s != [] {
      ReplaceCharAbsent(s[1..], c, sub);
      assert s == [s[0]] + s[1..];
      ReplaceCons(s[0], s[1..], [c], sub);
    }
  }

  /** If w is found in the string a + b, it lies inside a or inside b, provided
      the characters on either side of the seam cannot be part of w. */
  lemma {:induction false} NotContainsAcross(a: string, b: string, w: string)
    requires !Contains(a, w) && !Contains(b, w)
    requires (|a| > 0 && a[|a| - 1] !in w) || (|b| > 0 && b[0] !in w)
    ensures !Contains(a + b, w)
    decreases |a|
  {
    var s := a + b;
    if a == [] {
      assert s == b;
    } else if |w| <= |s| {
      var prefix := s[..|w|];
      if |w| <= |a| {
        assert prefix == a[..|w|];
      } else if a[|a| - 1] !in w {
        assert prefix[|a| - 1] == a[|a| - 1];
      } else {
        assert prefix[|a|] == b[0];
      }
      assert s[1..] == a[1..] + b;
      if |a| > 1 {
        assert a[1..][|a[1..]| - 1] == a[|a| - 1];
        NotContainsAcross(a[1..], b, w);
      } else {
        assert s[1..] == b;
      }
    }
  }

  /** A prefix none of whose characters can start w hides no occurrence of w:
      every occurrence in a + b lies in b. */
  lemma {:induction false} ContainsPastPrefix(a: string, b: string, w: string)
    requires |w| > 0 && w[0] !in a && Contains(a + b, w)
    ensures Contains(b, w)
    decreases |a|
  {
    var s := a + b;
    if a == [] {
      assert s == b;
    } else {
      assert s[..|w|][0] == a[0];
      assert s[1..] == a[1..] + b;
      ContainsPastPrefix(a[1..], b, w);
    }
  }

  /** A string without the first character of w does not contain w. */
  lemma {:induction false} NoFirstCharNoMatch(s: string, w: string)
    requires |w| > 0 && w[0] !in s
    ensures !Contains(s, w)
    decreases |s|
  {
    if |w| <= |s| {
      assert s[..|w|][0] == s[0];
      NoFirstCharNoMatch(s[1..], w);
    }
  }

  /** Joining two strings without w around a separator character that w
      lacks gives a string without w. */
  lemma NotContainsAroundSep(a: string, sep: char, b: string, w: string)
    requires !Contains(a, w) && !Contains(b, w) && sep !in w
    ensures !Contains(a + [sep] + b, w)
  {
    NoFirstCharNoMatch([sep], w);
    NotContainsAcross(a, [sep], w);
    NotContainsAcross(a + [sep], b, w);
  }

  /** A suffix b shorter than w, whose first character occurs in w only at its
      start, adds no occurrence of w. */
  lemma {:induction false} NotContainsBeforeShort(a: string, b: string, w: string)
    requires !Contains(a, w) && 0 < |b| < |w| && b[0] !in w[1..]
    ensures !Contains(a + b, w)
    decreases |a|
  {
    var s := a + b;
    if a == [] {
      assert s == b;
    } else if |w| <= |s| {
      if |w| <= |a| {
        assert s[..|w|] == a[..|w|];
      } else {
        assert s[..|w|][|a|] == b[0];
        assert w[1..][|a| - 1] == w[|a|];
      }
      assert s[1..] == a[1..] + b;
      NotContainsBeforeShort(a[1..], b, w);
    }
  }

  /** Replacing a pattern whose first character does not occur in the prefix a
      leaves a as it is. */
  lemma {:induction false} ReplacePastPrefix(a: string, t: string, pat: string, sub: string)
    requires |pat| > 0 && pat[0] !in a
    ensures Replace(a + t, pat, sub) == a + Replace(t, pat, sub)
    decreases |a|
  {
    if a == [] {
      assert a + t == t;
    } else {
      assert a + t == [a[0]] + (a[1..] + t);
      ReplaceCons(a[0], a[1..] + t, pat, sub);
      ReplacePastPrefix(a[1..], t, pat, sub);
      assert a == [a[0]] + a[1..];
    }
  }

  /** `c.lower()` for one character: ASCII upper-case letters become lower-case. */
  function LowerChar(c: char): char
  {
    if 'A' <= c <= 'Z' then (c as int + 32) as char else c
  }

  /** `s.lower()`, on ASCII letters. */
  function Lower(s: string): (r: string)
    ensures |r| == |s|
    ensures forall i :: 0 <= i < |s| ==> (r[i] == '.' <==> s[i] == '.')
  {
    seq(|s|, i requires 0 <= i < |s| => LowerChar(s[i]))
  }

  /** Lowering twice is lowering once. */
  lemma LowerIdempotent(s: string)
    ensures Lower(Lower(s)) == Lower(s)
  {
    assert forall i :: 0 <= i < |s| ==> LowerChar(LowerChar(s[i])) == LowerChar(s[i]);
  }
}
