/**
  The `java.lang.String` operations the receive path relies on, with the
  library's own edge cases: `indexOf` from an offset, `contains`, `trim`
  (which removes every character up to and including U+0020) and
  `split` with a one-character separator and the default limit 0 (which
  drops trailing empty strings, but returns the whole string when the
  separator does not occur at all).
*/
module JavaText {

  /** `pat` occurs in `s` starting at index `k`. */
  predicate OccursAt(s: string, pat: string, k: int)
  {
    0 <= k && k + |pat| <= |s| && s[k..k + |pat|] == pat
  }

  /** `t` is what is left of `s` after deleting a prefix. */
  predicate IsSuffix(t: string, s: string)
  {
    |t| <= |s| && t == s[|s| - |t|..]
  }

  /** Slicing a concatenation within its first part. */
  lemma {:induction false} SliceOfConcat(a: string, b: string, i: nat, j: nat)
    requires i <= j <= |a|
    ensures (a + b)[i..j] == a[i..j]
    ensures (a + b)[j..] == a[j..] + b
  {
  }

  /** Deleting a prefix twice deletes a prefix. */
  lemma {:induction false} SuffixOfSuffix(t: string, s: string, u: string)
    requires IsSuffix(t, s) && IsSuffix(s, u)
    ensures IsSuffix(t, u)
  {
    assert u[|u| - |s|..][|s| - |t|..] == u[|u| - |t|..];
  }

  /** `s.indexOf(pat, from)`: the first index at or after `from` where `pat` starts, or -1. */
  function IndexOf(s: string, pat: string, from: nat): (r: int)
    requires pat != []
    ensures r == -1 || (from <= r && r + |pat| <= |s|)
    decreases |s| - from
  {
    if |s| < from + |pat| then -1
    else if s[from..from + |pat|] == pat then from
    else IndexOf(s, pat, from + 1)
  }

  /**
    What `indexOf` reports: an index where `pat` occurs with no occurrence
    between `from` and it, or -1 exactly when there is no occurrence at or
    after `from`.
  */
  lemma {:induction false} IndexOfMeaning(s: string, pat: string, from: nat)
    requires pat != []
    ensures IndexOf(s, pat, from) != -1 ==> OccursAt(s, pat, IndexOf(s, pat, from))
    ensures IndexOf(s, pat, from) != -1 ==>
              forall k :: from <= k < IndexOf(s, pat, from) ==> !OccursAt(s, pat, k)
    ensures IndexOf(s, pat, from) == -1 <==> forall k :: from <= k ==> !OccursAt(s, pat, k)
    decreases |s| - from
  {
    if |s| >= from + |pat| {
      if s[from..from + |pat|] == pat {
        assert OccursAt(s, pat, from);
      } else {
        IndexOfMeaning(s, pat, from + 1);
        assert !OccursAt(s, pat, from);
      }
    }
  }

  /** The first occurrence at or after `from` is the one `indexOf` reports. */
  lemma {:induction false} IndexOfIsFirst(s: string, pat: string, from: nat, k: nat)
    requires pat != [] && from <= k && OccursAt(s, pat, k)
    requires forall j :: from <= j < k ==> !OccursAt(s, pat, j)
    ensures IndexOf(s, pat, from) == k
    decreases k - from
  {
    if from < k {
      assert !OccursAt(s, pat, from);
      IndexOfIsFirst(s, pat, from + 1, k);
    }
  }

  /** Appending text never moves an occurrence that is already there. */
  lemma {:induction false} IndexOfInPrefix(p: string, q: string, pat: string, from: nat)
    requires pat != [] && IndexOf(p, pat, from) != -1
    ensures IndexOf(p + q, pat, from) == IndexOf(p, pat, from)
    decreases |p| - from
  {
    if p[from..from + |pat|] == pat {
      assert (p + q)[from..from + |pat|] == p[from..from + |pat|];
    } else {
      assert (p + q)[from..from + |pat|] == p[from..from + |pat|];
      IndexOfInPrefix(p, q, pat, from + 1);
    }
  }

  /** Searching past a prefix `x` is searching `y` and adding `|x|`. */
  lemma {:induction false} IndexOfShift(x: string, y: string, pat: string, from: nat)
    requires pat != []
    ensures IndexOf(x + y, pat, |x| + from) ==
            if IndexOf(y, pat, from) == -1 then -1 else |x| + IndexOf(y, pat, from)
    decreases |y| - from
  {
    if |y| < from + |pat| {
    } else {
      assert (x + y)[|x| + from..|x| + from + |pat|] == y[from..from + |pat|];
      if y[from..from + |pat|] != pat {
        IndexOfShift(x, y, pat, from + 1);
      }
    }
  }

  /** A pattern whose first character is absent from `s` does not occur in it. */
  lemma {:induction false} NoOccurrenceWithoutFirstChar(s: string, pat: string)
    requires pat != [] && pat[0] !in s
    ensures forall k :: !OccursAt(s, pat, k)
  {
    forall k | 0 <= k ensures !OccursAt(s, pat, k) {
      if k < |s| {
        assert s[k] in s;
      }
      if k + |pat| <= |s| {
        assert s[k..k + |pat|][0] == s[k];
      }
    }
  }

  /** An occurrence in `q` is an occurrence in `p + q`. */
  lemma {:induction false} ContainsFromSuffix(p: string, q: string, pat: string)
    requires pat != [] && Contains(q, pat)
    ensures Contains(p + q, pat)
  {
    IndexOfShift(p, q, pat, 0);
    IndexOfMeaning(p + q, pat, |p|);
    IndexOfMeaning(p + q, pat, 0);
  }

  /** An occurrence in `p` is an occurrence in `p + q`. */
  lemma {:induction false} ContainsFromPrefix(p: string, q: string, pat: string)
    requires pat != [] && Contains(p, pat)
    ensures Contains(p + q, pat)
  {
    IndexOfInPrefix(p, q, pat, 0);
  }

  /** `s.contains(pat)`, which Java defines as `indexOf(pat) >= 0`. */
  function Contains(s: string, pat: string): bool
    requires pat != []
  {
    IndexOf(s, pat, 0) != -1
  }

  /** `contains` holds exactly when the pattern occurs somewhere. */
  lemma {:induction false} ContainsMeaning(s: string, pat: string)
    requires pat != []
    ensures Contains(s, pat) <==> exists k :: OccursAt(s, pat, k)
  {
    IndexOfMeaning(s, pat, 0);
    if Contains(s, pat) {
      assert OccursAt(s, pat, IndexOf(s, pat, 0));
    }
  }

  /** Characters `String.trim` removes: every code point up to and including the space. */
  predicate IsTrimmable(c: char)
  {
    c <= ' '
  }

  /** The number of trimmable characters `trim` skips at the start. */
  function LeadingTrimmable(s: string): (n: nat)
    ensures n <= |s|
    ensures forall k :: 0 <= k < n ==> IsTrimmable(s[k])
    ensures n < |s| ==> !IsTrimmable(s[n])
  {
    if s != [] && IsTrimmable(s[0]) then 1 + LeadingTrimmable(s[1..]) else 0
  }

  /** The number of trimmable characters `trim` drops at the end. */
  function TrailingTrimmable(s: string): (n: nat)
    ensures n <= |s|
    ensures forall k :: |s| - n <= k < |s| ==> IsTrimmable(s[k])
    ensures n < |s| ==> !IsTrimmable(s[|s| - 1 - n])
  {
    if s != [] && IsTrimmable(s[|s| - 1]) then 1 + TrailingTrimmable(s[..|s| - 1]) else 0
  }

  /** `s.trim()`. */
  function Trim(s: string): (r: string)
    ensures LeadingTrimmable(s) + |r| <= |s|
    ensures r == s[LeadingTrimmable(s)..LeadingTrimmable(s) + |r|]
    ensures forall k :: LeadingTrimmable(s) + |r| <= k < |s| ==> IsTrimmable(s[k])
    ensures r == [] || (!IsTrimmable(r[0]) && !IsTrimmable(r[|r| - 1]))
    ensures (s == [] || (!IsTrimmable(s[0]) && !IsTrimmable(s[|s| - 1]))) ==> r == s
  {
    var rest := s[LeadingTrimmable(s)..];
    rest[..|rest| - TrailingTrimmable(rest)]
  }

  /** The parts written out with `sep` between neighbours. */
  function Join(parts: seq<string>, sep: char): string
  {
    if |parts| == 0 then []
    else if |parts| == 1 then parts[0]
    else parts[0] + [sep] + Join(parts[1..], sep)
  }

  /** Every piece of `s` between occurrences of `sep`, empty ones included. */
  function Pieces(s: string, sep: char): (r: seq<string>)
    ensures |r| >= 1
    ensures forall i :: 0 <= i < |r| ==> sep !in r[i]
    ensures Join(r, sep) == s
    decreases |s|
  {
    if s == [] then [[]]
    else
      var rest := Pieces(s[1..], sep);
      if s[0] == sep then
        assert Join([[]] + rest, sep) == [sep] + Join(rest, sep);
        [[]] + rest
      else
        var r := [[s[0]] + rest[0]] + rest[1..];
        assert r[1..] == rest[1..];
        assert |rest| > 1 ==> Join(rest, sep) == rest[0] + [sep] + Join(rest[1..], sep);
        r
  }

  /** The parts with every trailing empty string removed. */
  function DropTrailingEmpty(ps: seq<string>): (r: seq<string>)
    ensures |r| <= |ps| && r == ps[..|r|]
    ensures r == [] || r[|r| - 1] != []
    ensures forall i :: |r| <= i < |ps| ==> ps[i] == []
  {
    if ps != [] && ps[|ps| - 1] == [] then DropTrailingEmpty(ps[..|ps| - 1]) else ps
  }

  /**
    `s.split(sep)` for a one-character separator and limit 0: the whole
    string when `sep` does not occur, otherwise its pieces without the
    trailing empty ones.
  */
  function Split(s: string, sep: char): (r: seq<string>)
    ensures forall i :: 0 <= i < |r| ==> sep !in r[i]
    ensures sep !in s ==> r == [s]
    ensures sep in s ==> r == [] || r[|r| - 1] != []
  {
    if sep !in s then [s] else DropTrailingEmpty(Pieces(s, sep))
  }

  /** Splitting a separator-free piece followed by `sep` peels that piece off. */
  lemma {:induction false} PiecesAfterSeparator(a: string, b: string, sep: char)
    requires sep !in a
    ensures Pieces(a + [sep] + b, sep) == [a] + Pieces(b, sep)
    decreases |a|
  {
    var s := a + [sep] + b;
    if a == [] {
      assert s[1..] == b;
    } else {
      assert s[1..] == a[1..] + [sep] + b;
      PiecesAfterSeparator(a[1..], b, sep);
      assert [a[0]] + a[1..] == a;
    }
  }

  /** A separator-free string is a single piece. */
  lemma {:induction false} PiecesOfPlain(a: string, sep: char)
    requires sep !in a
    ensures Pieces(a, sep) == [a]
    decreases |a|
  {
    if a != [] {
      PiecesOfPlain(a[1..], sep);
      assert [a[0]] + a[1..] == a;
    }
  }

  /** Splitting joined separator-free parts gives the parts back. */
  lemma {:induction false} PiecesOfJoin(ps: seq<string>, sep: char)
    requires |ps| >= 1
    requires forall i :: 0 <= i < |ps| ==> sep !in ps[i]
    ensures Pieces(Join(ps, sep), sep) == ps
    decreases |ps|
  {
    if |ps| == 1 {
      PiecesOfPlain(ps[0], sep);
    } else {
      PiecesOfJoin(ps[1..], sep);
      PiecesAfterSeparator(ps[0], Join(ps[1..], sep), sep);
      assert [ps[0]] + ps[1..] == ps;
    }
  }

  /** A join begins with the first character of its first part. */
  lemma {:induction false} JoinFirst(ps: seq<string>, sep: char)
    requires |ps| >= 1 && ps[0] != []
    ensures Join(ps, sep) != [] && Join(ps, sep)[0] == ps[0][0]
  {
  }

  /** A join ends with the last character of its last part. */
  lemma {:induction false} JoinLast(ps: seq<string>, sep: char)
    requires |ps| >= 1 && ps[|ps| - 1] != []
    ensures Join(ps, sep) != []
    ensures Join(ps, sep)[|Join(ps, sep)| - 1] == ps[|ps| - 1][|ps[|ps| - 1]| - 1]
    decreases |ps|
  {
    if |ps| > 1 {
      JoinLast(ps[1..], sep);
    }
  }

  /**
    `split` is the inverse of joining with the separator, provided no part
    holds the separator and the last part is not empty (otherwise `split`
    would drop it).
  */
  lemma {:induction false} SplitOfJoin(ps: seq<string>, sep: char)
    requires |ps| >= 1
    requires forall i :: 0 <= i < |ps| ==> sep !in ps[i]
    requires |ps| == 1 || ps[|ps| - 1] != []
    ensures Split(Join(ps, sep), sep) == ps
  {
    PiecesOfJoin(ps, sep);
    if |ps| > 1 {
      assert Join(ps, sep) == ps[0] + [sep] + Join(ps[1..], sep);
      assert Join(ps, sep)[|ps[0]|] == sep;
    } else {
      assert Join(ps, sep) == ps[0];
    }
  }

  /** One more separator at the end is one more empty piece. */
  lemma {:induction false} PiecesWithTrailingSeparator(s: string, sep: char)
    ensures Pieces(s + [sep], sep) == Pieces(s, sep) + [[]]
    decreases |s|
  {
    if s == [] {
      assert Pieces([sep], sep) == [[]] + Pieces([], sep);
    } else {
      assert (s + [sep])[1..] == s[1..] + [sep];
      PiecesWithTrailingSeparator(s[1..], sep);
    }
  }

  /**
    Java's `split` ignores a trailing separator: on a non-empty string,
    a separator appended at the end changes nothing.
  */
  lemma {:induction false} SplitIgnoresTrailingSeparator(s: string, sep: char)
    requires s != []
    ensures Split(s + [sep], sep) == Split(s, sep)
  {
    PiecesWithTrailingSeparator(s, sep);
    var ps := Pieces(s, sep);
    assert (ps + [[]])[..|ps + [[]]| - 1] == ps;
    assert sep in s + [sep] by { assert (s + [sep])[|s|] == sep; }
    if sep !in s {
      PiecesOfPlain(s, sep);
    }
  }
}
