/** String helpers with the semantics of the source languages' built-ins. */
module Strings {

  /** Number of occurrences of `c` in `s`. */
  function Count(s: string, c: char): nat
  {
    if s == [] then 0 else (if s[0] == c then 1 else 0) + Count(s[1..], c)
  }

  /** A character occurs exactly when its count is positive. */
  lemma {:induction false} CountPositive(s: string, c: char)
    ensures Count(s, c) > 0 <==> c in s
  {
    if s != [] {
      CountPositive(s[1..], c);
      assert s == [s[0]] + s[1..];
    }
  }

  /** Python's `s.split(sep)` for a one-character separator: every occurrence of
      `sep` cuts, empty pieces are kept, and the result is never empty
      (`"".split("/") == [""]`). */
  function Split(s: string, sep: char): (r: seq<string>)
    ensures |r| >= 1
  {
    if s == [] then [""]
    else
      var rest := Split(s[1..], sep);
      if s[0] == sep then [""] + rest
      else [[s[0]] + rest[0]] + rest[1..]
  }

  /** There is one more piece than there are separators, and no piece
      contains the separator. */
  lemma {:induction false} SplitPieces(s: string, sep: char)
    ensures |Split(s, sep)| == Count(s, sep) + 1
    ensures forall i :: 0 <= i < |Split(s, sep)| ==> sep !in Split(s, sep)[i]
  {
    if s != [] {
      SplitPieces(s[1..], sep);
      SplitHead(s, sep);
    }
  }

  /** The pieces, with `sep` between consecutive ones (Python's `sep.join`). */
  function Join(pieces: seq<string>, sep: string): string
  {
    if |pieces| == 0 then ""
    else if |pieces| == 1 then pieces[0]
    else pieces[0] + sep + Join(pieces[1..], sep)
  }

  /** Splitting and joining again gives back the original string. */
  lemma {:induction false} JoinSplit(s: string, sep: char)
    ensures Join(Split(s, sep), [sep]) == s
  {
    if s != [] {
      var rest := Split(s[1..], sep);
      JoinSplit(s[1..], sep);
      if s[0] == sep {
        assert Split(s, sep) == [""] + rest;
        assert ([""] + rest)[1..] == rest;
      } else {
        var r := Split(s, sep);
        assert r == [[s[0]] + rest[0]] + rest[1..];
        if |rest| == 1 {
          assert r == [[s[0]] + rest[0]];
        } else {
          assert r[1..] == rest[1..];
          assert Join(rest, [sep]) == rest[0] + [sep] + Join(rest[1..], [sep]);
        }
      }
    }
  }

  /** A string without the separator is a single piece. */
  lemma {:induction false} SplitNoSeparator(s: string, sep: char)
    requires sep !in s
    ensures Split(s, sep) == [s]
  {
    if s != [] {
      SplitNoSeparator(s[1..], sep);
      assert s[0] != sep;
      assert [s[0]] + s[1..] == s;
    }
  }

  /** One unfolding of `Split` on a non-empty string. */
  lemma SplitHead(s: string, sep: char)
    requires s != []
    ensures s[0] == sep ==> Split(s, sep) == [""] + Split(s[1..], sep)
    ensures s[0] != sep ==>
      Split(s, sep) == [[s[0]] + Split(s[1..], sep)[0]] + Split(s[1..], sep)[1..]
  {
  }

  /** Prefixing a character to the first piece commutes with appending pieces. */
  lemma ExtendFirstPiece(c: char, ra: seq<string>, rb: seq<string>)
    requires |ra| > 0
    ensures [[c] + (ra + rb)[0]] + (ra + rb)[1..] == ([[c] + ra[0]] + ra[1..]) + rb
  {
    assert (ra + rb)[0] == ra[0];
    assert (ra + rb)[1..] == ra[1..] + rb;
  }

  /** Concatenation regrouped to the right. */
  lemma Regroup<T>(a: seq<T>, b: seq<T>, c: seq<T>, d: seq<T>)
    ensures a + b + c + d == a + (b + (c + d))
  {
  }

  /** Head and tail of `a + m + b` for a non-empty `a`. */
  lemma HeadOfConcat<T>(a: seq<T>, m: seq<T>, b: seq<T>)
    requires a != []
    ensures (a + m + b)[0] == a[0] && (a + m + b)[1..] == a[1..] + m + b
  {
    assert (a + m + b)[1..] == a[1..] + m + b;
  }

  /** Dropping the first element of `[x] + m + b` leaves `m + b`. */
  lemma DropHead<T>(x: T, m: seq<T>, b: seq<T>)
    ensures ([x] + m + b)[1..] == m + b
  {
  }

  /** Splitting distributes over a separator occurrence: the pieces of `a` are
      followed by the pieces of `b`. */
  lemma {:induction false} SplitAround(a: string, sep: char, b: string)
    ensures Split(a + [sep] + b, sep) == Split(a, sep) + Split(b, sep)
  {
    var s := a + [sep] + b;
    SplitHead(s, sep);
    if a == [] {
      assert s == [sep] + b;
      assert s[1..] == b;
    } else {
      HeadOfConcat(a, [sep], b);
      SplitAround(a[1..], sep, b);
      SplitHead(a, sep);
      if a[0] != sep {
        ExtendFirstPiece(a[0], Split(a[1..], sep), Split(b, sep));
      }
    }
  }

  /** Joining one more piece appends the separator and that piece. */
  lemma {:induction false} JoinSnoc(pieces: seq<string>, sep: string, last: string)
    requires |pieces| > 0
    ensures Join(pieces + [last], sep) == Join(pieces, sep) + sep + last
  {
    var ps := pieces + [last];
    if |pieces| == 1 {
      assert ps == [pieces[0], last];
      assert ps[1..] == [last];
    } else {
      assert ps[1..] == pieces[1..] + [last];
      JoinSnoc(pieces[1..], sep, last);
    }
  }

  /** The first piece is the longest separator-free prefix: it is a prefix of
      `s` and is either all of `s` or followed by the separator. */
  lemma {:induction false} FirstPiece(s: string, sep: char)
    ensures Split(s, sep)[0] <= s
    ensures var p := Split(s, sep)[0]; |p| == |s| || s[|p|] == sep
  {
    if s != [] && s[0] != sep {
      FirstPiece(s[1..], sep);
    }
  }

  /** When the separator occurs, the last piece is what follows its last
      occurrence: a suffix of `s` preceded by the separator. */
  lemma {:induction false} LastPiece(s: string, sep: char)
    requires Count(s, sep) > 0
    ensures var r := Split(s, sep); var k := r[|r| - 1];
      |k| < |s| && s[|s| - |k|..] == k && s[|s| - |k| - 1] == sep
  {
    var r := Split(s, sep);
    var rest := Split(s[1..], sep);
    SplitHead(s, sep);
    SplitPieces(s[1..], sep);
    if Count(s[1..], sep) > 0 {
      LastPiece(s[1..], sep);
      assert r[|r| - 1] == rest[|rest| - 1];
    } else {
      assert s[0] == sep;
      CountPositive(s[1..], sep);
      SplitNoSeparator(s[1..], sep);
      assert r == ["", s[1..]];
    }
  }

  /** A separator-free prefix that is all of `s` or followed by the separator,
      in a string holding the separator: `s` is that prefix, the separator and
      the rest. */
  lemma CutAtSeparator(s: string, p: string, sep: char)
    requires p <= s && sep !in p && sep in s
    requires |p| == |s| || s[|p|] == sep
    ensures |p| < |s| && s == p + [sep] + s[|p| + 1..]
  {
    var j :| 0 <= j < |s| && s[j] == sep;
    assert |p| <= j;
    assert s == s[..|p|] + [s[|p|]] + s[|p| + 1..];
  }

  /** A string holding the separator is its first piece, the separator, and
      the rest. */
  lemma SplitAtFirst(s: string, sep: char)
    requires sep in s
    ensures var p := Split(s, sep)[0];
      |p| < |s| && s == p + [sep] + s[|p| + 1..]
  {
    var p := Split(s, sep)[0];
    FirstPiece(s, sep);
    SplitPieces(s, sep);
    assert sep !in p;
    CutAtSeparator(s, p, sep);
  }
}
