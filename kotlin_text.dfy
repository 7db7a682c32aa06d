/**
 * Models of the Kotlin standard-library text operations the application
 * relies on: `count`, `filter`, `take`, `chunked`, `joinToString`, `split`
 * and `getOrNull`, on strings taken as sequences of characters. `IndexOf`
 * is a helper that locates the decimal point in the proofs about `split`
 * and in the grammar of `BigDecimal`.
 */
module KotlinText {
  import opened Wrappers

  /** `Char.isDigit`, restricted to the ASCII digits '0'..'9'. */
  predicate IsDigit(c: char) {
    '0' <= c <= '9'
  }

  predicate AllDigits(s: string) {
    forall i :: 0 <= i < |s| ==> IsDigit(s[i])
  }

  // ---------------------------------------------------------------------
  // count { it == c }
  // ---------------------------------------------------------------------

  /** The number of occurrences of `c` in `s`. */
  function Count(s: string, c: char): (n: nat)
    ensures n <= |s|
    ensures n == 0 <==> c !in s
  {
    if |s| == 0 then 0
    else
      assert s == [s[0]] + s[1..];
      (if s[0] == c then 1 else 0) + Count(s[1..], c)
  }

  lemma {:induction false} CountAppend(a: string, b: string, c: char)
    ensures Count(a + b, c) == Count(a, c) + Count(b, c)
  {
    if |a| == 0 {
      assert a + b == b;
    } else {
      assert (a + b)[1..] == a[1..] + b;
      CountAppend(a[1..], b, c);
    }
  }

  // ---------------------------------------------------------------------
  // The first position of a character
  // ---------------------------------------------------------------------

  /**
   * The first position of `c` in `s`, or -1 when `c` does not occur; used
   * to locate the decimal point.
   */
  function IndexOf(s: string, c: char): (r: int)
    ensures r == -1 <==> c !in s
    ensures r != -1 ==> 0 <= r < |s| && s[r] == c && c !in s[..r]
  {
    if |s| == 0 then -1
    else if s[0] == c then 0
    else
      var k := IndexOf(s[1..], c);
      assert s == [s[0]] + s[1..];
      if k == -1 then -1
      else
        assert s[..k + 1] == [s[0]] + s[1..][..k];
        k + 1
  }

  /** A position holding `c` with no `c` before it is the first position of `c`. */
  lemma {:induction false} FirstOccurrence(s: string, c: char, j: nat)
    requires j < |s| && s[j] == c && c !in s[..j]
    ensures IndexOf(s, c) == j
  {
    if j > 0 {
      assert s[0] == s[..j][0];
      assert s[1..][..j - 1] == s[..j][1..];
      FirstOccurrence(s[1..], c, j - 1);
    }
  }

  /** In a string holding `c` at most once, every occurrence is the first one. */
  lemma OnlyOccurrence(s: string, c: char, j: nat)
    requires Count(s, c) <= 1
    requires j < |s| && s[j] == c
    ensures IndexOf(s, c) == j
  {
    assert s == s[..j] + s[j..];
    CountAppend(s[..j], s[j..], c);
    assert s[j..][0] == c;
    FirstOccurrence(s, c, j);
  }

  /** Locating the first `c` in a concatenation whose left part has none. */
  lemma IndexOfAfter(a: string, c: char, b: string)
    requires c !in a
    ensures IndexOf(a + [c] + b, c) == |a|
  {
    var s := a + [c] + b;
    assert s[..|a|] == a;
    FirstOccurrence(s, c, |a|);
  }

  // ---------------------------------------------------------------------
  // filter { keep(it) }
  // ---------------------------------------------------------------------

  /** The characters of `s` that satisfy `keep`, in their original order. */
  function Filter(s: string, keep: char -> bool): (r: string)
    ensures |r| <= |s|
    ensures forall i :: 0 <= i < |r| ==> keep(r[i])
    ensures (forall i :: 0 <= i < |s| ==> keep(s[i])) ==> r == s
  {
    if |s| == 0 then []
    else
      assert forall i :: 0 <= i < |s| - 1 ==> s[1..][i] == s[i + 1];
      (if keep(s[0]) then [s[0]] else []) + Filter(s[1..], keep)
  }

  lemma {:induction false} FilterAppend(a: string, b: string, keep: char -> bool)
    ensures Filter(a + b, keep) == Filter(a, keep) + Filter(b, keep)
  {
    if |a| == 0 {
      assert a + b == b;
    } else {
      assert (a + b)[0] == a[0];
      assert (a + b)[1..] == a[1..] + b;
      FilterAppend(a[1..], b, keep);
    }
  }

  /** Filtering keeps every occurrence of a kept character. */
  lemma {:induction false} FilterCount(s: string, keep: char -> bool, c: char)
    requires keep(c)
    ensures Count(Filter(s, keep), c) == Count(s, c)
  {
    if |s| > 0 {
      FilterCount(s[1..], keep, c);
      CountAppend(if keep(s[0]) then [s[0]] else [], Filter(s[1..], keep), c);
    }
  }

  /**
   * Every character of a filtered string comes from a position of the
   * original that has at least as many characters after it.
   */
  lemma {:induction false} FilterSource(s: string, keep: char -> bool, j: nat) returns (i: nat)
    requires j < |Filter(s, keep)|
    ensures i < |s| && s[i] == Filter(s, keep)[j]
    ensures |Filter(s, keep)| - j <= |s| - i
  {
    var rest := Filter(s[1..], keep);
    if keep(s[0]) {
      assert Filter(s, keep) == [s[0]] + rest;
      if j == 0 {
        i := 0;
      } else {
        var k := FilterSource(s[1..], keep, j - 1);
        i := k + 1;
      }
    } else {
      assert Filter(s, keep) == rest;
      var k := FilterSource(s[1..], keep, j);
      i := k + 1;
    }
  }

  // ---------------------------------------------------------------------
  // take(n)
  // ---------------------------------------------------------------------

  /** The first `n` characters of `s`, or the whole of `s` when it is shorter. */
  function Take(s: string, n: nat): (r: string)
    ensures r <= s
    ensures |r| == if |s| <= n then |s| else n
  {
    if |s| <= n then s else s[..n]
  }

  // ---------------------------------------------------------------------
  // chunked(size) and joinToString(sep)
  // ---------------------------------------------------------------------

  /** The concatenation of all parts, in order. */
  function Concat(parts: seq<string>): string {
    if |parts| == 0 then [] else parts[0] + Concat(parts[1..])
  }

  /**
   * `chunked(size)`: consecutive pieces of `size` characters, the last
   * one possibly shorter; the empty string has no chunks.
   */
  function Chunked(s: string, size: nat): (r: seq<string>)
    requires size > 0
    ensures Concat(r) == s
    ensures |r| == 0 <==> |s| == 0
    ensures forall i :: 0 <= i < |r| - 1 ==> |r[i]| == size
    ensures |r| > 0 ==> 0 < |r[|r| - 1]| <= size
    decreases |s|
  {
    if |s| == 0 then []
    else if |s| <= size then
      assert Concat([s]) == s + Concat([]);
      [s]
    else
      var rest := Chunked(s[size..], size);
      assert ([s[..size]] + rest)[1..] == rest;
      assert s == s[..size] + s[size..];
      [s[..size]] + rest
  }

  /** `joinToString(sep)`: the parts with one `sep` between neighbours. */
  function JoinToString(parts: seq<string>, sep: char): (r: string)
    ensures |parts| > 0 ==> |r| == |Concat(parts)| + |parts| - 1
  {
    if |parts| == 0 then []
    else if |parts| == 1 then
      assert Concat(parts) == parts[0] + Concat([]);
      parts[0]
    else parts[0] + [sep] + JoinToString(parts[1..], sep)
  }

  // ---------------------------------------------------------------------
  // split(sep) and getOrNull(i)
  // ---------------------------------------------------------------------

  /**
   * `split(sep)`: the pieces between occurrences of `sep`; there is always
   * one piece more than there are separators.
   */
  function Split(s: string, sep: char): (r: seq<string>)
    ensures |r| == Count(s, sep) + 1
    ensures forall i :: 0 <= i < |r| ==> sep !in r[i]
  {
    if |s| == 0 then [[]]
    else
      var rest := Split(s[1..], sep);
      if s[0] == sep then [[]] + rest
      else
        assert forall i :: 1 <= i < |rest| ==> ([[s[0]] + rest[0]] + rest[1..])[i] == rest[i];
        [[s[0]] + rest[0]] + rest[1..]
  }

  /** Joining the pieces of a split with the same separator restores the string. */
  lemma {:induction false} JoinSplit(s: string, sep: char)
    ensures JoinToString(Split(s, sep), sep) == s
  {
    if |s| > 0 {
      var rest := Split(s[1..], sep);
      JoinSplit(s[1..], sep);
      if s[0] == sep {
        assert ([[]] + rest)[1..] == rest;
      } else if |rest| == 1 {
        assert Split(s, sep) == [[s[0]] + rest[0]];
      } else {
        assert ([[s[0]] + rest[0]] + rest[1..])[1..] == rest[1..];
        assert rest[1..] == rest[1..][..];
        assert JoinToString(rest, sep) == rest[0] + [sep] + JoinToString(rest[1..], sep);
      }
    }
  }

  /** Splitting at a separator preceded by a separator-free part. */
  lemma {:induction false} SplitAfterPart(a: string, sep: char, b: string)
    requires sep !in a
    ensures Split(a + [sep] + b, sep) == [a] + Split(b, sep)
  {
    var s := a + [sep] + b;
    if |a| == 0 {
      assert s == [sep] + b;
      assert s[1..] == b;
    } else {
      assert s[0] == a[0];
      assert s[1..] == a[1..] + [sep] + b;
      assert sep !in a[1..] by {
        assert forall i :: 0 <= i < |a| - 1 ==> a[1..][i] == a[i + 1];
      }
      SplitAfterPart(a[1..], sep, b);
      assert [a[0]] + a[1..] == a;
    }
  }

  /**
   * Splitting a join of separator-free parts gives the parts back: with
   * `JoinSplit`, joining and splitting are inverse to each other.
   */
  lemma {:induction false} SplitJoin(parts: seq<string>, sep: char)
    requires |parts| > 0
    requires forall i :: 0 <= i < |parts| ==> sep !in parts[i]
    ensures Split(JoinToString(parts, sep), sep) == parts
  {
    if |parts| == 1 {
      SplitWithoutSeparator(parts[0], sep);
    } else {
      var rest := parts[1..];
      assert forall i :: 0 <= i < |rest| ==> rest[i] == parts[i + 1];
      SplitJoin(rest, sep);
      SplitAfterPart(parts[0], sep, JoinToString(rest, sep));
      assert [parts[0]] + rest == parts;
    }
  }

  /** A string without the separator is split into itself alone. */
  lemma {:induction false} SplitWithoutSeparator(s: string, sep: char)
    requires sep !in s
    ensures Split(s, sep) == [s]
  {
    if |s| > 0 {
      assert sep !in s[1..] by {
        assert forall i :: 0 <= i < |s| - 1 ==> s[1..][i] == s[i + 1];
      }
      SplitWithoutSeparator(s[1..], sep);
      assert s == [s[0]] + s[1..];
    }
  }

  /**
   * When `s[i]` is the first separator, the first piece is everything
   * before it and the second piece starts right after it.
   */
  lemma {:induction false} SplitAtFirst(s: string, sep: char, i: nat)
    requires i < |s| && s[i] == sep && sep !in s[..i]
    ensures |Split(s, sep)| >= 2
    ensures Split(s, sep)[0] == s[..i]
    ensures Split(s, sep)[1] == Split(s[i + 1..], sep)[0]
  {
    if i > 0 {
      assert s[0] == s[..i][0];
      assert s[1..][..i - 1] == s[..i][1..];
      assert sep !in s[1..][..i - 1];
      SplitAtFirst(s[1..], sep, i - 1);
      assert s[1..][i - 1 + 1..] == s[i + 1..];
      assert s[..i] == [s[0]] + s[1..][..i - 1];
    }
  }

  /** `getOrNull(i)`: the i-th element, or nothing past the end. */
  function GetOrNull(parts: seq<string>, i: nat): (r: Option<string>)
    ensures r.Some? <==> i < |parts|
    ensures r.Some? ==> r.value == parts[i]
  {
    if i < |parts| then Some(parts[i]) else None
  }
}
