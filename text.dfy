/**
 * Python's `str.split(sep)` with a one-character separator, and its inverse
 * `sep.join(parts)`, over strings as sequences of characters.
 */
module Text {

  /** Number of occurrences of `c` in `s` (Python's `s.count(c)`). */
  function Count(s: string, c: char): nat
  {
    if s == [] then 0 else (if s[0] == c then 1 else 0) + Count(s[1..], c)
  }

  /** Index of the first occurrence of `c` in `s` (Python's `s.index(c)`). */
  function IndexOf(s: string, c: char): (i: nat)
    requires c in s
    ensures i < |s| && s[i] == c && c !in s[..i]
  {
    if s[0] == c then 0
    else
      var j := IndexOf(s[1..], c);
      assert s[..1 + j] == [s[0]] + s[1..][..j];
      1 + j
  }

  /** `sep.join(parts)`: the parts with one `sep` between consecutive ones. */
  function Join(parts: seq<string>, sep: char): string
    requires |parts| >= 1
  {
    if |parts| == 1 then parts[0] else parts[0] + [sep] + Join(parts[1..], sep)
  }

  /**
   * `s.split(sep)`: the maximal pieces of `s` that do not contain `sep`, in order.
   * An empty string or adjacent separators give empty pieces, so there is
   * always exactly one more piece than there are separators.
   */
  function Split(s: string, sep: char): (parts: seq<string>)
    ensures |parts| >= 1
    ensures |parts| == 1 <==> sep !in s
    ensures forall k :: 0 <= k < |parts| ==> sep !in parts[k]
    decreases |s|
  {
    if sep !in s then [s]
    else
      var i := IndexOf(s, sep);
      [s[..i]] + Split(s[i + 1..], sep)
  }

  /** Joining the pieces of a split with the same separator gives back the string. */
  lemma {:induction false} JoinSplit(s: string, sep: char)
    ensures Join(Split(s, sep), sep) == s
    decreases |s|
  {
    if sep in s {
      var i := IndexOf(s, sep);
      JoinSplit(s[i + 1..], sep);
      var parts := Split(s, sep);
      assert parts[1..] == Split(s[i + 1..], sep);
      assert s == s[..i] + [sep] + s[i + 1..];
    }
  }

  /** Joining five parts, written out. */
  lemma JoinFive(a: string, b: string, c: string, d: string, e: string, sep: char)
    ensures Join([a, b, c, d, e], sep) == a + [sep] + b + [sep] + c + [sep] + d + [sep] + e
  {
    var parts := [a, b, c, d, e];
    assert Join(parts[4..], sep) == e;
    assert Join(parts[3..], sep) == d + [sep] + e;
    assert Join(parts[2..], sep) == c + [sep] + d + [sep] + e;
    assert Join(parts[1..], sep) == b + [sep] + c + [sep] + d + [sep] + e;
  }

  /** The first piece of a split runs up to the first separator, or is the whole string. */
  lemma SplitFirstPiece(s: string, sep: char)
    ensures Split(s, sep)[0] == if sep in s then s[..IndexOf(s, sep)] else s
  {
  }

  /**
   * The second piece of a split (Python's `s.split(sep)[1]`) is the text after
   * the first separator, up to the next separator or the end of the string.
   */
  lemma SplitSecondPiece(s: string, sep: char)
    requires sep in s
    ensures PieceAt(s, IndexOf(s, sep) + 1, Split(s, sep)[1], sep)
  {
    var i := IndexOf(s, sep);
    var v := Split(s[i + 1..], sep)[0];
    SecondIsFirstOfRest(s, sep);
    FirstPieceIsPrefix(s[i + 1..], sep);
    PrefixOfRest(s, i, v, sep);
  }

  /** `v` occurs in `s` at `start`, followed by `sep` or by the end of `s`. */
  predicate PieceAt(s: string, start: nat, v: string, sep: char)
  {
    start + |v| <= |s| && s[start..start + |v|] == v && (start + |v| == |s| || s[start + |v|] == sep)
  }

  /** The second piece of a split is the first piece of what follows the first separator. */
  lemma SecondIsFirstOfRest(s: string, sep: char)
    requires sep in s
    ensures Split(s, sep)[1] == Split(s[IndexOf(s, sep) + 1..], sep)[0]
  {
  }

  /** The first piece of a split is a prefix, ended by a separator or by the end of the string. */
  lemma FirstPieceIsPrefix(s: string, sep: char)
    ensures var v := Split(s, sep)[0];
      v <= s && (|v| == |s| || s[|v|] == sep)
  {
  }

  /** A piece ended by a separator in `s[i + 1..]` sits at position `i + 1` of `s`, ended by the same separator. */
  lemma PrefixOfRest(s: string, i: nat, v: string, sep: char)
    requires i < |s| && v <= s[i + 1..] && (|v| == |s[i + 1..]| || s[i + 1..][|v|] == sep)
    ensures PieceAt(s, i + 1, v, sep)
  {
  }

  /** Every character of every piece of a split comes from the split string. */
  lemma {:induction false} SplitPiecesWithin(s: string, sep: char, ch: char)
    ensures forall k :: 0 <= k < |Split(s, sep)| && ch in Split(s, sep)[k] ==> ch in s
    decreases |s|
  {
    if sep in s {
      var i := IndexOf(s, sep);
      var rest := Split(s[i + 1..], sep);
      SplitPiecesWithin(s[i + 1..], sep, ch);
      SplitUnfold(s, sep);
      forall k | 0 <= k < |Split(s, sep)| && ch in Split(s, sep)[k]
        ensures ch in s
      {
        if k == 0 {
          assert ch in s[..i];
        } else {
          assert ch in rest[k - 1];
          assert ch in s[i + 1..];
        }
      }
    }
  }

  /** One step of a split: the text before the first separator, then the split of the rest. */
  lemma SplitUnfold(s: string, sep: char)
    requires sep in s
    ensures Split(s, sep) == [s[..IndexOf(s, sep)]] + Split(s[IndexOf(s, sep) + 1..], sep)
  {
  }

  /** The first index of a separator placed after a separator-free prefix is that prefix's length. */
  lemma IndexOfAfterFree(a: string, sep: char, b: string)
    requires sep !in a
    ensures IndexOf(a + [sep] + b, sep) == |a|
  {
    var s := a + [sep] + b;
    var i := IndexOf(s, sep);
    assert s[|a|] == sep;
    assert forall k :: 0 <= k < |a| ==> s[k] == a[k];
    assert forall j :: |a| < j <= |s| ==> s[..j][|a|] == sep;
  }

  /** Splitting at a first separator that follows a separator-free prefix. */
  lemma SplitAfterFree(a: string, sep: char, b: string)
    requires sep !in a
    ensures Split(a + [sep] + b, sep) == [a] + Split(b, sep)
  {
    var s := a + [sep] + b;
    IndexOfAfterFree(a, sep, b);
    assert s[|a|] == sep;
    assert s[..|a|] == a;
    assert s[|a| + 1..] == b;
  }

  /** Splitting a join of separator-free parts gives back exactly those parts. */
  lemma {:induction false} SplitJoin(parts: seq<string>, sep: char)
    requires |parts| >= 1
    requires forall k :: 0 <= k < |parts| ==> sep !in parts[k]
    ensures Split(Join(parts, sep), sep) == parts
    decreases |parts|
  {
    if |parts| > 1 {
      var rest := Join(parts[1..], sep);
      assert Join(parts, sep) == parts[0] + [sep] + rest;
      SplitAfterFree(parts[0], sep, rest);
      SplitJoin(parts[1..], sep);
      assert parts == [parts[0]] + parts[1..];
    }
  }

  lemma {:induction false} CountConcat(a: string, b: string, c: char)
    ensures Count(a + b, c) == Count(a, c) + Count(b, c)
  {
    if a != [] {
      assert (a + b)[0] == a[0];
      assert (a + b)[1..] == a[1..] + b;
      CountConcat(a[1..], b, c);
    } else {
      assert a + b == b;
    }
  }

  lemma {:induction false} CountAbsent(s: string, c: char)
    requires c !in s
    ensures Count(s, c) == 0
  {
    if s != [] {
      assert c !in s[1..];
      CountAbsent(s[1..], c);
    }
  }

  /** `s.split(sep)` has one more piece than `s` has separators. */
  lemma {:induction false} SplitCount(s: string, sep: char)
    ensures |Split(s, sep)| == Count(s, sep) + 1
    decreases |s|
  {
    if sep !in s {
      CountAbsent(s, sep);
    } else {
      var i := IndexOf(s, sep);
      assert s == s[..i] + ([sep] + s[i + 1..]);
      CountConcat(s[..i], [sep] + s[i + 1..], sep);
      CountConcat([sep], s[i + 1..], sep);
      CountAbsent(s[..i], sep);
      assert Count([sep], sep) == 1;
      SplitCount(s[i + 1..], sep);
    }
  }

  /** The three parts of a three-way concatenation can be sliced back out of it. */
  lemma SliceConcat3(a: string, b: string, c: string)
    ensures (a + b + c)[..|a|] == a
    ensures (a + b + c)[|a|..|a| + |b|] == b
    ensures (a + b + c)[|a| + |b|..] == c
  {
  }

  /** `x` occurs in `s` starting at position `i`. */
  predicate OccursAt(x: string, s: string, i: nat)
  {
    i + |x| <= |s| && s[i..i + |x|] == x
  }

  /** `x in s` for strings: `x` is a contiguous piece of `s`. */
  predicate IsInfix(x: string, s: string)
  {
    exists i: nat | i <= |s| :: OccursAt(x, s, i)
  }

  /** The middle part of a three-way concatenation is an infix of it. */
  lemma InfixOfConcat(a: string, x: string, b: string)
    ensures IsInfix(x, a + x + b)
  {
    assert (a + x + b)[|a|..|a| + |x|] == x;
    assert OccursAt(x, a + x + b, |a|);
  }

  /** A string ends with itself after any prefix. */
  lemma InfixSuffix(a: string, x: string)
    ensures IsInfix(x, a + x)
  {
    assert (a + x)[|a|..|a| + |x|] == x;
    assert OccursAt(x, a + x, |a|);
  }

  /** Appending on the right keeps an infix. */
  lemma InfixExtendRight(x: string, s: string, b: string)
    requires IsInfix(x, s)
    ensures IsInfix(x, s + b)
  {
    var i: nat :| i <= |s| && OccursAt(x, s, i);
    assert (s + b)[i..i + |x|] == s[i..i + |x|];
    assert OccursAt(x, s + b, i);
  }

  /** Prepending on the left keeps an infix. */
  lemma InfixExtendLeft(x: string, s: string, a: string)
    requires IsInfix(x, s)
    ensures IsInfix(x, a + s)
  {
    var i: nat :| i <= |s| && OccursAt(x, s, i);
    assert (a + s)[|a| + i..|a| + i + |x|] == s[i..i + |x|];
    assert OccursAt(x, a + s, |a| + i);
  }
}
