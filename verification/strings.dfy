/**
  The two Go string operations the handlers use with a one-character
  argument: `strings.Split(s, "/")` and `strings.ReplaceAll(s, "/", "")`.
 */
module Strings {

  /** Glues pieces back together with `sep` between neighbours (Go's `strings.Join`). */
  function Join(parts: seq<string>, sep: char): string
    requires |parts| >= 1
    decreases |parts|
  {
    if |parts| == 1 then parts[0] else parts[0] + [sep] + Join(parts[1..], sep)
  }

  /**
    Go's `strings.Split` with a one-character separator: the maximal pieces
    between separators, so there is always one more piece than separators, and
    the empty string splits into one empty piece.
   */
  function Split(s: string, sep: char): (parts: seq<string>)
    ensures |parts| >= 1
    ensures forall i :: 0 <= i < |parts| ==> sep !in parts[i]
    ensures Join(parts, sep) == s
    decreases |s|
  {
    if |s| == 0 then [""]
    else
      var rest := Split(s[1..], sep);
      if s[0] == sep then
        assert s == [sep] + s[1..];
        [""] + rest
      else
        var parts := [[s[0]] + rest[0]] + rest[1..];
        assert parts[1..] == rest[1..];
        assert s == [s[0]] + s[1..];
        parts
  }

  /** A piece free of the separator, then the separator: Split makes that piece its first. */
  lemma {:induction false} SplitAfterPiece(a: string, sep: char, b: string)
    requires sep !in a
    ensures Split(a + [sep] + b, sep) == [a] + Split(b, sep)
    decreases |a|
  {
    if |a| == 0 {
      assert a + [sep] + b == [sep] + b;
      assert ([sep] + b)[1..] == b;
    } else {
      var s := a + [sep] + b;
      assert s[0] == a[0] && s[1..] == a[1..] + [sep] + b;
      SplitAfterPiece(a[1..], sep, b);
      assert [a[0]] + a[1..] == a;
    }
  }

  /** Three separator-free pieces in front, each followed by the separator, lead the split. */
  lemma SplitAfterThree(a: string, b: string, c: string, rest: string, sep: char)
    requires sep !in a && sep !in b && sep !in c
    ensures Split(a + [sep] + b + [sep] + c + [sep] + rest, sep) == [a, b, c] + Split(rest, sep)
  {
    var afterB := c + [sep] + rest;
    var afterA := b + [sep] + afterB;
    assert Split(afterB, sep) == [c] + Split(rest, sep) by {
      SplitAfterPiece(c, sep, rest);
    }
    assert Split(afterA, sep) == [b] + Split(afterB, sep) by {
      SplitAfterPiece(b, sep, afterB);
    }
    assert Split(a + [sep] + afterA, sep) == [a] + Split(afterA, sep) by {
      SplitAfterPiece(a, sep, afterA);
    }
    RegroupThree(a, b, c, rest, sep);
  }

  /** The same string, grouped from the right. */
  lemma RegroupThree(a: string, b: string, c: string, rest: string, sep: char)
    ensures a + [sep] + b + [sep] + c + [sep] + rest == a + [sep] + (b + [sep] + (c + [sep] + rest))
  {
  }

  /** A string with no separator splits into itself alone. */
  lemma {:induction false} SplitWhole(a: string, sep: char)
    requires sep !in a
    ensures Split(a, sep) == [a]
    decreases |a|
  {
    if |a| > 0 {
      SplitWhole(a[1..], sep);
      assert [a[0]] + a[1..] == a;
    }
  }

  /** Splitting undoes joining, provided no piece contains the separator. */
  lemma {:induction false} SplitJoin(parts: seq<string>, sep: char)
    requires |parts| >= 1
    requires forall i :: 0 <= i < |parts| ==> sep !in parts[i]
    ensures Split(Join(parts, sep), sep) == parts
    decreases |parts|
  {
    if |parts| == 1 {
      SplitWhole(parts[0], sep);
    } else {
      SplitJoin(parts[1..], sep);
      SplitAfterPiece(parts[0], sep, Join(parts[1..], sep));
      assert [parts[0]] + parts[1..] == parts;
    }
  }

  /** Joining two runs of pieces: the joins of each, with one separator between them. */
  lemma {:induction false} JoinAppend(p: seq<string>, q: seq<string>, sep: char)
    requires |p| >= 1 && |q| >= 1
    ensures Join(p + q, sep) == Join(p, sep) + [sep] + Join(q, sep)
    decreases |p|
  {
    assert (p + q)[0] == p[0];
    if |p| == 1 {
      assert (p + q)[1..] == q;
    } else {
      assert (p + q)[1..] == p[1..] + q;
      JoinAppend(p[1..], q, sep);
    }
  }

  /** Splitting at one separator: the pieces of the left part, then those of the right. */
  lemma SplitAtSeparator(a: string, b: string, sep: char)
    ensures Split(a + [sep] + b, sep) == Split(a, sep) + Split(b, sep)
  {
    var p, q := Split(a, sep), Split(b, sep);
    var pq := p + q;
    PiecesFreeAppend(p, q, sep);
    assert Join(pq, sep) == a + [sep] + b by {
      JoinAppend(p, q, sep);
    }
    SplitJoin(pq, sep);
  }

  /** Two runs of separator-free pieces, put together, are still separator-free. */
  lemma PiecesFreeAppend(p: seq<string>, q: seq<string>, sep: char)
    requires forall i :: 0 <= i < |p| ==> sep !in p[i]
    requires forall i :: 0 <= i < |q| ==> sep !in q[i]
    ensures forall i :: 0 <= i < |p + q| ==> sep !in (p + q)[i]
  {
    forall i | 0 <= i < |p + q|
      ensures sep !in (p + q)[i]
    {
      if i >= |p| {
        assert (p + q)[i] == q[i - |p|];
      }
    }
  }

  /** Go's `strings.ReplaceAll(s, [c], "")`: every occurrence of `c` removed. */
  function RemoveAll(s: string, c: char): (r: string)
    ensures c !in r
    ensures |r| <= |s|
    decreases |s|
  {
    if |s| == 0 then []
    else if s[0] == c then RemoveAll(s[1..], c)
    else [s[0]] + RemoveAll(s[1..], c)
  }

  /** What is removed: exactly the occurrences of `c`; every other character keeps its count. */
  lemma {:induction false} RemoveAllCounts(s: string, c: char)
    ensures |RemoveAll(s, c)| == |s| - multiset(s)[c]
    ensures forall x :: x != c ==> multiset(RemoveAll(s, c))[x] == multiset(s)[x]
    decreases |s|
  {
    if |s| > 0 {
      RemoveAllCounts(s[1..], c);
      assert s == [s[0]] + s[1..];
      assert multiset(s) == multiset{s[0]} + multiset(s[1..]);
    }
  }

  /** A single character is dropped when it is `c` and kept otherwise. */
  lemma RemoveAllSingle(x: char, c: char)
    ensures RemoveAll([x], c) == if x == c then [] else [x]
  {
    assert [x][1..] == [];
  }

  /**
    Removal works piece by piece: the survivors of `a` come first, in their
    order, then those of `b`. With RemoveAllSingle this fixes the result
    completely, order included.
   */
  lemma {:induction false} RemoveAllAppend(a: string, b: string, c: char)
    ensures RemoveAll(a + b, c) == RemoveAll(a, c) + RemoveAll(b, c)
    decreases |a|
  {
    if |a| == 0 {
      assert a + b == b;
    } else {
      var s := a + b;
      assert s[0] == a[0] && s[1..] == a[1..] + b;
      RemoveAllAppend(a[1..], b, c);
    }
  }

  /** Cut anywhere: removal from the whole is removal from the left part, then from the right. */
  lemma RemoveAllSplit(s: string, c: char)
    ensures forall k :: 0 <= k <= |s| ==> RemoveAll(s, c) == RemoveAll(s[..k], c) + RemoveAll(s[k..], c)
  {
    forall k | 0 <= k <= |s|
      ensures RemoveAll(s, c) == RemoveAll(s[..k], c) + RemoveAll(s[k..], c)
    {
      assert s == s[..k] + s[k..];
      RemoveAllAppend(s[..k], s[k..], c);
    }
  }

  /** Nothing is added: every character of the result occurs in the input. */
  lemma {:induction false} RemoveAllSubset(s: string, c: char)
    ensures forall i :: 0 <= i < |RemoveAll(s, c)| ==> RemoveAll(s, c)[i] in s
    decreases |s|
  {
    if |s| > 0 {
      RemoveAllSubset(s[1..], c);
      assert forall x :: x in s[1..] ==> x in s;
    }
  }

  /** Removing a character that does not occur changes nothing. */
  lemma {:induction false} RemoveAbsent(s: string, c: char)
    requires c !in s
    ensures RemoveAll(s, c) == s
    decreases |s|
  {
    if |s| > 0 {
      RemoveAbsent(s[1..], c);
      assert [s[0]] + s[1..] == s;
    }
  }
}
