/**
 * The fragment of JavaScript string handling the handlers rely on:
 * `String.prototype.split` with a one-character separator, and its inverse.
 */
module Strings {

  /** Number of occurrences of `c` in `s`. */
  function Count(s: string, c: char): nat {
    if |s| == 0 then 0 else (if s[0] == c then 1 else 0) + Count(s[1..], c)
  }

  lemma {:induction false} CountConcat(a: string, b: string, c: char)
    ensures Count(a + b, c) == Count(a, c) + Count(b, c)
  {
    if |a| == 0 {
      assert a + b == b;
    } else {
      assert (a + b)[1..] == a[1..] + b;
      CountConcat(a[1..], b, c);
    }
  }

  lemma {:induction false} CountPositive(s: string, c: char)
    ensures c in s <==> Count(s, c) > 0
  {
    if |s| > 0 {
      CountPositive(s[1..], c);
      assert c in s <==> s[0] == c || c in s[1..] by {
        assert s == [s[0]] + s[1..];
      }
    }
  }

  /** Glues `fields` back together, one `sep` between neighbours. */
  function Join(fields: seq<string>, sep: char): string
    requires |fields| >= 1
  {
    if |fields| == 1 then fields[0] else fields[0] + [sep] + Join(fields[1..], sep)
  }

  /**
   * `s.split(sep)`: the maximal separator-free pieces of `s`, in order, empty
   * pieces included. There is always one more piece than separators.
   */
  function Split(s: string, sep: char): (fields: seq<string>)
    ensures |fields| == Count(s, sep) + 1
    ensures forall i :: 0 <= i < |fields| ==> sep !in fields[i]
    ensures Join(fields, sep) == s
  {
    if |s| == 0 then [""]
    else
      var rest := Split(s[1..], sep);
      if s[0] == sep then [""] + rest
      else
        var fields := [[s[0]] + rest[0]] + rest[1..];
        assert fields[1..] == rest[1..];
        assert s == [s[0]] + s[1..];
        fields
  }

  /** A piece without separators splits into itself. */
  lemma SplitPlain(a: string, sep: char)
    requires sep !in a
    ensures Split(a, sep) == [a]
  {
  }

  /** Splitting stops at the first separator when the text before it is plain. */
  lemma {:induction false} SplitAtFirst(a: string, sep: char, b: string)
    requires sep !in a
    ensures Split(a + [sep] + b, sep) == [a] + Split(b, sep)
  {
    var s := a + [sep] + b;
    if |a| == 0 {
      assert s[1..] == b;
    } else {
      assert s[1..] == a[1..] + [sep] + b;
      SplitAtFirst(a[1..], sep, b);
      assert [a[0]] + a[1..] == a;
    }
  }

  /** Split is a left inverse of Join on separator-free pieces. */
  lemma {:induction false} SplitJoin(fields: seq<string>, sep: char)
    requires |fields| >= 1
    requires forall i :: 0 <= i < |fields| ==> sep !in fields[i]
    ensures Split(Join(fields, sep), sep) == fields
  {
    if |fields| == 1 {
      SplitPlain(fields[0], sep);
    } else {
      SplitJoin(fields[1..], sep);
      SplitAtFirst(fields[0], sep, Join(fields[1..], sep));
      assert [fields[0]] + fields[1..] == fields;
    }
  }

  /** Two plain pieces joined by one separator split back into exactly those two. */
  lemma SplitPair(a: string, sep: char, b: string)
    requires sep !in a && sep !in b
    ensures Split(a + [sep] + b, sep) == [a, b]
  {
    SplitAtFirst(a, sep, b);
    SplitPlain(b, sep);
  }

  /** A separator inside the first piece also yields at least three pieces. */
  lemma SplitPairWithEarlySep(a: string, sep: char, b: string)
    requires sep in a
    ensures |Split(a + [sep] + b, sep)| >= 3
  {
    CountConcat(a + [sep], b, sep);
    CountConcat(a, [sep], sep);
    CountPositive(a, sep);
  }

  /** A second separator anywhere yields at least three pieces. */
  lemma SplitPairWithExtraSep(a: string, sep: char, b: string)
    requires sep in b
    ensures |Split(a + [sep] + b, sep)| >= 3
  {
    CountConcat(a + [sep], b, sep);
    CountConcat(a, [sep], sep);
    CountPositive(b, sep);
  }
}
