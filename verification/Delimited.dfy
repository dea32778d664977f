/**
  Sequences cut at a separator.  The wire splits its byte stream at line feeds,
  JSON pointers split at slashes and the identity streams at NUL and line feed.
 */
module Delimited {

  function Split<T(==)>(s: seq<T>, sep: T): (parts: seq<seq<T>>)
    ensures |parts| >= 1
  {
    if s == [] then [[]]
    else
      var rest := Split(s[1..], sep);
      if s[0] == sep then [[]] + rest else [[s[0]] + rest[0]] + rest[1..]
  }

  function Join<T>(parts: seq<seq<T>>, sep: T): seq<T>
    requires |parts| >= 1
  {
    if |parts| == 1 then parts[0] else parts[0] + [sep] + Join(parts[1..], sep)
  }

  ghost predicate Free<T>(parts: seq<seq<T>>, sep: T) {
    forall i :: 0 <= i < |parts| ==> sep !in parts[i]
  }

  // Text before the first separator stays in the first part.
  lemma {:induction false} SplitPrefix<T>(a: seq<T>, s: seq<T>, sep: T)
    requires sep !in a
    ensures Split(a + s, sep) == [a + Split(s, sep)[0]] + Split(s, sep)[1..]
  {
    var parts := Split(s, sep);
    if a == [] {
      assert a + s == s;
      assert a + parts[0] == parts[0];
      assert parts == [parts[0]] + parts[1..];
    } else {
      assert (a + s)[1..] == a[1..] + s;
      SplitPrefix(a[1..], s, sep);
      assert [a[0]] + (a[1..] + parts[0]) == a + parts[0];
    }
  }

  lemma SplitAt<T>(a: seq<T>, s: seq<T>, sep: T)
    requires sep !in a
    ensures Split(a + [sep] + s, sep) == [a] + Split(s, sep)
  {
    var t := [sep] + s;
    assert a + [sep] + s == a + t;
    SplitPrefix(a, t, sep);
    assert t[1..] == s;
    assert Split(t, sep) == [[]] + Split(s, sep);
    assert a + Split(t, sep)[0] == a;
  }

  lemma SplitWhole<T>(a: seq<T>, sep: T)
    requires sep !in a
    ensures Split(a, sep) == [a]
  {
    SplitPrefix(a, [], sep);
    assert a + [] == a;
  }

  // Split and Join are mutually inverse between all sequences and the nonempty lists of separator-free parts.
  lemma {:induction false} JoinSplit<T>(s: seq<T>, sep: T)
    ensures Join(Split(s, sep), sep) == s
    ensures Free(Split(s, sep), sep)
  {
    if s != [] {
      JoinSplit(s[1..], sep);
      var rest := Split(s[1..], sep);
      if s[0] == sep {
        assert ([[]] + rest)[1..] == rest;
      } else {
        var parts := [[s[0]] + rest[0]] + rest[1..];
        assert parts[1..] == rest[1..];
        assert s == [s[0]] + s[1..];
      }
    }
  }

  lemma {:induction false} SplitJoin<T>(parts: seq<seq<T>>, sep: T)
    requires |parts| >= 1 && Free(parts, sep)
    ensures Split(Join(parts, sep), sep) == parts
  {
    if |parts| == 1 {
      SplitWhole(parts[0], sep);
    } else {
      assert Free(parts[1..], sep);
      SplitJoin(parts[1..], sep);
      SplitAt(parts[0], Join(parts[1..], sep), sep);
    }
  }

  lemma {:induction false} JoinAppend<T>(parts: seq<seq<T>>, last: seq<T>, sep: T)
    requires |parts| >= 1
    ensures Join(parts + [last], sep) == Join(parts, sep) + [sep] + last
  {
    assert (parts + [last])[1..] == parts[1..] + [last];
    if |parts| > 1 {
      JoinAppend(parts[1..], last, sep);
    } else {
      assert Join([last], sep) == last;
    }
  }

  lemma {:induction false} JoinLengthensLast<T>(parts: seq<seq<T>>, more: seq<T>, sep: T)
    requires |parts| >= 1
    ensures Join(parts[..|parts| - 1] + [parts[|parts| - 1] + more], sep) == Join(parts, sep) + more
  {
    var n := |parts| - 1;
    var longer := parts[..n] + [parts[n] + more];
    if n > 0 {
      JoinLengthensLast(parts[1..], more, sep);
      assert longer[1..] == parts[1..][..n - 1] + [parts[1..][n - 1] + more];
      var start, rest := parts[0] + [sep], Join(parts[1..], sep);
      assert start + (rest + more) == start + rest + more;
    }
  }
}
