/** White space, and splitting and joining sequences at a separator. */
module Text {

  predicate IsSpace(c: char) {
    || '\t' <= c <= '\r' || c == ' ' || c == '\U{85}' || c == '\U{A0}' || c == '\U{1680}'
    || '\U{2000}' <= c <= '\U{200A}' || c == '\U{2028}' || c == '\U{2029}' || c == '\U{202F}' || c == '\U{205F}'
    || c == '\U{3000}'
  }

  function IndexOf<T(==)>(s: seq<T>, x: T): (i: nat)
    ensures i <= |s|
    ensures i < |s| ==> s[i] == x
    ensures x !in s[..i]
  {
    if s == [] || s[0] == x then 0
    else
      var i := IndexOf(s[1..], x);
      assert s[..i + 1] == [s[0]] + s[1..][..i];
      i + 1
  }

  /** The pieces of s between occurrences of sep; always at least one piece. */
  function Split<T(==)>(s: seq<T>, sep: T): (parts: seq<seq<T>>)
    ensures |parts| >= 1
  {
    var i := IndexOf(s, sep);
    if i == |s| then [s] else [s[..i]] + Split(s[i + 1..], sep)
  }

  function Join<T>(parts: seq<seq<T>>, sep: seq<T>): seq<T> {
    if parts == [] then [] else if |parts| == 1 then parts[0] else parts[0] + sep + Join(parts[1..], sep)
  }

  lemma IndexOfPrefix<T>(a: seq<T>, x: T, b: seq<T>)
    requires x !in a
    ensures IndexOf(a + [x] + b, x) == |a|
    ensures IndexOf(a, x) == |a|
  {
    var s := a + [x] + b;
    var i := IndexOf(s, x);
    assert forall j :: 0 <= j < |a| ==> s[j] == a[j] && s[j] != x;
    assert s[|a|] == x;
    assert forall j :: 0 <= j < i ==> s[j] == s[..i][j] && s[j] != x;
  }

  lemma {:induction false} JoinSplit<T>(s: seq<T>, sep: T)
    ensures Join(Split(s, sep), [sep]) == s
    ensures forall i :: 0 <= i < |Split(s, sep)| ==> sep !in Split(s, sep)[i]
  {
    var i := IndexOf(s, sep);
    if i == |s| {
      assert s[..i] == s;
    } else {
      var rest := s[i + 1..];
      var parts := Split(rest, sep);
      JoinSplit(rest, sep);
      assert s == s[..i] + [sep] + rest;
      assert ([s[..i]] + parts)[1..] == parts;
    }
  }

  lemma {:induction false} SplitJoin<T>(parts: seq<seq<T>>, sep: T)
    requires |parts| >= 1
    requires forall i :: 0 <= i < |parts| ==> sep !in parts[i]
    ensures Split(Join(parts, [sep]), sep) == parts
  {
    if |parts| == 1 {
      IndexOfPrefix(parts[0], sep, []);
    } else {
      var rest := Join(parts[1..], [sep]);
      IndexOfPrefix(parts[0], sep, rest);
      SplitJoin(parts[1..], sep);
      var s := parts[0] + [sep] + rest;
      assert s[..|parts[0]|] == parts[0] && s[|parts[0]| + 1..] == rest;
    }
  }

  /** A separator between two texts separates their pieces. */
  lemma {:induction false} SplitAround<T>(a: seq<T>, sep: T, b: seq<T>)
    ensures Split(a + [sep] + b, sep) == Split(a, sep) + Split(b, sep)
    decreases |a|
  {
    var i := IndexOf(a, sep);
    var s := a + [sep] + b;
    if i == |a| {
      assert a[..i] == a;
      IndexOfPrefix(a, sep, b);
      assert s[..i] == a && s[i + 1..] == b;
    } else {
      assert a == a[..i] + [sep] + a[i + 1..];
      var tail := a[i + 1..] + [sep] + b;
      assert s == a[..i] + [sep] + tail;
      IndexOfPrefix(a[..i], sep, tail);
      assert s[..i] == a[..i] && s[i + 1..] == tail;
      SplitAround(a[i + 1..], sep, b);
      assert Split(s, sep) == [a[..i]] + (Split(a[i + 1..], sep) + Split(b, sep));
    }
  }
}
