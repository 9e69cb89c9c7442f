/** The JavaScript string built-ins that the code generator relies on:
    `split` on a one-character separator, `Array.prototype.join`,
    `startsWith`, `pop` of the last split piece, and the ASCII part of
    `toUpperCase` / `toLowerCase`. Strings are `seq<char>`. */
module JsString {

  /** `s.split(sep)`: the maximal separator-free pieces of `s`, in order.
      Like JavaScript, splitting the empty string gives one empty piece. */
  function Split(s: string, sep: char): (parts: seq<string>)
    ensures |parts| >= 1
    ensures forall i :: 0 <= i < |parts| ==> sep !in parts[i]
    decreases |s|
  {
    if s == [] then [[]]
    else
      var rest := Split(s[1..], sep);
      if s[0] == sep then [[]] + rest
      else [[s[0]] + rest[0]] + rest[1..]
  }

  /** `parts.join(sep)`; joining no parts gives the empty string. */
  function Join(parts: seq<string>, sep: string): string
  {
    if |parts| == 0 then []
    else if |parts| == 1 then parts[0]
    else parts[0] + sep + Join(parts[1..], sep)
  }

  /** `parts.pop()` on a non-empty array, without the mutation. */
  function Last<T>(parts: seq<T>): T
    requires |parts| > 0
  {
    parts[|parts| - 1]
  }

  /** `s.startsWith(prefix)`. */
  predicate StartsWith(s: string, prefix: string)
  {
    |prefix| <= |s| && s[..|prefix|] == prefix
  }

  function ToUpperChar(c: char): char
  {
    if 'a' <= c <= 'z' then (c as int - 'a' as int + 'A' as int) as char else c
  }

  function ToLowerChar(c: char): char
  {
    if 'A' <= c <= 'Z' then (c as int - 'A' as int + 'a' as int) as char else c
  }

  /** `s.toLowerCase()` restricted to ASCII letters: same length, every
      character mapped on its own, and no upper-case ASCII letter is left. */
  function ToLowerCase(s: string): (r: string)
    ensures |r| == |s|
    ensures forall i :: 0 <= i < |s| ==> r[i] == ToLowerChar(s[i])
    ensures forall i :: 0 <= i < |r| ==> !('A' <= r[i] <= 'Z')
  {
    seq(|s|, i requires 0 <= i < |s| => ToLowerChar(s[i]))
  }

  /** Joining the pieces of a split with the same separator gives back the
      original string. */
  lemma {:induction false} JoinSplit(s: string, sep: char)
    ensures Join(Split(s, sep), [sep]) == s
    decreases |s|
  {
    if s != [] {
      var rest := Split(s[1..], sep);
      JoinSplit(s[1..], sep);
      if s[0] == sep {
        assert ([[]] + rest)[1..] == rest;
      } else if |rest| > 1 {
        var parts := [[s[0]] + rest[0]] + rest[1..];
        assert parts[1..] == rest[1..];
        assert Join(rest, [sep]) == rest[0] + [sep] + Join(rest[1..], [sep]);
        assert s == [s[0]] + s[1..];
      } else {
        assert s == [s[0]] + s[1..];
      }
    }
  }

  lemma {:induction false} SplitSeparatorFree(a: string, sep: char)
    requires sep !in a
    ensures Split(a, sep) == [a]
    decreases |a|
  {
    if a != [] {
      SplitSeparatorFree(a[1..], sep);
      assert a == [a[0]] + a[1..];
    }
  }

  lemma {:induction false} SplitCons(a: string, sep: char, b: string)
    requires sep !in a
    ensures Split(a + [sep] + b, sep) == [a] + Split(b, sep)
    decreases |a|
  {
    if a == [] {
      assert (a + [sep] + b)[1..] == b;
    } else {
      assert (a + [sep] + b)[1..] == a[1..] + [sep] + b;
      SplitCons(a[1..], sep, b);
      assert a == [a[0]] + a[1..];
    }
  }

  /** Splitting a join of a non-empty list of separator-free pieces gives
      back the pieces. */
  lemma {:induction false} SplitJoin(parts: seq<string>, sep: char)
    requires |parts| >= 1
    requires forall i :: 0 <= i < |parts| ==> sep !in parts[i]
    ensures Split(Join(parts, [sep]), sep) == parts
    decreases |parts|
  {
    if |parts| == 1 {
      SplitSeparatorFree(parts[0], sep);
    } else {
      SplitJoin(parts[1..], sep);
      SplitCons(parts[0], sep, Join(parts[1..], [sep]));
      assert [parts[0]] + parts[1..] == parts;
    }
  }

  lemma {:induction false} JoinSnoc(parts: seq<string>, sep: string)
    requires |parts| >= 2
    ensures Join(parts, sep) == Join(parts[..|parts| - 1], sep) + sep + Last(parts)
    decreases |parts|
  {
    if |parts| > 2 {
      JoinSnoc(parts[1..], sep);
      assert parts[1..][..|parts| - 2] == parts[..|parts| - 1][1..];
    }
  }

  /** `s.split(sep).pop()` is the part of `s` after its last separator (all
      of `s` when there is none): a separator-free suffix of `s` that is
      either all of `s` or preceded by a separator. */
  lemma LastPiece(s: string, sep: char)
    ensures var r := Last(Split(s, sep));
      sep !in r && |r| <= |s| && s[|s| - |r|..] == r
      && (|r| == |s| || s[|s| - |r| - 1] == sep)
  {
    var parts := Split(s, sep);
    JoinSplit(s, sep);
    if |parts| >= 2 {
      JoinSnoc(parts, [sep]);
    }
  }

  /** A join contains a character only if a piece or the separator does. */
  lemma {:induction false} JoinFree(parts: seq<string>, sep: string, c: char)
    requires c !in sep
    requires forall i :: 0 <= i < |parts| ==> c !in parts[i]
    ensures c !in Join(parts, sep)
    decreases |parts|
  {
    if |parts| > 1 {
      JoinFree(parts[1..], sep, c);
    }
  }

  /** Joining with no separator distributes over concatenation of the
      piece lists. */
  lemma {:induction false} JoinConcat(a: seq<string>, b: seq<string>)
    ensures Join(a + b, []) == Join(a, []) + Join(b, [])
    decreases |a|
  {
    if a == [] {
      assert a + b == b;
    } else if b == [] {
      assert a + b == a;
    } else {
      assert (a + b)[0] == a[0];
      assert (a + b)[1..] == a[1..] + b;
      JoinConcat(a[1..], b);
      if |a| == 1 {
        assert a[1..] + b == b;
      }
    }
  }

  /** Upper-casing a character that is not an upper-case ASCII letter and
      lower-casing it again gives it back, and upper-casing leaves no
      lower-case ASCII letter. */
  lemma CaseRoundTrip(c: char)
    ensures !('A' <= c <= 'Z') ==> ToLowerChar(ToUpperChar(c)) == c
    ensures !('a' <= ToUpperChar(c) <= 'z')
  {
  }

  lemma JoinCons(x: string, rest: seq<string>, sep: string)
    requires |rest| >= 1
    ensures Join([x] + rest, sep) == x + sep + Join(rest, sep)
  {
    assert ([x] + rest)[1..] == rest;
  }

  /** Joining a framed list: the first piece, the separator, the joined
      middle, the separator, the last piece. */
  lemma JoinFramed(first: string, middle: seq<string>, last: string, sep: string)
    requires |middle| >= 1
    ensures Join([first] + middle + [last], sep) == first + sep + Join(middle, sep) + sep + last
  {
    var tail := middle + [last];
    assert [first] + middle + [last] == [first] + tail;
    JoinCons(first, tail, sep);
    JoinSnoc(tail, sep);
    assert tail[..|tail| - 1] == middle;
    var inner := Join(middle, sep);
    assert first + sep + (inner + sep + last) == first + sep + inner + sep + last;
  }

  /** Splitting a framed join of a non-empty body gives back the framed
      pieces, when no piece (first, last or in the body) holds the separator. */
  lemma SplitFramed(first: string, body: seq<string>, last: string, sep: char)
    requires |body| >= 1 && sep !in first && sep !in last
    requires forall i :: 0 <= i < |body| ==> sep !in body[i]
    ensures Split(first + [sep] + Join(body, [sep]) + [sep] + last, sep) == [first] + body + [last]
  {
    var framed := [first] + body + [last];
    JoinFramed(first, body, last, [sep]);
    forall k | 0 <= k < |framed|
      ensures sep !in framed[k]
    {
      if 0 < k < |framed| - 1 {
        assert framed[k] == body[k - 1];
      }
    }
    SplitJoin(framed, sep);
  }
}
