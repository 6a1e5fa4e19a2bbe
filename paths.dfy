/**
 * String helpers of the survey page: JavaScript's `String.prototype.split` with a
 * one-character separator, and `getImageID`, which keeps the last `/`-separated segment.
 */
module Paths {

  /** `s.startsWith(prefix)`. */
  predicate StartsWith(s: string, prefix: string)
  {
    |prefix| <= |s| && s[..|prefix|] == prefix
  }

  /**
   * `s.split(sep)` for a one-character separator: the pieces between separators,
   * including empty ones; the empty string splits into one empty piece.
   */
  function Split(s: string, sep: char): (parts: seq<string>)
    ensures |parts| >= 1
    ensures forall i :: 0 <= i < |parts| ==> sep !in parts[i]
    decreases |s|
  {
    if s == [] then [""]
    else
      var rest := Split(s[1..], sep);
      if s[0] == sep then [""] + rest
      else [[s[0]] + rest[0]] + rest[1..]
  }

  /** `parts.join(sep)`, the inverse of `Split`. */
  function Join(parts: seq<string>, sep: char): string
  {
    if parts == [] then ""
    else if |parts| == 1 then parts[0]
    else parts[0] + [sep] + Join(parts[1..], sep)
  }

  /** Joining the pieces with the separator gives back the original string. */
  lemma {:induction false} JoinSplit(s: string, sep: char)
    ensures Join(Split(s, sep), sep) == s
    decreases |s|
  {
    if s != [] {
      var rest := Split(s[1..], sep);
      JoinSplit(s[1..], sep);
      if s[0] == sep {
        assert Split(s, sep) == [""] + rest;
        assert ([""] + rest)[1..] == rest;
      } else if |rest| > 1 {
        var parts := Split(s, sep);
        assert parts[1..] == rest[1..];
        assert Join(rest, sep) == rest[0] + [sep] + Join(rest[1..], sep);
        assert s == [s[0]] + s[1..];
      } else {
        assert s == [s[0]] + s[1..];
      }
    }
  }

  /** A string without the separator is one piece. */
  lemma {:induction false} SplitWithoutSep(s: string, sep: char)
    requires sep !in s
    ensures Split(s, sep) == [s]
    decreases |s|
  {
    if s != [] {
      SplitWithoutSep(s[1..], sep);
      assert s == [s[0]] + s[1..];
    }
  }

  /** How one more leading character changes the pieces: it ends a piece or extends the first. */
  function Extend(c: char, sep: char, parts: seq<string>): seq<string>
    requires |parts| >= 1
  {
    if c == sep then [""] + parts else [[c] + parts[0]] + parts[1..]
  }

  /** One step of `Split`. */
  lemma SplitCons(c: char, t: string, sep: char)
    ensures Split([c] + t, sep) == Extend(c, sep, Split(t, sep))
  {
    assert ([c] + t)[1..] == t;
  }

  /** A leading character only touches the first pieces, so it commutes with appending more. */
  lemma ExtendAppend(c: char, sep: char, r: seq<string>, q: seq<string>)
    requires |r| >= 1
    ensures Extend(c, sep, r + q) == Extend(c, sep, r) + q
  {
    if c != sep {
      assert (r + q)[0] == r[0];
      assert (r + q)[1..] == r[1..] + q;
    }
  }

  /** Splitting at a separator splits the two sides independently. */
  lemma {:induction false} SplitAppend(a: string, b: string, sep: char)
    ensures Split(a + [sep] + b, sep) == Split(a, sep) + Split(b, sep)
    decreases |a|
  {
    if a == [] {
      assert a + [sep] + b == [sep] + b;
      SplitCons(sep, b, sep);
    } else {
      var c, tail := a[0], a[1..];
      var rest := tail + [sep] + b;
      assert a == [c] + tail;
      assert a + [sep] + b == [c] + rest;
      var r, q := Split(tail, sep), Split(b, sep);
      calc {
        Split([c] + rest, sep);
        { SplitCons(c, rest, sep); }
        Extend(c, sep, Split(rest, sep));
        { SplitAppend(tail, b, sep); }
        Extend(c, sep, r + q);
        { ExtendAppend(c, sep, r, q); }
        Extend(c, sep, r) + q;
        { SplitCons(c, tail, sep); }
        Split(a, sep) + q;
      }
    }
  }

  /**
   * The last piece is a suffix of `s`; it is all of `s` exactly when there is one piece,
   * and otherwise a separator stands right before it.
   */
  lemma {:induction false} LastPieceIsSuffix(s: string, sep: char)
    ensures var parts := Split(s, sep); var last := parts[|parts| - 1];
      && |last| <= |s| && s[|s| - |last|..] == last
      && (|parts| == 1 ==> last == s)
      && (|parts| > 1 ==> |last| < |s| && s[|s| - |last| - 1] == sep)
    decreases |s|
  {
    if s != [] {
      LastPieceIsSuffix(s[1..], sep);
      var rest := Split(s[1..], sep);
      var parts := Split(s, sep);
      if s[0] == sep {
        assert parts == [""] + rest;
      } else {
        assert parts == [[s[0]] + rest[0]] + rest[1..];
        if |rest| == 1 {
          assert s == [s[0]] + s[1..];
        }
      }
    }
  }

  /**
   * `getImageID(url)`: `url.split('/').pop()`, the text after the last `/`
   * (the whole string when it has none).
   */
  function GetImageID(url: string): (id: string)
    ensures '/' !in id
    ensures |id| <= |url| && url[|url| - |id|..] == id
    ensures |id| < |url| ==> url[|url| - |id| - 1] == '/'
    ensures '/' !in url ==> id == url
  {
    LastPieceIsSuffix(url, '/');
    var parts := Split(url, '/');
    parts[|parts| - 1]
  }

  /** Whatever stands before the last `/` does not affect the image id. */
  lemma ImageIdAfterSlash(prefix: string, path: string)
    ensures GetImageID(prefix + "/" + path) == GetImageID(path)
  {
    SplitAppend(prefix, path, '/');
    assert prefix + "/" + path == prefix + ['/'] + path;
  }
}
