/**
 * The few pieces of `java.lang.String` the download code relies on:
 * `endsWith`, and `split` with a one-character separator, which drops
 * trailing empty pieces and returns the whole string when the separator
 * does not occur.
 */
module JavaStrings {
  import opened Wrappers

  predicate StartsWith(s: string, prefix: string)
  {
    |prefix| <= |s| && s[..|prefix|] == prefix
  }

  predicate EndsWith(s: string, suffix: string)
  {
    |suffix| <= |s| && s[|s| - |suffix|..] == suffix
  }

  /** The longest prefix of `s` that does not contain `c`. */
  function TakeUntil(s: string, c: char): (r: string)
    ensures StartsWith(s, r) && c !in r
    ensures |r| < |s| ==> s[|r|] == c
  {
    if s == [] || s[0] == c then []
    else [s[0]] + TakeUntil(s[1..], c)
  }

  /** Without `c` in `s`, the prefix before the first `c` is all of `s`. */
  lemma TakeUntilAbsent(s: string, c: char)
    requires c !in s
    ensures TakeUntil(s, c) == s
  {
  }

  /** A `c`-free head passes through `TakeUntil` unchanged. */
  lemma {:induction false} TakeUntilAppend(x: string, y: string, c: char)
    requires c !in x
    ensures TakeUntil(x + y, c) == x + TakeUntil(y, c)
  {
    if x != [] {
      assert (x + y)[0] == x[0];
      assert (x + y)[1..] == x[1..] + y;
      TakeUntilAppend(x[1..], y, c);
      assert [x[0]] + x[1..] == x;
    } else {
      assert x + y == y;
    }
  }

  /** All the pieces of `s` between occurrences of `c`, empty ones included. */
  function Pieces(s: string, c: char): (parts: seq<string>)
    ensures |parts| >= 1
    ensures forall i :: 0 <= i < |parts| ==> c !in parts[i]
  {
    if s == [] then [[]]
    else
      var rest := Pieces(s[1..], c);
      if s[0] == c then [[]] + rest
      else [[s[0]] + rest[0]] + rest[1..]
  }

  /** Gluing pieces back together with `c` between them. */
  function Join(parts: seq<string>, c: char): string
    requires |parts| >= 1
  {
    if |parts| == 1 then parts[0] else parts[0] + [c] + Join(parts[1..], c)
  }

  lemma {:induction false} JoinConsHead(x: string, parts: seq<string>, c: char)
    requires |parts| >= 1
    ensures Join([x + parts[0]] + parts[1..], c) == x + Join(parts, c)
  {
    var q := [x + parts[0]] + parts[1..];
    assert q[1..] == parts[1..];
  }

  /** Splitting on `c` and joining with `c` gives back the string. */
  lemma {:induction false} JoinPieces(s: string, c: char)
    ensures Join(Pieces(s, c), c) == s
  {
    if s != [] {
      var rest := Pieces(s[1..], c);
      JoinPieces(s[1..], c);
      if s[0] == c {
        assert ([[]] + rest)[1..] == rest;
      } else {
        JoinConsHead([s[0]], rest, c);
      }
      assert [s[0]] + s[1..] == s;
    }
  }

  /** The first piece is the text before the first separator. */
  lemma {:induction false} PiecesHead(s: string, c: char)
    ensures Pieces(s, c)[0] == TakeUntil(s, c)
  {
    if s != [] && s[0] != c {
      PiecesHead(s[1..], c);
    }
  }

  /** A `c`-free head followed by `c` is exactly the first piece. */
  lemma {:induction false} PiecesCons(x: string, y: string, c: char)
    requires c !in x
    ensures Pieces(x + [c] + y, c) == [x] + Pieces(y, c)
  {
    if x == [] {
      assert x + [c] + y == [c] + y;
      assert ([c] + y)[1..] == y;
    } else {
      var s := x + [c] + y;
      assert s[0] == x[0] && s[1..] == x[1..] + [c] + y;
      PiecesCons(x[1..], y, c);
      assert [x[0]] + x[1..] == x;
    }
  }

  /** `s` with its trailing empty strings removed. */
  function DropTrailingEmpty(parts: seq<string>): (r: seq<string>)
    ensures |r| <= |parts| && r == parts[..|r|]
    ensures |r| > 0 ==> r[|r| - 1] != []
    ensures forall i :: |r| <= i < |parts| ==> parts[i] == []
  {
    if parts == [] then []
    else if parts[|parts| - 1] == [] then DropTrailingEmpty(parts[..|parts| - 1])
    else parts
  }

  /** `s.split(c)` in Java, for a separator that is one literal character. */
  function JavaSplit(s: string, c: char): seq<string>
  {
    if c !in s then [s] else DropTrailingEmpty(Pieces(s, c))
  }

  /** Whenever `split` yields a first element, it is the text before the first separator. */
  lemma JavaSplitHead(s: string, c: char)
    requires |JavaSplit(s, c)| > 0
    ensures JavaSplit(s, c)[0] == TakeUntil(s, c)
  {
    if c !in s {
      TakeUntilAbsent(s, c);
    } else {
      PiecesHead(s, c);
    }
  }

  /** The text strictly between `prefix` and `suffix`, when `s` has both. */
  function Between(s: string, prefix: string, suffix: string): Option<string>
  {
    if |prefix| + |suffix| <= |s| && StartsWith(s, prefix) && EndsWith(s, suffix)
    then Some(s[|prefix|..|s| - |suffix|])
    else None
  }

  /** What `Between` cuts out is what was put between the affixes. */
  lemma BetweenAffixes(prefix: string, x: string, suffix: string)
    ensures Between(prefix + x + suffix, prefix, suffix) == Some(x)
  {
    var s := prefix + x + suffix;
    assert s[..|prefix|] == prefix;
    assert s[|s| - |suffix|..] == suffix;
    assert s[|prefix|..|s| - |suffix|] == x;
  }
}
