/** The few JavaScript string operations the payment handlers use, with
    their ECMAScript semantics: `padStart`/`padEnd` with a one-character
    filler, `split` on a one-character separator, and the joining that
    undoes it. */
module Strings {

  /** `fill` repeated n times. */
  function Repeat(fill: char, n: nat): (r: string)
    ensures |r| == n
    ensures forall k :: 0 <= k < n ==> r[k] == fill
  {
    if n == 0 then [] else [fill] + Repeat(fill, n - 1)
  }

  /** A repetition is the same read from either end. */
  lemma RepeatSnoc(fill: char, n: nat)
    ensures Repeat(fill, n + 1) == Repeat(fill, n) + [fill]
  {
  }

  /** `s.padStart(width, fill)`: unchanged when already `width` long or
      longer, else filled on the left up to exactly `width` characters. */
  function PadStart(s: string, width: nat, fill: char): (r: string)
    ensures |s| >= width ==> r == s
    ensures |s| < width ==> |r| == width && r[width - |s|..] == s
                            && forall k :: 0 <= k < width - |s| ==> r[k] == fill
  {
    if |s| >= width then s else Repeat(fill, width - |s|) + s
  }

  /** `s.padEnd(width, fill)`: unchanged when already `width` long or
      longer, else filled on the right up to exactly `width` characters. */
  function PadEnd(s: string, width: nat, fill: char): (r: string)
    ensures |s| >= width ==> r == s
    ensures |s| < width ==> |r| == width && r[..|s|] == s
                            && forall k :: |s| <= k < width ==> r[k] == fill
  {
    if |s| >= width then s else s + Repeat(fill, width - |s|)
  }

  /** `s.split(sep)`: the maximal pieces between separators, in order; the
      empty string splits into one empty piece. */
  function Split(s: string, sep: char): (r: seq<string>)
    ensures |r| >= 1
    ensures forall k :: 0 <= k < |r| ==> sep !in r[k]
    ensures sep !in s ==> r == [s]
  {
    if |s| == 0 then [""]
    else
      var rest := Split(s[1..], sep);
      if s[0] == sep then [""] + rest
      else
        assert sep !in s ==> sep !in s[1..];
        assert s == [s[0]] + s[1..];
        [[s[0]] + rest[0]] + rest[1..]
  }

  /** The pieces joined back with the separator between them. */
  function Join(pieces: seq<string>, sep: char): string
    requires |pieces| >= 1
  {
    if |pieces| == 1 then pieces[0] else pieces[0] + [sep] + Join(pieces[1..], sep)
  }

  /** Splitting loses nothing: joining the pieces gives the string back. */
  lemma {:induction false} JoinSplit(s: string, sep: char)
    ensures Join(Split(s, sep), sep) == s
  {
    if |s| > 0 {
      var rest := Split(s[1..], sep);
      JoinSplit(s[1..], sep);
      if s[0] == sep {
        assert Split(s, sep)[1..] == rest;
      } else {
        var r := Split(s, sep);
        if |rest| == 1 {
          assert r == [[s[0]] + rest[0]];
        } else {
          assert r[1..] == rest[1..];
          assert Join(rest, sep) == rest[0] + [sep] + Join(rest[1..], sep);
        }
        assert s == [s[0]] + s[1..];
      }
    }
  }

  /** Joining pieces that do not contain the separator and splitting again
      gives the same pieces: Join is injective on such pieces. */
  lemma {:induction false} SplitJoin(pieces: seq<string>, sep: char)
    requires |pieces| >= 1
    requires forall k :: 0 <= k < |pieces| ==> sep !in pieces[k]
    ensures Split(Join(pieces, sep), sep) == pieces
    decreases |pieces|
  {
    if |pieces| == 1 {
    } else {
      SplitJoin(pieces[1..], sep);
      SplitPrefix(pieces[0], Join(pieces[1..], sep), sep);
      assert pieces == [pieces[0]] + pieces[1..];
    }
  }

  /** Splitting `p + sep + t`, where p has no separator, gives p followed by
      the pieces of t. */
  lemma {:induction false} SplitPrefix(p: string, t: string, sep: char)
    requires sep !in p
    ensures Split(p + [sep] + t, sep) == [p] + Split(t, sep)
    decreases |p|
  {
    var s := p + [sep] + t;
    if |p| == 0 {
      assert s[1..] == t;
    } else {
      assert s[1..] == p[1..] + [sep] + t;
      SplitPrefix(p[1..], t, sep);
      assert [p[0]] + p[1..] == p;
    }
  }

  /** Splitting `p + sep + t` where neither side has the separator gives
      exactly the two sides. */
  lemma SplitTwo(p: string, t: string, sep: char)
    requires sep !in p && sep !in t
    ensures Split(p + [sep] + t, sep) == [p, t]
  {
    SplitPrefix(p, t, sep);
  }
}
