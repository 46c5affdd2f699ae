/**
 The string operations the breadcrumb deriver relies on, with the
 JavaScript semantics it uses: `String.prototype.substring(1)`,
 `String.prototype.split(sep)` with a one-character separator, and
 upper-casing the first character only (restricted to ASCII letters).
 */
module Strings {

  /** Number of occurrences of `c` in `s`. */
  function Count(s: string, c: char): nat
  {
    if |s| == 0 then 0 else (if s[0] == c then 1 else 0) + Count(s[1..], c)
  }

  /**
   `s.substring(1)`: everything after the first character. JavaScript clamps
   the start index to the string's length, so the empty string yields "".
   */
  function DropFirst(s: string): (r: string)
    ensures |s| > 0 ==> [s[0]] + r == s
    ensures |s| == 0 ==> r == ""
  {
    if |s| == 0 then "" else s[1..]
  }

  /**
   `s.split(sep)`: the maximal separator-free pieces of `s`, in order, keeping
   empty pieces. There is always at least one piece, and one more piece than
   there are separators.
   */
  function Split(s: string, sep: char): (pieces: seq<string>)
    ensures |pieces| == Count(s, sep) + 1
    ensures forall i :: 0 <= i < |pieces| ==> sep !in pieces[i]
    decreases |s|
  {
    if |s| == 0 then [""]
    else
      var rest := Split(s[1..], sep);
      if s[0] == sep then [""] + rest
      else [[s[0]] + rest[0]] + rest[1..]
  }

  /** `pieces.join(sep)`: the inverse of `Split`. */
  function Join(pieces: seq<string>, sep: char): string
    requires |pieces| >= 1
  {
    if |pieces| == 1 then pieces[0] else pieces[0] + [sep] + Join(pieces[1..], sep)
  }

  /** Joining a piece in front adds that piece and one separator. */
  lemma JoinCons(p: string, pieces: seq<string>, sep: char)
    requires |pieces| >= 1
    ensures Join([p] + pieces, sep) == p + [sep] + Join(pieces, sep)
  {
    assert ([p] + pieces)[1..] == pieces;
  }

  /** Prefixing the first piece with a character prefixes the join with it. */
  lemma {:induction false} JoinExtendHead(c: char, pieces: seq<string>, sep: char)
    requires |pieces| >= 1
    ensures Join([[c] + pieces[0]] + pieces[1..], sep) == [c] + Join(pieces, sep)
  {
    var extended := [[c] + pieces[0]] + pieces[1..];
    if |pieces| > 1 {
      assert extended[1..] == pieces[1..];
      assert Join(extended, sep) == ([c] + pieces[0]) + [sep] + Join(pieces[1..], sep);
    }
  }

  /** Joining one more piece at the end appends a separator and that piece. */
  lemma {:induction false} JoinSnoc(pieces: seq<string>, p: string, sep: char)
    requires |pieces| >= 1
    ensures Join(pieces + [p], sep) == Join(pieces, sep) + [sep] + p
    decreases |pieces|
  {
    var extended := pieces + [p];
    if |pieces| > 1 {
      assert extended[1..] == pieces[1..] + [p];
      JoinSnoc(pieces[1..], p, sep);
    } else {
      assert extended[1..] == [p];
    }
  }

  /** Joining the pieces of a split restores the original string. */
  lemma {:induction false} JoinSplit(s: string, sep: char)
    ensures Join(Split(s, sep), sep) == s
    decreases |s|
  {
    if |s| > 0 {
      var rest := Split(s[1..], sep);
      JoinSplit(s[1..], sep);
      if s[0] == sep {
        JoinCons("", rest, sep);
      } else {
        JoinExtendHead(s[0], rest, sep);
      }
      assert [s[0]] + s[1..] == s;
    }
  }

  /** A separator-free string splits into itself alone. */
  lemma {:induction false} SplitNoSeparator(p: string, sep: char)
    requires sep !in p
    ensures Split(p, sep) == [p]
    decreases |p|
  {
    if |p| > 0 {
      SplitNoSeparator(p[1..], sep);
      assert [p[0]] + p[1..] == p;
    }
  }

  /** A separator-free prefix followed by a separator is split off as one piece. */
  lemma {:induction false} SplitAfterPiece(p: string, sep: char, t: string)
    requires sep !in p
    ensures Split(p + [sep] + t, sep) == [p] + Split(t, sep)
    decreases |p|
  {
    var s := p + [sep] + t;
    if |p| == 0 {
      assert s[1..] == t;
    } else {
      assert s[1..] == p[1..] + [sep] + t;
      SplitAfterPiece(p[1..], sep, t);
      assert [p[0]] + p[1..] == p;
    }
  }

  /** Splitting a join of separator-free pieces gives those pieces back. */
  lemma {:induction false} SplitJoin(pieces: seq<string>, sep: char)
    requires |pieces| >= 1
    requires forall i :: 0 <= i < |pieces| ==> sep !in pieces[i]
    ensures Split(Join(pieces, sep), sep) == pieces
    decreases |pieces|
  {
    if |pieces| == 1 {
      SplitNoSeparator(pieces[0], sep);
    } else {
      SplitJoin(pieces[1..], sep);
      SplitAfterPiece(pieces[0], sep, Join(pieces[1..], sep));
      assert [pieces[0]] + pieces[1..] == pieces;
    }
  }

  /**
   `Split` is characterised by its two properties: `pieces` is the split of
   `s` exactly when the pieces are separator-free and join back to `s`.
   */
  lemma SplitCharacterised(s: string, sep: char, pieces: seq<string>)
    ensures Split(s, sep) == pieces <==>
      && |pieces| >= 1
      && (forall i :: 0 <= i < |pieces| ==> sep !in pieces[i])
      && Join(pieces, sep) == s
  {
    if Split(s, sep) == pieces {
      JoinSplit(s, sep);
    }
    if && |pieces| >= 1
       && (forall i :: 0 <= i < |pieces| ==> sep !in pieces[i])
       && Join(pieces, sep) == s
    {
      SplitJoin(pieces, sep);
    }
  }

  /** The ASCII alphabet in both cases; letter i of one is letter i of the other. */
  const UpperLetters := "ABCDEFGHIJKLMNOPQRSTUVWXYZ"
  const LowerLetters := "abcdefghijklmnopqrstuvwxyz"

  predicate IsLowerAscii(c: char) { 'a' <= c <= 'z' }

  predicate IsUpperAscii(c: char) { 'A' <= c <= 'Z' }

  /** ASCII upper-casing: `a`..`z` map to `A`..`Z`, every other character is kept. */
  function ToUpperAscii(c: char): (u: char)
    ensures !IsLowerAscii(u)
    ensures IsLowerAscii(c) ==> u == UpperLetters[c as int - 'a' as int]
    ensures !IsLowerAscii(c) ==> u == c
  {
    if IsLowerAscii(c) then (c as int - 'a' as int + 'A' as int) as char else c
  }

  /** ASCII lower-casing: `A`..`Z` map to `a`..`z`, every other character is kept. */
  function ToLowerAscii(c: char): (l: char)
    ensures !IsUpperAscii(l)
    ensures IsUpperAscii(c) ==> l == LowerLetters[c as int - 'A' as int]
    ensures !IsUpperAscii(c) ==> l == c
  {
    if IsUpperAscii(c) then (c as int - 'A' as int + 'a' as int) as char else c
  }

  /** Upper-casing a letter and lower-casing it again gives the letter back. */
  lemma CaseRoundTrip(c: char)
    ensures IsLowerAscii(c) ==> ToLowerAscii(ToUpperAscii(c)) == c
    ensures IsUpperAscii(c) ==> ToUpperAscii(ToLowerAscii(c)) == c
  {
  }

  /**
   `s.charAt(0).toUpperCase() + s.slice(1)`: the first character is
   upper-cased and the rest is left exactly as it was (it is not
   lower-cased). The empty string stays empty.
   */
  function Capitalize(s: string): (r: string)
    ensures |r| == |s|
    ensures forall i :: 0 < i < |s| ==> r[i] == s[i]
    ensures |s| > 0 ==> !IsLowerAscii(r[0]) && ToLowerAscii(r[0]) == ToLowerAscii(s[0])
    ensures r == s <==> |s| == 0 || !IsLowerAscii(s[0])
  {
    if |s| == 0 then "" else [ToUpperAscii(s[0])] + s[1..]
  }

  /** Capitalising twice is the same as capitalising once. */
  lemma CapitalizeIdempotent(s: string)
    ensures Capitalize(Capitalize(s)) == Capitalize(s)
  {
  }
}
