/** The handful of Go `strings` operations the request classifier relies on,
    over Dafny strings (sequences of Unicode scalar values). Each operation
    carries a declarative characterisation, and the lemmas below connect the
    operations with their partners: `Join` for `Split`, uniqueness for
    `TrimRight`, and the final-segment predicate for the last piece of a split. */
module Strings {

  /** `strings.HasPrefix`: a raw character-wise prefix test with no notion of
      path segments. */
  predicate HasPrefix(s: string, prefix: string): (b: bool)
    ensures b <==> |prefix| <= |s| && forall i :: 0 <= i < |prefix| ==> s[i] == prefix[i]
  {
    |prefix| <= |s| && s[..|prefix|] == prefix
  }

  /** A prefix of `s` stays a prefix whatever is appended to `s`. */
  lemma HasPrefixAppend(s: string, t: string, prefix: string)
    requires HasPrefix(s, prefix)
    ensures HasPrefix(s + t, prefix)
  {
    assert (s + t)[..|prefix|] == s[..|prefix|];
  }

  /** `s` has no occurrence of `c`. */
  predicate Lacks(s: string, c: char) {
    forall k :: 0 <= k < |s| ==> s[k] != c
  }

  /** `strings.TrimRight(s, cutset)` for a one-character cutset: every trailing
      occurrence of `c` is removed, not just one. */
  function TrimRight(s: string, c: char): (r: string)
    ensures |r| <= |s| && r == s[..|r|]
    ensures |r| == 0 || r[|r| - 1] != c
    ensures forall i :: |r| <= i < |s| ==> s[i] == c
    decreases |s|
  {
    if |s| > 0 && s[|s| - 1] == c then TrimRight(s[..|s| - 1], c) else s
  }

  /** Any prefix of `s` that does not end in `c` and is followed only by `c`s
      is the result of `TrimRight`: the characterisation above is complete. */
  lemma TrimRightUnique(s: string, c: char, r: string)
    requires |r| <= |s| && r == s[..|r|]
    requires |r| == 0 || r[|r| - 1] != c
    requires forall i :: |r| <= i < |s| ==> s[i] == c
    ensures TrimRight(s, c) == r
  {
    var t := TrimRight(s, c);
    assert |r| > 0 ==> r[|r| - 1] == s[|r| - 1];
    assert |t| > 0 ==> t[|t| - 1] == s[|t| - 1];
    assert |t| == |r|;
  }

  /** Appending one more `c` does not change what `TrimRight` yields. */
  lemma TrimRightAppend(s: string, c: char)
    ensures TrimRight(s + [c], c) == TrimRight(s, c)
  {
    var t := TrimRight(s, c);
    TrimRightUnique(s + [c], c, t);
  }

  /** Trimming twice is trimming once. */
  lemma TrimRightIdempotent(s: string, c: char)
    ensures TrimRight(TrimRight(s, c), c) == TrimRight(s, c)
  {
    var t := TrimRight(s, c);
    TrimRightUnique(t, c, t);
  }

  /** The last of a non-empty sequence of pieces. */
  function Last(parts: seq<string>): string
    requires |parts| >= 1
  {
    parts[|parts| - 1]
  }

  /** `strings.Split(s, sep)` for a one-character separator: the maximal runs
      between separators. As in Go, the empty string splits into one empty
      piece, and n separators always give n + 1 pieces. Go scans from the left;
      this definition grows the pieces from the right, and `SplitUnique` shows
      that the pieces are determined by `s` alone. */
  function Split(s: string, sep: char): (parts: seq<string>)
    ensures |parts| >= 1
    ensures forall i :: 0 <= i < |parts| ==> Lacks(parts[i], sep)
    decreases |s|
  {
    if |s| == 0 then [""]
    else
      var init := Split(s[..|s| - 1], sep);
      var ch := s[|s| - 1];
      if ch == sep then init + [""]
      else init[..|init| - 1] + [Last(init) + [ch]]
  }

  /** The inverse of `Split`: the pieces glued back together with `sep`. */
  function Join(parts: seq<string>, sep: char): string
    requires |parts| >= 1
    decreases |parts|
  {
    if |parts| == 1 then parts[0] else Join(parts[..|parts| - 1], sep) + [sep] + Last(parts)
  }

  /** Extending the last piece extends the joined string by the same character. */
  lemma JoinExtendLast(parts: seq<string>, sep: char, ch: char)
    requires |parts| >= 1
    ensures Join(parts[..|parts| - 1] + [Last(parts) + [ch]], sep) == Join(parts, sep) + [ch]
  {
    var q := parts[..|parts| - 1] + [Last(parts) + [ch]];
    if |parts| > 1 {
      assert q[..|q| - 1] == parts[..|parts| - 1];
    }
  }

  /** Adding a piece adds the separator and that piece to the joined string. */
  lemma JoinAppendPiece(parts: seq<string>, sep: char, piece: string)
    requires |parts| >= 1
    ensures Join(parts + [piece], sep) == Join(parts, sep) + [sep] + piece
  {
    assert (parts + [piece])[..|parts|] == parts;
  }

  /** Joining the pieces of `Split` with the separator gives the string back. */
  lemma {:induction false} JoinSplit(s: string, sep: char)
    ensures Join(Split(s, sep), sep) == s
    decreases |s|
  {
    if |s| > 0 {
      var t := s[..|s| - 1];
      var ch := s[|s| - 1];
      var init := Split(t, sep);
      JoinSplit(t, sep);
      assert s == t + [ch];
      if ch == sep {
        assert Split(s, sep) == init + [""];
        JoinAppendPiece(init, sep, "");
      } else {
        assert Split(s, sep) == init[..|init| - 1] + [Last(init) + [ch]];
        JoinExtendLast(init, sep, ch);
      }
    }
  }

  /** A separator followed by a separator-free `piece` adds `piece` as one more piece. */
  lemma {:induction false} SplitAppendPiece(a: string, sep: char, piece: string)
    requires Lacks(piece, sep)
    ensures Split(a + [sep] + piece, sep) == Split(a, sep) + [piece]
    decreases |piece|
  {
    var s := a + [sep] + piece;
    if |piece| == 0 {
      assert s[..|s| - 1] == a;
    } else {
      var shorter := piece[..|piece| - 1];
      var ch := piece[|piece| - 1];
      SplitAppendPiece(a, sep, shorter);
      var init := Split(a + [sep] + shorter, sep);
      assert init == Split(a, sep) + [shorter];
      assert s[..|s| - 1] == a + [sep] + shorter;
      assert s[|s| - 1] == ch && ch != sep;
      assert Split(s, sep) == init[..|init| - 1] + [Last(init) + [ch]];
      assert init[..|init| - 1] == Split(a, sep);
      assert Last(init) + [ch] == piece;
    }
  }

  /** A string without the separator is a single piece. */
  lemma {:induction false} SplitNoSeparator(p: string, sep: char)
    requires Lacks(p, sep)
    ensures Split(p, sep) == [p]
    decreases |p|
  {
    if |p| > 0 {
      var shorter := p[..|p| - 1];
      SplitNoSeparator(shorter, sep);
      assert shorter + [p[|p| - 1]] == p;
    }
  }

  /** Splitting a join of separator-free pieces gives the pieces back. */
  lemma {:induction false} SplitJoin(parts: seq<string>, sep: char)
    requires |parts| >= 1
    requires forall i :: 0 <= i < |parts| ==> Lacks(parts[i], sep)
    ensures Split(Join(parts, sep), sep) == parts
    decreases |parts|
  {
    if |parts| == 1 {
      SplitNoSeparator(parts[0], sep);
    } else {
      var init := parts[..|parts| - 1];
      SplitJoin(init, sep);
      SplitAppendPiece(Join(init, sep), sep, Last(parts));
      assert init + [Last(parts)] == parts;
    }
  }

  /** The contract of `Split` determines it: any separator-free pieces that
      join to `s` are `Split(s, sep)`. */
  lemma SplitUnique(s: string, sep: char, parts: seq<string>)
    requires |parts| >= 1
    requires forall i :: 0 <= i < |parts| ==> Lacks(parts[i], sep)
    requires Join(parts, sep) == s
    ensures Split(s, sep) == parts
  {
    SplitJoin(parts, sep);
  }

  /** `seg` is the text after the last `c` in `s` (all of `s` when `s` has no `c`). */
  ghost predicate IsFinalSegment(seg: string, s: string, c: char) {
    && |seg| <= |s|
    && seg == s[|s| - |seg|..]
    && Lacks(seg, c)
    && (|seg| == |s| || s[|s| - |seg| - 1] == c)
  }

  /** There is only one final segment. */
  lemma FinalSegmentUnique(a: string, b: string, s: string, c: char)
    requires IsFinalSegment(a, s, c) && IsFinalSegment(b, s, c)
    ensures a == b
  {
    assert forall j :: 0 <= j < |a| ==> a[j] == s[|s| - |a| + j];
    assert forall j :: 0 <= j < |b| ==> b[j] == s[|s| - |b| + j];
  }

  /** The last piece of `Split` is exactly the text after the last separator. */
  lemma {:induction false} LastPieceIsFinalSegment(s: string, c: char)
    ensures IsFinalSegment(Last(Split(s, c)), s, c)
    decreases |s|
  {
    if |s| > 0 && s[|s| - 1] != c {
      var t := s[..|s| - 1];
      LastPieceIsFinalSegment(t, c);
      var seg := Last(Split(t, c));
      assert Last(Split(s, c)) == seg + [s[|s| - 1]];
      assert s[|s| - |seg| - 1..] == t[|t| - |seg|..] + [s[|s| - 1]];
      assert |seg| < |t| ==> s[|s| - |seg| - 2] == t[|t| - |seg| - 1];
    }
  }

  /** The last piece of `Split` is the unique final segment. */
  lemma LastPieceEquals(s: string, c: char, seg: string)
    requires IsFinalSegment(seg, s, c)
    ensures Last(Split(s, c)) == seg
  {
    LastPieceIsFinalSegment(s, c);
    FinalSegmentUnique(Last(Split(s, c)), seg, s, c);
  }

  /** The lower-case form of one character, for the ASCII letters. */
  function LowerChar(ch: char): char {
    if 'A' <= ch <= 'Z' then (ch as int + 32) as char else ch
  }

  /** `strings.ToLower`, character by character, with ASCII case mapping. */
  function ToLower(s: string): (r: string)
    ensures |r| == |s|
    ensures forall i :: 0 <= i < |s| ==> r[i] == LowerChar(s[i])
    decreases |s|
  {
    if |s| == 0 then "" else [LowerChar(s[0])] + ToLower(s[1..])
  }

  /** A character lowers to the lower-case letter `w` exactly when it is `w`
      or its upper-case form. */
  lemma LowerCharEquals(ch: char, w: char)
    requires 'a' <= w <= 'z'
    ensures LowerChar(ch) == w <==> ch == w || ch as int == w as int - 32
  {
  }

  /** `ToLower(s)` equals a lower-case word exactly when `s` spells that word
      with each letter in either case. */
  lemma ToLowerEqualsIff(s: string, word: string)
    requires forall i :: 0 <= i < |word| ==> 'a' <= word[i] <= 'z'
    ensures ToLower(s) == word <==>
      |s| == |word| && forall i :: 0 <= i < |s| ==> s[i] == word[i] || s[i] as int == word[i] as int - 32
  {
    var r := ToLower(s);
    forall i | 0 <= i < |s| && i < |word|
      ensures r[i] == word[i] <==> s[i] == word[i] || s[i] as int == word[i] as int - 32
    {
      LowerCharEquals(s[i], word[i]);
    }
  }
}
