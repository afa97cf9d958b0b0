/** The Python string primitives the layout relies on: `''.join`, `str.rjust`
    (and the `>w` format specification, which pads the same way) and runs of
    spaces. Strings are sequences of characters. */
module Strings {

  function Max(a: int, b: int): int
  {
    if a < b then b else a
  }

  predicate AllSpaces(s: string)
  {
    forall i :: 0 <= i < |s| ==> s[i] == ' '
  }

  /** A run of `k` space characters. */
  function Spaces(k: nat): (s: string)
    ensures |s| == k && AllSpaces(s)
  {
    if k == 0 then "" else Spaces(k - 1) + " "
  }

  /** `r` is `s` right-justified in a field of width `w`: the field is as
      wide as `w` or as `s`, whichever is larger, ends with `s`, and holds
      nothing but spaces in front of it. */
  predicate IsRightJustified(r: string, s: string, w: int)
  {
    && |r| == Max(w, |s|)
    && r[|r| - |s|..] == s
    && AllSpaces(r[..|r| - |s|])
  }

  /** Python's `s.rjust(w)` with the default fill character: left padding
      with spaces up to width `w`, never truncation (a width below `|s|`,
      zero or negative, leaves `s` as it is). */
  function RightJustify(s: string, w: int): (r: string)
    ensures IsRightJustified(r, s, w)
  {
    Spaces(if w > |s| then w - |s| else 0) + s
  }

  /** The converse of RightJustify's postcondition: the field is determined
      by the label and the width, so RightJustify is the only right-justified
      rendering. */
  lemma RightJustifyUnique(r: string, s: string, w: int)
    requires IsRightJustified(r, s, w)
    ensures r == RightJustify(s, w)
  {
    var k := |r| - |s|;
    var t := RightJustify(s, w);
    assert |t| == |r|;
    forall i | 0 <= i < |r|
      ensures r[i] == t[i]
    {
      if i < k {
        assert r[..k][i] == ' ';
        assert t[..k][i] == ' ';
      } else {
        assert r[k..][i - k] == s[i - k];
        assert t[k..][i - k] == s[i - k];
      }
    }
  }

  /** The sum of the lengths of the pieces. */
  function TotalLength(pieces: seq<string>): nat
  {
    if pieces == [] then 0
    else TotalLength(pieces[..|pieces| - 1]) + |pieces[|pieces| - 1]|
  }

  /** Python's `''.join(pieces)`: the pieces one after the other, with no
      separator. */
  function Concat(pieces: seq<string>): (r: string)
    ensures |r| == TotalLength(pieces)
  {
    if pieces == [] then ""
    else Concat(pieces[..|pieces| - 1]) + pieces[|pieces| - 1]
  }

  lemma {:induction false} ConcatAppend(a: seq<string>, b: seq<string>)
    ensures Concat(a + b) == Concat(a) + Concat(b)
    decreases |b|
  {
    if b == [] {
      assert a + b == a;
    } else {
      var b' := b[..|b| - 1];
      assert (a + b)[..|a + b| - 1] == a + b';
      ConcatAppend(a, b');
    }
  }

  /** Joining keeps every piece whole and in order: piece `c` occupies the
      characters from the total length of the pieces before it, for its own
      length. */
  lemma PieceAt(pieces: seq<string>, c: int)
    requires 0 <= c < |pieces|
    ensures TotalLength(pieces[..c + 1]) == TotalLength(pieces[..c]) + |pieces[c]|
    ensures TotalLength(pieces[..c + 1]) <= |Concat(pieces)|
    ensures Concat(pieces)[TotalLength(pieces[..c]) .. TotalLength(pieces[..c + 1])] == pieces[c]
  {
    var before, rest := pieces[..c], pieces[c + 1..];
    assert pieces[..c + 1][..c] == before;
    assert pieces == (before + [pieces[c]]) + rest;
    ConcatAppend(before + [pieces[c]], rest);
    ConcatAppend(before, [pieces[c]]);
    assert [pieces[c]][..0] == [];
    assert pieces[..c + 1] == before + [pieces[c]];
  }

  /** Every piece is at least one character long, so the joined string is at
      least as long as the number of pieces, and exactly as long if and only
      if every piece is a single character. */
  lemma {:induction false} TotalLengthOfNonEmpty(pieces: seq<string>)
    requires forall i :: 0 <= i < |pieces| ==> |pieces[i]| >= 1
    ensures TotalLength(pieces) >= |pieces|
    ensures TotalLength(pieces) == |pieces| <==> forall i :: 0 <= i < |pieces| ==> |pieces[i]| == 1
  {
    if pieces != [] {
      var init := pieces[..|pieces| - 1];
      TotalLengthOfNonEmpty(init);
      if TotalLength(pieces) == |pieces| {
        forall i | 0 <= i < |pieces|
          ensures |pieces[i]| == 1
        {
          if i < |init| {
            assert pieces[i] == init[i];
          }
        }
      }
    }
  }

  /** Joining single characters spells them out one per position. */
  lemma {:induction false} ConcatOfSingletons(pieces: seq<string>)
    requires forall i :: 0 <= i < |pieces| ==> |pieces[i]| == 1
    ensures |Concat(pieces)| == |pieces|
    ensures forall i :: 0 <= i < |pieces| ==> Concat(pieces)[i] == pieces[i][0]
  {
    if pieces != [] {
      var init := pieces[..|pieces| - 1];
      ConcatOfSingletons(init);
      TotalLengthOfNonEmpty(pieces);
    }
  }
}
