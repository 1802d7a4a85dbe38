/** What splitting, stripping, containment, and the shipped lexicon built from them, mean. */
module TextLaws {
  import opened KeywordText

  predicate All(p: char -> bool, s: string) { forall c <- s :: p(c) }

  predicate Free(p: char -> bool, s: string) { forall c <- s :: !p(c) }

  // ---- Stripping -------------------------------------------------------------------------

  predicate Bounded(p: char -> bool, core: string) { core == "" || (!p(core[0]) && !p(core[|core| - 1])) }

  /** A core of a text: what is left of it without some leading and trailing characters of a kind, and no more of
      that kind at either end. */
  ghost predicate Core(p: char -> bool, s: string, core: string) {
    Bounded(p, core) && exists l, r :: Around(l, core, r) == s && All(p, l) && All(p, r)
  }

  function Around(l: string, core: string, r: string): string { l + core + r }

  lemma {:induction false} StripLeftMeaning(p: char -> bool, s: string) returns (l: string)
    ensures s == l + StripLeft(p, s) && All(p, l)
    ensures StripLeft(p, s) == "" || !p(StripLeft(p, s)[0])
  {
    if s != [] && p(s[0]) {
      var rest := StripLeftMeaning(p, s[1..]);
      l := [s[0]] + rest;
      assert s == [s[0]] + s[1..];
    } else {
      l := "";
    }
  }

  lemma {:induction false} StripRightMeaning(p: char -> bool, s: string) returns (r: string)
    ensures s == StripRight(p, s) + r && All(p, r)
    ensures StripRight(p, s) == "" || !p(StripRight(p, s)[|StripRight(p, s)| - 1])
  {
    if s != [] && p(s[|s| - 1]) {
      var rest := StripRightMeaning(p, s[..|s| - 1]);
      r := rest + [s[|s| - 1]];
      assert s == s[..|s| - 1] + [s[|s| - 1]];
    } else {
      r := "";
    }
  }

  /** Stripping leaves a core. */
  lemma {:induction false} StripIsCore(p: char -> bool, s: string)
    ensures Core(p, s, Strip(p, s))
  {
    var l := StripLeftMeaning(p, s);
    var left := StripLeft(p, s);
    var r := StripRightMeaning(p, left);
    var core := Strip(p, s);
    if core != "" { assert left[0] == core[0]; }
    assert Around(l, core, r) == s;
  }

  lemma {:induction false} StripLeftOff(p: char -> bool, l: string, s: string)
    requires All(p, l) && (s == "" || !p(s[0]))
    ensures StripLeft(p, l + s) == s
  {
    if l == "" {
      assert l + s == s;
    } else {
      assert l[0] in l;
      assert (l + s)[1..] == l[1..] + s;
      StripLeftOff(p, l[1..], s);
    }
  }

  lemma {:induction false} StripLeftAll(p: char -> bool, s: string)
    requires All(p, s)
    ensures StripLeft(p, s) == ""
  {
    StripLeftOff(p, s, "");
    assert s + "" == s;
  }

  lemma {:induction false} StripRightOff(p: char -> bool, s: string, r: string)
    requires All(p, r) && (s == "" || !p(s[|s| - 1]))
    ensures StripRight(p, s + r) == s
  {
    if r == "" {
      assert s + r == s;
    } else {
      var last := |r| - 1;
      assert r[last] in r;
      assert (s + r)[..|s + r| - 1] == s + r[..last];
      StripRightOff(p, s, r[..last]);
    }
  }

  /** And a text has only one core. */
  lemma {:induction false} CoreIsStrip(p: char -> bool, s: string, core: string)
    requires Core(p, s, core)
    ensures core == Strip(p, s)
  {
    var l, r :| Around(l, core, r) == s && All(p, l) && All(p, r);
    if core == "" {
      assert All(p, s);
      StripLeftAll(p, s);
    } else {
      assert s == l + (core + r);
      StripLeftOff(p, l, core + r);
      StripRightOff(p, core, r);
    }
  }

  // ---- Splitting -------------------------------------------------------------------------

  /** A stretch of a text: free of separators, and reaching to a separator or an end on either side. */
  predicate Stretch(p: char -> bool, s: string, a: string, w: string, b: string) {
    && s == a + w + b && Free(p, w)
    && (a == "" || p(a[|a| - 1])) && (b == "" || p(b[0]))
  }

  ghost predicate HasStretch(p: char -> bool, s: string, w: string) { exists a, b :: Stretch(p, s, a, w, b) }

  lemma {:induction false} SplitFree(p: char -> bool, s: string)
    requires Free(p, s)
    ensures Split(p, s) == [s]
  {
    if s != [] {
      assert s[0] in s;
      SplitFree(p, s[1..]);
      assert s == [s[0]] + s[1..];
    }
  }

  lemma {:induction false} SplitSeparator(p: char -> bool, s: string)
    requires s != "" && p(s[0])
    ensures Split(p, s) == [""] + Split(p, s[1..])
  {
  }

  lemma {:induction false} SplitOther(p: char -> bool, s: string)
    requires s != "" && !p(s[0])
    ensures Split(p, s) == [[s[0]] + Split(p, s[1..])[0]] + Split(p, s[1..])[1..]
  {
  }

  lemma ExtendFirst(c: char, first: seq<string>, rest: seq<string>)
    requires first != []
    ensures [[c] + (first + rest)[0]] + (first + rest)[1..] == ([[c] + first[0]] + first[1..]) + rest
  {
  }

  /** Splitting at a separator: the pieces before it, then the pieces after it. */
  lemma {:induction false} SplitAt(p: char -> bool, x: string, c: char, y: string)
    requires p(c)
    ensures Split(p, x + [c] + y) == Split(p, x) + Split(p, y)
  {
    var s := x + [c] + y;
    if x == "" {
      assert s[0] == c && s[1..] == y;
      SplitSeparator(p, s);
    } else {
      assert s[0] == x[0] && s[1..] == x[1..] + [c] + y;
      SplitAt(p, x[1..], c, y);
      if p(x[0]) {
        SplitSeparator(p, s);
        SplitSeparator(p, x);
      } else {
        SplitOther(p, s);
        SplitOther(p, x);
        ExtendFirst(x[0], Split(p, x[1..]), Split(p, y));
      }
    }
  }

  lemma {:induction false} FirstSeparator(p: char -> bool, s: string) returns (x: string, y: string)
    requires !Free(p, s)
    ensures Free(p, x) && |x| < |s| && p(s[|x|]) && s == x + [s[|x|]] + y && |y| < |s|
  {
    if p(s[0]) {
      x, y := "", s[1..];
      assert s == "" + [s[0]] + s[1..];
    } else {
      assert s == [s[0]] + s[1..];
      var u, v := FirstSeparator(p, s[1..]);
      x, y := [s[0]] + u, v;
    }
  }

  /** The pieces are all the stretches. */
  lemma {:induction false} PieceIff(p: char -> bool, s: string, w: string)
    ensures w in Split(p, s) <==> HasStretch(p, s, w)
  {
    if w in Split(p, s) { PieceIsStretch(p, s, w); }
    if HasStretch(p, s, w) {
      var a, b :| Stretch(p, s, a, w, b);
      StretchIsPiece(p, s, a, w, b);
    }
  }

  lemma StretchLater(p: char -> bool, x: string, c: char, y: string, a: string, w: string, b: string)
    requires p(c) && Stretch(p, y, a, w, b)
    ensures Stretch(p, x + [c] + y, x + [c] + a, w, b)
  {
    assert x + [c] + y == (x + [c] + a) + w + b;
  }

  lemma {:induction false} PieceIsStretch(p: char -> bool, s: string, w: string)
    requires w in Split(p, s)
    ensures HasStretch(p, s, w)
    decreases |s|
  {
    if Free(p, s) {
      SplitFree(p, s);
      assert Stretch(p, s, "", w, "");
    } else {
      var x, y := FirstSeparator(p, s);
      SplitAt(p, x, s[|x|], y);
      SplitFree(p, x);
      if w == x {
        assert Stretch(p, s, "", w, [s[|x|]] + y);
      } else {
        PieceIsStretch(p, y, w);
        StretchAfter(p, s, x, y, w);
      }
    }
  }

  lemma {:induction false} StretchAfter(p: char -> bool, s: string, x: string, y: string, w: string)
    requires |x| < |s| && s == x + [s[|x|]] + y && p(s[|x|]) && HasStretch(p, y, w)
    ensures HasStretch(p, s, w)
  {
    var a, b :| Stretch(p, y, a, w, b);
    StretchLater(p, x, s[|x|], y, a, w, b);
  }

  lemma {:induction false} StretchEnds(p: char -> bool, w: string, b: string)
    requires Free(p, w) && (b == "" || p(b[0]))
    ensures w in Split(p, w + b)
  {
    SplitFree(p, w);
    if b == "" {
      assert w + b == w;
    } else {
      assert w + b == w + [b[0]] + b[1..];
      SplitAt(p, w, b[0], b[1..]);
    }
  }

  lemma {:induction false} StretchIsPiece(p: char -> bool, s: string, a: string, w: string, b: string)
    requires Stretch(p, s, a, w, b)
    ensures w in Split(p, s)
  {
    StretchEnds(p, w, b);
    if a == "" {
      assert s == w + b;
    } else {
      var last := |a| - 1;
      assert s == a[..last] + [a[last]] + (w + b);
      SplitAt(p, a[..last], a[last], w + b);
    }
  }

  /** Pieces and separators laid alternately. */
  function Interleave(pieces: seq<string>, separators: string): string
    requires |pieces| == |separators| + 1
  {
    if separators == [] then pieces[0] else pieces[0] + [separators[0]] + Interleave(pieces[1..], separators[1..])
  }

  predicate Apart(p: char -> bool, pieces: seq<string>, separators: string) {
    |pieces| == |separators| + 1 && All(p, separators) && forall piece <- pieces :: Free(p, piece)
  }

  /** Laying the pieces back between separators gives the text again. */
  lemma {:induction false} SplitRejoins(p: char -> bool, s: string) returns (separators: string)
    ensures Apart(p, Split(p, s), separators) && Interleave(Split(p, s), separators) == s
    decreases |s|
  {
    if Free(p, s) {
      SplitFree(p, s);
      separators := "";
    } else {
      var x, y := FirstSeparator(p, s);
      var c := s[|x|];
      SplitAt(p, x, c, y);
      SplitFree(p, x);
      var rest := SplitRejoins(p, y);
      separators := [c] + rest;
      assert Split(p, s) == [x] + Split(p, y) && Split(p, s)[1..] == Split(p, y) && separators[1..] == rest;
    }
  }

  /** And only the pieces do. */
  lemma {:induction false} SplitUnique(p: char -> bool, pieces: seq<string>, separators: string)
    requires Apart(p, pieces, separators)
    ensures Split(p, Interleave(pieces, separators)) == pieces
  {
    assert pieces[0] in pieces;
    SplitFree(p, pieces[0]);
    if separators == [] {
      assert pieces == [pieces[0]];
    } else {
      assert separators[0] in separators;
      assert forall piece <- pieces[1..] :: piece in pieces;
      SplitUnique(p, pieces[1..], separators[1..]);
      SplitAt(p, pieces[0], separators[0], Interleave(pieces[1..], separators[1..]));
      assert pieces == [pieces[0]] + pieces[1..];
    }
  }

  // ---- Containment -----------------------------------------------------------------------

  /** A text contains a part exactly when the part occurs in it, after something and before something. */
  lemma {:induction false} ContainsIff(text: string, part: string)
    ensures Contains(text, part) <==> exists a, b :: Around(a, part, b) == text
  {
    if i :| 0 <= i <= |text| && StartsAt(text, part, i) {
      assert Around(text[..i], part, text[i..][|part|..]) == text;
    }
    if a, b :| Around(a, part, b) == text {
      assert text[|a|..] == part + b;
      assert StartsAt(text, part, |a|);
    }
  }
}
