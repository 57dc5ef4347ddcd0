/** What the tidying half of `cleanMWText` does to the text itself. A string
    is viewed as its visible (non-whitespace) characters, `Unspace`, together
    with its gaps, `Breaks`: for every position between, before and after the
    visible characters, whether any whitespace stood there. Passes 4 to 7 are
    then described exactly on that view. */
module MarkupContent {
  import opened Text
  import opened MarkupCleaner

  // =====================================================================
  // The view
  // =====================================================================

  /** `s` with its whitespace removed. */
  function Unspace(s: string): (u: string)
    ensures |u| <= |s|
  {
    if s == [] then []
    else if IsSpace(s[0]) then Unspace(s[1..])
    else [s[0]] + Unspace(s[1..])
  }

  /** `Unspace` leaves no whitespace. */
  lemma {:induction false} UnspaceVisible(s: string)
    ensures forall i :: 0 <= i < |Unspace(s)| ==> !IsSpace(Unspace(s)[i])
    decreases |s|
  {
    if s != [] {
      UnspaceVisible(s[1..]);
    }
  }

  /** Entry `k` says whether whitespace stands right before the `k`-th
      visible character of `s`; the last entry says whether `s` ends in it. */
  function Breaks(s: string): (b: seq<bool>)
    ensures |b| == |Unspace(s)| + 1
  {
    if s == [] then [false]
    else if IsSpace(s[0]) then Breaks(s[1..])[0 := true]
    else [false] + Breaks(s[1..])
  }

  lemma ViewCons(c: char, t: string)
    ensures Unspace([c] + t) == if IsSpace(c) then Unspace(t) else [c] + Unspace(t)
    ensures Breaks([c] + t) == if IsSpace(c) then Breaks(t)[0 := true] else [false] + Breaks(t)
  {
    assert ([c] + t)[1..] == t;
  }

  /** Whitespace in front of `t` only opens the first gap. */
  lemma {:induction false} SpacePrefix(a: string, t: string)
    requires AllSpace(a)
    ensures Unspace(a + t) == Unspace(t)
    ensures Breaks(a + t) == if a == [] then Breaks(t) else Breaks(t)[0 := true]
    decreases |a|
  {
    if a == [] {
      assert a + t == t;
    } else {
      assert a + t == [a[0]] + (a[1..] + t);
      assert AllSpace(a[1..]) by {
        forall i | 0 <= i < |a[1..]| ensures IsSpace(a[1..][i]) {
          assert a[1..][i] == a[i + 1];
        }
      }
      SpacePrefix(a[1..], t);
      ViewCons(a[0], a[1..] + t);
    }
  }

  /** Whitespace after `t` only opens the last gap. */
  lemma {:induction false} SpaceSuffix(t: string, a: string)
    requires AllSpace(a)
    ensures Unspace(t + a) == Unspace(t)
    ensures Breaks(t + a) == if a == [] then Breaks(t) else Breaks(t)[|Unspace(t)| := true]
    decreases |t|
  {
    if t == [] {
      assert t + a == a + [];
      SpacePrefix(a, []);
    } else {
      assert t + a == [t[0]] + (t[1..] + a);
      assert t == [t[0]] + t[1..];
      SpaceSuffix(t[1..], a);
      ViewCons(t[0], t[1..] + a);
      ViewCons(t[0], t[1..]);
    }
  }

  /** A string that ends in a visible character (or is empty) has no gap at
      its end. */
  lemma {:induction false} NoTrailingGap(r: string)
    requires r != [] ==> !IsSpace(r[|r| - 1])
    ensures !Breaks(r)[|Unspace(r)|]
    decreases |r|
  {
    if r != [] {
      var t := r[1..];
      if t != [] {
        assert t[|t| - 1] == r[|r| - 1];
      }
      NoTrailingGap(t);
    }
  }

  // =====================================================================
  // Pass 4: every whitespace run becomes one space
  // =====================================================================

  /** Pass 4 keeps the visible text and every gap. */
  lemma {:induction false} CollapseContent(s: string)
    ensures Unspace(Collapse(s)) == Unspace(s)
    ensures Breaks(Collapse(s)) == Breaks(s)
    decreases |s|
  {
    if s != [] {
      if IsSpace(s[0]) {
        var k := SpaceRun(s);
        CollapseContent(s[k..]);
        assert s == s[..k] + s[k..];
        SpacePrefix(s[..k], s[k..]);
        ViewCons(' ', Collapse(s[k..]));
      } else {
        CollapseContent(s[1..]);
        ViewCons(s[0], Collapse(s[1..]));
        ViewCons(s[0], s[1..]);
        assert s == [s[0]] + s[1..];
      }
    }
  }

  /** A single-spaced string is determined by its visible text and its gaps. */
  lemma {:induction false} SingleSpacedUnique(a: string, b: string)
    requires SingleSpaced(a) && SingleSpaced(b)
    requires Unspace(a) == Unspace(b) && Breaks(a) == Breaks(b)
    ensures a == b
    decreases |a|
  {
    if a == [] || b == [] {
      EmptyView(a);
      EmptyView(b);
    } else {
      var a', b' := a[1..], b[1..];
      assert a == [a[0]] + a';
      assert b == [b[0]] + b';
      ViewCons(a[0], a');
      ViewCons(b[0], b');
      SingleSpacedSuffix(a, 1);
      SingleSpacedSuffix(b, 1);
      assert IsSpace(a[0]) == Breaks(a)[0] == IsSpace(b[0]);
      if IsSpace(a[0]) {
        assert a' != [] ==> !IsSpace(a'[0]);
        assert b' != [] ==> !IsSpace(b'[0]);
        FirstGapClosed(a');
        FirstGapClosed(b');
        assert Breaks(a') == Breaks(a)[0 := false];
        assert Breaks(b') == Breaks(b)[0 := false];
      } else {
        assert Breaks(a') == Breaks(a)[1..];
        assert Breaks(b') == Breaks(b)[1..];
        assert Unspace(a') == Unspace(a)[1..];
        assert Unspace(b') == Unspace(b)[1..];
      }
      SingleSpacedUnique(a', b');
    }
  }

  /** Only the empty string has no visible text and no gap. */
  lemma EmptyView(s: string)
    ensures s == [] <==> Unspace(s) == [] && Breaks(s) == [false]
  {
    if s != [] {
      assert s == [s[0]] + s[1..];
      ViewCons(s[0], s[1..]);
    }
  }

  /** The tail of a single-spaced string after its leading space has no gap
      at its start. */
  lemma FirstGapClosed(t: string)
    requires t != [] ==> !IsSpace(t[0])
    ensures !Breaks(t)[0]
  {
  }

  /** Pass 4 gives the one single-spaced string with the input's visible
      text and gaps. */
  lemma CollapseCanonical(s: string, t: string)
    requires SingleSpaced(t) && Unspace(t) == Unspace(s) && Breaks(t) == Breaks(s)
    ensures t == Collapse(s)
  {
    CollapseContent(s);
    CollapseSingleSpaced(s);
    SingleSpacedUnique(t, Collapse(s));
  }

  // =====================================================================
  // Pass 5: whitespace before `,.;:!?` is removed
  // =====================================================================

  /** The gaps `br` of the visible text `u` with the gap before each of
      `,.;:!?` closed. */
  function ClosePunctGaps(u: string, br: seq<bool>): (c: seq<bool>)
    requires |br| == |u| + 1
    ensures |c| == |br|
    ensures forall k :: 0 <= k < |br| ==> c[k] == (br[k] && !(k < |u| && IsPunct(u[k])))
  {
    if u == [] then br
    else [br[0] && !IsPunct(u[0])] + ClosePunctGaps(u[1..], br[1..])
  }

  /** Pass 5 keeps the visible text and every gap except those right before
      punctuation, which it closes. */
  lemma {:induction false} PunctFixContent(s: string)
    ensures Unspace(PunctFix(s)) == Unspace(s)
    ensures Breaks(PunctFix(s)) == ClosePunctGaps(Unspace(s), Breaks(s))
    decreases |s|
  {
    if s != [] {
      if SpaceThenPunct(s) {
        PunctFixContent(s[SpaceRun(s) + 1..]);
        PunctGapKeeps(s);
      } else {
        PunctFixContent(s[1..]);
        PunctCopyKeeps(s);
      }
    }
  }

  /** The statement of `PunctFixContent` for one string. */
  predicate PunctFixKeeps(s: string)
  {
    Unspace(PunctFix(s)) == Unspace(s) && Breaks(PunctFix(s)) == ClosePunctGaps(Unspace(s), Breaks(s))
  }

  /** The step of `PunctFixContent` where whitespace before punctuation goes. */
  lemma PunctGapKeeps(s: string)
    requires SpaceThenPunct(s)
    requires PunctFixKeeps(s[SpaceRun(s) + 1..])
    ensures PunctFixKeeps(s)
  {
    var k := SpaceRun(s);
    var rest := s[k + 1..];
    assert s == s[..k] + ([s[k]] + rest);
    PunctGapUnfold(s);
    PunctGapView(s[..k], s[k], rest, PunctFix(rest));
  }

  lemma PunctGapView(w: string, c: char, rest: string, y: string)
    requires w != [] && AllSpace(w) && IsPunct(c)
    requires Unspace(y) == Unspace(rest) && Breaks(y) == ClosePunctGaps(Unspace(rest), Breaks(rest))
    ensures Unspace([c] + y) == Unspace(w + ([c] + rest))
    ensures Breaks([c] + y) == ClosePunctGaps(Unspace(w + ([c] + rest)), Breaks(w + ([c] + rest)))
  {
    assert !IsSpace(c);
    GapView(w, c, rest);
    ViewCons(c, y);
    ClosePunctCons(c, Unspace(rest), true, Breaks(rest));
  }

  /** The view of whitespace, a visible character, then `rest`. */
  lemma GapView(w: string, c: char, rest: string)
    requires w != [] && AllSpace(w) && !IsSpace(c)
    ensures Unspace(w + ([c] + rest)) == [c] + Unspace(rest)
    ensures Breaks(w + ([c] + rest)) == [true] + Breaks(rest)
  {
    SpacePrefix(w, [c] + rest);
    ViewCons(c, rest);
    assert ([false] + Breaks(rest))[0 := true] == [true] + Breaks(rest);
  }

  /** Closing the gaps of a visible character in front of `u`. */
  lemma ClosePunctCons(c: char, u: string, first: bool, br: seq<bool>)
    requires |br| == |u| + 1
    ensures ClosePunctGaps([c] + u, [first] + br) == [first && !IsPunct(c)] + ClosePunctGaps(u, br)
  {
    assert ([c] + u)[1..] == u && ([first] + br)[1..] == br;
  }

  /** The step of `PunctFixContent` where the first character is kept. */
  lemma PunctCopyKeeps(s: string)
    requires s != [] && !SpaceThenPunct(s)
    requires PunctFixKeeps(s[1..])
    ensures PunctFixKeeps(s)
  {
    var y := PunctFix(s[1..]);
    assert s == [s[0]] + s[1..];
    PunctCopyUnfold(s);
    ViewCons(s[0], s[1..]);
    ViewCons(s[0], y);
    var u, br := Unspace(s[1..]), Breaks(s[1..]);
    if IsSpace(s[0]) {
      FirstVisible(s);
      CloseFrontOpen(u, br);
    } else {
      ClosePunctCons(s[0], u, false, br);
    }
  }

  /** Opening the first gap commutes with closing the gaps before
      punctuation when the text does not start with punctuation. */
  lemma CloseFrontOpen(u: string, br: seq<bool>)
    requires |br| == |u| + 1 && (u == [] || !IsPunct(u[0]))
    ensures ClosePunctGaps(u, br[0 := true]) == ClosePunctGaps(u, br)[0 := true]
  {
    var l, r := ClosePunctGaps(u, br[0 := true]), ClosePunctGaps(u, br)[0 := true];
    forall k | 0 <= k < |br| ensures l[k] == r[k] {
    }
  }

  lemma {:induction false} FirstVisible(s: string)
    ensures SpaceRun(s) < |s| ==> Unspace(s) != [] && Unspace(s)[0] == s[SpaceRun(s)]
    ensures SpaceRun(s) == |s| ==> Unspace(s) == []
    decreases |s|
  {
    if s != [] && IsSpace(s[0]) {
      FirstVisible(s[1..]);
      assert s[SpaceRun(s)..] == s[1..][SpaceRun(s[1..])..];
    }
  }


  // =====================================================================
  // Pass 6: a dash at the start or after whitespace, then whitespace
  // =====================================================================

  /** `v` is the visible text `u` (with gaps `br`) with some `–` turned into
      `—`. Each changed dash has an open gap after it, and an open gap before
      it too unless it is the first character of a scan from the start. */
  predicate DashesFixed(u: string, v: string, br: seq<bool>, atStart: bool)
    requires |br| == |u| + 1
  {
    && |v| == |u|
    && forall k :: 0 <= k < |u| ==>
         v[k] == u[k] || (u[k] == EnDash && v[k] == EmDash && br[k + 1] && (br[k] || (k == 0 && atStart)))
  }

  /** What `DashFixContent` states about one call. */
  predicate DashFixKeeps(s: string, atStart: bool) {
    && Breaks(DashFix(s, atStart)) == Breaks(s)
    && DashesFixed(Unspace(s), Unspace(DashFix(s, atStart)), Breaks(s), atStart)
  }

  /** Pass 6 keeps every gap and the visible text, except that it may turn a
      `–` standing where the pattern matches into `—`. */
  lemma {:induction false} DashFixContent(s: string, atStart: bool)
    ensures Breaks(DashFix(s, atStart)) == Breaks(s)
    ensures DashesFixed(Unspace(s), Unspace(DashFix(s, atStart)), Breaks(s), atStart)
    decreases |s|
  {
    if s != [] {
      if atStart && IsDash(s[0]) && SpaceRun(s[1..]) > 0 {
        var m := 1 + SpaceRun(s[1..]);
        DashFixContent(s[m..], false);
        DashLeadKeeps(s);
      } else if |s| >= 2 && IsSpace(s[0]) && IsDash(s[1]) && SpaceRun(s[2..]) > 0 {
        var m := 2 + SpaceRun(s[2..]);
        DashFixContent(s[m..], false);
        DashInnerKeeps(s, atStart);
      } else {
        DashFixContent(s[1..], false);
        DashCopyKeeps(s, atStart);
      }
    }
  }

  /** The step of `DashFixContent` for a dash at the start of the scan. */
  lemma DashLeadKeeps(s: string)
    requires s != [] && IsDash(s[0]) && SpaceRun(s[1..]) > 0
    requires DashFixKeeps(s[1 + SpaceRun(s[1..])..], false)
    ensures DashFixKeeps(s, true)
  {
    var m := 1 + SpaceRun(s[1..]);
    var rest := s[m..];
    var x := DashFix(rest, false);
    assert s == [s[0]] + (s[1..m] + rest);
    assert s[1..m] == s[1..][..m - 1];
    SpacePrefix(s[1..m], rest);
    ViewCons(s[0], s[1..m] + rest);
    DashLeadUnfold(s);
    assert " " + x == [' '] + x;
    ViewCons(' ', x);
    ViewCons(EmDash, [' '] + x);
    DashStep(Unspace(rest), Unspace(x), Breaks(rest), s[0], EmDash, false, true, true);
  }

  /** The step of `DashFixContent` for a dash after whitespace. */
  lemma DashInnerKeeps(s: string, atStart: bool)
    requires |s| >= 2 && IsSpace(s[0]) && IsDash(s[1]) && SpaceRun(s[2..]) > 0
    requires DashFixKeeps(s[2 + SpaceRun(s[2..])..], false)
    ensures DashFixKeeps(s, atStart)
  {
    var m := 2 + SpaceRun(s[2..]);
    var rest := s[m..];
    assert s[2..m] == s[2..][..m - 2];
    assert s == [s[0]] + ([s[1]] + (s[2..m] + rest));
    DashInnerUnfold(s, atStart);
    SpacedView(s, s[0], s[1], s[2..m], rest);
    SpacedView(DashFix(s, atStart), s[0], EmDash, " ", DashFix(rest, false));
    DashInnerView(s, DashFix(s, atStart), s[1], rest, DashFix(rest, false), atStart);
  }

  /** `DashInnerKeeps` from the views of the input `s` and of the output `t`. */
  lemma DashInnerView(s: string, t: string, c: char, rest: string, x: string, atStart: bool)
    requires IsDash(c)
    requires Unspace(s) == [c] + Unspace(rest) && Breaks(s) == [true] + Breaks(rest)[0 := true]
    requires Unspace(t) == [EmDash] + Unspace(x) && Breaks(t) == [true] + Breaks(x)[0 := true]
    requires Breaks(x) == Breaks(rest) && DashesFixed(Unspace(rest), Unspace(x), Breaks(rest), false)
    ensures Breaks(t) == Breaks(s) && DashesFixed(Unspace(s), Unspace(t), Breaks(s), atStart)
  {
    DashStep(Unspace(rest), Unspace(x), Breaks(rest), c, EmDash, true, true, atStart);
  }

  /** The view of whitespace, a visible character, more whitespace, then `rest`. */
  lemma SpacedView(s: string, c0: char, c: char, w: string, rest: string)
    requires IsSpace(c0) && !IsSpace(c) && w != [] && AllSpace(w)
    requires s == [c0] + ([c] + (w + rest))
    ensures Unspace(s) == [c] + Unspace(rest)
    ensures Breaks(s) == [true] + Breaks(rest)[0 := true]
  {
    DashView(c, w, rest);
    ViewCons(c0, [c] + (w + rest));
    var b := Breaks(rest)[0 := true];
    assert ([false] + b)[0 := true] == [true] + b;
  }


  /** The view of a visible character, a whitespace run, then `rest`. */
  lemma DashView(c: char, w: string, rest: string)
    requires !IsSpace(c) && w != [] && AllSpace(w)
    ensures Unspace([c] + (w + rest)) == [c] + Unspace(rest)
    ensures Breaks([c] + (w + rest)) == [false] + Breaks(rest)[0 := true]
  {
    SpacePrefix(w, rest);
    ViewCons(c, w + rest);
  }

  /** The step of `DashFixContent` for a copied character. */
  lemma DashCopyKeeps(s: string, atStart: bool)
    requires s != []
    requires !(atStart && IsDash(s[0]) && SpaceRun(s[1..]) > 0)
    requires !(|s| >= 2 && IsSpace(s[0]) && IsDash(s[1]) && SpaceRun(s[2..]) > 0)
    requires DashFixKeeps(s[1..], false)
    ensures DashFixKeeps(s, atStart)
  {
    var x := DashFix(s[1..], false);
    assert s == [s[0]] + s[1..];
    DashCopyUnfold(s, atStart);
    ViewCons(s[0], s[1..]);
    ViewCons(s[0], x);
    if IsSpace(s[0]) {
      DashesOpenFront(Unspace(s[1..]), Unspace(x), Breaks(s[1..]), atStart);
    } else {
      DashStep(Unspace(s[1..]), Unspace(x), Breaks(s[1..]), s[0], s[0], false, false, atStart);
    }
  }

  /** One visible character `c` (becoming `e`), with the gap before it
      `first`, in front of a stretch where `DashesFixed` already holds; the
      gap after `c` is open when `open`. */
  lemma DashStep(u: string, v: string, br: seq<bool>, c: char, e: char, first: bool, open: bool, atStart: bool)
    requires |br| == |u| + 1 && DashesFixed(u, v, br, false)
    requires e == c || (c == EnDash && e == EmDash && open && (first || atStart))
    ensures DashesFixed([c] + u, [e] + v, [first] + (if open then br[0 := true] else br), atStart)
  {
    var u', v' := [c] + u, [e] + v;
    var b' := [first] + (if open then br[0 := true] else br);
    forall k | 0 <= k < |u'|
      ensures v'[k] == u'[k] || (u'[k] == EnDash && v'[k] == EmDash && b'[k + 1] && (b'[k] || (k == 0 && atStart)))
    {
      if k > 0 {
        assert u'[k] == u[k - 1] && v'[k] == v[k - 1];
        assert v[k - 1] == u[k - 1] || (u[k - 1] == EnDash && v[k - 1] == EmDash && br[k] && br[k - 1]);
        assert br[k] ==> b'[k + 1];
        assert br[k - 1] ==> b'[k];
      }
    }
  }

  /** Opening a gap at the front keeps `DashesFixed`. */
  lemma DashesOpenFront(u: string, v: string, br: seq<bool>, atStart: bool)
    requires |br| == |u| + 1 && DashesFixed(u, v, br, false)
    ensures DashesFixed(u, v, br[0 := true], atStart)
  {
    var b' := br[0 := true];
    forall k | 0 <= k < |u|
      ensures v[k] == u[k] || (u[k] == EnDash && v[k] == EmDash && b'[k + 1] && (b'[k] || (k == 0 && atStart)))
    {
      assert v[k] == u[k] || (u[k] == EnDash && v[k] == EmDash && br[k + 1] && br[k]);
      assert br[k + 1] ==> b'[k + 1];
      assert br[k] ==> b'[k];
    }
  }

  // =====================================================================
  // Pass 7: trim
  // =====================================================================

  /** Trimming keeps the visible text and every inner gap and closes the two
      end gaps. */
  lemma TrimContent(s: string)
    ensures Unspace(Trim(s)) == Unspace(s)
    ensures Breaks(Trim(s)) == Breaks(s)[0 := false][|Unspace(s)| := false]
  {
    var t := TrimStart(s);
    var r := TrimEnd(t);
    assert s == s[..|s| - |t|] + (r + t[|r|..]);
    PaddedView(s[..|s| - |t|], r, t[|r|..]);
  }

  /** Whitespace around a string that starts and ends with visible
      characters only opens its two end gaps. */
  lemma PaddedView(a: string, r: string, z: string)
    requires AllSpace(a) && AllSpace(z)
    requires r != [] ==> !IsSpace(r[0]) && !IsSpace(r[|r| - 1])
    ensures Unspace(a + (r + z)) == Unspace(r)
    ensures Breaks(r) == Breaks(a + (r + z))[0 := false][|Unspace(r)| := false]
  {
    SpacePrefix(a, r + z);
    SpaceSuffix(r, z);
    FirstGapClosed(r);
    NoTrailingGap(r);
  }

  // =====================================================================
  // Passes 4 to 7, and the whole cleaner
  // =====================================================================

  /** `r` is what passes 4 to 7 make of `b`: the visible characters are kept,
      except that some `–` may become `—`; the gaps are kept, except that
      those before `,.;:!?` and the two at the ends are closed. With
      `CleanShape` and `SingleSpacedUnique` this fixes `r` up to the choice
      of dashes. */
  predicate TidiedFrom(b: string, r: string) {
    var u := Unspace(b);
    var gaps := ClosePunctGaps(u, Breaks(b));
    && DashesFixed(u, Unspace(r), gaps, true)
    && Breaks(r) == gaps[0 := false][|u| := false]
  }

  /** Passes 4 to 7 keep the text as `TidiedFrom` says. */
  lemma TidyContent(b: string)
    ensures TidiedFrom(b, Tidy(b))
  {
    var c := Collapse(b);
    CollapseContent(b);
    var p := PunctFix(c);
    PunctFixContent(c);
    var d := DashFix(p, true);
    DashFixContent(p, true);
    TrimContent(d);
  }

  /** The whole cleaner: empty input gives empty output, and otherwise the
      result is the tidied text of the brace passes' output. */
  lemma CleanMWTextContent(input: string)
    ensures input == [] ==> CleanMWText(input) == []
    ensures input != [] ==> TidiedFrom(BracePasses(input), CleanMWText(input))
  {
    if input != [] {
      TidyContent(BracePasses(input));
    }
  }

  /** Text without markup keeps its visible characters through the whole
      cleaner, up to dashes, and only its spacing changes. */
  lemma CleanPlainContent(s: string)
    requires '{' !in s
    ensures TidiedFrom(s, CleanMWText(s))
  {
    BracePassesPlain(s, []);
    assert s + [] == s;
    assert BracePasses([]) == [];
    if s != [] {
      TidyContent(s);
    } else {
      assert CleanMWText(s) == [];
    }
  }
}
