/** Cleaning twice: each pass of `cleanMWText` leaves the cleaner's own
    output as it is, so the cleaner is idempotent. */
module MarkupFixpoints {
  import opened Text
  import opened MarkupCleaner

  /** Pass 1 leaves text without a `{…}` token alone. */
  lemma {:induction false} PipePassFixes(s: string)
    requires NoBraceToken(s)
    ensures PipePass(s) == s
    decreases |s|
  {
    if s != [] {
      if s[0] == '{' && |s| > 1 {
        if s[1] == '}' {
          assert IndexOfEither(s[1..], '}', '|') == 0;
        } else {
          assert forall k :: 1 <= k < |s| ==> s[k] != '}';
          var j := 1 + IndexOfEither(s[1..], '}', '|');
          assert j < |s| ==> IndexOf(s[j + 1..], '}') == |s| - j - 1;
        }
      }
      assert PipedTokenAt(s).None?;
      NoBraceTokenSlice(s, 1, |s|);
      PipePassFixes(s[1..]);
    }
  }

  /** A pass-2 replacement whose patterns are all tokens leaves text without
      a `{…}` token alone. */
  lemma {:induction false} ReplaceEachFixes(s: string, pats: seq<string>, rep: string)
    requires AllTokens(pats) && NoBraceToken(s)
    ensures ReplaceEach(s, pats, rep) == s
    decreases |s|
  {
    if s != [] {
      forall i | 0 <= i < |pats| ensures !(pats[i] <= s) {
        var p := pats[i];
        assert p[1..|p| - 1][0] == p[1] != '}';
      }
      ReplaceEachUnmatched(s, pats, rep);
      NoBraceTokenSlice(s, 1, |s|);
      ReplaceEachFixes(s[1..], pats, rep);
    }
  }

  /** Pass 3 leaves text without a `{…}` token alone. */
  lemma {:induction false} DropBracesFixes(s: string)
    requires NoBraceToken(s)
    ensures DropBraces(s) == s
    decreases |s|
  {
    if s != [] {
      if s[0] == '{' && |s| > 1 {
        if s[1] == '}' {
          assert IndexOf(s[1..], '}') == 0;
        } else {
          assert forall k :: 1 <= k < |s| ==> s[k] != '}';
        }
      }
      assert BraceTokenLen(s) == 0;
      NoBraceTokenSlice(s, 1, |s|);
      DropBracesFixes(s[1..]);
    }
  }

  /** Passes 1 to 3 leave text without a `{…}` token alone. */
  lemma BracePassesFixes(s: string)
    requires NoBraceToken(s)
    ensures BracePasses(s) == s
  {
    PipePassFixes(s);
    TagPatternsAreTokens();
    ReplaceEachFixes(s, ItalicTags, "");
    ReplaceEachFixes(s, SmallCapsTags, "");
    ReplaceEachFixes(s, BoldTags, "");
    ReplaceEachFixes(s, BoxColonTags, ": ");
    DropBracesFixes(s);
  }

  /** Pass 4 leaves single-spaced text alone. */
  lemma {:induction false} CollapseFixes(s: string)
    requires SingleSpaced(s)
    ensures Collapse(s) == s
    decreases |s|
  {
    if s != [] {
      if IsSpace(s[0]) {
        assert s[1..] != [] ==> !IsSpace(s[1..][0]);
        assert SpaceRun(s) == 1;
      }
      SingleSpacedSuffix(s, 1);
      CollapseFixes(s[1..]);
    }
  }

  /** Pass 5 leaves well-spaced text alone. */
  lemma {:induction false} PunctFixFixes(s: string)
    requires WellSpaced(s)
    ensures PunctFix(s) == s
    decreases |s|
  {
    if s != [] {
      if IsSpace(s[0]) {
        assert s[1..] != [] ==> !IsSpace(s[1..][0]);
        assert SpaceRun(s) == 1;
      }
      assert !SpaceThenPunct(s);
      WellSpacedSlice(s, 1, |s|);
      PunctFixFixes(s[1..]);
    }
  }

  /** Pass 6 never lengthens its input. */
  lemma {:induction false} DashFixLength(s: string, atStart: bool)
    ensures |DashFix(s, atStart)| <= |s|
    decreases |s|
  {
    if s != [] {
      if atStart && IsDash(s[0]) && SpaceRun(s[1..]) > 0 {
        DashFixLength(s[1 + SpaceRun(s[1..])..], false);
      } else if |s| >= 2 && IsSpace(s[0]) && IsDash(s[1]) && SpaceRun(s[2..]) > 0 {
        DashFixLength(s[2 + SpaceRun(s[2..])..], false);
      } else {
        DashFixLength(s[1..], false);
      }
    }
  }

  /** Away from the start, pass 6 keeps the first character. */
  lemma DashFixHead(s: string)
    requires s != []
    ensures DashFix(s, false) != [] && DashFix(s, false)[0] == s[0]
  {
  }

  /** One space followed by a visible character (or nothing) is a whitespace
      run of length one. */
  lemma OneSpace(x: string)
    requires x != [] ==> !IsSpace(x[0])
    ensures SpaceRun(" " + x) == 1 && (" " + x)[1..] == x
  {
    assert (" " + x)[1..] == x;
  }

  /** Pass 6 applied twice does what it does once. */
  lemma {:induction false} DashFixIdempotent(s: string, atStart: bool)
    ensures DashFix(DashFix(s, atStart), atStart) == DashFix(s, atStart)
    decreases |s|
  {
    if s != [] {
      if atStart && IsDash(s[0]) && SpaceRun(s[1..]) > 0 {
        var m := 1 + SpaceRun(s[1..]);
        DashFixIdempotent(s[m..], false);
        DashLeadSettled(s);
      } else if |s| >= 2 && IsSpace(s[0]) && IsDash(s[1]) && SpaceRun(s[2..]) > 0 {
        var m := 2 + SpaceRun(s[2..]);
        DashFixIdempotent(s[m..], false);
        DashInnerSettled(s, atStart);
      } else {
        DashFixIdempotent(s[1..], false);
        DashCopySettled(s, atStart);
      }
    }
  }

  lemma DashLeadSettled(s: string)
    requires s != [] && IsDash(s[0]) && SpaceRun(s[1..]) > 0
    requires var x := DashFix(s[1 + SpaceRun(s[1..])..], false); DashFix(x, false) == x
    ensures DashFix(DashFix(s, true), true) == DashFix(s, true)
  {
    var m := 1 + SpaceRun(s[1..]);
    var x := DashFix(s[m..], false);
    if m < |s| {
      DashFixHead(s[m..]);
    }
    OneSpace(x);
    var d := [EmDash] + (" " + x);
    DashLeadUnfold(s);
    assert d[1..] == " " + x;
    assert d[1 + SpaceRun(d[1..])..] == x;
    DashLeadUnfold(d);
  }

  lemma DashInnerSettled(s: string, atStart: bool)
    requires |s| >= 2 && IsSpace(s[0]) && IsDash(s[1]) && SpaceRun(s[2..]) > 0
    requires var x := DashFix(s[2 + SpaceRun(s[2..])..], false); DashFix(x, false) == x
    ensures DashFix(DashFix(s, atStart), atStart) == DashFix(s, atStart)
  {
    var m := 2 + SpaceRun(s[2..]);
    var x := DashFix(s[m..], false);
    if m < |s| {
      DashFixHead(s[m..]);
    }
    OneSpace(x);
    var d := [s[0]] + ([EmDash] + (" " + x));
    DashInnerUnfold(s, atStart);
    assert d[2..] == " " + x;
    assert d[2 + SpaceRun(d[2..])..] == x;
    DashInnerUnfold(d, atStart);
  }

  lemma DashCopySettled(s: string, atStart: bool)
    requires s != []
    requires !(atStart && IsDash(s[0]) && SpaceRun(s[1..]) > 0)
    requires !(|s| >= 2 && IsSpace(s[0]) && IsDash(s[1]) && SpaceRun(s[2..]) > 0)
    requires var x := DashFix(s[1..], false); DashFix(x, false) == x
    ensures DashFix(DashFix(s, atStart), atStart) == DashFix(s, atStart)
  {
    var x := DashFix(s[1..], false);
    var d := [s[0]] + x;
    assert DashFix(s, atStart) == d;
    assert d[1..] == x;
    if |s| >= 2 {
      DashFixHead(s[1..]);
      if IsDash(s[1]) {
        assert x == [s[1]] + DashFix(s[2..], false);
        assert d[2..] == DashFix(s[2..], false);
        if |s| > 2 {
          DashFixHead(s[2..]);
        }
      }
    }
  }

  /** A fixed point of pass 6 that ends in a space stays one without it. */
  lemma {:induction false} DashFixDropSpace(u: string, atStart: bool)
    requires DashFix(u + " ", atStart) == u + " "
    ensures DashFix(u, atStart) == u
    decreases |u|, 1
  {
    if u != [] {
      var t := u + " ";
      assert t[1..] == u[1..] + " ";
      if atStart && IsDash(t[0]) && SpaceRun(t[1..]) > 0 {
        DropSpaceLead(u);
      } else if |t| >= 2 && IsSpace(t[0]) && IsDash(t[1]) && SpaceRun(t[2..]) > 0 {
        DropSpaceInner(u, atStart);
      } else {
        DropSpaceCopy(u, atStart);
      }
    }
  }

  lemma {:induction false} DropSpaceCopy(u: string, atStart: bool)
    requires u != []
    requires var t := u + " "; !(atStart && IsDash(t[0]) && SpaceRun(t[1..]) > 0)
    requires var t := u + " "; !(IsSpace(t[0]) && IsDash(t[1]) && SpaceRun(t[2..]) > 0)
    requires DashFix(u + " ", atStart) == u + " "
    ensures DashFix(u, atStart) == u
    decreases |u|, 0
  {
    var t := u + " ";
    assert t[1..] == u[1..] + " ";
    DashCopyUnfold(t, atStart);
    DashFixDropSpace(u[1..], false);
    if |u| >= 2 {
      assert t[1] == u[1] && t[2..] == u[2..] + " ";
      if |u| >= 3 {
        assert t[2] == u[2];
      }
    }
    DashCopyUnfold(u, atStart);
    assert u == [u[0]] + u[1..];
  }

  lemma {:induction false} DropSpaceLead(u: string)
    requires u != [] && IsDash(u[0])
    requires SpaceRun((u + " ")[1..]) > 0 && DashFix(u + " ", true) == u + " "
    ensures DashFix(u, true) == u
    decreases |u|, 0
  {
    LeadFixedShape(u);
    if |u| > 1 {
      DashFixDropSpace(u[2..], false);
      assert u[1..] == " " + u[2..];
      OneSpace(u[2..]);
      DashLeadUnfold(u);
      assert u == [u[0]] + (" " + u[2..]);
    }
  }

  /** What a fixed point of pass 6 that starts with a dash, then
      whitespace, looks like. */
  lemma LeadFixedShape(u: string)
    requires u != [] && IsDash(u[0])
    requires SpaceRun((u + " ")[1..]) > 0 && DashFix(u + " ", true) == u + " "
    ensures |u| == 1 || (|u| >= 3 && u[1] == ' ' && !IsSpace(u[2]) && u[0] == EmDash)
    ensures |u| > 1 ==> DashFix(u[2..] + " ", false) == u[2..] + " "
  {
    var t := u + " ";
    var n := SpaceRun(t[1..]);
    var x := DashFix(t[1 + n..], false);
    DashLeadUnfold(t);
    DashFixLength(t[1 + n..], false);
    LeadShape(u, t, n, x);
  }

  /** The lengths and characters behind `LeadFixedShape`. */
  lemma LeadShape(u: string, t: string, n: nat, x: string)
    requires u != [] && t == u + " " && 1 <= n && 1 + n <= |t|
    requires 1 + n < |t| ==> !IsSpace(t[1 + n])
    requires t == [EmDash] + (" " + x) && |x| <= |t| - (1 + n)
    ensures n == 1 && x == t[2..]
    ensures |u| == 1 || (|u| >= 3 && u[1] == ' ' && !IsSpace(u[2]) && u[0] == EmDash)
    ensures |u| > 1 ==> x == u[2..] + " "
  {
    assert t[1] == ' ' && t[2..] == x;
    assert n == 1;
    assert u[0] == t[0] == EmDash;
    if |u| > 1 {
      assert u[1] == t[1];
      assert t[2..] == u[2..] + " ";
      assert !IsSpace(t[2]);
      assert u[2] == t[2];
    }
  }

  lemma {:induction false} DropSpaceInner(u: string, atStart: bool)
    requires |u| >= 1 && IsSpace(u[0])
    requires var t := u + " "; IsDash(t[1]) && SpaceRun(t[2..]) > 0
    requires DashFix(u + " ", atStart) == u + " "
    ensures DashFix(u, atStart) == u
    decreases |u|, 0
  {
    var t := u + " ";
    var m := 2 + SpaceRun(t[2..]);
    DashInnerUnfold(t, atStart);
    DashFixLength(t[m..], false);
    assert m == 3;
    assert |u| >= 2;
    if |u| > 2 {
      assert t[2..] == u[2..] + " ";
      assert |u| >= 4 && u[2] == ' ' && !IsSpace(u[3]);
      assert t[3..] == u[3..] + " ";
      DashFixDropSpace(u[3..], false);
      assert u[2..][1..] == u[3..];
      DashInnerUnfold(u, atStart);
      assert u == [u[0]] + ([u[1]] + (" " + u[3..]));
    }
  }

  /** Trimming the front of pass 6's output on well-spaced text leaves a
      fixed point of pass 6. */
  lemma DashFixAfterTrimStart(p: string)
    requires WellSpaced(p)
    ensures var t := TrimStart(DashFix(p, true)); DashFix(t, true) == t
  {
    if p == [] || !IsSpace(p[0]) {
      TrimStartVisible(p);
    } else if |p| >= 2 && IsDash(p[1]) && SpaceRun(p[2..]) > 0 {
      TrimStartInner(p);
    } else {
      TrimStartCopy(p);
    }
  }

  /** Pass 6's output on text that starts with a visible character starts
      with one too, so trimming its front changes nothing. */
  lemma TrimStartVisible(p: string)
    requires p == [] || !IsSpace(p[0])
    ensures var t := TrimStart(DashFix(p, true)); DashFix(t, true) == t
  {
    var d := DashFix(p, true);
    DashFixIdempotent(p, true);
    if p != [] {
      if IsDash(p[0]) && SpaceRun(p[1..]) > 0 {
        DashLeadUnfold(p);
      } else {
        DashCopyUnfold(p, true);
      }
      assert !IsSpace(d[0]);
      assert SpaceRun(d) == 0;
    }
  }

  lemma TrimStartInner(p: string)
    requires WellSpaced(p) && |p| >= 2 && IsSpace(p[0]) && IsDash(p[1]) && SpaceRun(p[2..]) > 0
    ensures var t := TrimStart(DashFix(p, true)); DashFix(t, true) == t
  {
    var m := 2 + SpaceRun(p[2..]);
    var x := DashFix(p[m..], false);
    DashFixIdempotent(p[m..], false);
    if m < |p| {
      DashFixHead(p[m..]);
    }
    OneSpace(x);
    var e := [EmDash] + (" " + x);
    DashInnerUnfold(p, true);
    var d := [p[0]] + e;
    assert d[1..] == e && !IsSpace(e[0]);
    assert SpaceRun(d) == 1;
    assert e[1..] == " " + x;
    assert e[1 + SpaceRun(e[1..])..] == x;
    DashLeadUnfold(e);
  }

  lemma TrimStartCopy(p: string)
    requires WellSpaced(p) && p != [] && IsSpace(p[0])
    requires !(|p| >= 2 && IsDash(p[1]) && SpaceRun(p[2..]) > 0)
    ensures var t := TrimStart(DashFix(p, true)); DashFix(t, true) == t
  {
    var y := DashFix(p[1..], false);
    DashFixIdempotent(p[1..], false);
    DashCopyUnfold(p, true);
    var d := [p[0]] + y;
    assert d[1..] == y;
    if |p| >= 2 {
      assert !IsSpace(p[1]);
      DashCopyUnfold(p[1..], false);
      assert y == [p[1]] + DashFix(p[2..], false);
      if |p| > 2 && IsDash(p[1]) {
        assert !IsSpace(p[2]);
        DashFixHead(p[2..]);
      }
      assert y[1..] == DashFix(p[2..], false);
      DashCopyUnfold(y, true);
      DashCopyUnfold(y, false);
    }
    assert SpaceRun(d) == 1;
  }

  /** Trimming the back of a well-spaced fixed point of pass 6 leaves a
      fixed point. */
  lemma DashFixAfterTrimEnd(t: string)
    requires SingleSpaced(t) && DashFix(t, true) == t
    ensures DashFix(TrimEnd(t), true) == TrimEnd(t)
  {
    if t != [] && IsSpace(t[|t| - 1]) {
      TrimEndSingle(t);
      DashFixDropSpace(TrimEnd(t), true);
    }
  }

  /** A single-spaced string loses at most its one trailing space. */
  lemma TrimEndSingle(t: string)
    requires SingleSpaced(t) && t != [] && IsSpace(t[|t| - 1])
    ensures t == TrimEnd(t) + " "
  {
    var u := t[..|t| - 1];
    assert t == u + " ";
    if u != [] {
      assert !IsSpace(u[|u| - 1]);
    }
    assert TrimEnd(u) == u;
  }

  /** The cleaner's output is a fixed point of pass 6. */
  lemma CleanedDashSettled(s: string)
    requires s != []
    ensures DashFix(CleanMWText(s), true) == CleanMWText(s)
  {
    var c := Collapse(BracePasses(s));
    CollapseSingleSpaced(BracePasses(s));
    PunctFixWellSpaced(c);
    TrimmedDashSettled(PunctFix(c));
  }

  /** Trimming pass 6's output on well-spaced text leaves a fixed point of
      pass 6. */
  lemma TrimmedDashSettled(p: string)
    requires WellSpaced(p)
    ensures var r := Trim(DashFix(p, true)); DashFix(r, true) == r
  {
    var d := DashFix(p, true);
    DashFixAfterTrimStart(p);
    DashFixWellSpaced(p, true);
    TrimStartSingle(d);
    DashFixAfterTrimEnd(TrimStart(d));
  }

  /** Trimming the front keeps single spacing. */
  lemma TrimStartSingle(d: string)
    requires WellSpaced(d)
    ensures SingleSpaced(TrimStart(d))
  {
    var t := TrimStart(d);
    WellSpacedSlice(d, |d| - |t|, |d|);
    assert t == d[|d| - |t|..|d|];
  }

  /** Passes 4 to 7 leave clean text that pass 6 does not change alone. */
  lemma TidyFixes(r: string)
    requires CleanShape(r) && DashFix(r, true) == r
    ensures Tidy(r) == r
  {
    CollapseFixes(r);
    PunctFixFixes(r);
    if r != [] {
      assert SpaceRun(r) == 0;
      assert TrimStart(r) == r;
    }
  }

  /** Cleaning cleaned text changes nothing. */
  lemma CleanIdempotent(s: string)
    ensures CleanMWText(CleanMWText(s)) == CleanMWText(s)
  {
    var r := CleanMWText(s);
    if r != [] {
      CleanMWTextShape(s);
      CleanedDashSettled(s);
      BracePassesFixes(r);
      TidyFixes(r);
    }
  }
}
