/** A worked run of `cleanMWText` on a definition with an italic pair and a
    bold colon: `"a {it}star{/it} is {bc}bright"` becomes
    `"a star is: bright"`. The passes are followed word by word. */
module MarkupExample {
  import opened Text
  import opened MarkupCleaner
  import opened MarkupFixpoints

  /** A run of visible characters none of which is a dash. */
  predicate Word(a: string) {
    a != [] && forall c :: c in a ==> !IsSpace(c) && !IsDash(c)
  }

  /** Words joined by single spaces. */
  function Spaced(ws: seq<string>): (r: string)
    ensures ws != [] && ws[0] != [] ==> r != [] && r[0] == ws[0][0]
    decreases |ws|
  {
    if ws == [] then []
    else if |ws| == 1 then ws[0]
    else ws[0] + (" " + Spaced(ws[1..]))
  }

  predicate AllWords(ws: seq<string>) {
    forall i :: 0 <= i < |ws| ==> Word(ws[i])
  }

  lemma WordTail(a: string)
    requires Word(a) && |a| > 1
    ensures Word(a[1..]) && !IsSpace(a[0]) && !IsDash(a[0])
  {
    assert a[0] in a;
    forall c | c in a[1..] ensures c in a {
    }
  }

  lemma AllWordsTail(ws: seq<string>)
    requires AllWords(ws) && ws != []
    ensures AllWords(ws[1..]) && Word(ws[0])
  {
    forall i | 0 <= i < |ws[1..]| ensures Word(ws[1..][i]) {
      assert ws[1..][i] == ws[i + 1];
    }
  }

  // ---------------------------------------------------------------------
  // Pass 4: single spaces between words are kept
  // ---------------------------------------------------------------------

  lemma {:induction false} CollapseWord(a: string, t: string)
    requires Word(a)
    ensures Collapse(a + t) == a + Collapse(t)
    decreases |a|
  {
    assert a[0] in a;
    assert (a + t)[1..] == a[1..] + t;
    if |a| > 1 {
      WordTail(a);
      CollapseWord(a[1..], t);
      assert a == [a[0]] + a[1..];
    }
  }

  lemma CollapseSpace(t: string)
    requires t != [] && !IsSpace(t[0])
    ensures Collapse(" " + t) == " " + Collapse(t)
  {
    OneSpace(t);
  }

  lemma {:induction false} SpacedCollapse(ws: seq<string>)
    requires AllWords(ws)
    ensures Collapse(Spaced(ws)) == Spaced(ws)
    decreases |ws|
  {
    if ws != [] {
      AllWordsTail(ws);
      if |ws| == 1 {
        CollapseWord(ws[0], []);
        assert ws[0] + [] == ws[0];
      } else {
        var rest := Spaced(ws[1..]);
        AllWordsTail(ws[1..]);
        SpacedCollapse(ws[1..]);
        CollapseWord(ws[0], " " + rest);
        assert ws[1][0] in ws[1];
        CollapseSpace(rest);
      }
    }
  }

  // ---------------------------------------------------------------------
  // Pass 5: the space before the colon goes
  // ---------------------------------------------------------------------

  lemma {:induction false} PunctFixWord(a: string, t: string)
    requires Word(a)
    ensures PunctFix(a + t) == a + PunctFix(t)
    decreases |a|
  {
    assert a[0] in a;
    assert (a + t)[1..] == a[1..] + t;
    PunctCopyUnfold(a + t);
    if |a| > 1 {
      WordTail(a);
      PunctFixWord(a[1..], t);
      assert a == [a[0]] + a[1..];
    }
  }

  lemma PunctFixSpace(t: string)
    requires t != [] && !IsSpace(t[0]) && !IsPunct(t[0])
    ensures PunctFix(" " + t) == " " + PunctFix(t)
  {
    OneSpace(t);
    PunctCopyUnfold(" " + t);
  }

  lemma PunctFixGap(c: char, t: string)
    requires IsPunct(c)
    ensures PunctFix(" " + ([c] + t)) == [c] + PunctFix(t)
  {
    OneSpace([c] + t);
    PunctGapUnfold(" " + ([c] + t));
    assert (" " + ([c] + t))[2..] == t;
  }

  // ---------------------------------------------------------------------
  // Pass 6: text without dashes is left alone
  // ---------------------------------------------------------------------

  lemma {:induction false} DashFixWord(a: string, t: string, atStart: bool)
    requires Word(a)
    ensures DashFix(a + t, atStart) == a + DashFix(t, false)
    decreases |a|
  {
    assert a[0] in a;
    assert (a + t)[1..] == a[1..] + t;
    DashCopyUnfold(a + t, atStart);
    if |a| > 1 {
      WordTail(a);
      DashFixWord(a[1..], t, false);
      assert a == [a[0]] + a[1..];
    }
  }

  lemma DashFixSpace(t: string, atStart: bool)
    requires t != [] && !IsDash(t[0])
    ensures DashFix(" " + t, atStart) == " " + DashFix(t, false)
  {
    assert (" " + t)[1..] == t;
    DashCopyUnfold(" " + t, atStart);
  }

  lemma {:induction false} SpacedDash(ws: seq<string>, atStart: bool)
    requires AllWords(ws)
    ensures DashFix(Spaced(ws), atStart) == Spaced(ws)
    decreases |ws|
  {
    if ws != [] {
      AllWordsTail(ws);
      if |ws| == 1 {
        DashFixWord(ws[0], [], atStart);
        assert ws[0] + [] == ws[0];
      } else {
        var rest := Spaced(ws[1..]);
        AllWordsTail(ws[1..]);
        SpacedDash(ws[1..], false);
        DashFixWord(ws[0], " " + rest, atStart);
        assert ws[1][0] in ws[1];
        DashFixSpace(rest, false);
      }
    }
  }

  // ---------------------------------------------------------------------
  // Pass 7: nothing to trim
  // ---------------------------------------------------------------------

  lemma {:induction false} SpacedEnds(ws: seq<string>)
    requires AllWords(ws) && ws != []
    ensures var r := Spaced(ws); r != [] && !IsSpace(r[0]) && !IsSpace(r[|r| - 1])
    decreases |ws|
  {
    AllWordsTail(ws);
    assert ws[0][0] in ws[0];
    if |ws| == 1 {
      assert ws[0][|ws[0]| - 1] in ws[0];
    } else {
      SpacedEnds(ws[1..]);
    }
  }

  lemma SpacedTrim(ws: seq<string>)
    requires AllWords(ws) && ws != []
    ensures Trim(Spaced(ws)) == Spaced(ws)
  {
    var r := Spaced(ws);
    SpacedEnds(ws);
    assert TrimStart(r) == r;
  }

  // ---------------------------------------------------------------------
  // The run
  // ---------------------------------------------------------------------

  /** The brace passes on plain text with an italic pair and a `{bc}`. */
  lemma BracesShape(a: string, w: string, b: string, c: string)
    requires '{' !in a && '{' !in w && '{' !in b && '{' !in c
    ensures BracePasses(a + (Braced("it") + (w + (Braced("/it") + (b + (Braced("bc") + c))))))
         == a + (w + (b + (": " + c)))
  {
    var t1 := Braced("bc") + c;
    var t2 := b + t1;
    var t4 := w + (Braced("/it") + t2);
    BracePassesPlain(c, []);
    assert c + [] == c && BracePasses([]) == [];
    BareBoxColonRule(c);
    BracePassesPlain(b, t1);
    StyleTagRule("/it", t2);
    BracePassesPlain(w, Braced("/it") + t2);
    StyleTagRule("it", t4);
    BracePassesPlain(a, Braced("it") + t4);
  }

  /** Pass 5 on four words with punctuation standing alone before the last. */
  lemma PunctShape(w1: string, w2: string, w3: string, p: char, w4: string)
    requires Word(w1) && Word(w2) && Word(w3) && Word(w4) && IsPunct(p)
    requires !IsPunct(w2[0]) && !IsPunct(w3[0]) && !IsPunct(w4[0])
    ensures PunctFix(w1 + (" " + (w2 + (" " + (w3 + (" " + ([p] + (" " + w4))))))))
         == w1 + (" " + (w2 + (" " + (w3 + ([p] + (" " + w4))))))
  {
    assert w2[0] in w2 && w3[0] in w3 && w4[0] in w4;
    PunctFixWord(w4, []);
    assert w4 + [] == w4 && PunctFix([]) == [];
    PunctFixSpace(w4);
    PunctFixGap(p, " " + w4);
    PunctFixWord(w3, " " + ([p] + (" " + w4)));
    PunctFixSpace(w3 + (" " + ([p] + (" " + w4))));
    PunctFixWord(w2, " " + (w3 + (" " + ([p] + (" " + w4)))));
    PunctFixSpace(w2 + (" " + (w3 + (" " + ([p] + (" " + w4))))));
    PunctFixWord(w1, " " + (w2 + (" " + (w3 + (" " + ([p] + (" " + w4)))))));
  }

  /** A definition of the example's shape: four words, the second in
      italics, the last behind a `{bc}`. */
  function RunInput(w1: string, w2: string, w3: string, w4: string): string {
    w1 + (" " + (Braced("it") + (w2 + (Braced("/it") + (" " + (w3 + (" " + (Braced("bc") + w4))))))))
  }

  /** What the brace passes leave of it. */
  function RunBraced(w1: string, w2: string, w3: string, w4: string): string {
    w1 + (" " + (w2 + (" " + (w3 + (" " + ([':'] + (" " + w4)))))))
  }

  /** What the cleaner returns for it. */
  function RunCleaned(w1: string, w2: string, w3: string, w4: string): string {
    w1 + (" " + (w2 + (" " + (w3 + ([':'] + (" " + w4))))))
  }

  predicate RunWords(w1: string, w2: string, w3: string, w4: string) {
    && Word(w1) && Word(w2) && Word(w3) && Word(w4)
    && '{' !in w1 && '{' !in w2 && '{' !in w3 && '{' !in w4
    && !IsPunct(w2[0]) && !IsPunct(w3[0]) && !IsPunct(w4[0])
  }

  lemma RunBraces(w1: string, w2: string, w3: string, w4: string)
    requires RunWords(w1, w2, w3, w4)
    ensures BracePasses(RunInput(w1, w2, w3, w4)) == RunBraced(w1, w2, w3, w4)
  {
    var s := w1 + " ";
    var m := " " + (w3 + " ");
    assert RunInput(w1, w2, w3, w4) == s + (Braced("it") + (w2 + (Braced("/it") + (m + (Braced("bc") + w4)))));
    BracesShape(s, w2, m, w4);
    assert s + (w2 + (m + (": " + w4))) == RunBraced(w1, w2, w3, w4);
  }

  lemma RunSpaced(w1: string, w2: string, w3: string, w4: string)
    requires RunWords(w1, w2, w3, w4)
    ensures var bs := [w1, w2, w3, ":", w4]; AllWords(bs) && Spaced(bs) == RunBraced(w1, w2, w3, w4)
    ensures var rs := [w1, w2, w3 + ":", w4]; AllWords(rs) && Spaced(rs) == RunCleaned(w1, w2, w3, w4)
  {
    var bs := [w1, w2, w3, ":", w4];
    var rs := [w1, w2, w3 + ":", w4];
    assert bs[1..][1..] == bs[2..] && bs[2..][1..] == bs[3..] && bs[3..][1..] == [w4];
    assert Spaced(bs[3..]) == ":" + (" " + w4);
    assert Spaced(bs[2..]) == w3 + (" " + Spaced(bs[3..]));
    assert Spaced(bs[1..]) == w2 + (" " + Spaced(bs[2..]));
    assert rs[1..][1..] == rs[2..] && rs[2..][1..] == [w4];
    assert Spaced(rs[2..]) == (w3 + ":") + (" " + w4);
    assert Spaced(rs[1..]) == w2 + (" " + Spaced(rs[2..]));
    assert Word(":");
    assert Word(w3 + ":") by {
      assert forall x :: x in w3 + ":" ==> x in w3 || x == ':';
    }
  }

  lemma RunTidy(w1: string, w2: string, w3: string, w4: string)
    requires RunWords(w1, w2, w3, w4)
    ensures Tidy(RunBraced(w1, w2, w3, w4)) == RunCleaned(w1, w2, w3, w4)
  {
    RunSpaced(w1, w2, w3, w4);
    SpacedCollapse([w1, w2, w3, ":", w4]);
    PunctShape(w1, w2, w3, ':', w4);
    SpacedDash([w1, w2, w3 + ":", w4], true);
    SpacedTrim([w1, w2, w3 + ":", w4]);
  }

  /** The whole cleaner on a definition of the example's shape. */
  lemma CleanRun(w1: string, w2: string, w3: string, w4: string)
    requires RunWords(w1, w2, w3, w4)
    ensures CleanMWText(RunInput(w1, w2, w3, w4)) == RunCleaned(w1, w2, w3, w4)
  {
    RunBraces(w1, w2, w3, w4);
    RunTidy(w1, w2, w3, w4);
  }

  /** `cleanMWText("a {it}star{/it} is {bc}bright")` is `"a star is: bright"`. */
  lemma CleanExample()
    ensures CleanMWText("a {it}star{/it} is {bc}bright") == "a star is: bright"
  {
    ExampleWords();
    ExampleInput();
    ExampleOutput();
    CleanRun("a", "star", "is", "bright");
  }

  lemma ExampleWords()
    ensures RunWords("a", "star", "is", "bright")
  {
  }

  lemma ExampleInput()
    ensures RunInput("a", "star", "is", "bright") == "a {it}star{/it} is {bc}bright"
  {
    var tail := " is {bc}bright";
    assert Braced("bc") + "bright" == "{bc}bright";
    assert " " + ("is" + (" " + "{bc}bright")) == tail;
    var head := "a {it}star{/it}";
    assert "a" + (" " + (Braced("it") + ("star" + (Braced("/it") + tail))))
        == ("a" + (" " + (Braced("it") + ("star" + Braced("/it"))))) + tail;
    assert "a" + (" " + (Braced("it") + ("star" + Braced("/it")))) == head;
    assert head + tail == "a {it}star{/it} is {bc}bright";
  }

  lemma ExampleOutput()
    ensures RunCleaned("a", "star", "is", "bright") == "a star is: bright"
  {
    var tail := "is: bright";
    assert "is" + ([':'] + (" " + "bright")) == tail;
    assert "a" + (" " + ("star" + (" " + tail))) == "a star " + tail;
    assert "a star " + tail == "a star is: bright";
  }

}
