/** The Merriam-Webster markup cleaner (`cleanMWText`): seven global
    regular-expression replacements applied one after the other, each written
    here as a left-to-right scanner with the regex engine's semantics (try a
    match at the current position; on success emit the replacement and resume
    after the match, otherwise copy one character and move on). */
module MarkupCleaner {
  import opened Text
  import opened Wrappers

  const EnDash: char := '\U{2013}'
  const EmDash: char := '\U{2014}'

  predicate IsDash(c: char) {
    c == EnDash || c == EmDash
  }

  /** The class `[,.;:!?]`. */
  predicate IsPunct(c: char) {
    c == ',' || c == '.' || c == ';' || c == ':' || c == '!' || c == '?'
  }

  /** Position of the first `c` in `s`, or |s|. */
  function IndexOf(s: string, c: char): (i: nat)
    ensures i <= |s|
    ensures i < |s| ==> s[i] == c
    ensures forall k :: 0 <= k < i ==> s[k] != c
  {
    if s == [] then 0
    else if s[0] == c then 0
    else
      1 + IndexOf(s[1..], c)
  }

  /** Position of the first `a` or `b` in `s`, or |s|. */
  function IndexOfEither(s: string, a: char, b: char): (i: nat)
    ensures i <= |s|
    ensures i < |s| ==> s[i] == a || s[i] == b
    ensures forall k :: 0 <= k < i ==> s[k] != a && s[k] != b
  {
    if s == [] then 0
    else if s[0] == a || s[0] == b then 0
    else
      1 + IndexOfEither(s[1..], a, b)
  }

  // ---------------------------------------------------------------------
  // Pass 1: /\{([^}|]+)\|([^}]+)\}/g  ->  first argument, or ": " for bc
  // ---------------------------------------------------------------------

  /** The text a piped token `{tag|rest}` is replaced by: `": "` for the
      box colon, otherwise the first `|`-separated argument (`parts[0]`). */
  function PipedReplacement(tag: string, rest: string): (r: string)
    ensures tag == "bc" ==> r == ": "
    ensures tag != "bc" ==> r <= rest && '|' !in r && (|r| < |rest| ==> rest[|r|] == '|')
  {
    if tag == "bc" then ": " else rest[..IndexOf(rest, '|')]
  }

  /** A piped token at the start of `s`: its length and its replacement.
      The tag runs up to the first `}` or `|` and must be followed by `|`;
      the rest runs up to the first `}`; both must be non-empty. */
  function PipedTokenAt(s: string): (m: Option<(nat, string)>)
    ensures m.Some? ==> 5 <= m.value.0 <= |s|
  {
    if s == [] || s[0] != '{' then None
    else
      var j := 1 + IndexOfEither(s[1..], '}', '|');
      if j == 1 || j == |s| || s[j] != '|' then None
      else
        var k := j + 1 + IndexOf(s[j + 1..], '}');
        if k == j + 1 || k == |s| then None
        else Some((k + 1, PipedReplacement(s[1..j], s[j + 1..k])))
  }

  function PipePass(s: string): string
    decreases |s|
  {
    if s == [] then []
    else match PipedTokenAt(s)
      case Some((n, r)) => r + PipePass(s[n..])
      case None => [s[0]] + PipePass(s[1..])
  }

  // ---------------------------------------------------------------------
  // Pass 2: /\{\/?it\}/g, /\{\/?sc\}/g, /\{\/?b\}/g -> "", /\{bc\}/g -> ": "
  // ---------------------------------------------------------------------

  /** Length of the first of `pats` that `s` starts with. */
  function MatchAny(s: string, pats: seq<string>): (m: Option<nat>)
    ensures m.Some? ==> exists i :: 0 <= i < |pats| && pats[i] <= s && m.value == |pats[i]|
    ensures m.None? ==> forall i :: 0 <= i < |pats| ==> !(pats[i] <= s)
  {
    if pats == [] then None
    else if pats[0] <= s then Some(|pats[0]|)
    else
      var m := MatchAny(s, pats[1..]);
      assert forall i :: 1 <= i < |pats| ==> pats[i] == pats[1..][i - 1];
      m
  }

  /** Global replacement of every occurrence of any of `pats` (all of them
      non-empty) by `rep`, scanning left to right. */
  function ReplaceEach(s: string, pats: seq<string>, rep: string): string
    requires forall i :: 0 <= i < |pats| ==> pats[i] != []
    decreases |s|
  {
    if s == [] then []
    else match MatchAny(s, pats)
      case Some(n) => rep + ReplaceEach(s[n..], pats, rep)
      case None => [s[0]] + ReplaceEach(s[1..], pats, rep)
  }

  /** `{w}` */
  function Braced(w: string): string {
    "{" + w + "}"
  }

  const ItalicTags: seq<string> := [Braced("it"), Braced("/it")]
  const SmallCapsTags: seq<string> := [Braced("sc"), Braced("/sc")]
  const BoldTags: seq<string> := [Braced("b"), Braced("/b")]
  const BoxColonTags: seq<string> := [Braced("bc")]

  /** The four stand-alone tag passes, in the order of the source. */
  function TagPasses(s: string): string
  {
    var s1 := ReplaceEach(s, ItalicTags, "");
    var s2 := ReplaceEach(s1, SmallCapsTags, "");
    var s3 := ReplaceEach(s2, BoldTags, "");
    ReplaceEach(s3, BoxColonTags, ": ")
  }

  // ---------------------------------------------------------------------
  // Pass 3: /\{[^}]+\}/g -> ""
  // ---------------------------------------------------------------------

  /** Length of a `{…}` token with a non-empty body at the start of `s`, or 0. */
  function BraceTokenLen(s: string): (n: nat)
    ensures n == 0 || 3 <= n <= |s|
  {
    if s == [] || s[0] != '{' then 0
    else
      var p := 1 + IndexOf(s[1..], '}');
      if p >= 2 && p < |s| then p + 1 else 0
  }

  function DropBraces(s: string): string
    decreases |s|
  {
    if s == [] then []
    else if BraceTokenLen(s) > 0 then DropBraces(s[BraceTokenLen(s)..])
    else [s[0]] + DropBraces(s[1..])
  }

  // ---------------------------------------------------------------------
  // Pass 4: /\s+/g -> " "
  // ---------------------------------------------------------------------

  function Collapse(s: string): string
    decreases |s|
  {
    if s == [] then []
    else if IsSpace(s[0]) then " " + Collapse(s[SpaceRun(s)..])
    else [s[0]] + Collapse(s[1..])
  }

  // ---------------------------------------------------------------------
  // Pass 5: /\s+([,.;:!?])/g -> "$1"
  // ---------------------------------------------------------------------

  /** A whitespace run at the start of `s` followed by punctuation. */
  predicate SpaceThenPunct(s: string) {
    s != [] && IsSpace(s[0]) && SpaceRun(s) < |s| && IsPunct(s[SpaceRun(s)])
  }

  function PunctFix(s: string): string
    decreases |s|
  {
    if s == [] then []
    else if SpaceThenPunct(s) then [s[SpaceRun(s)]] + PunctFix(s[SpaceRun(s) + 1..])
    else [s[0]] + PunctFix(s[1..])
  }

  /** Pass 5 on whitespace followed by punctuation. */
  lemma PunctGapUnfold(s: string)
    requires SpaceThenPunct(s)
    ensures PunctFix(s) == [s[SpaceRun(s)]] + PunctFix(s[SpaceRun(s) + 1..])
  {
    assert s != [] && SpaceRun(s) < |s|;
  }

  /** Pass 5 on a character it keeps. */
  lemma PunctCopyUnfold(s: string)
    requires s != [] && !SpaceThenPunct(s)
    ensures PunctFix(s) == [s[0]] + PunctFix(s[1..])
  { }

  // ---------------------------------------------------------------------
  // Pass 6: /(^|\s)[–—]\s+/g -> "$1— "   (`atStart`: the scan is at index 0)
  // ---------------------------------------------------------------------

  function DashFix(s: string, atStart: bool): string
    decreases |s|
  {
    if s == [] then []
    else if atStart && IsDash(s[0]) && SpaceRun(s[1..]) > 0 then
      [EmDash, ' '] + DashFix(s[1 + SpaceRun(s[1..])..], false)
    else if |s| >= 2 && IsSpace(s[0]) && IsDash(s[1]) && SpaceRun(s[2..]) > 0 then
      [s[0], EmDash, ' '] + DashFix(s[2 + SpaceRun(s[2..])..], false)
    else [s[0]] + DashFix(s[1..], false)
  }

  // ---------------------------------------------------------------------
  // The whole cleaner
  // ---------------------------------------------------------------------

  /** Passes 1 to 3: everything that deals with `{…}` markup. */
  function BracePasses(s: string): string
  {
    DropBraces(TagPasses(PipePass(s)))
  }

  /** Passes 4 to 7: whitespace, punctuation and dash tidying, then trim. */
  function Tidy(s: string): string
  {
    Trim(DashFix(PunctFix(Collapse(s)), true))
  }

  function CleanMWText(input: string): string
  {
    if input == [] then "" else Tidy(BracePasses(input))
  }

  // =====================================================================
  // Rules: what each kind of markup becomes
  // =====================================================================

  /** Text without `{` goes through the piped-token pass unchanged. */
  lemma {:induction false} PipePassPlain(a: string, t: string)
    requires '{' !in a
    ensures PipePass(a + t) == a + PipePass(t)
    decreases |a|
  {
    if a != [] {
      assert (a + t)[1..] == a[1..] + t;
      PipePassCons(a + t);
      PipePassPlain(a[1..], t);
      assert a == [a[0]] + a[1..];
    } else {
      assert a + t == t;
    }
  }

  /** A character other than `{` is copied by pass 1. */
  lemma PipePassCons(s: string)
    requires s != [] && s[0] != '{'
    ensures PipePass(s) == [s[0]] + PipePass(s[1..])
  {
  }

  lemma IndexOfConcat(x: string, y: string, c: char)
    requires c !in x && y != [] && y[0] == c
    ensures IndexOf(x + y, c) == |x|
  {
    assert forall k :: 0 <= k < |x| ==> (x + y)[k] == x[k];
    IndexOfAt(x + y, c, |x|);
  }

  lemma IndexOfEitherConcat(x: string, y: string, a: char, b: char)
    requires a !in x && b !in x && y != [] && (y[0] == a || y[0] == b)
    ensures IndexOfEither(x + y, a, b) == |x|
  {
    assert forall k :: 0 <= k < |x| ==> (x + y)[k] == x[k];
    IndexOfEitherAt(x + y, a, b, |x|);
  }

  /** How pass 1 recognises `{tag|args}`. */
  lemma PipedTokenFound(tag: string, args: string, t: string)
    requires tag != [] && '}' !in tag && '|' !in tag
    requires args != [] && '}' !in args
    ensures PipedTokenAt("{" + tag + "|" + args + "}" + t)
      == Some((|tag| + |args| + 3, PipedReplacement(tag, args)))
  {
    var s := "{" + tag + "|" + args + "}" + t;
    PipedShape(tag, args, t);
    PipedTokenLayout(tag, args, t, s);
    PipedTokenParts(s, 1 + |tag|, 2 + |tag| + |args|);
  }

  /** Where the pieces of `{tag|args}` sit in the string. */
  lemma PipedTokenLayout(tag: string, args: string, t: string, s: string)
    requires tag != [] && '}' !in tag && '|' !in tag
    requires args != [] && '}' !in args
    requires s == "{" + (tag + ("|" + args + ("}" + t)))
    ensures |s| == |tag| + |args| + 3 + |t| && s[0] == '{' && s[1 + |tag|] == '|'
    ensures IndexOfEither(s[1..], '}', '|') == |tag|
    ensures IndexOf(s[2 + |tag|..], '}') == |args|
    ensures s[1..1 + |tag|] == tag && s[2 + |tag|..2 + |tag| + |args|] == args
  {
    var v := "}" + t;
    var u := "|" + args + v;
    assert s[1..] == tag + u;
    assert s[2 + |tag|..] == args + v;
    IndexOfEitherConcat(tag, u, '}', '|');
    IndexOfConcat(args, v, '}');
  }

  lemma PipedShape(tag: string, args: string, t: string)
    ensures "{" + tag + "|" + args + "}" + t == "{" + (tag + ("|" + args + ("}" + t)))
  {
  }

  lemma PipedTokenParts(s: string, j: nat, k: nat)
    requires 1 < j && j + 1 < k < |s| && s[0] == '{' && s[j] == '|'
    requires IndexOfEither(s[1..], '}', '|') == j - 1
    requires IndexOf(s[j + 1..], '}') == k - j - 1
    ensures PipedTokenAt(s) == Some((k + 1, PipedReplacement(s[1..j], s[j + 1..k])))
  {
  }

  /** `{tag|arg1|arg2…}` becomes `arg1`, or `": "` when the tag is `bc`. */
  lemma PipedTokenReplaced(tag: string, args: string, t: string)
    requires tag != [] && '}' !in tag && '|' !in tag
    requires args != [] && '}' !in args
    ensures PipePass("{" + tag + "|" + args + "}" + t) == PipedReplacement(tag, args) + PipePass(t)
  {
    var s := "{" + tag + "|" + args + "}" + t;
    PipedTokenFound(tag, args, t);
    assert s[|tag| + |args| + 3..] == t;
  }

  lemma IndexOfAt(s: string, c: char, i: nat)
    requires i < |s| && s[i] == c && forall k :: 0 <= k < i ==> s[k] != c
    ensures IndexOf(s, c) == i
  {
  }

  lemma IndexOfEitherAt(s: string, a: char, b: char, i: nat)
    requires i < |s| && (s[i] == a || s[i] == b)
    requires forall k :: 0 <= k < i ==> s[k] != a && s[k] != b
    ensures IndexOfEither(s, a, b) == i
  {
  }

  /** Patterns that all begin with `{` leave brace-free text alone. */
  lemma {:induction false} ReplaceEachPlain(a: string, t: string, pats: seq<string>, rep: string)
    requires forall i :: 0 <= i < |pats| ==> pats[i] != [] && pats[i][0] == '{'
    requires '{' !in a
    ensures ReplaceEach(a + t, pats, rep) == a + ReplaceEach(t, pats, rep)
    decreases |a|
  {
    if a != [] {
      assert (a + t)[1..] == a[1..] + t;
      ReplaceEachCons(a + t, pats, rep);
      ReplaceEachPlain(a[1..], t, pats, rep);
      assert a == [a[0]] + a[1..];
    } else {
      assert a + t == t;
    }
  }

  /** A character other than `{` is copied by a pass whose patterns all begin with `{`. */
  lemma ReplaceEachCons(s: string, pats: seq<string>, rep: string)
    requires forall i :: 0 <= i < |pats| ==> pats[i] != [] && pats[i][0] == '{'
    requires s != [] && s[0] != '{'
    ensures ReplaceEach(s, pats, rep) == [s[0]] + ReplaceEach(s[1..], pats, rep)
  {
    assert MatchAny(s, pats).None? by {
      forall i | 0 <= i < |pats| ensures !(pats[i] <= s) {
        assert pats[i][0] != s[0];
      }
    }
  }

  lemma {:induction false} DropBracesPlain(a: string, t: string)
    requires '{' !in a
    ensures DropBraces(a + t) == a + DropBraces(t)
    decreases |a|
  {
    if a != [] {
      assert (a + t)[1..] == a[1..] + t;
      DropBracesCons(a + t);
      DropBracesPlain(a[1..], t);
      assert a == [a[0]] + a[1..];
    } else {
      assert a + t == t;
    }
  }

  /** A character other than `{` is copied by pass 3. */
  lemma DropBracesCons(s: string)
    requires s != [] && s[0] != '{'
    ensures DropBraces(s) == [s[0]] + DropBraces(s[1..])
  {
  }

  /** `{body}` with a non-empty body free of `}` is deleted by pass 3. */
  lemma DropBracesToken(body: string, t: string)
    requires body != [] && '}' !in body
    ensures DropBraces("{" + body + "}" + t) == DropBraces(t)
  {
    var s := "{" + body + "}" + t;
    assert s[1..] == body + ("}" + t);
    IndexOfConcat(body, "}" + t, '}');
    assert s[|body| + 2..] == t;
  }

  /** The tag passes leave brace-free text alone. */
  lemma TagPassesPlain(a: string, t: string)
    requires '{' !in a
    ensures TagPasses(a + t) == a + TagPasses(t)
  {
    TagPatternsAreTokens();
    var s1 := ReplaceEach(t, ItalicTags, "");
    var s2 := ReplaceEach(s1, SmallCapsTags, "");
    var s3 := ReplaceEach(s2, BoldTags, "");
    ReplaceEachPlain(a, t, ItalicTags, "");
    ReplaceEachPlain(a, s1, SmallCapsTags, "");
    ReplaceEachPlain(a, s2, BoldTags, "");
    ReplaceEachPlain(a, s3, BoxColonTags, ": ");
  }

  /** Brace-free text is untouched by the three markup passes. */
  lemma BracePassesPlain(a: string, t: string)
    requires '{' !in a
    ensures BracePasses(a + t) == a + BracePasses(t)
  {
    PipePassPlain(a, t);
    TagPassesPlain(a, PipePass(t));
    DropBracesPlain(a, TagPasses(PipePass(t)));
  }

  /** A `{word}` token with no `|`: pass 1 copies it. */
  lemma PipePassBareToken(body: string, t: string)
    requires '{' !in body && '}' !in body && '|' !in body
    ensures PipePass("{" + body + "}" + t) == "{" + body + "}" + PipePass(t)
  {
    var u := body + "}";
    assert "{" + body + "}" + t == "{" + (u + t);
    assert "{" + body + "}" + PipePass(t) == "{" + (u + PipePass(t));
    BareTokenNotPiped(body, t, "{" + (u + t));
    PipePassPlain(u, t);
  }

  /** Pass 1 finds no piped token at `{body}` when the body holds no `|`:
      the scan meets `}` first. */
  lemma BareTokenNotPiped(body: string, t: string, s: string)
    requires '{' !in body && '}' !in body && '|' !in body
    requires s == "{" + ((body + "}") + t)
    ensures PipedTokenAt(s).None?
    ensures s != [] && s[0] == '{' && s[1..] == (body + "}") + t
  {
    var v := "}" + t;
    assert s[1..] == body + v;
    IndexOfEitherConcat(body, v, '}', '|');
    PipedNoneAt(s, 1 + |body|);
  }

  lemma PipedNoneAt(s: string, j: nat)
    requires 0 < j < |s| && s[0] == '{' && s[j] == '}'
    requires IndexOfEither(s[1..], '}', '|') == j - 1
    ensures PipedTokenAt(s).None?
  {
  }

  /** Rule for piped tokens, over the three markup passes together: the
      token becomes its first argument (`": "` for `bc`). */
  lemma PipedTokenRule(tag: string, args: string, t: string)
    requires tag != [] && '}' !in tag && '|' !in tag
    requires args != [] && '}' !in args
    requires '{' !in PipedReplacement(tag, args)
    ensures BracePasses("{" + tag + "|" + args + "}" + t) == PipedReplacement(tag, args) + BracePasses(t)
  {
    var r := PipedReplacement(tag, args);
    PipedTokenReplaced(tag, args, t);
    TagPassesPlain(r, PipePass(t));
    DropBracesPlain(r, TagPasses(PipePass(t)));
  }

  /** Rule for the style tags: `{it}`, `{/it}`, `{sc}`, `{/sc}`, `{b}` and
      `{/b}` disappear, so the text they wrap is kept as it is. */
  lemma StyleTagRule(tag: string, t: string)
    requires tag in StyleNames
    ensures BracePasses("{" + tag + "}" + t) == BracePasses(t)
  {
    PipePassBareToken(tag, t);
    TagPassesToken(tag, PipePass(t));
  }

  /** A bare `{bc}` becomes `": "`. */
  lemma BareBoxColonRule(t: string)
    ensures BracePasses(Braced("bc") + t) == ": " + BracePasses(t)
  {
    PipePassBareToken("bc", t);
    TagPassesToken("bc", PipePass(t));
    DropBracesPlain(": ", TagPasses(PipePass(t)));
  }

  /** Rule for any other `{…}` token with a non-empty body: it is dropped. */
  lemma UnknownTokenRule(body: string, t: string)
    requires body != [] && '{' !in body && '}' !in body && '|' !in body
    requires body !in StyleNames && body != "bc"
    ensures BracePasses("{" + body + "}" + t) == BracePasses(t)
  {
    PipePassBareToken(body, t);
    TagPassesToken(body, PipePass(t));
    DropBracesToken(body, TagPasses(PipePass(t)));
  }

  /** A `{…}` token whose non-empty body holds no `}`: the shape of every
      pattern of pass 2. */
  predicate IsToken(p: string) {
    |p| >= 3 && p[0] == '{' && p[|p| - 1] == '}' && '}' !in p[1..|p| - 1]
  }

  /** A token is a prefix of a string that starts with another token only
      when the two are the same. */
  lemma TokenPrefix(p: string, tok: string, u: string)
    requires IsToken(p) && IsToken(tok)
    ensures p <= tok + u <==> p == tok
  {
    var x := tok + u;
    if p != tok {
      var n, m := |p| - 1, |tok| - 1;
      if n < m {
        assert tok[1..m][n - 1] == tok[n];
        assert p[n] != x[n];
      } else if n > m {
        assert p[1..n][m - 1] == p[m];
        assert p[m] != x[m];
      } else {
        var k :| 0 <= k < |p| && p[k] != tok[k];
        assert p[k] != x[k];
      }
    }
  }

  /** One pass of pass 2 over a string that starts with a `{word}` token:
      the token is replaced when it is one of `pats` and copied otherwise. */
  lemma ReplaceEachToken(tok: string, u: string, pats: seq<string>, rep: string)
    requires IsToken(tok) && '{' !in tok[1..]
    requires AllTokens(pats)
    ensures tok in pats ==> ReplaceEach(tok + u, pats, rep) == rep + ReplaceEach(u, pats, rep)
    ensures tok !in pats ==> ReplaceEach(tok + u, pats, rep) == tok + ReplaceEach(u, pats, rep)
  {
    if tok in pats {
      ReplaceEachTokenIn(tok, u, pats, rep);
    } else {
      ReplaceEachTokenNotIn(tok, u, pats, rep);
    }
  }

  lemma ReplaceEachTokenIn(tok: string, u: string, pats: seq<string>, rep: string)
    requires IsToken(tok) && AllTokens(pats) && tok in pats
    ensures ReplaceEach(tok + u, pats, rep) == rep + ReplaceEach(u, pats, rep)
  {
    var x := tok + u;
    MatchAnyToken(tok, u, pats);
    ReplaceEachMatched(x, pats, rep, |tok|);
    assert x[|tok|..] == u;
  }

  lemma ReplaceEachTokenNotIn(tok: string, u: string, pats: seq<string>, rep: string)
    requires IsToken(tok) && '{' !in tok[1..] && AllTokens(pats) && tok !in pats
    ensures ReplaceEach(tok + u, pats, rep) == tok + ReplaceEach(u, pats, rep)
  {
    var x := tok + u;
    MatchAnyToken(tok, u, pats);
    ReplaceEachUnmatched(x, pats, rep);
    assert x[1..] == tok[1..] + u;
    ReplaceEachPlain(tok[1..], u, pats, rep);
    assert tok == [tok[0]] + tok[1..];
  }

  lemma ReplaceEachMatched(s: string, pats: seq<string>, rep: string, n: nat)
    requires forall i :: 0 <= i < |pats| ==> pats[i] != []
    requires s != [] && MatchAny(s, pats) == Some(n)
    ensures n <= |s| && ReplaceEach(s, pats, rep) == rep + ReplaceEach(s[n..], pats, rep)
  {
  }

  lemma ReplaceEachUnmatched(s: string, pats: seq<string>, rep: string)
    requires forall i :: 0 <= i < |pats| ==> pats[i] != []
    requires s != [] && MatchAny(s, pats).None?
    ensures ReplaceEach(s, pats, rep) == [s[0]] + ReplaceEach(s[1..], pats, rep)
  {
  }

  /** At a token, MatchAny finds exactly that token among `pats`. */
  lemma MatchAnyToken(tok: string, u: string, pats: seq<string>)
    requires IsToken(tok) && AllTokens(pats)
    ensures tok in pats ==> MatchAny(tok + u, pats) == Some(|tok|)
    ensures tok !in pats ==> MatchAny(tok + u, pats).None?
  {
    forall i | 0 <= i < |pats| ensures pats[i] <= tok + u <==> pats[i] == tok {
      TokenPrefix(pats[i], tok, u);
    }
  }

  /** The names of the style tags that pass 2 deletes. */
  const StyleNames: seq<string> := ["it", "/it", "sc", "/sc", "b", "/b"]

  /** The four tag passes over a string that starts with `{w}`: the style
      tags vanish, `{bc}` becomes `": "`, any other token is kept. */
  lemma TagPassesToken(w: string, u: string)
    requires w != [] && '{' !in w && '}' !in w
    ensures w in StyleNames ==> TagPasses(Braced(w) + u) == TagPasses(u)
    ensures w == "bc" ==> TagPasses(Braced(w) + u) == ": " + TagPasses(u)
    ensures w !in StyleNames && w != "bc" ==> TagPasses(Braced(w) + u) == Braced(w) + TagPasses(u)
  {
    var tok := Braced(w);
    assert tok[1..] == w + "}" && tok[1..|tok| - 1] == w;
    if w in StyleNames {
      StyleTokenListed(w);
    } else if w == "bc" {
      assert tok in BoxColonTags;
      assert tok !in ItalicTags + SmallCapsTags + BoldTags;
    } else {
      OtherTokenUnlisted(w);
    }
    TagPassesOnToken(tok, u);
  }

  lemma StyleTokenListed(w: string)
    requires w in StyleNames
    ensures Braced(w) in ItalicTags + SmallCapsTags + BoldTags
  {
  }

  lemma OtherTokenUnlisted(w: string)
    requires w !in StyleNames && w != "bc"
    ensures Braced(w) !in ItalicTags + SmallCapsTags + BoldTags + BoxColonTags
  {
    TokenEq(w, "it");
    TokenEq(w, "/it");
    TokenEq(w, "sc");
    TokenEq(w, "/sc");
    TokenEq(w, "b");
    TokenEq(w, "/b");
    TokenEq(w, "bc");
  }

  lemma TagPassesOnToken(tok: string, u: string)
    requires IsToken(tok) && '{' !in tok[1..]
    ensures tok in ItalicTags + SmallCapsTags + BoldTags ==> TagPasses(tok + u) == TagPasses(u)
    ensures tok in BoxColonTags ==> TagPasses(tok + u) == ": " + TagPasses(u)
    ensures tok !in ItalicTags + SmallCapsTags + BoldTags + BoxColonTags ==>
              TagPasses(tok + u) == tok + TagPasses(u)
  {
    TagPatternsAreTokens();
    var u1 := ReplaceEach(u, ItalicTags, "");
    var u2 := ReplaceEach(u1, SmallCapsTags, "");
    var u3 := ReplaceEach(u2, BoldTags, "");
    ReplaceEachToken(tok, u, ItalicTags, "");
    if tok in ItalicTags {
      assert "" + u1 == u1;
    } else {
      ReplaceEachToken(tok, u1, SmallCapsTags, "");
      if tok in SmallCapsTags {
        assert "" + u2 == u2;
      } else {
        ReplaceEachToken(tok, u2, BoldTags, "");
        if tok in BoldTags {
          assert "" + u3 == u3;
        } else {
          ReplaceEachToken(tok, u3, BoxColonTags, ": ");
        }
      }
    }
  }

  predicate AllTokens(pats: seq<string>) {
    forall i :: 0 <= i < |pats| ==> pats[i] != [] && pats[i][0] == '{' && IsToken(pats[i])
  }

  lemma TagPatternsAreTokens()
    ensures AllTokens(ItalicTags) && AllTokens(SmallCapsTags) && AllTokens(BoldTags) && AllTokens(BoxColonTags)
  {
  }

  lemma TokenEq(w: string, v: string)
    ensures Braced(w) == Braced(v) <==> w == v
  {
    var tw, tv := Braced(w), Braced(v);
    assert tw[1..|tw| - 1] == w && tv[1..|tv| - 1] == v;
  }

  // =====================================================================
  // Shape of the output
  // =====================================================================

  /** No `{…}` token with a non-empty body is left: a `{` that has any `}`
      after it is immediately followed by one. */
  predicate NoBraceToken(s: string) {
    forall i, j :: 0 <= i < j < |s| && s[i] == '{' && s[j] == '}' ==> s[i + 1] == '}'
  }

  /** Every whitespace character is a plain space and none is next to another. */
  predicate SingleSpaced(s: string) {
    forall i :: 0 <= i < |s| && IsSpace(s[i]) ==> s[i] == ' ' && (i + 1 == |s| || !IsSpace(s[i + 1]))
  }

  /** Single-spaced, and no space stands right before one of `,.;:!?`. */
  predicate WellSpaced(s: string) {
    SingleSpaced(s) && forall i :: 0 <= i < |s| - 1 && IsSpace(s[i]) ==> !IsPunct(s[i + 1])
  }

  /** What `cleanMWText` promises about its result. */
  predicate CleanShape(r: string) {
    && NoBraceToken(r)
    && WellSpaced(r)
    && (r != [] ==> !IsSpace(r[0]) && !IsSpace(r[|r| - 1]))
  }

  lemma NoBraceTokenCons(c: char, t: string)
    requires NoBraceToken(t)
    requires c == '{' ==> (t != [] && t[0] == '}') || '}' !in t
    ensures NoBraceToken([c] + t)
  {
    var s := [c] + t;
    forall i, j | 0 <= i < j < |s| && s[i] == '{' && s[j] == '}'
      ensures s[i + 1] == '}'
    {
      if i == 0 {
        assert t[j - 1] == '}';
      } else {
        assert t[i - 1] == '{' && t[j - 1] == '}';
      }
    }
  }

  lemma {:induction false} NoBraceTokenPrepend(a: string, t: string)
    requires NoBraceToken(t) && '{' !in a
    ensures NoBraceToken(a + t)
    decreases |a|
  {
    if a == [] {
      assert a + t == t;
    } else {
      NoBraceTokenPrepend(a[1..], t);
      NoBraceTokenCons(a[0], a[1..] + t);
      assert a + t == [a[0]] + (a[1..] + t);
    }
  }

  lemma NoBraceTokenSlice(s: string, i: nat, j: nat)
    requires i <= j <= |s| && NoBraceToken(s)
    ensures NoBraceToken(s[i..j])
  {
    var r := s[i..j];
    forall a, b | 0 <= a < b < |r| && r[a] == '{' && r[b] == '}'
      ensures r[a + 1] == '}'
    {
      assert s[i + a] == '{' && s[i + b] == '}';
    }
  }

  lemma SingleSpacedCons(c: char, t: string)
    requires SingleSpaced(t)
    requires IsSpace(c) ==> c == ' ' && (t == [] || !IsSpace(t[0]))
    ensures SingleSpaced([c] + t)
  {
    var s := [c] + t;
    forall i | 0 <= i < |s| && IsSpace(s[i])
      ensures s[i] == ' ' && (i + 1 == |s| || !IsSpace(s[i + 1]))
    {
      if i > 0 {
        assert s[i] == t[i - 1];
      }
    }
  }

  lemma WellSpacedCons(c: char, t: string)
    requires WellSpaced(t)
    requires IsSpace(c) ==> c == ' ' && (t == [] || (!IsSpace(t[0]) && !IsPunct(t[0])))
    ensures WellSpaced([c] + t)
  {
    SingleSpacedCons(c, t);
    var s := [c] + t;
    forall i | 0 <= i < |s| - 1 && IsSpace(s[i])
      ensures !IsPunct(s[i + 1])
    {
      if i > 0 {
        assert s[i] == t[i - 1];
      }
    }
  }

  lemma WellSpacedSlice(s: string, i: nat, j: nat)
    requires i <= j <= |s| && WellSpaced(s)
    ensures WellSpaced(s[i..j])
  {
    var r := s[i..j];
    forall k | 0 <= k < |r| && IsSpace(r[k])
      ensures r[k] == ' ' && (k + 1 == |r| || !IsSpace(r[k + 1]))
    {
      assert r[k] == s[i + k];
    }
    forall k | 0 <= k < |r| - 1 && IsSpace(r[k])
      ensures !IsPunct(r[k + 1])
    {
      assert r[k] == s[i + k];
    }
  }

  // ----- pass 3 -----

  lemma {:induction false} DropBracesChars(s: string)
    ensures forall c :: c in DropBraces(s) ==> c in s
    decreases |s|
  {
    if s != [] {
      var n := BraceTokenLen(s);
      if n > 0 {
        DropBracesChars(s[n..]);
        assert forall c :: c in s[n..] ==> c in s;
      } else {
        DropBracesChars(s[1..]);
        assert forall c :: c in s[1..] ==> c in s;
      }
    }
  }

  /** After pass 3 no `{…}` token is left. */
  lemma {:induction false} DropBracesNoBraceToken(s: string)
    ensures NoBraceToken(DropBraces(s))
    decreases |s|
  {
    if s != [] {
      var n := BraceTokenLen(s);
      if n > 0 {
        DropBracesNoBraceToken(s[n..]);
      } else {
        var t := s[1..];
        DropBracesNoBraceToken(t);
        if s[0] == '{' {
          var p := IndexOf(t, '}');
          if p < |t| {
            assert p == 0 && t[0] == '}';
            assert BraceTokenLen(t) == 0;
            assert DropBraces(t) == [t[0]] + DropBraces(t[1..]);
          } else {
            assert '}' !in t;
            DropBracesChars(t);
          }
        }
        NoBraceTokenCons(s[0], DropBraces(t));
      }
    }
  }

  // ----- pass 4 -----

  lemma {:induction false} CollapseChars(s: string)
    ensures forall c :: c in Collapse(s) && c != ' ' ==> c in s
    decreases |s|
  {
    if s != [] {
      var k := if IsSpace(s[0]) then SpaceRun(s) else 1;
      CollapseChars(s[k..]);
      assert forall c :: c in s[k..] ==> c in s;
    }
  }

  /** After pass 4 every whitespace run is one plain space. */
  lemma {:induction false} CollapseSingleSpaced(s: string)
    ensures SingleSpaced(Collapse(s))
    decreases |s|
  {
    if s != [] {
      if IsSpace(s[0]) {
        var k := SpaceRun(s);
        CollapseSingleSpaced(s[k..]);
        SingleSpacedCons(' ', Collapse(s[k..]));
      } else {
        CollapseSingleSpaced(s[1..]);
        SingleSpacedCons(s[0], Collapse(s[1..]));
      }
    }
  }

  lemma {:induction false} CollapseNoBraceToken(s: string)
    requires NoBraceToken(s)
    ensures NoBraceToken(Collapse(s))
    decreases |s|
  {
    if s != [] {
      if IsSpace(s[0]) {
        var k := SpaceRun(s);
        NoBraceTokenSlice(s, k, |s|);
        CollapseNoBraceToken(s[k..]);
        NoBraceTokenCons(' ', Collapse(s[k..]));
      } else {
        var t := s[1..];
        NoBraceTokenSlice(s, 1, |s|);
        CollapseNoBraceToken(t);
        if s[0] == '{' {
          if '}' in t {
            var j :| 0 <= j < |t| && t[j] == '}';
            assert s[j + 1] == '}';
            assert t[0] == '}';
          } else {
            CollapseChars(t);
          }
        }
        NoBraceTokenCons(s[0], Collapse(t));
      }
    }
  }

  // ----- pass 5 -----

  lemma {:induction false} PunctFixChars(s: string)
    ensures forall c :: c in PunctFix(s) ==> c in s
    decreases |s|
  {
    if s != [] {
      if SpaceThenPunct(s) {
        var k := SpaceRun(s);
        PunctFixChars(s[k + 1..]);
        assert forall c :: c in s[k + 1..] ==> c in s;
      } else {
        PunctFixChars(s[1..]);
        assert forall c :: c in s[1..] ==> c in s;
      }
    }
  }

  /** After pass 5 (on single-spaced text) no space precedes punctuation. */
  lemma {:induction false} PunctFixWellSpaced(s: string)
    requires SingleSpaced(s)
    ensures WellSpaced(PunctFix(s))
    decreases |s|
  {
    if s != [] {
      if SpaceThenPunct(s) {
        var k := SpaceRun(s);
        SingleSpacedSuffix(s, k + 1);
        PunctFixWellSpaced(s[k + 1..]);
        PunctFixDropStep(s);
      } else {
        SingleSpacedSuffix(s, 1);
        PunctFixWellSpaced(s[1..]);
        PunctFixCopyStep(s);
      }
    }
  }

  /** A space run before punctuation is dropped: the punctuation starts the output. */
  lemma PunctFixDropStep(s: string)
    requires SpaceThenPunct(s)
    requires WellSpaced(PunctFix(s[SpaceRun(s) + 1..]))
    ensures WellSpaced(PunctFix(s))
  {
    var k := SpaceRun(s);
    WellSpacedCons(s[k], PunctFix(s[k + 1..]));
  }

  /** Any other character is copied; a copied space is single and not
      followed by punctuation. */
  lemma PunctFixCopyStep(s: string)
    requires SingleSpaced(s) && s != [] && !SpaceThenPunct(s)
    requires WellSpaced(PunctFix(s[1..]))
    ensures WellSpaced(PunctFix(s))
  {
    if IsSpace(s[0]) && |s| > 1 {
      assert !IsSpace(s[1]);
      assert SpaceRun(s) == 1;
      assert !IsPunct(s[1]);
      PunctFixFirst(s[1..]);
    }
    WellSpacedCons(s[0], PunctFix(s[1..]));
  }

  /** Pass 5 keeps the first character of text that does not start with whitespace. */
  lemma PunctFixFirst(s: string)
    requires s != [] && !IsSpace(s[0])
    ensures PunctFix(s) != [] && PunctFix(s)[0] == s[0]
  {
  }

  lemma SingleSpacedSuffix(s: string, k: nat)
    requires k <= |s| && SingleSpaced(s)
    ensures SingleSpaced(s[k..])
  {
    var r := s[k..];
    forall i | 0 <= i < |r| && IsSpace(r[i])
      ensures r[i] == ' ' && (i + 1 == |r| || !IsSpace(r[i + 1]))
    {
      assert r[i] == s[k + i];
    }
  }

  lemma {:induction false} PunctFixNoBraceToken(s: string)
    requires NoBraceToken(s)
    ensures NoBraceToken(PunctFix(s))
    decreases |s|
  {
    if s != [] {
      if SpaceThenPunct(s) {
        var k := SpaceRun(s);
        NoBraceTokenSlice(s, k + 1, |s|);
        PunctFixNoBraceToken(s[k + 1..]);
        NoBraceTokenCons(s[k], PunctFix(s[k + 1..]));
      } else {
        var t := s[1..];
        NoBraceTokenSlice(s, 1, |s|);
        PunctFixNoBraceToken(t);
        if s[0] == '{' {
          if '}' in t {
            var j :| 0 <= j < |t| && t[j] == '}';
            assert s[j + 1] == '}';
            assert t[0] == '}';
          } else {
            PunctFixChars(t);
          }
        }
        NoBraceTokenCons(s[0], PunctFix(t));
      }
    }
  }

  // ----- pass 6 -----

  lemma {:induction false} DashFixChars(s: string, atStart: bool)
    ensures forall c :: c in DashFix(s, atStart) && c != EmDash && c != ' ' ==> c in s
    decreases |s|
  {
    if s != [] {
      if atStart && IsDash(s[0]) && SpaceRun(s[1..]) > 0 {
        var k := 1 + SpaceRun(s[1..]);
        DashFixChars(s[k..], false);
        assert forall c :: c in s[k..] ==> c in s;
      } else if |s| >= 2 && IsSpace(s[0]) && IsDash(s[1]) && SpaceRun(s[2..]) > 0 {
        var k := 2 + SpaceRun(s[2..]);
        DashFixChars(s[k..], false);
        assert forall c :: c in s[k..] ==> c in s;
      } else {
        DashFixChars(s[1..], false);
        assert forall c :: c in s[1..] ==> c in s;
      }
    }
  }

  /** Pass 6 on a dash at the start of the scan followed by whitespace. */
  lemma DashLeadUnfold(s: string)
    requires s != [] && IsDash(s[0]) && SpaceRun(s[1..]) > 0
    ensures DashFix(s, true) == [EmDash] + (" " + DashFix(s[1 + SpaceRun(s[1..])..], false))
  {
  }

  /** Pass 6 on whitespace, a dash and more whitespace. */
  lemma DashInnerUnfold(s: string, atStart: bool)
    requires |s| >= 2 && IsSpace(s[0]) && IsDash(s[1]) && SpaceRun(s[2..]) > 0
    ensures DashFix(s, atStart) == [s[0]] + ([EmDash] + (" " + DashFix(s[2 + SpaceRun(s[2..])..], false)))
  {
    assert !IsDash(s[0]);
  }

  /** Pass 6 on a character where no match starts. */
  lemma DashCopyUnfold(s: string, atStart: bool)
    requires s != []
    requires !(atStart && IsDash(s[0]) && SpaceRun(s[1..]) > 0)
    requires !(|s| >= 2 && IsSpace(s[0]) && IsDash(s[1]) && SpaceRun(s[2..]) > 0)
    ensures DashFix(s, atStart) == [s[0]] + DashFix(s[1..], false)
  {
  }

  /** Pass 6 keeps well-spaced text well spaced. */
  lemma {:induction false} DashFixWellSpaced(s: string, atStart: bool)
    requires WellSpaced(s)
    ensures WellSpaced(DashFix(s, atStart))
    decreases |s|
  {
    if s != [] {
      if atStart && IsDash(s[0]) && SpaceRun(s[1..]) > 0 {
        var k := LeadingDashRun(s);
        WellSpacedSlice(s, k, |s|);
        DashFixWellSpaced(s[k..], false);
        DashLeadStep(DashFix(s[k..], false));
      } else if |s| >= 2 && IsSpace(s[0]) && IsDash(s[1]) && SpaceRun(s[2..]) > 0 {
        var k := InnerDashRun(s);
        WellSpacedSlice(s, k, |s|);
        DashFixWellSpaced(s[k..], false);
        DashInnerStep(s[0], DashFix(s[k..], false));
      } else {
        WellSpacedSlice(s, 1, |s|);
        DashFixWellSpaced(s[1..], false);
        WellSpacedCons(s[0], DashFix(s[1..], false));
      }
    }
  }

  /** In well-spaced text a dash at the start is followed by exactly one space. */
  lemma LeadingDashRun(s: string) returns (k: nat)
    requires WellSpaced(s) && |s| >= 1 && SpaceRun(s[1..]) > 0
    ensures k == 1 + SpaceRun(s[1..]) == 2 <= |s|
    ensures k < |s| ==> !IsSpace(s[k]) && !IsPunct(s[k])
  {
    k := 1 + SpaceRun(s[1..]);
    assert IsSpace(s[1]) && s[1..][1..] == s[2..];
    assert SpaceRun(s[2..]) == 0;
  }

  /** In well-spaced text a dash after a space is followed by exactly one space. */
  lemma InnerDashRun(s: string) returns (k: nat)
    requires WellSpaced(s) && |s| >= 2 && SpaceRun(s[2..]) > 0
    ensures k == 2 + SpaceRun(s[2..]) == 3 <= |s|
    ensures k < |s| ==> !IsSpace(s[k]) && !IsPunct(s[k])
  {
    k := 2 + SpaceRun(s[2..]);
    assert IsSpace(s[2]) && s[2..][1..] == s[3..];
    assert SpaceRun(s[3..]) == 0;
  }

  lemma DashLeadStep(rest: string)
    requires WellSpaced(rest)
    requires rest != [] ==> !IsSpace(rest[0]) && !IsPunct(rest[0])
    ensures WellSpaced([EmDash, ' '] + rest)
  {
    WellSpacedCons(' ', rest);
    WellSpacedCons(EmDash, [' '] + rest);
    assert [EmDash, ' '] + rest == [EmDash] + ([' '] + rest);
  }

  lemma DashInnerStep(c: char, rest: string)
    requires IsSpace(c) ==> c == ' '
    requires WellSpaced(rest)
    requires rest != [] ==> !IsSpace(rest[0]) && !IsPunct(rest[0])
    ensures WellSpaced([c, EmDash, ' '] + rest)
  {
    WellSpacedCons(' ', rest);
    WellSpacedCons(EmDash, [' '] + rest);
    WellSpacedCons(c, [EmDash] + ([' '] + rest));
    assert [c, EmDash, ' '] + rest == [c] + ([EmDash] + ([' '] + rest));
  }

  lemma {:induction false} DashFixNoBraceToken(s: string, atStart: bool)
    requires NoBraceToken(s)
    ensures NoBraceToken(DashFix(s, atStart))
    decreases |s|
  {
    if s != [] {
      if atStart && IsDash(s[0]) && SpaceRun(s[1..]) > 0 {
        var k := 1 + SpaceRun(s[1..]);
        NoBraceTokenSlice(s, k, |s|);
        DashFixNoBraceToken(s[k..], false);
        NoBraceTokenPrepend([EmDash, ' '], DashFix(s[k..], false));
      } else if |s| >= 2 && IsSpace(s[0]) && IsDash(s[1]) && SpaceRun(s[2..]) > 0 {
        var k := 2 + SpaceRun(s[2..]);
        NoBraceTokenSlice(s, k, |s|);
        DashFixNoBraceToken(s[k..], false);
        NoBraceTokenPrepend([s[0], EmDash, ' '], DashFix(s[k..], false));
      } else {
        var t := s[1..];
        NoBraceTokenSlice(s, 1, |s|);
        DashFixNoBraceToken(t, false);
        if s[0] == '{' {
          if '}' in t {
            var j :| 0 <= j < |t| && t[j] == '}';
            assert s[j + 1] == '}';
            assert t[0] == '}';
          } else {
            DashFixChars(t, false);
          }
        }
        NoBraceTokenCons(s[0], DashFix(t, false));
      }
    }
  }

  /** Trimming well-spaced text without markup tokens gives the final shape. */
  lemma TrimShape(d: string)
    requires WellSpaced(d) && NoBraceToken(d)
    ensures CleanShape(Trim(d))
  {
    TrimStartShape(d);
    TrimEndShape(TrimStart(d));
  }

  lemma TrimStartShape(d: string)
    requires WellSpaced(d) && NoBraceToken(d)
    ensures WellSpaced(TrimStart(d)) && NoBraceToken(TrimStart(d))
    ensures TrimStart(d) != [] ==> !IsSpace(TrimStart(d)[0])
  {
    var t := TrimStart(d);
    assert t == d[|d| - |t|..|d|];
    WellSpacedSlice(d, |d| - |t|, |d|);
    NoBraceTokenSlice(d, |d| - |t|, |d|);
  }

  lemma TrimEndShape(t: string)
    requires WellSpaced(t) && NoBraceToken(t)
    requires t != [] ==> !IsSpace(t[0])
    ensures CleanShape(TrimEnd(t))
  {
    var r := TrimEnd(t);
    assert r == t[0..|r|];
    WellSpacedSlice(t, 0, |r|);
    NoBraceTokenSlice(t, 0, |r|);
    if r != [] {
      assert r[0] == t[0];
    }
  }

  /** Passes 4 to 7 turn text without markup tokens into the final shape. */
  lemma TidyShape(b: string)
    requires NoBraceToken(b)
    ensures CleanShape(Tidy(b))
  {
    var c := Collapse(b);
    CollapseSingleSpaced(b);
    CollapseNoBraceToken(b);
    var p := PunctFix(c);
    PunctFixWellSpaced(c);
    PunctFixNoBraceToken(c);
    DashFixWellSpaced(p, true);
    DashFixNoBraceToken(p, true);
    TrimShape(DashFix(p, true));
  }

  /** The result of `cleanMWText` holds no `{…}` markup token, has every
      whitespace run collapsed to one space, has no space before
      punctuation, and neither starts nor ends with whitespace. */
  lemma CleanMWTextShape(input: string)
    ensures CleanShape(CleanMWText(input))
  {
    if input != [] {
      DropBracesNoBraceToken(TagPasses(PipePass(input)));
      TidyShape(BracePasses(input));
    }
  }
}
