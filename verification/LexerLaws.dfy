/** What the lexer's cut means: it is the only canonical one, it loses nothing, and printing it can be undone. */
module LexerLaws {
  import opened Sequences
  import opened Lexer
  import D = Decimal

  function Texts(ls: seq<Lexem>): string {
    if ls == [] then "" else ls[0].text + Texts(ls[1..])
  }

  /** A lexem that can stand alone: typed by its spelling, and an argument holds no operator character. */
  predicate WellTyped(l: Lexem) {
    l.text != "" && l.kind == TakeType(l.text)
    && (l.kind == Argument ==> forall i :: 0 <= i < |l.text| ==> Plain(l.text[i]))
  }

  /** Neighbours in one word that could not have been cut elsewhere. */
  predicate Apart(a: Lexem, b: Lexem)
    requires a.text != "" && b.text != ""
  {
    !(a.kind == Argument && b.kind == Argument) && !(|a.text| == 1 && Doubled(a.text[0], b.text[0]))
  }

  /** A cut of a word where each lexem is as long as it can be. */
  predicate Canonical(ls: seq<Lexem>) {
    ls == [] || (WellTyped(ls[0]) && Canonical(ls[1..]) && (|ls| > 1 ==> WellTyped(ls[1]) && Apart(ls[0], ls[1])))
  }

  lemma {:induction false} FirstIsWellTyped(w: string)
    requires w != ""
    ensures WellTyped(LexemOf(w[..FirstLen(w)])) && (LexemOf(w[..FirstLen(w)]).kind == Argument <==> Plain(w[0]))
  {
  }

  lemma {:induction false} TextsOfCons(l: Lexem, ls: seq<Lexem>)
    ensures Texts([l] + ls) == l.text + Texts(ls)
  {
    assert ([l] + ls)[1..] == ls;
  }

  lemma {:induction false} LeftmostSpells(w: string)
    ensures Texts(Leftmost(w)) == w
    decreases |w|
  {
    if w != "" {
      LeftmostSpells(w[FirstLen(w)..]);
      TextsOfCons(LexemOf(w[..FirstLen(w)]), Leftmost(w[FirstLen(w)..]));
    }
  }

  /** The first two lexems of a word could not have been cut elsewhere. */
  lemma {:induction false} CutApart(w: string, n: nat)
    requires w != "" && n == FirstLen(w) < |w|
    ensures Apart(LexemOf(w[..n]), LexemOf(w[n..][..FirstLen(w[n..])]))
  {
    FirstIsWellTyped(w);
    FirstIsWellTyped(w[n..]);
  }

  lemma {:induction false} LeftmostIsCanonical(w: string)
    ensures Canonical(Leftmost(w))
    decreases |w|
  {
    if w != "" {
      var n := FirstLen(w);
      LeftmostIsCanonical(w[n..]);
      FirstIsWellTyped(w);
      if n < |w| {
        CutApart(w, n);
      }
      assert Leftmost(w)[1..] == Leftmost(w[n..]);
    }
  }

  lemma {:induction false} FirstLenIs(l: Lexem, r: string)
    requires WellTyped(l)
    requires r != "" ==> !(l.kind == Argument && Plain(r[0])) && !(|l.text| == 1 && Doubled(l.text[0], r[0]))
    ensures FirstLen(l.text + r) == |l.text|
  {
    if l.kind == Argument {
      PlainPrefixIs(l.text + r, |l.text|);
    }
  }

  lemma {:induction false} CanonicalIsLeftmost(ls: seq<Lexem>)
    requires Canonical(ls)
    ensures Leftmost(Texts(ls)) == ls
  {
    if ls != [] {
      var r := Texts(ls[1..]);
      CanonicalIsLeftmost(ls[1..]);
      if |ls| > 1 {
        assert r[0] == ls[1].text[0];
      }
      FirstLenIs(ls[0], r);
      assert (ls[0].text + r)[..|ls[0].text|] == ls[0].text && (ls[0].text + r)[|ls[0].text|..] == r;
    }
  }

  /** The leftmost-longest cut is the one canonical way to cut a word. */
  lemma {:induction false} TheOnlyCut(w: string, ls: seq<Lexem>)
    ensures ls == Leftmost(w) <==> Canonical(ls) && Texts(ls) == w
  {
    LeftmostIsCanonical(w);
    LeftmostSpells(w);
    if Canonical(ls) {
      CanonicalIsLeftmost(ls);
    }
  }

  function NonBlank(s: string): string {
    if s == "" then "" else (if D.IsBlank(s[0]) then "" else [s[0]]) + NonBlank(s[1..])
  }

  predicate BlankFree(s: string) {
    forall i :: 0 <= i < |s| ==> !D.IsBlank(s[i])
  }

  lemma {:induction false} NonBlankOfSkip(s: string)
    ensures NonBlank(SkipBlanks(s)) == NonBlank(s)
  {
    if s != "" && D.IsBlank(s[0]) {
      NonBlankOfSkip(s[1..]);
    }
  }

  lemma {:induction false} NonBlankSplits(s: string, n: nat)
    requires n <= |s| && BlankFree(s[..n])
    ensures NonBlank(s) == s[..n] + NonBlank(s[n..])
  {
    if n > 0 {
      assert s[1..][..n - 1] == s[..n][1..] && s[1..][n - 1..] == s[n..];
      assert !D.IsBlank(s[..n][0]);
      NonBlankSplits(s[1..], n - 1);
      assert [s[0]] + s[..n][1..] == s[..n];
    }
  }

  lemma {:induction false} TextsJoin(a: seq<Lexem>, b: seq<Lexem>)
    ensures Texts(a + b) == Texts(a) + Texts(b)
  {
    if a == [] {
      assert a + b == b;
    } else {
      TextsJoin(a[1..], b);
      assert a + b == [a[0]] + (a[1..] + b);
      TextsOfCons(a[0], a[1..] + b);
      ConcatAssociative(a[0].text, Texts(a[1..]), Texts(b));
    }
  }

  /** Nothing but blanks is lost: the lexems spell the line. */
  lemma {:induction false} TokensSpellTheLine(s: string)
    ensures Texts(Tokens(s)) == NonBlank(s)
    decreases |s|
  {
    var r := SkipBlanks(s);
    NonBlankOfSkip(s);
    if r != "" {
      var n := WordEnd(r);
      LeftmostSpells(r[..n]);
      TokensSpellTheLine(r[n..]);
      TextsJoin(Leftmost(r[..n]), Tokens(r[n..]));
      NonBlankSplits(r, n);
    }
  }

  ghost predicate Parsed(ls: seq<Lexem>) {
    forall i :: 0 <= i < |ls| ==> WellTyped(ls[i]) && BlankFree(ls[i].text)
  }

  lemma {:induction false} LeftmostIsParsed(w: string)
    requires BlankFree(w)
    ensures Parsed(Leftmost(w))
    decreases |w|
  {
    if w != "" {
      FirstIsWellTyped(w);
      LeftmostIsParsed(w[FirstLen(w)..]);
    }
  }

  /** No empty argument, no argument with an operator or a blank in it. */
  lemma {:induction false} TokensAreParsed(s: string)
    ensures Parsed(Tokens(s))
    decreases |s|
  {
    var r := SkipBlanks(s);
    if r != "" {
      LeftmostIsParsed(r[..WordEnd(r)]);
      TokensAreParsed(r[WordEnd(r)..]);
    }
  }

  /** Lexems printed with a space after each. */
  function Spaced(ls: seq<Lexem>): string {
    if ls == [] then "" else ls[0].text + " " + Spaced(ls[1..])
  }

  lemma {:induction false} WordEndIs(s: string, n: nat)
    requires n <= |s| && (forall i :: 0 <= i < n ==> !D.IsBlank(s[i])) && (n < |s| ==> D.IsBlank(s[n]))
    ensures WordEnd(s) == n
  {
  }

  /** `w` can be the first word of a line that goes on with `rest`. */
  predicate WordThen(w: string, rest: string) {
    w != "" && BlankFree(w) && (rest != "" ==> D.IsBlank(rest[0]))
  }

  /** A line is cut word by word. */
  lemma {:induction false} FirstWord(w: string, rest: string)
    requires WordThen(w, rest)
    ensures Tokens(w + rest) == Leftmost(w) + Tokens(rest)
  {
    var s := w + rest;
    assert SkipBlanks(s) == s;
    WordEndIs(s, |w|);
    assert s[..|w|] == w && s[|w|..] == rest;
  }

  lemma {:induction false} LeadingBlank(s: string)
    requires s != "" && D.IsBlank(s[0])
    ensures Tokens(s) == Tokens(s[1..])
  {
    assert SkipBlanks(s) == SkipBlanks(s[1..]);
  }

  lemma {:induction false} SamePrefix(a: seq<Lexem>, b: seq<Lexem>, c: seq<Lexem>)
    ensures a + c == b + c <==> a == b
  {
    if a + c == b + c {
      assert a == (a + c)[..|a|] && b == (b + c)[..|b|];
    }
  }

  /** What a line yields for its first word is the one canonical cut of that word. */
  lemma {:induction false} FirstWordIsCut(w: string, rest: string, ls: seq<Lexem>)
    requires WordThen(w, rest)
    ensures Tokens(w + rest) == ls + Tokens(rest) <==> Canonical(ls) && Texts(ls) == w
  {
    FirstWord(w, rest);
    SamePrefix(ls, Leftmost(w), Tokens(rest));
    TheOnlyCut(w, ls);
  }

  /** The words of a line: its longest stretches without a blank. */
  function WordsOfLine(s: string): (ws: seq<string>)
    ensures s != "" && !D.IsBlank(s[0]) ==> ws != []
  {
    if s == "" then []
    else
      var ws := WordsOfLine(s[1..]);
      if D.IsBlank(s[0]) then ws
      else if |s| > 1 && !D.IsBlank(s[1]) then [[s[0]] + ws[0]] + ws[1..]
      else [[s[0]]] + ws
  }

  /** `ls` is made of one canonical cut for each of the words. */
  ghost predicate CutPerWord(ls: seq<Lexem>, ws: seq<string>)
    decreases |ws|
  {
    if ws == [] then ls == []
    else exists n: nat :: n <= |ls| && IsCut(ls[..n], ws[0]) && CutPerWord(ls[n..], ws[1..])
  }

  predicate IsCut(ls: seq<Lexem>, w: string) {
    Canonical(ls) && Texts(ls) == w
  }

  function CutAll(ws: seq<string>): seq<Lexem> {
    if ws == [] then [] else Leftmost(ws[0]) + CutAll(ws[1..])
  }

  lemma {:induction false} CutPerWordIs(ls: seq<Lexem>, ws: seq<string>)
    ensures CutPerWord(ls, ws) <==> ls == CutAll(ws)
    decreases |ws|
  {
    if ws != [] {
      forall n: nat | n <= |ls|
        ensures IsCut(ls[..n], ws[0]) && CutPerWord(ls[n..], ws[1..])
           <==> ls[..n] == Leftmost(ws[0]) && ls[n..] == CutAll(ws[1..])
      {
        TheOnlyCut(ws[0], ls[..n]);
        CutPerWordIs(ls[n..], ws[1..]);
      }
      SplitsAs(ls, Leftmost(ws[0]), CutAll(ws[1..]));
    }
  }

  lemma {:induction false} SplitsAs(ls: seq<Lexem>, a: seq<Lexem>, b: seq<Lexem>)
    ensures ls == a + b <==> |a| <= |ls| && ls[..|a|] == a && ls[|a|..] == b
    ensures forall n: nat :: n <= |ls| && ls[..n] == a && ls[n..] == b ==> n == |a|
  {
    if |a| <= |ls| && ls[..|a|] == a && ls[|a|..] == b {
      assert ls == ls[..|a|] + ls[|a|..];
    }
  }

  lemma {:induction false} WordsOfWord(w: string, rest: string)
    requires WordThen(w, rest)
    ensures WordsOfLine(w + rest) == [w] + WordsOfLine(rest)
    decreases |w|
  {
    var s := w + rest;
    if |w| == 1 {
      assert s[1..] == rest && w == [s[0]];
    } else {
      WordsOfWord(w[1..], rest);
      assert s[1..] == w[1..] + rest && [s[0]] + w[1..] == w;
    }
  }

  lemma {:induction false} TokensByWord(s: string)
    ensures Tokens(s) == CutAll(WordsOfLine(s))
    decreases |s|
  {
    if s != "" {
      if D.IsBlank(s[0]) {
        LeadingBlank(s);
        TokensByWord(s[1..]);
      } else {
        var n := WordEnd(s);
        assert s == s[..n] + s[n..];
        FirstWord(s[..n], s[n..]);
        WordsOfWord(s[..n], s[n..]);
        TokensByWord(s[n..]);
      }
    }
  }

  /** The lexems of a line are the only list made of one canonical cut for each of its words. */
  lemma {:induction false} TheOnlyTokens(s: string, ls: seq<Lexem>)
    ensures ls == Tokens(s) <==> CutPerWord(ls, WordsOfLine(s))
  {
    TokensByWord(s);
    CutPerWordIs(ls, WordsOfLine(s));
  }

  lemma {:induction false} OneWord(l: Lexem, rest: string)
    requires WellTyped(l) && BlankFree(l.text)
    ensures Tokens(l.text + " " + rest) == [l] + Tokens(rest)
  {
    assert l.text + " " + rest == l.text + (" " + rest) && (" " + rest)[1..] == rest;
    FirstWord(l.text, " " + rest);
    LeadingBlank(" " + rest);
    assert l.text + Texts([]) == l.text;
    TheOnlyCut(l.text, [l]);
  }

  /** Printing a list of lexems and parsing the line gives the list back. */
  lemma {:induction false} ParseOfSpaced(ls: seq<Lexem>)
    requires Parsed(ls)
    ensures Tokens(Spaced(ls)) == ls
  {
    if ls != [] {
      ParseOfSpaced(ls[1..]);
      OneWord(ls[0], Spaced(ls[1..]));
    }
  }

  /** The lists the parser can produce are the ones that survive printing and parsing. */
  lemma {:induction false} ParsedIsExact(ls: seq<Lexem>)
    ensures Parsed(ls) <==> Tokens(Spaced(ls)) == ls
    ensures Parsed(ls) <==> exists s: string :: Tokens(s) == ls
  {
    if Parsed(ls) {
      ParseOfSpaced(ls);
    }
    forall s: string | Tokens(s) == ls
      ensures Parsed(ls)
    {
      TokensAreParsed(s);
    }
  }
}
