/** From a command list to a line of text and back: what is typed is what is run. */
module ShellLaws {
  import opened Sequences
  import opened Lexer
  import opened LexerLaws
  import opened CommandList
  import opened CommandLaws
  import opened ShellPrint
  import K = KernelModel
  import D = Decimal

  /** A word that can be typed as it is: no blank and no operator character. */
  predicate Typable(w: string) {
    w != "" && forall i :: 0 <= i < |w| ==> Plain(w[i]) && !D.IsBlank(w[i])
  }

  predicate TypableFile(f: Option<string>) {
    f.None? || Typable(f.value)
  }

  predicate TypableCmd(c: Cmd) {
    (forall i :: 0 <= i < |Words(c)| ==> Typable(Words(c)[i]))
    && TypableFile(c.input) && TypableFile(c.output) && TypableFile(c.input2)
  }

  predicate TypablePipeline(p: Pipeline) {
    TypableCmd(p.cmd) && (p.Piped? ==> TypablePipeline(p.rest))
  }

  predicate TypableTail(t: Tail) {
    t.More? ==> TypablePipeline(t.pipe) && TypableTail(t.tail)
  }

  lemma {:induction false} ArgumentIsParsed(w: string)
    requires Typable(w)
    ensures Parsed([Lexem(w, Argument)])
  {
  }

  lemma {:induction false} SignIsParsed(l: Lexem)
    requires l == AMP || l == BAR || l == LESS || l == GREATER || l == Lexem("&&", And) || l == Lexem("||", Or)
    ensures Parsed([l])
  {
    assert l.text == [l.text[0]] || l.text == [l.text[0], l.text[1]];
  }

  lemma {:induction false} ParsedSum(a: seq<Lexem>, b: seq<Lexem>)
    requires Parsed(a) && Parsed(b)
    ensures Parsed(a + b)
  {
  }

  lemma {:induction false} RedirectionIsParsed(sign: Lexem, f: Option<string>)
    requires (sign == LESS || sign == GREATER) && TypableFile(f)
    ensures Parsed(PrintRedirection(sign, f))
  {
    if f.Some? {
      SignIsParsed(sign);
      ArgumentIsParsed(f.value);
      ParsedSum([sign], [Lexem(f.value, Argument)]);
    }
  }

  lemma {:induction false} CmdIsParsed(c: Cmd)
    requires TypableCmd(c)
    ensures Parsed(PrintCmd(c))
  {
    RedirectionIsParsed(LESS, c.input);
    RedirectionIsParsed(GREATER, c.output);
    RedirectionIsParsed(LESS, c.input2);
    forall i | 0 <= i < |Words(c)|
      ensures WellTyped(Arguments(Words(c))[i]) && BlankFree(Arguments(Words(c))[i].text)
    {
      ArgumentIsParsed(Words(c)[i]);
      assert WellTyped([Lexem(Words(c)[i], Argument)][0]);
    }
    ParsedSum(PrintRedirection(GREATER, c.output), PrintRedirection(LESS, c.input2));
    ParsedSum(PrintRedirection(LESS, c.input), PrintRedirection(GREATER, c.output) + PrintRedirection(LESS, c.input2));
    ParsedSum(Arguments(Words(c)), PrintRedirections(c));
  }

  lemma {:induction false} PipelineIsParsed(p: Pipeline)
    requires TypablePipeline(p)
    ensures Parsed(PrintPipeline(p))
  {
    CmdIsParsed(p.cmd);
    if p.Piped? {
      PipelineIsParsed(p.rest);
      SignIsParsed(BAR);
      ParsedSum([BAR], PrintPipeline(p.rest));
      ParsedSum(PrintCmd(p.cmd), [BAR] + PrintPipeline(p.rest));
    }
  }

  lemma {:induction false} TailIsParsed(t: Tail, background: bool)
    requires TypableTail(t)
    ensures Parsed(PrintTail(t, background))
  {
    if t.More? {
      PipelineIsParsed(t.pipe);
      TailIsParsed(t.tail, background);
      SignIsParsed(OpLexem(t.op));
      ParsedSum(PrintPipeline(t.pipe), PrintTail(t.tail, background));
      ParsedSum([OpLexem(t.op)], PrintPipeline(t.pipe) + PrintTail(t.tail, background));
    } else if background {
      SignIsParsed(AMP);
    }
  }

  /** Every command list whose words can be typed has a line that the lexer turns into exactly its lexems. */
  lemma {:induction false} ListCanBeTyped(first: Pipeline, t: Tail, background: bool)
    requires TypablePipeline(first) && TypableTail(t)
    ensures var ls := PrintPipeline(first) + PrintTail(t, background); Tokens(Spaced(ls)) == ls
  {
    PipelineIsParsed(first);
    TailIsParsed(t, background);
    ParsedSum(PrintPipeline(first), PrintTail(t, background));
    ParseOfSpaced(PrintPipeline(first) + PrintTail(t, background));
  }

  function TextOfWords(ws: seq<string>): string {
    if ws == [] then "" else ws[0] + " " + TextOfWords(ws[1..])
  }

  function TextOfFile(sign: string, file: Option<string>): string {
    if file.None? then "" else sign + " " + file.value + " "
  }

  /** A command as it is typed: its words, then `< a`, `> b` and `< c`, as far as it has them. */
  function TextOfCmd(c: Cmd): string {
    TextOfWords(Words(c)) + (TextOfFile("<", c.input) + (TextOfFile(">", c.output) + TextOfFile("<", c.input2)))
  }

  function TextOfPipeline(p: Pipeline): string {
    if p.Last? then TextOfCmd(p.cmd) else TextOfCmd(p.cmd) + ("| " + TextOfPipeline(p.rest))
  }

  function TextOfOp(op: Op): string {
    if op == AndIf then "&& " else "|| "
  }

  function TextOfTail(t: Tail, background: bool): string {
    if t.End? then if background then "& " else ""
    else TextOfOp(t.op) + (TextOfPipeline(t.pipe) + TextOfTail(t.tail, background))
  }

  lemma {:induction false} SpacedJoin(a: seq<Lexem>, b: seq<Lexem>)
    ensures Spaced(a + b) == Spaced(a) + Spaced(b)
  {
    if a == [] {
      assert a + b == b;
    } else {
      SpacedJoin(a[1..], b);
      assert (a + b)[1..] == a[1..] + b;
      ConcatAssociative(a[0].text + " ", Spaced(a[1..]), Spaced(b));
    }
  }

  lemma {:induction false} SpacedOne(l: Lexem)
    ensures Spaced([l]) == l.text + " "
  {
    assert l.text + " " + Spaced([]) == l.text + " ";
  }

  lemma {:induction false} ThreeAsText(a: seq<Lexem>, b: seq<Lexem>, c: seq<Lexem>, x: string, y: string, z: string)
    requires Spaced(a) == x && Spaced(b) == y && Spaced(c) == z
    ensures Spaced(a + (b + c)) == x + (y + z)
  {
    SpacedJoin(b, c);
    SpacedJoin(a, b + c);
  }

  lemma {:induction false} WordsAsText(ws: seq<string>)
    ensures Spaced(Arguments(ws)) == TextOfWords(ws)
  {
    if ws != [] {
      WordsAsText(ws[1..]);
      assert Arguments(ws)[1..] == Arguments(ws[1..]);
    }
  }

  lemma {:induction false} FileAsText(sign: Lexem, file: Option<string>)
    ensures Spaced(PrintRedirection(sign, file)) == TextOfFile(sign.text, file)
  {
    if file.Some? {
      var l := Lexem(file.value, Argument);
      assert [sign, l][1..] == [l];
      SpacedOne(l);
      assert sign.text + " " + (file.value + " ") == sign.text + " " + file.value + " ";
    }
  }

  lemma {:induction false} CmdAsText(c: Cmd)
    ensures Spaced(PrintCmd(c)) == TextOfCmd(c)
  {
    WordsAsText(Words(c));
    FileAsText(LESS, c.input);
    FileAsText(GREATER, c.output);
    FileAsText(LESS, c.input2);
    SpacedJoin(PrintRedirection(GREATER, c.output), PrintRedirection(LESS, c.input2));
    SpacedJoin(PrintRedirection(LESS, c.input), PrintRedirection(GREATER, c.output) + PrintRedirection(LESS, c.input2));
    SpacedJoin(Arguments(Words(c)), PrintRedirections(c));
  }

  lemma {:induction false} PipelineAsText(p: Pipeline)
    ensures Spaced(PrintPipeline(p)) == TextOfPipeline(p)
  {
    CmdAsText(p.cmd);
    if p.Piped? {
      PipelineAsText(p.rest);
      SpacedOne(BAR);
      ThreeAsText(PrintCmd(p.cmd), [BAR], PrintPipeline(p.rest), TextOfCmd(p.cmd), "| ", TextOfPipeline(p.rest));
    }
  }

  lemma {:induction false} OpAsText(op: Op)
    ensures Spaced([OpLexem(op)]) == TextOfOp(op)
  {
    SpacedOne(OpLexem(op));
  }

  lemma {:induction false} TailAsText(t: Tail, background: bool)
    ensures Spaced(PrintTail(t, background)) == TextOfTail(t, background)
  {
    if t.More? {
      PipelineAsText(t.pipe);
      TailAsText(t.tail, background);
      OpAsText(t.op);
      ThreeAsText([OpLexem(t.op)], PrintPipeline(t.pipe), PrintTail(t.tail, background),
                  TextOfOp(t.op), TextOfPipeline(t.pipe), TextOfTail(t.tail, background));
    } else {
      SpacedOne(AMP);
    }
  }

  /** The lexems a list is printed to are those of the line that is typed for it. */
  lemma {:induction false} TypedLine(first: Pipeline, t: Tail, background: bool)
    requires TypablePipeline(first) && TypableTail(t)
    ensures Tokens(TextOfPipeline(first) + TextOfTail(t, background)) == PrintPipeline(first) + PrintTail(t, background)
  {
    ListCanBeTyped(first, t, background);
    PipelineAsText(first);
    TailAsText(t, background);
    SpacedJoin(PrintPipeline(first), PrintTail(t, background));
  }

  // --- a line means one list ------------------------------------------------------

  /** The words of a command end where its redirections start. */
  lemma {:induction false} SameWords(a: seq<string>, b: seq<string>, x: seq<Lexem>, y: seq<Lexem>)
    requires Arguments(a) + x == Arguments(b) + y && NotAhead(Argument, x) && NotAhead(Argument, y)
    ensures a == b && x == y
  {
    var u, v := Arguments(a) + x, Arguments(b) + y;
    assert (|a| < |u| ==> u[|a|] == x[0]) && (|b| < |v| ==> v[|b|] == y[0]);
    assert (forall i :: 0 <= i < |a| ==> u[i].kind == Argument) && (forall i :: 0 <= i < |b| ==> v[i].kind == Argument);
    forall i | 0 <= i < |a|
      ensures a[i] == b[i]
    {
      assert u[i] == v[i];
    }
    assert u[|a|..] == x && v[|b|..] == y;
  }

  lemma {:induction false} SameFile(sign: Lexem, f: Option<string>, g: Option<string>, x: seq<Lexem>, y: seq<Lexem>)
    requires PrintRedirection(sign, f) + x == PrintRedirection(sign, g) + y
    requires (f.None? ==> NotAhead(sign.kind, x)) && (g.None? ==> NotAhead(sign.kind, y))
    ensures f == g && x == y
  {
    var u, v := PrintRedirection(sign, f) + x, PrintRedirection(sign, g) + y;
    assert (f.Some? ==> u[0] == sign) && (f.None? && u != [] ==> u[0] == x[0]);
    assert (g.Some? ==> v[0] == sign) && (g.None? && v != [] ==> v[0] == y[0]);
    assert f.Some? && g.Some? ==> u[1] == v[1];
    assert u[|PrintRedirection(sign, f)|..] == x && v[|PrintRedirection(sign, g)|..] == y;
  }

  lemma {:induction false} SameArgv(c: Cmd, d: Cmd)
    requires Words(c) == Words(d)
    ensures c.name == d.name && c.args == d.args
  {
    assert c.name == Words(c)[0] && c.args == Words(c)[1..];
    assert d.name == Words(d)[0] && d.args == Words(d)[1..];
  }

  /** What cannot stand at the front of what is left of a command. */
  lemma {:induction false} Fronts(c: Cmd, x: seq<Lexem>)
    requires Follows(x)
    ensures NotAhead(Argument, RestOf(c, x)) && NotAhead(Input, x)
    ensures c.input.None? ==> NotAhead(Input, RestOfOutput(c, x))
    ensures c.output.None? ==> NotAhead(Output, RestOfInput2(c, x))
  {
  }

  predicate NotAhead(kind: LexType, x: seq<Lexem>) {
    x != [] ==> x[0].kind != kind
  }

  function RestOf(c: Cmd, x: seq<Lexem>): seq<Lexem> {
    PrintRedirection(LESS, c.input) + RestOfOutput(c, x)
  }

  function RestOfOutput(c: Cmd, x: seq<Lexem>): seq<Lexem> {
    PrintRedirection(GREATER, c.output) + RestOfInput2(c, x)
  }

  function RestOfInput2(c: Cmd, x: seq<Lexem>): seq<Lexem> {
    PrintRedirection(LESS, c.input2) + x
  }

  lemma {:induction false} SameRedirections(c: Cmd, d: Cmd, x: seq<Lexem>, y: seq<Lexem>)
    requires RestOf(c, x) == RestOf(d, y) && Follows(x) && Follows(y)
    ensures c.input == d.input && c.output == d.output && c.input2 == d.input2 && x == y
  {
    Fronts(c, x);
    Fronts(d, y);
    SameFile(LESS, c.input, d.input, RestOfOutput(c, x), RestOfOutput(d, y));
    SameFile(GREATER, c.output, d.output, RestOfInput2(c, x), RestOfInput2(d, y));
    SameFile(LESS, c.input2, d.input2, x, y);
  }

  lemma {:induction false} CmdAndRest(c: Cmd, x: seq<Lexem>)
    ensures PrintCmd(c) + x == Arguments(Words(c)) + RestOf(c, x)
  {
    ConcatNested(Arguments(Words(c)), PrintRedirection(LESS, c.input), PrintRedirection(GREATER, c.output),
                 PrintRedirection(LESS, c.input2), x);
  }

  lemma {:induction false} SameCmd(c: Cmd, d: Cmd, x: seq<Lexem>, y: seq<Lexem>)
    requires PrintCmd(c) + x == PrintCmd(d) + y && Follows(x) && Follows(y)
    ensures c == d && x == y
  {
    CmdAndRest(c, x);
    CmdAndRest(d, y);
    Fronts(c, x);
    Fronts(d, y);
    SameWords(Words(c), Words(d), RestOf(c, x), RestOf(d, y));
    SameRedirections(c, d, x, y);
    SameArgv(c, d);
  }

  lemma {:induction false} SamePipeline(p: Pipeline, q: Pipeline, x: seq<Lexem>, y: seq<Lexem>)
    requires PrintPipeline(p) + x == PrintPipeline(q) + y && Ends(x) && Ends(y)
    ensures p == q && x == y
    decreases p
  {
    HeadOf(p, x);
    HeadOf(q, y);
    FollowingFollows(p, x);
    FollowingFollows(q, y);
    SameCmd(p.cmd, q.cmd, Following(p, x), Following(q, y));
    if p.Piped? && q.Piped? {
      assert Following(p, x)[1..] == PrintPipeline(p.rest) + x;
      assert Following(q, y)[1..] == PrintPipeline(q.rest) + y;
      SamePipeline(p.rest, q.rest, x, y);
    }
  }

  lemma {:induction false} SameTail(t: Tail, u: Tail, a: bool, b: bool)
    requires PrintTail(t, a) == PrintTail(u, b)
    ensures t == u && a == b
    decreases t
  {
    assert t.More? ==> PrintTail(t, a)[0] == OpLexem(t.op);
    assert u.More? ==> PrintTail(u, b)[0] == OpLexem(u.op);
    if t.More? && u.More? {
      TailFollows(t.tail, a);
      TailFollows(u.tail, b);
      assert PrintTail(t, a)[1..] == PrintPipeline(t.pipe) + PrintTail(t.tail, a);
      assert PrintTail(u, b)[1..] == PrintPipeline(u.pipe) + PrintTail(u.tail, b);
      SamePipeline(t.pipe, u.pipe, PrintTail(t.tail, a), PrintTail(u.tail, b));
      SameTail(t.tail, u.tail, a, b);
    }
  }

  /** No two command lists print to the same lexems. */
  lemma {:induction false} PrintingIsInjective(p: Pipeline, q: Pipeline, t: Tail, u: Tail, a: bool, b: bool)
    requires PrintPipeline(p) + PrintTail(t, a) == PrintPipeline(q) + PrintTail(u, b)
    ensures p == q && t == u && a == b
  {
    TailFollows(t, a);
    TailFollows(u, b);
    SamePipeline(p, q, PrintTail(t, a), PrintTail(u, b));
    SameTail(t, u, a, b);
  }

  // --- the shell's descriptors ------------------------------------------------------

  /** A table that still has everything `base` had, and as many entries as the run says, is `base` again
      just when the run was tidy. */
  lemma {:induction false} TableIsRestored(base: map<nat, Stream>, fds: map<nat, Stream>, first: Pipeline, t: Tail,
                                           w: World,
                                           exits: nat -> nat)
    requires K.Keeps(base, fds) && w.kept == |base| && |fds| == RunList(Actual, first, t, w, exits).kept
    ensures fds == base
       <==> TidyPipeline(first, false) && TidyTail(t, RunPipeline(Actual, first, w.(last := 0), exits), exits)
  {
    NothingKept(first, t, w, exits);
    if |fds| == |base| {
      K.SameTable(base, fds);
    }
  }
}
