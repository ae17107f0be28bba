/** Where the evaluator stands in a printed command list. */
module ShellPrint {
  import opened Lexer
  import opened CommandList

  lemma {:induction false} Advance<T>(s: seq<T>, i: nat, x: seq<T>, y: seq<T>)
    requires i <= |s| && s[i..] == x + y
    ensures i + |x| <= |s| && s[i + |x|..] == y && (forall k :: 0 <= k < |x| ==> s[i + k] == x[k])
  {
    assert s[i + |x|..] == s[i..][|x|..];
    forall k | 0 <= k < |x|
      ensures s[i + k] == x[k]
    {
      assert s[i + k] == s[i..][k];
    }
  }

  lemma {:induction false} Peek<T>(s: seq<T>, i: nat, y: seq<T>)
    requires i <= |s| && s[i..] == y
    ensures y != [] <==> i < |s|
    ensures y != [] ==> s[i] == y[0] && s[i + 1..] == y[1..]
  {
  }

  /** What can come after a command: nothing, a lone `&`, or a pipe, `&&` or `||`. */
  predicate Follows(after: seq<Lexem>) {
    after == [] || after == [AMP] || after[0].kind == Pipe || after[0].kind == And || after[0].kind == Or
  }

  /** What follows the first command of a pipeline that is itself followed by `after`. */
  function Following(p: Pipeline, after: seq<Lexem>): seq<Lexem> {
    match p
    case Last(c) => after
    case Piped(c, rest) => [BAR] + (PrintPipeline(rest) + after)
  }

  lemma {:induction false} HeadOf(p: Pipeline, after: seq<Lexem>)
    ensures PrintPipeline(p) + after == PrintCmd(p.cmd) + Following(p, after)
  {
    if p.Piped? {
      var a, b := PrintCmd(p.cmd), PrintPipeline(p.rest);
      assert (a + ([BAR] + b)) + after == a + ([BAR] + (b + after));
    }
  }

  /** A call takes a `&` that stands directly after the words. */
  function AfterCall(c: Cmd, after: seq<Lexem>): seq<Lexem> {
    if Redirections(c) == 0 && after == [AMP] then [] else after
  }

  function AfterPipeline(p: Pipeline, after: seq<Lexem>): seq<Lexem> {
    match p
    case Last(c) => AfterCall(c, after)
    case Piped(c, rest) => AfterPipeline(rest, after)
  }

  lemma {:induction false} AfterPipelineIs(p: Pipeline, after: seq<Lexem>)
    requires Follows(after)
    ensures AfterPipeline(p, after) == after || (after == [AMP] && AfterPipeline(p, after) == [])
    decreases p
  {
    if p.Piped? {
      AfterPipelineIs(p.rest, after);
    }
  }

  /** What is ahead once the first call of a pipeline has been built. */
  function Ahead(p: Pipeline, after: seq<Lexem>): seq<Lexem> {
    AfterCall(p.cmd, Following(p, after))
  }

  /** What can come after a pipeline. */
  predicate Ends(after: seq<Lexem>) {
    Follows(after) && (after != [] ==> after[0].kind != Pipe)
  }

  lemma {:induction false} FollowingFollows(p: Pipeline, after: seq<Lexem>)
    requires Ends(after)
    ensures Follows(Following(p, after))
    ensures Ahead(p, after) != [] && Ahead(p, after)[0].kind == Pipe <==> p.Piped?
    ensures p.Last? ==> Ahead(p, after) == AfterPipeline(p, after)
    ensures p.Piped? ==> Ahead(p, after) == [BAR] + (PrintCmd(p.rest.cmd) + Following(p.rest, after))
  {
    if p.Piped? {
      HeadOf(p.rest, after);
    }
  }

  /** The next lexem is a pipe just when the pipeline goes on. */
  lemma {:induction false} PipeAhead(lexems: seq<Lexem>, idx: nat, p: Pipeline, after: seq<Lexem>)
    requires idx <= |lexems| && lexems[idx..] == Ahead(p, after) && Ends(after)
    ensures idx < |lexems| && lexems[idx].kind == Pipe <==> p.Piped?
    ensures p.Last? ==> Ahead(p, after) == AfterPipeline(p, after)
    ensures p.Piped? ==> Ahead(p, after) == [BAR] + (PrintCmd(p.rest.cmd) + Following(p.rest, after))
                         && Follows(Following(p.rest, after)) && AfterPipeline(p, after) == AfterPipeline(p.rest, after)
  {
    FollowingFollows(p, after);
    Peek(lexems, idx, Ahead(p, after));
    if p.Piped? {
      FollowingFollows(p.rest, after);
    }
  }

  lemma {:induction false} TailFollows(t: Tail, background: bool)
    ensures Ends(PrintTail(t, background))
  {
  }

  function TypeOfOp(op: Option<Op>): Option<LexType> {
    match op
    case None => None
    case Some(o) => Some(OpLexem(o).kind)
  }
}
