/** Command lines as trees, how they print to lexems, and what running them does. */
module CommandList {
  import opened Lexer

  datatype Option<T> = None | Some(value: T)

  /** A command with the redirections the parser accepts after its words: `< a > b < c`, each of them optional. */
  datatype Written = Written(name: string, args: seq<string>,
                             input: Option<string>, output: Option<string>, input2: Option<string>)

  /** A single `<` directly after the words is `input`. */
  type Cmd = c: Written | c.input2.Some? ==> c.input.Some? || c.output.Some?
    witness Written("", [], None, None, None)

  datatype Pipeline = Last(cmd: Cmd) | Piped(cmd: Cmd, rest: Pipeline)

  datatype Op = AndIf | OrIf

  datatype Tail = End | More(op: Op, pipe: Pipeline, tail: Tail)

  const AMP := Lexem("&", Subprocess)
  const BAR := Lexem("|", Pipe)
  const LESS := Lexem("<", Input)
  const GREATER := Lexem(">", Output)

  function Arguments(words: seq<string>): (ls: seq<Lexem>)
    ensures |ls| == |words| && forall i :: 0 <= i < |ls| ==> ls[i] == Lexem(words[i], Argument)
  {
    seq(|words|, i requires 0 <= i < |words| => Lexem(words[i], Argument))
  }

  function PrintRedirection(sign: Lexem, file: Option<string>): seq<Lexem> {
    if file.None? then [] else [sign, Lexem(file.value, Argument)]
  }

  function PrintRedirections(c: Cmd): seq<Lexem> {
    PrintRedirection(LESS, c.input) + (PrintRedirection(GREATER, c.output) + PrintRedirection(LESS, c.input2))
  }

  function Words(c: Cmd): seq<string> {
    [c.name] + c.args
  }

  function PrintCmd(c: Cmd): seq<Lexem> {
    Arguments(Words(c)) + PrintRedirections(c)
  }

  function PrintPipeline(p: Pipeline): seq<Lexem> {
    match p
    case Last(c) => PrintCmd(c)
    case Piped(c, rest) => PrintCmd(c) + ([BAR] + PrintPipeline(rest))
  }

  function OpLexem(op: Op): Lexem {
    if op.AndIf? then Lexem("&&", And) else Lexem("||", Or)
  }

  function PrintTail(t: Tail, background: bool): seq<Lexem> {
    match t
    case End => if background then [AMP] else []
    case More(op, p, rest) => [OpLexem(op)] + (PrintPipeline(p) + PrintTail(rest, background))
  }

  // --- what a run does, seen from outside -----------------------------------

  datatype Stream =
    | Stdin
    | Stdout
    | PipeRead(pipe: nat)
    | PipeWrite(pipe: nat)
    | Reads(file: string)
    | Writes(file: string)

  datatype Event = Open(file: Stream) | Spawn(argv: seq<string>, input: Stream, output: Stream) | Wait(pid: nat)

  /** `log` is what happened; processes and pipes are numbered; `last` is the wait status of the last command;
      `kept` counts the descriptors the shell has open between two commands. */
  datatype World = World(log: seq<Event>, pids: nat, pipes: nat, last: nat, kept: nat)

  function ExitCode(status: nat): nat {
    status / 256 % 256
  }

  predicate Success(status: nat) {
    status % 128 == 0 && ExitCode(status) == 0
  }

  function OpenOne(s: Option<Stream>): seq<Event> {
    if s.None? then [] else [Open(s.value)]
  }

  function Reading(file: Option<string>): Option<Stream> {
    if file.None? then None else Some(Reads(file.value))
  }

  function Writing(file: Option<string>): Option<Stream> {
    if file.None? then None else Some(Writes(file.value))
  }

  function Opens(c: Cmd): seq<Event> {
    OpenOne(Reading(c.input)) + (OpenOne(Writing(c.output)) + OpenOne(Reading(c.input2)))
  }

  function InputOf(c: Cmd, given: Stream): Stream {
    if c.input2.Some? then Reads(c.input2.value) else if c.input.Some? then Reads(c.input.value) else given
  }

  function OutputOf(c: Cmd, given: Stream): Stream {
    if c.output.Some? then Writes(c.output.value) else given
  }

  /** Which semantics: the shell language's, or the program's. */
  datatype Rule = Posix | Actual

  /** The output of a command that feeds a pipe: a redirection wins in the language, the pipe wins in the program. */
  function FeederOutput(rule: Rule, c: Cmd, pipe: nat): Stream {
    if rule.Posix? then OutputOf(c, PipeWrite(pipe)) else PipeWrite(pipe)
  }

  function Count<T>(o: Option<T>): nat {
    if o.None? then 0 else 1
  }

  function Redirections(c: Cmd): nat {
    Count(c.input) + Count(c.output) + Count(c.input2)
  }

  /** Read ends that are replaced before they are used: all but the last. */
  function Replaced(c: Cmd, piped: bool): nat {
    var n := Count(c.input) + Count(c.input2) + (if piped then 1 else 0);
    if n == 0 then 0 else n - 1
  }

  function StartLast(c: Cmd, given: Stream, piped: bool, w: World): World {
    w.(log := w.log + Opens(c) + [Spawn(Words(c), InputOf(c, given), OutputOf(c, Stdout))],
       pids := w.pids + 1, kept := w.kept + Replaced(c, piped))
  }

  function StartFeeder(rule: Rule, c: Cmd, given: Stream, piped: bool, w: World): World {
    w.(log := w.log + Opens(c) + [Spawn(Words(c), InputOf(c, given), FeederOutput(rule, c, w.pipes))],
       pids := w.pids + 1, pipes := w.pipes + 1, kept := w.kept + Replaced(c, piped) + Count(c.output))
  }

  /** All stages of a pipeline are started before any is waited for. */
  function Start(rule: Rule, p: Pipeline, given: Stream, piped: bool, w: World): (r: World)
    ensures r.pids > w.pids && w.log <= r.log
  {
    match p
    case Last(c) => StartLast(c, given, piped, w)
    case Piped(c, rest) => Start(rule, rest, PipeRead(w.pipes), true, StartFeeder(rule, c, given, piped, w))
  }

  function Waits(pid: nat, n: nat): seq<Event> {
    seq(n, i requires 0 <= i < n => Wait(pid + i))
  }

  /** Waits for the processes from `from` on; the status is the last one's. */
  function WaitAll(from: nat, w: World, exits: nat -> nat): World
    requires from < w.pids
  {
    w.(log := w.log + Waits(from, w.pids - from), last := exits(w.pids - 1))
  }

  function RunPipeline(rule: Rule, p: Pipeline, w: World, exits: nat -> nat): World {
    WaitAll(w.pids, Start(rule, p, Stdin, false, w), exits)
  }

  /** Whether the operator before a command lets it run. */
  predicate Gate(op: Option<Op>, last: nat) {
    op == None || (op == Some(AndIf) && Success(last)) || (op == Some(OrIf) && !Success(last))
  }

  /** The first stage of a skipped pipeline: its files are opened and its pipe is made, but it is not started. */
  function SkipFeeder(c: Cmd, w: World): World {
    w.(log := w.log + Opens(c), pipes := w.pipes + 1, kept := w.kept + Replaced(c, false) + Count(c.output))
  }

  /** The program skips only the first stage of a pipeline, and opens the files it names all the same. */
  function SkipActual(p: Pipeline, w: World, exits: nat -> nat): World {
    match p
    case Last(c) => w.(log := w.log + Opens(c), kept := w.kept + Redirections(c))
    case Piped(c, rest) => WaitAll(w.pids, Start(Actual, rest, PipeRead(w.pipes), true, SkipFeeder(c, w)), exits)
  }

  function Step(rule: Rule, op: Option<Op>, p: Pipeline, w: World, exits: nat -> nat): World {
    if Gate(op, w.last) then RunPipeline(rule, p, w, exits)
    else if rule.Posix? then w
    else SkipActual(p, w, exits)
  }

  function RunTail(rule: Rule, t: Tail, w: World, exits: nat -> nat): World {
    match t
    case End => w
    case More(op, p, rest) => RunTail(rule, rest, Step(rule, Some(op), p, w, exits), exits)
  }

  function RunList(rule: Rule, first: Pipeline, t: Tail, w: World, exits: nat -> nat): World {
    RunTail(rule, t, Step(rule, None, first, w.(last := 0), exits), exits)
  }
}
