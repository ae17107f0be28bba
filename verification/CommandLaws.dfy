/** When the program runs a command line as the shell language says, and what it leaves behind. */
module CommandLaws {
  import opened Sequences
  import opened CommandList

  // --- the language's rule is the left-associative one ----------------------

  /** An AND-OR list as a tree: every operator takes the whole list before it as its left operand. */
  datatype Tree = Leaf(pipe: Pipeline) | Node(op: Op, left: Tree, right: Pipeline)

  function LeftTree(t: Tree, tail: Tail): Tree
    decreases tail
  {
    match tail
    case End => t
    case More(op, p, rest) => LeftTree(Node(op, t, p), rest)
  }

  /** The status of a tree is the status of the last command it ran. */
  function RunTree(t: Tree, w: World, exits: nat -> nat): World {
    match t
    case Leaf(p) => RunPipeline(Posix, p, w, exits)
    case Node(op, left, right) =>
      var v := RunTree(left, w, exits);
      if op.AndIf? == Success(v.last) then RunPipeline(Posix, right, v, exits) else v
  }

  lemma {:induction false} TailIsLeftAssociative(t: Tree, tail: Tail, w: World, exits: nat -> nat)
    ensures RunTail(Posix, tail, RunTree(t, w, exits), exits) == RunTree(LeftTree(t, tail), w, exits)
    decreases tail
  {
    match tail
    case End =>
    case More(op, p, rest) => TailIsLeftAssociative(Node(op, t, p), rest, w, exits);
  }

  /** `a && b || c` is `(a && b) || c`, and so on to any length. */
  lemma {:induction false} ListIsLeftAssociative(first: Pipeline, tail: Tail, w: World, exits: nat -> nat)
    ensures RunList(Posix, first, tail, w, exits) == RunTree(LeftTree(Leaf(first), tail), w.(last := 0), exits)
  {
    TailIsLeftAssociative(Leaf(first), tail, w.(last := 0), exits);
  }

  // --- what a wait status says -------------------------------------------------

  /** How a process ends. */
  datatype Ending = Exited(code: nat) | Signaled(sig: nat, core: bool)

  predicate Possible(e: Ending) {
    match e
    case Exited(code) => code < 256
    case Signaled(sig, core) => 0 < sig < 127
  }

  /** The wait status of an ending: the exit code in the second byte, a signal in the low seven bits, with the next
      bit set if there is a core dump. */
  function StatusOf(e: Ending): nat {
    match e
    case Exited(code) => 256 * code
    case Signaled(sig, core) => if core then sig + 128 else sig
  }

  /** Only exit code 0 is a success, and the answer is the exit code; a process killed by a signal is none, yet
      answers 0. */
  lemma {:induction false} StatusMeans(e: Ending)
    requires Possible(e)
    ensures Success(StatusOf(e)) <==> e == Exited(0)
    ensures ExitCode(StatusOf(e)) == Answer(e)
  {
  }

  /** `a && b` and `a || b`: whether `b` is started depends on how `a` ended. */
  lemma {:induction false} SecondRunsAfter(rule: Rule, op: Op, a: Cmd, b: Cmd, w: World, exits: nat -> nat, e: Ending)
    requires Possible(e) && exits(w.pids) == StatusOf(e)
    ensures var runs := if op.AndIf? then e == Exited(0) else e != Exited(0);
            var r := RunList(rule, Last(a), More(op, Last(b), End), w, exits);
            r.pids == (if runs then w.pids + 2 else w.pids + 1)
            && r.last == exits(if runs then w.pids + 1 else w.pids)
  {
    StatusMeans(e);
    var v := RunPipeline(rule, Last(a), w.(last := 0), exits);
    assert v.pids == w.pids + 1 && v.last == StatusOf(e);
    assert RunList(rule, Last(a), More(op, Last(b), End), w, exits)
        == RunTail(rule, End, Step(rule, Some(op), Last(b), v, exits), exits);
  }

  /** A list whose last process ended like `e` answers accordingly. */
  lemma {:induction false} AnswerAfter(rule: Rule, first: Pipeline, t: Tail, w: World, exits: nat -> nat, e: Ending)
    requires EndsWith(RunList(rule, first, t, w, exits), exits, e)
    ensures ExitCode(RunList(rule, first, t, w, exits).last) == Answer(e)
  {
    AnswerIsLastStatus(rule, first, t, w, exits);
    StatusMeans(e);
  }

  /** The last process of a run ended like `e`. */
  predicate EndsWith(r: World, exits: nat -> nat, e: Ending) {
    Possible(e) && r.pids > 0 && exits(r.pids - 1) == StatusOf(e)
  }

  /** The exit code, or 0 after a signal. */
  function Answer(e: Ending): nat {
    if e.Exited? then e.code else 0
  }

  // --- shape of a run ---------------------------------------------------------

  function Length(p: Pipeline): (n: nat)
    ensures n > 0
  {
    if p.Last? then 1 else 1 + Length(p.rest)
  }

  function Stage(p: Pipeline, i: nat): Cmd
    requires i < Length(p)
  {
    if i == 0 then p.cmd else Stage(p.rest, i - 1)
  }

  function TotalRedirections(p: Pipeline): nat {
    Redirections(p.cmd) + if p.Last? then 0 else TotalRedirections(p.rest)
  }

  function TailRedirections(t: Tail): nat {
    if t.End? then 0 else TotalRedirections(t.pipe) + TailRedirections(t.tail)
  }

  lemma {:induction false} StartShape(rule: Rule, p: Pipeline, given: Stream, piped: bool, w: World)
    ensures var r := Start(rule, p, given, piped, w);
            r.pids == w.pids + Length(p) && r.pipes == w.pipes + Length(p) - 1 && r.last == w.last
            && |r.log| == |w.log| + TotalRedirections(p) + Length(p)
    decreases p
  {
    match p
    case Last(c) =>
    case Piped(c, rest) => StartShape(rule, rest, PipeRead(w.pipes), true, StartFeeder(rule, c, given, piped, w));
  }

  lemma {:induction false} StepExtends(rule: Rule, op: Option<Op>, p: Pipeline, w: World, exits: nat -> nat)
    ensures w.log <= Step(rule, op, p, w, exits).log
  {
  }

  lemma {:induction false} TailExtends(rule: Rule, t: Tail, w: World, exits: nat -> nat)
    ensures w.log <= RunTail(rule, t, w, exits).log
    decreases t
  {
    match t
    case End =>
    case More(op, p, rest) =>
      StepExtends(rule, Some(op), p, w, exits);
      TailExtends(rule, rest, Step(rule, Some(op), p, w, exits), exits);
  }

  /** The processes of a run: its log without the files that are opened. */
  function Processes(log: seq<Event>): seq<Event> {
    if log == [] then [] else Processes(log[..|log| - 1]) + if log[|log| - 1].Open? then [] else [log[|log| - 1]]
  }

  lemma {:induction false} ProcessesSum(a: seq<Event>, b: seq<Event>)
    ensures Processes(a + b) == Processes(a) + Processes(b)
  {
    if b == [] {
      assert a + b == a;
    } else {
      var e := if b[|b| - 1].Open? then [] else [b[|b| - 1]];
      ProcessesSum(a, b[..|b| - 1]);
      assert (a + b)[..|a + b| - 1] == a + b[..|b| - 1];
      ConcatAssociative(Processes(a), Processes(b[..|b| - 1]), e);
    }
  }

  lemma {:induction false} OpensAreNoProcess(log: seq<Event>)
    requires forall i :: 0 <= i < |log| ==> log[i].Open?
    ensures Processes(log) == []
  {
    if log != [] {
      OpensAreNoProcess(log[..|log| - 1]);
    }
  }

  lemma {:induction false} OnlyOpens(c: Cmd)
    ensures Processes(Opens(c)) == []
  {
    forall i | 0 <= i < |Opens(c)|
      ensures Opens(c)[i].Open?
    {
    }
    OpensAreNoProcess(Opens(c));
  }

  lemma {:induction false} OpeningIsNoProcess(log: seq<Event>, c: Cmd)
    ensures Processes(log + Opens(c)) == Processes(log)
  {
    ProcessesSum(log, Opens(c));
    OnlyOpens(c);
  }

  lemma {:induction false} ProcessesSnoc(log: seq<Event>, e: Event)
    requires !e.Open?
    ensures Processes(log + [e]) == Processes(log) + [e]
  {
    assert (log + [e])[..|log|] == log;
  }

  /** Command i of n reads what the one before it writes; the first reads `given`, the last writes the shell's
      output. A redirection of the input wins over the pipe, one of the output only at the end. */
  function Wiring(p: Pipeline, given: Stream, pipes: nat, i: nat): Event
    requires i < Length(p)
  {
    var c := Stage(p, i);
    Spawn(Words(c), InputOf(c, if i == 0 then given else PipeRead(pipes + i - 1)),
          if i == Length(p) - 1 then OutputOf(c, Stdout) else PipeWrite(pipes + i))
  }

  /** The processes of a pipeline in the order in which they are started. */
  function Wired(p: Pipeline, given: Stream, pipes: nat): seq<Event> {
    match p
    case Last(c) => [Spawn(Words(c), InputOf(c, given), OutputOf(c, Stdout))]
    case Piped(c, rest) =>
      [Spawn(Words(c), InputOf(c, given), PipeWrite(pipes))] + Wired(rest, PipeRead(pipes), pipes + 1)
  }

  lemma {:induction false} WiredInRow(p: Pipeline, given: Stream, pipes: nat, i: nat)
    requires i < Length(p)
    ensures |Wired(p, given, pipes)| == Length(p) && Wired(p, given, pipes)[i] == Wiring(p, given, pipes, i)
    decreases p
  {
    if p.Piped? {
      WiredInRow(p.rest, PipeRead(pipes), pipes + 1, if i == 0 then 0 else i - 1);
    }
  }

  lemma {:induction false} LogProcess(log: seq<Event>, c: Cmd, e: Event)
    requires !e.Open?
    ensures Processes(log + Opens(c) + [e]) == Processes(log) + [e]
  {
    OpeningIsNoProcess(log, c);
    ProcessesSnoc(log + Opens(c), e);
  }

  /** What starting a pipeline adds to the log. */
  function Events(p: Pipeline, given: Stream, pipes: nat): seq<Event> {
    match p
    case Last(c) => Opens(c) + [Spawn(Words(c), InputOf(c, given), OutputOf(c, Stdout))]
    case Piped(c, rest) =>
      Opens(c) + [Spawn(Words(c), InputOf(c, given), PipeWrite(pipes))] + Events(rest, PipeRead(pipes), pipes + 1)
  }

  lemma {:induction false} StartAdds(p: Pipeline, given: Stream, piped: bool, w: World)
    ensures Start(Actual, p, given, piped, w).log == w.log + Events(p, given, w.pipes)
    decreases p
  {
    match p
    case Last(c) => ConcatAssociative(w.log, Opens(c), [Spawn(Words(c), InputOf(c, given), OutputOf(c, Stdout))]);
    case Piped(c, rest) =>
      var e := [Spawn(Words(c), InputOf(c, given), PipeWrite(w.pipes))];
      StartAdds(rest, PipeRead(w.pipes), true, StartFeeder(Actual, c, given, piped, w));
      ConcatAssociative(w.log, Opens(c), e);
      ConcatAssociative(w.log, Opens(c) + e, Events(rest, PipeRead(w.pipes), w.pipes + 1));
  }

  lemma {:induction false} OneProcess(c: Cmd, e: Event)
    requires !e.Open?
    ensures Processes(Opens(c) + [e]) == [e]
  {
    ProcessesSnoc(Opens(c), e);
    OnlyOpens(c);
  }

  lemma {:induction false} EventsAreWired(p: Pipeline, given: Stream, pipes: nat)
    ensures Processes(Events(p, given, pipes)) == Wired(p, given, pipes)
    decreases p
  {
    match p
    case Last(c) => OneProcess(c, Spawn(Words(c), InputOf(c, given), OutputOf(c, Stdout)));
    case Piped(c, rest) =>
      var e := Spawn(Words(c), InputOf(c, given), PipeWrite(pipes));
      OneProcess(c, e);
      EventsAreWired(rest, PipeRead(pipes), pipes + 1);
      ProcessesSum(Opens(c) + [e], Events(rest, PipeRead(pipes), pipes + 1));
  }

  lemma {:induction false} StartedInRow(p: Pipeline, given: Stream, piped: bool, w: World)
    ensures Processes(Start(Actual, p, given, piped, w).log) == Processes(w.log) + Wired(p, given, w.pipes)
  {
    StartAdds(p, given, piped, w);
    EventsAreWired(p, given, w.pipes);
    ProcessesSum(w.log, Events(p, given, w.pipes));
  }

  /** Starting a pipeline of n commands opens n - 1 pipes and starts n processes wired in a row. */
  lemma {:induction false} PipelineWiring(p: Pipeline, given: Stream, piped: bool, w: World, i: nat)
    requires i < Length(p)
    ensures Start(Actual, p, given, piped, w).pipes == w.pipes + Length(p) - 1
    ensures var es, n := Processes(Start(Actual, p, given, piped, w).log), |Processes(w.log)|;
            |es| == n + Length(p) && es[n + i] == Wiring(p, given, w.pipes, i)
  {
    StartShape(Actual, p, given, piped, w);
    StartedInRow(p, given, piped, w);
    WiredAt(Processes(w.log), Processes(Start(Actual, p, given, piped, w).log), p, given, w.pipes, i);
  }

  lemma {:induction false} WiredAt(
    before: seq<Event>, es: seq<Event>, p: Pipeline, given: Stream, pipes: nat, i: nat)
    requires es == before + Wired(p, given, pipes) && i < Length(p)
    ensures |es| == |before| + Length(p) && es[|before| + i] == Wiring(p, given, pipes, i)
  {
    WiredInRow(p, given, pipes, i);
    AppendedAt(before, Wired(p, given, pipes), es, i);
  }

  lemma {:induction false} WaitsAreNoOpens(from: nat, n: nat)
    ensures Processes(Waits(from, n)) == Waits(from, n)
  {
    if n > 0 {
      WaitsAreNoOpens(from, n - 1);
      assert Waits(from, n)[..n - 1] == Waits(from, n - 1);
      assert Waits(from, n) == Waits(from, n - 1) + [Wait(from + n - 1)];
    }
  }

  /** What the processes of a pipeline do from its first start to the last wait. */
  ghost predicate RunsWired(w: World, r: World, p: Pipeline, given: Stream, pipes: nat) {
    && r.pids == w.pids + Length(p) && r.pipes == pipes + Length(p) - 1
    && Processes(r.log) == Processes(w.log) + Wired(p, given, pipes) + Waits(w.pids, Length(p))
  }

  lemma {:induction false} StartedAndWaited(p: Pipeline, given: Stream, piped: bool, w: World, exits: nat -> nat)
    ensures Start(Actual, p, given, piped, w).pids > w.pids
    ensures RunsWired(w, WaitAll(w.pids, Start(Actual, p, given, piped, w), exits), p, given, w.pipes)
  {
    var v := Start(Actual, p, given, piped, w);
    StartShape(Actual, p, given, piped, w);
    StartedInRow(p, given, piped, w);
    ProcessesSum(v.log, Waits(w.pids, v.pids - w.pids));
    WaitsAreNoOpens(w.pids, v.pids - w.pids);
  }

  /** A pipeline of n commands starts n processes wired in a row and then waits for all of them, in order. */
  lemma {:induction false} PipelineRun(p: Pipeline, w: World, exits: nat -> nat)
    ensures RunsWired(w, RunPipeline(Actual, p, w, exits), p, Stdin, w.pipes)
  {
    StartedAndWaited(p, Stdin, false, w, exits);
  }

  /** A pipeline of n commands that should be skipped still runs all but its first; they start with a pipe nobody
      writes to. */
  lemma {:induction false} SkippedPipelineRest(p: Pipeline, w: World, exits: nat -> nat)
    requires p.Piped?
    ensures RunsWired(w, SkipActual(p, w, exits), p.rest, PipeRead(w.pipes), w.pipes + 1)
  {
    var v := SkipFeeder(p.cmd, w);
    StartedAndWaited(p.rest, PipeRead(w.pipes), true, v, exits);
    OpeningIsNoProcess(w.log, p.cmd);
    WiredFrom(w, v, SkipActual(p, w, exits), p.rest, PipeRead(w.pipes), w.pipes + 1);
  }

  lemma {:induction false} WiredFrom(w: World, v: World, r: World, p: Pipeline, given: Stream, pipes: nat)
    requires RunsWired(v, r, p, given, pipes) && v.pids == w.pids && Processes(v.log) == Processes(w.log)
    ensures RunsWired(w, r, p, given, pipes)
  {
  }

  /** A list answers with the status of the last process it started. */
  lemma {:induction false} AnswerIsLastStatus(rule: Rule, first: Pipeline, t: Tail, w: World, exits: nat -> nat)
    ensures var r := RunList(rule, first, t, w, exits); r.pids > w.pids && r.last == exits(r.pids - 1)
  {
    TailStatus(rule, t, RunPipeline(rule, first, w.(last := 0), exits), exits);
    TailStarts(rule, t, RunPipeline(rule, first, w.(last := 0), exits), exits);
  }

  /** The status is that of the last process. */
  predicate Answered(w: World, exits: nat -> nat) {
    w.pids > 0 && w.last == exits(w.pids - 1)
  }

  lemma {:induction false} TailStatus(rule: Rule, t: Tail, w: World, exits: nat -> nat)
    requires Answered(w, exits)
    ensures Answered(RunTail(rule, t, w, exits), exits)
    decreases t
  {
    match t
    case End =>
    case More(op, p, rest) =>
      StepStatus(rule, Some(op), p, w, exits);
      TailStatus(rule, rest, Step(rule, Some(op), p, w, exits), exits);
  }

  lemma {:induction false} StepStatus(rule: Rule, op: Option<Op>, p: Pipeline, w: World, exits: nat -> nat)
    requires Answered(w, exits)
    ensures Answered(Step(rule, op, p, w, exits), exits)
  {
  }

  lemma {:induction false} TailStarts(rule: Rule, t: Tail, w: World, exits: nat -> nat)
    ensures RunTail(rule, t, w, exits).pids >= w.pids
    decreases t
  {
    match t
    case End =>
    case More(op, p, rest) => TailStarts(rule, rest, Step(rule, Some(op), p, w, exits), exits);
  }

  // --- program against language ----------------------------------------------

  /** No command that feeds a pipe has its output redirected. */
  predicate FeedsPipes(p: Pipeline) {
    p.Last? || (p.cmd.output.None? && FeedsPipes(p.rest))
  }

  /** What the program needs of one pipeline: what runs feeds its pipes, what is skipped is one bare command. */
  predicate PlainItem(runs: bool, p: Pipeline) {
    if runs then FeedsPipes(p) else p.Last? && Redirections(p.cmd) == 0
  }

  /** The same, along the run the language prescribes. */
  predicate PlainTail(t: Tail, w: World, exits: nat -> nat) {
    match t
    case End => true
    case More(op, p, rest) =>
      PlainItem(Gate(Some(op), w.last), p) && PlainTail(rest, Step(Posix, Some(op), p, w, exits), exits)
  }

  lemma {:induction false} SameStart(p: Pipeline, given: Stream, piped: bool, w: World)
    requires FeedsPipes(p)
    ensures Start(Posix, p, given, piped, w) == Start(Actual, p, given, piped, w)
    decreases p
  {
    match p
    case Last(c) =>
    case Piped(c, rest) => SameStart(rest, PipeRead(w.pipes), true, StartFeeder(Actual, c, given, piped, w));
  }

  lemma {:induction false} SamePrefixes(a: seq<Event>, b: seq<Event>, x: seq<Event>)
    requires |a| == |b| && a <= x && b <= x
    ensures a == b
  {
    assert a == x[..|a|];
  }

  /** Equally long logs that differ still differ after anything is appended. */
  lemma {:induction false} DifferentPrefixes(a: seq<Event>, b: seq<Event>, x: seq<Event>, y: seq<Event>)
    requires |a| == |b| && a != b && a <= x && b <= y
    ensures x != y
  {
    if x == y {
      SamePrefixes(a, b, x);
    }
  }

  lemma {:induction false} OtherStart(p: Pipeline, given: Stream, piped: bool, w: World)
    requires !FeedsPipes(p)
    ensures Start(Posix, p, given, piped, w).log != Start(Actual, p, given, piped, w).log
    decreases p
  {
    var v, u := StartFeeder(Posix, p.cmd, given, piped, w), StartFeeder(Actual, p.cmd, given, piped, w);
    if p.cmd.output.None? {
      OtherStart(p.rest, PipeRead(w.pipes), true, v);
    } else {
      assert v.log[|v.log| - 1] != u.log[|v.log| - 1];
      DifferentPrefixes(v.log, u.log, Start(Posix, p.rest, PipeRead(w.pipes), true, v).log,
                        Start(Actual, p.rest, PipeRead(w.pipes), true, u).log);
    }
  }

  lemma {:induction false} SameStep(op: Option<Op>, p: Pipeline, w: World, exits: nat -> nat)
    requires PlainItem(Gate(op, w.last), p)
    ensures Step(Posix, op, p, w, exits) == Step(Actual, op, p, w, exits)
  {
    if Gate(op, w.last) {
      SameStart(p, Stdin, false, w);
    } else {
      assert w.log + Opens(p.cmd) == w.log;
    }
  }

  function CountOpens(log: seq<Event>): nat {
    if log == [] then 0 else CountOpens(log[..|log| - 1]) + if log[|log| - 1].Open? then 1 else 0
  }

  lemma {:induction false} CountOpensSum(a: seq<Event>, b: seq<Event>)
    ensures CountOpens(a + b) == CountOpens(a) + CountOpens(b)
  {
    if b == [] {
      assert a + b == a;
    } else {
      CountOpensSum(a, b[..|b| - 1]);
      assert (a + b)[..|a + b| - 1] == a + b[..|b| - 1];
    }
  }

  lemma {:induction false} NoOpens(log: seq<Event>)
    requires forall i :: 0 <= i < |log| ==> !log[i].Open?
    ensures CountOpens(log) == 0
  {
    if log != [] {
      NoOpens(log[..|log| - 1]);
    }
  }

  lemma {:induction false} CountOne(s: Option<Stream>)
    ensures CountOpens(OpenOne(s)) == Count(s)
  {
    if s.Some? {
      assert OpenOne(s)[..0] == [];
    }
  }

  lemma {:induction false} CountThree(a: seq<Event>, b: seq<Event>, c: seq<Event>)
    ensures CountOpens(a + (b + c)) == CountOpens(a) + CountOpens(b) + CountOpens(c)
  {
    CountOpensSum(a, b + c);
    CountOpensSum(b, c);
  }

  lemma {:induction false} CountCmd(log: seq<Event>, c: Cmd)
    ensures CountOpens(log + Opens(c)) == CountOpens(log) + Redirections(c)
  {
    CountOpensSum(log, Opens(c));
    CountThree(OpenOne(Reading(c.input)), OpenOne(Writing(c.output)), OpenOne(Reading(c.input2)));
    CountOne(Reading(c.input));
    CountOne(Writing(c.output));
    CountOne(Reading(c.input2));
  }

  lemma {:induction false} CountSpawn(log: seq<Event>, c: Cmd, e: Event)
    requires !e.Open?
    ensures CountOpens(log + Opens(c) + [e]) == CountOpens(log) + Redirections(c)
  {
    CountCmd(log, c);
    CountOpensSum(log + Opens(c), [e]);
    NoOpens([e]);
  }

  lemma {:induction false} CountStart(rule: Rule, p: Pipeline, given: Stream, piped: bool, w: World)
    ensures CountOpens(Start(rule, p, given, piped, w).log) == CountOpens(w.log) + TotalRedirections(p)
    decreases p
  {
    match p
    case Last(c) => CountSpawn(w.log, c, Spawn(Words(c), InputOf(c, given), OutputOf(c, Stdout)));
    case Piped(c, rest) =>
      CountSpawn(w.log, c, Spawn(Words(c), InputOf(c, given), FeederOutput(rule, c, w.pipes)));
      CountStart(rule, rest, PipeRead(w.pipes), true, StartFeeder(rule, c, given, piped, w));
  }

  lemma {:induction false} CountWaits(from: nat, w: World, exits: nat -> nat)
    requires from < w.pids
    ensures CountOpens(WaitAll(from, w, exits).log) == CountOpens(w.log)
  {
    CountOpensSum(w.log, Waits(from, w.pids - from));
    NoOpens(Waits(from, w.pids - from));
  }

  lemma {:induction false} CountRun(rule: Rule, p: Pipeline, w: World, exits: nat -> nat)
    ensures CountOpens(RunPipeline(rule, p, w, exits).log) == CountOpens(w.log) + TotalRedirections(p)
  {
    CountStart(rule, p, Stdin, false, w);
    CountWaits(w.pids, Start(rule, p, Stdin, false, w), exits);
  }

  lemma {:induction false} CountSkip(p: Pipeline, w: World, exits: nat -> nat)
    ensures CountOpens(SkipActual(p, w, exits).log) == CountOpens(w.log) + TotalRedirections(p)
  {
    CountCmd(w.log, p.cmd);
    if p.Piped? {
      CountStart(Actual, p.rest, PipeRead(w.pipes), true, SkipFeeder(p.cmd, w));
      CountWaits(w.pids, Start(Actual, p.rest, PipeRead(w.pipes), true, SkipFeeder(p.cmd, w)), exits);
    }
  }

  /** The program opens every file a pipeline names, whether it runs the pipeline or not. */
  lemma {:induction false} CountActual(op: Option<Op>, p: Pipeline, w: World, exits: nat -> nat)
    ensures CountOpens(Step(Actual, op, p, w, exits).log) == CountOpens(w.log) + TotalRedirections(p)
  {
    if Gate(op, w.last) {
      CountRun(Actual, p, w, exits);
    } else {
      CountSkip(p, w, exits);
    }
  }

  lemma {:induction false} CountPosix(op: Option<Op>, p: Pipeline, w: World, exits: nat -> nat)
    ensures CountOpens(Step(Posix, op, p, w, exits).log) <= CountOpens(w.log) + TotalRedirections(p)
  {
    if Gate(op, w.last) {
      CountRun(Posix, p, w, exits);
    }
  }

  lemma {:induction false} CountTail(t: Tail, w: World, exits: nat -> nat)
    ensures CountOpens(RunTail(Actual, t, w, exits).log) == CountOpens(w.log) + TailRedirections(t)
    ensures CountOpens(RunTail(Posix, t, w, exits).log) <= CountOpens(w.log) + TailRedirections(t)
    decreases t
  {
    match t
    case End =>
    case More(op, p, rest) =>
      CountActual(Some(op), p, w, exits);
      CountPosix(Some(op), p, w, exits);
      CountTail(rest, Step(Actual, Some(op), p, w, exits), exits);
      CountTail(rest, Step(Posix, Some(op), p, w, exits), exits);
  }

  /** The first thing a pipeline does in the language: open a file, or start a command on the shell's input. */
  predicate FreshStart(e: Event) {
    e.Open? || (e.Spawn? && e.input == Stdin)
  }

  lemma {:induction false} StartIsFresh(p: Pipeline, piped: bool, w: World)
    ensures var r := Start(Posix, p, Stdin, piped, w); |r.log| > |w.log| && FreshStart(r.log[|w.log|])
  {
    var c := p.cmd;
    if Redirections(c) > 0 {
      assert Opens(c)[0].Open?;
      var v := if p.Last? then StartLast(c, Stdin, piped, w) else StartFeeder(Posix, c, Stdin, piped, w);
      assert v.log[|w.log|] == Opens(c)[0];
    }
  }

  lemma {:induction false} NextIsFresh(t: Tail, w: World, exits: nat -> nat)
    ensures var r := RunTail(Posix, t, w, exits); w.log <= r.log && (|r.log| > |w.log| ==> FreshStart(r.log[|w.log|]))
    decreases t
  {
    match t
    case End =>
    case More(op, p, rest) =>
      var v := Step(Posix, Some(op), p, w, exits);
      if Gate(Some(op), w.last) {
        StartIsFresh(p, false, w);
        TailExtends(Posix, rest, v, exits);
        assert v.log[|w.log|] == Start(Posix, p, Stdin, false, w).log[|w.log|];
      } else {
        NextIsFresh(rest, w, exits);
      }
  }

  /** A skipped pipeline of bare commands: the program goes on to start the second one, reading a pipe. */
  lemma {:induction false} SkippedPipelineStarts(p: Pipeline, w: World, exits: nat -> nat)
    requires p.Piped? && TotalRedirections(p) == 0
    ensures var r := SkipActual(p, w, exits); |r.log| > |w.log| && !FreshStart(r.log[|w.log|])
  {
    var v := SkipFeeder(p.cmd, w);
    assert v.log == w.log && Opens(p.rest.cmd) == [];
    var u := if p.rest.Last? then StartLast(p.rest.cmd, PipeRead(w.pipes), true, v)
             else StartFeeder(Actual, p.rest.cmd, PipeRead(w.pipes), true, v);
    assert u.log <= Start(Actual, p.rest, PipeRead(w.pipes), true, v).log;
    assert u.log[|w.log|].input == PipeRead(w.pipes);
  }

  /** A skipped pipeline that is not one bare command shows in the log. */
  lemma {:induction false} SkipShows(op: Op, p: Pipeline, rest: Tail, w: World, exits: nat -> nat)
    requires !Gate(Some(op), w.last) && !PlainItem(false, p)
    ensures RunTail(Actual, More(op, p, rest), w, exits).log != RunTail(Posix, More(op, p, rest), w, exits).log
  {
    var v := SkipActual(p, w, exits);
    CountActual(Some(op), p, w, exits);
    CountTail(rest, v, exits);
    CountTail(rest, w, exits);
    if TotalRedirections(p) == 0 {
      SkippedPipelineStarts(p, w, exits);
      TailExtends(Actual, rest, v, exits);
      NextIsFresh(rest, w, exits);
    }
  }

  lemma {:induction false} RunShows(op: Option<Op>, p: Pipeline, rest: Tail, w: World, exits: nat -> nat)
    requires Gate(op, w.last) && !FeedsPipes(p)
    ensures RunTail(Actual, rest, Step(Actual, op, p, w, exits), exits).log
         != RunTail(Posix, rest, Step(Posix, op, p, w, exits), exits).log
  {
    OtherStart(p, Stdin, false, w);
    var a, b := Start(Actual, p, Stdin, false, w), Start(Posix, p, Stdin, false, w);
    StartShape(Actual, p, Stdin, false, w);
    StartShape(Posix, p, Stdin, false, w);
    TailExtends(Actual, rest, Step(Actual, op, p, w, exits), exits);
    TailExtends(Posix, rest, Step(Posix, op, p, w, exits), exits);
    DifferentPrefixes(a.log, b.log, RunTail(Actual, rest, Step(Actual, op, p, w, exits), exits).log,
                      RunTail(Posix, rest, Step(Posix, op, p, w, exits), exits).log);
  }

  lemma {:induction false} TailAgrees(t: Tail, w: World, exits: nat -> nat)
    ensures PlainTail(t, w, exits) <==> RunTail(Actual, t, w, exits).log == RunTail(Posix, t, w, exits).log
    ensures PlainTail(t, w, exits) ==> RunTail(Actual, t, w, exits) == RunTail(Posix, t, w, exits)
    decreases t
  {
    match t
    case End =>
    case More(op, p, rest) =>
      if PlainItem(Gate(Some(op), w.last), p) {
        SameStep(Some(op), p, w, exits);
        TailAgrees(rest, Step(Posix, Some(op), p, w, exits), exits);
      } else if Gate(Some(op), w.last) {
        RunShows(Some(op), p, rest, w, exits);
      } else {
        SkipShows(op, p, rest, w, exits);
      }
  }

  /** The program does exactly what the shell language says if and only if every pipeline the language skips is one
      command without redirections and no command it runs in front of a pipe has its output redirected. */
  lemma {:induction false} RunsAsTheLanguageSays(first: Pipeline, t: Tail, w: World, exits: nat -> nat)
    ensures var plain := FeedsPipes(first) && PlainTail(t, RunPipeline(Posix, first, w.(last := 0), exits), exits);
            && (plain <==> RunList(Actual, first, t, w, exits).log == RunList(Posix, first, t, w, exits).log)
            && (plain ==> RunList(Actual, first, t, w, exits) == RunList(Posix, first, t, w, exits))
  {
    var v := w.(last := 0);
    if FeedsPipes(first) {
      SameStep(None, first, v, exits);
      TailAgrees(t, RunPipeline(Posix, first, v, exits), exits);
    } else {
      RunShows(None, first, t, v, exits);
    }
  }

  predicate BareCommands(t: Tail) {
    t.End? || (t.pipe.Last? && Redirections(t.pipe.cmd) == 0 && BareCommands(t.tail))
  }

  /** For lists without pipes and redirections there is nothing to check: the two always agree. */
  lemma {:induction false} BareListsAgree(c: Cmd, t: Tail, w: World, exits: nat -> nat)
    requires Redirections(c) == 0 && BareCommands(t)
    ensures RunList(Actual, Last(c), t, w, exits) == RunList(Posix, Last(c), t, w, exits)
  {
    BareIsPlain(t, RunPipeline(Posix, Last(c), w.(last := 0), exits), exits);
    RunsAsTheLanguageSays(Last(c), t, w, exits);
  }

  /** A wait status that keeps what follows the operator from running. */
  function ClosingStatus(op: Op): nat {
    if op.AndIf? then 256 else 0
  }

  /** The operator before the first pipeline that is not one bare command. */
  function FirstFault(t: Tail): Op
    requires !BareCommands(t)
  {
    if t.pipe.Last? && Redirections(t.pipe.cmd) == 0 then FirstFault(t.tail) else t.op
  }

  lemma {:induction false} FaultIsSkipped(t: Tail, w: World, e: nat)
    requires !BareCommands(t) && w.last == e == ClosingStatus(FirstFault(t))
    ensures !PlainTail(t, w, _ => e)
    decreases t
  {
    if t.pipe.Last? && Redirections(t.pipe.cmd) == 0 {
      FaultIsSkipped(t.tail, Step(Posix, Some(t.op), t.pipe, w, _ => e), e);
    }
  }

  /** Whatever the commands will answer, the program does what the language says: this can be promised for a list,
      before it is run, if and only if no command in front of a pipe in its first pipeline has its output redirected
      and everything after that is a single command without redirections. */
  lemma {:induction false} AlwaysAsTheLanguageSays(first: Pipeline, t: Tail, w: World)
    ensures (forall exits: nat -> nat ::
               RunList(Actual, first, t, w, exits).log == RunList(Posix, first, t, w, exits).log)
       <==> FeedsPipes(first) && BareCommands(t)
    ensures FeedsPipes(first) && BareCommands(t) ==>
              forall exits: nat -> nat :: RunList(Actual, first, t, w, exits) == RunList(Posix, first, t, w, exits)
  {
    if FeedsPipes(first) && BareCommands(t) {
      forall exits: nat -> nat
        ensures RunList(Actual, first, t, w, exits) == RunList(Posix, first, t, w, exits)
      {
        BareIsPlain(t, RunPipeline(Posix, first, w.(last := 0), exits), exits);
        RunsAsTheLanguageSays(first, t, w, exits);
      }
    } else {
      var e := if BareCommands(t) then 0 else ClosingStatus(FirstFault(t));
      var exits := (k: nat) => e;
      if FeedsPipes(first) {
        FaultIsSkipped(t, RunPipeline(Posix, first, w.(last := 0), exits), e);
      }
      RunsAsTheLanguageSays(first, t, w, exits);
      assert RunList(Actual, first, t, w, exits).log != RunList(Posix, first, t, w, exits).log;
    }
  }

  lemma {:induction false} BareIsPlain(t: Tail, w: World, exits: nat -> nat)
    requires BareCommands(t)
    ensures PlainTail(t, w, exits)
    decreases t
  {
    if t.More? {
      BareIsPlain(t.tail, Step(Posix, Some(t.op), t.pipe, w, exits), exits);
    }
  }

  /** The same processes, the same numbers, the same status. */
  predicate Alike(a: World, b: World) {
    Processes(a.log) == Processes(b.log) && a.pids == b.pids && a.pipes == b.pipes && a.last == b.last
  }

  lemma {:induction false} SkippedAlike(c: Cmd, a: World, b: World, exits: nat -> nat)
    requires Alike(a, b)
    ensures Alike(SkipActual(Last(c), a, exits), b)
  {
    OpeningIsNoProcess(a.log, c);
  }

  lemma {:induction false} WaitOnce(from: nat, w: World, exits: nat -> nat)
    requires w.pids == from + 1
    ensures WaitAll(from, w, exits).log == w.log + [Wait(from)]
  {
    assert Waits(from, 1) == [Wait(from)];
  }

  lemma {:induction false} RunProcesses(rule: Rule, c: Cmd, w: World, exits: nat -> nat)
    ensures Processes(RunPipeline(rule, Last(c), w, exits).log)
         == Processes(w.log) + [Spawn(Words(c), InputOf(c, Stdin), OutputOf(c, Stdout))] + [Wait(w.pids)]
  {
    var v := StartLast(c, Stdin, false, w);
    LogProcess(w.log, c, Spawn(Words(c), InputOf(c, Stdin), OutputOf(c, Stdout)));
    ProcessesSnoc(v.log, Wait(w.pids));
    WaitOnce(w.pids, v, exits);
  }

  lemma {:induction false} RunAlike(c: Cmd, a: World, b: World, exits: nat -> nat)
    requires Alike(a, b)
    ensures Alike(RunPipeline(Actual, Last(c), a, exits), RunPipeline(Posix, Last(c), b, exits))
  {
    RunProcesses(Actual, c, a, exits);
    RunProcesses(Posix, c, b, exits);
  }

  predicate PipeFree(t: Tail) {
    t.End? || (t.pipe.Last? && PipeFree(t.tail))
  }

  lemma {:induction false} TailAlike(t: Tail, a: World, b: World, exits: nat -> nat)
    requires PipeFree(t) && Alike(a, b)
    ensures Alike(RunTail(Actual, t, a, exits), RunTail(Posix, t, b, exits))
    decreases t
  {
    match t
    case End =>
    case More(op, p, rest) =>
      if Gate(Some(op), a.last) {
        RunAlike(p.cmd, a, b, exits);
      } else {
        SkippedAlike(p.cmd, a, b, exits);
      }
      TailAlike(rest, Step(Actual, Some(op), p, a, exits), Step(Posix, Some(op), p, b, exits), exits);
  }

  /** A list without pipes runs exactly the processes the language selects, with the same streams, and gives the same
      answer, whatever is redirected; only files of skipped commands may be opened in vain. */
  lemma {:induction false} PipeFreeListsAgree(c: Cmd, t: Tail, w: World, exits: nat -> nat)
    requires PipeFree(t)
    ensures Alike(RunList(Actual, Last(c), t, w, exits), RunList(Posix, Last(c), t, w, exits))
  {
    var v := w.(last := 0);
    RunAlike(c, v, v, exits);
    TailAlike(t, RunPipeline(Actual, Last(c), v, exits), RunPipeline(Posix, Last(c), v, exits), exits);
  }

  /** `false && a | b`: the language runs nothing after `false`, the program runs `b` and answers with its status. */
  lemma {:induction false} SkippedPipelineRuns(f: Cmd, a: Cmd, b: Cmd, w: World, exits: nat -> nat)
    requires Redirections(f) == Redirections(a) == Redirections(b) == 0 && !Success(exits(w.pids))
    ensures var t := More(AndIf, Piped(a, Last(b)), End);
            && RunList(Posix, Last(f), t, w, exits).pids == w.pids + 1
            && RunList(Actual, Last(f), t, w, exits).pids == w.pids + 2
            && RunList(Actual, Last(f), t, w, exits).last == exits(w.pids + 1)
            && RunList(Actual, Last(f), t, w, exits).log
            == w.log + [Spawn(Words(f), Stdin, Stdout), Wait(w.pids),
                        Spawn(Words(b), PipeRead(w.pipes), Stdout), Wait(w.pids + 1)]
  {
    var v := RunPipeline(Actual, Last(f), w.(last := 0), exits);
    assert Waits(w.pids, 1) == [Wait(w.pids)] && Waits(w.pids + 1, 1) == [Wait(w.pids + 1)];
    assert v.log == w.log + [Spawn(Words(f), Stdin, Stdout), Wait(w.pids)];
    var t := Piped(a, Last(b));
    assert v.pids == w.pids + 1 && v.last == exits(w.pids) && v.pipes == w.pipes;
    assert v == RunPipeline(Posix, Last(f), w.(last := 0), exits);
    assert RunList(Posix, Last(f), More(AndIf, t, End), w, exits) == RunTail(Posix, End, v, exits);
    assert RunList(Actual, Last(f), More(AndIf, t, End), w, exits)
        == RunTail(Actual, End, SkipActual(t, v, exits), exits);
    assert SkipFeeder(a, v).log == v.log;
    assert Start(Actual, Last(b), PipeRead(w.pipes), true, SkipFeeder(a, v)).log
        == v.log + [Spawn(Words(b), PipeRead(w.pipes), Stdout)];
  }

  /** `a > f | b`: in the language `a` writes to the file and `b` reads an empty pipe, in the program `a` writes to
      the pipe and the file stays empty. */
  lemma {:induction false} OutputIsOverridden(
    a: Cmd, b: Cmd, file: string, w: World, exits: nat -> nat)
    requires a.input.None? && a.output == Some(file) && a.input2.None? && Redirections(b) == 0
    ensures RunList(Actual, Piped(a, Last(b)), End, w, exits).log
         == w.log + [Open(Writes(file)), Spawn(Words(a), Stdin, PipeWrite(w.pipes)),
                     Spawn(Words(b), PipeRead(w.pipes), Stdout), Wait(w.pids), Wait(w.pids + 1)]
    ensures RunList(Posix, Piped(a, Last(b)), End, w, exits).log
         == w.log + [Open(Writes(file)), Spawn(Words(a), Stdin, Writes(file)),
                     Spawn(Words(b), PipeRead(w.pipes), Stdout), Wait(w.pids), Wait(w.pids + 1)]
  {
    PipeOfTwo(Actual, a, b, file, w, exits);
    PipeOfTwo(Posix, a, b, file, w, exits);
  }

  lemma {:induction false} RunOfOne(rule: Rule, c: Cmd, w: World, exits: nat -> nat)
    ensures RunList(rule, Last(c), End, w, exits).log
         == w.log + Opens(c) + [Spawn(Words(c), InputOf(c, Stdin), OutputOf(c, Stdout))] + [Wait(w.pids)]
  {
    WaitOnce(w.pids, StartLast(c, Stdin, false, w.(last := 0)), exits);
    assert RunList(rule, Last(c), End, w, exits)
        == RunTail(rule, End, RunPipeline(rule, Last(c), w.(last := 0), exits), exits);
  }

  /** A command with all three redirections, `c < f > g < h`, opens all three files in that order and reads the last. */
  lemma {:induction false} ThreeRedirections(
    rule: Rule, c: Cmd, f: string, g: string, h: string, w: World, exits: nat -> nat)
    requires c.input == Some(f) && c.output == Some(g) && c.input2 == Some(h)
    ensures RunList(rule, Last(c), End, w, exits).log
         == w.log + [Open(Reads(f)), Open(Writes(g)), Open(Reads(h)), Spawn(Words(c), Reads(h), Writes(g)),
                     Wait(w.pids)]
  {
    RunOfOne(rule, c, w, exits);
    assert Opens(c) == [Open(Reads(f)), Open(Writes(g)), Open(Reads(h))];
  }

  /** `c < f` reads the file and writes to the shell's output. */
  lemma {:induction false} InputRedirection(rule: Rule, c: Cmd, f: string, w: World, exits: nat -> nat)
    requires c.input == Some(f) && c.output.None? && c.input2.None?
    ensures RunList(rule, Last(c), End, w, exits).log
         == w.log + [Open(Reads(f)), Spawn(Words(c), Reads(f), Stdout), Wait(w.pids)]
  {
    RunOfOne(rule, c, w, exits);
    assert Opens(c) == [Open(Reads(f))];
  }

  /** `c > g` writes the file and reads the shell's input. */
  lemma {:induction false} OutputRedirection(rule: Rule, c: Cmd, g: string, w: World, exits: nat -> nat)
    requires c.input.None? && c.output == Some(g) && c.input2.None?
    ensures RunList(rule, Last(c), End, w, exits).log
         == w.log + [Open(Writes(g)), Spawn(Words(c), Stdin, Writes(g)), Wait(w.pids)]
  {
    RunOfOne(rule, c, w, exits);
    assert Opens(c) == [Open(Writes(g))];
  }

  lemma {:induction false} PipeOfTwo(rule: Rule, a: Cmd, b: Cmd, file: string, w: World, exits: nat -> nat)
    requires a.input.None? && a.output == Some(file) && a.input2.None? && Redirections(b) == 0
    ensures RunList(rule, Piped(a, Last(b)), End, w, exits).log
         == w.log + [Open(Writes(file)), Spawn(Words(a), Stdin, FeederOutput(rule, a, w.pipes)),
                     Spawn(Words(b), PipeRead(w.pipes), Stdout), Wait(w.pids), Wait(w.pids + 1)]
  {
    StartOfTwo(rule, a, b, file, w.(last := 0));
    assert Waits(w.pids, 2) == [Wait(w.pids), Wait(w.pids + 1)];
  }

  lemma {:induction false} StartOfTwo(rule: Rule, a: Cmd, b: Cmd, file: string, w: World)
    requires a.input.None? && a.output == Some(file) && a.input2.None? && Redirections(b) == 0
    ensures var r := Start(rule, Piped(a, Last(b)), Stdin, false, w);
            && r.pids == w.pids + 2
            && r.log == w.log + [Open(Writes(file)), Spawn(Words(a), Stdin, FeederOutput(rule, a, w.pipes)),
                                 Spawn(Words(b), PipeRead(w.pipes), Stdout)]
  {
    RedirectedFeeder(rule, a, file, w);
    BareLast(b, PipeRead(w.pipes), true, StartFeeder(rule, a, Stdin, false, w));
  }

  lemma {:induction false} RedirectedFeeder(rule: Rule, a: Cmd, file: string, w: World)
    requires a.input.None? && a.output == Some(file) && a.input2.None?
    ensures StartFeeder(rule, a, Stdin, false, w).log
         == w.log + [Open(Writes(file)), Spawn(Words(a), Stdin, FeederOutput(rule, a, w.pipes))]
  {
    assert Opens(a) == [Open(Writes(file))];
  }

  lemma {:induction false} BareLast(b: Cmd, given: Stream, piped: bool, w: World)
    requires Redirections(b) == 0
    ensures StartLast(b, given, piped, w).log == w.log + [Spawn(Words(b), given, Stdout)]
  {
    assert Opens(b) == [];
  }

  // --- descriptors -------------------------------------------------------------

  /** No descriptor is replaced before it is used, and no command that feeds a pipe has its output redirected. */
  predicate TidyPipeline(p: Pipeline, piped: bool) {
    Replaced(p.cmd, piped) == 0 && (p.Piped? ==> p.cmd.output.None? && TidyPipeline(p.rest, true))
  }

  predicate TidyItem(runs: bool, p: Pipeline) {
    if !runs && p.Last? then Redirections(p.cmd) == 0 else TidyPipeline(p, false)
  }

  predicate TidyTail(t: Tail, w: World, exits: nat -> nat) {
    match t
    case End => true
    case More(op, p, rest) =>
      TidyItem(Gate(Some(op), w.last), p) && TidyTail(rest, Step(Actual, Some(op), p, w, exits), exits)
  }

  lemma {:induction false} StartKeeps(p: Pipeline, given: Stream, piped: bool, w: World)
    ensures var r := Start(Actual, p, given, piped, w);
            r.kept >= w.kept && (r.kept == w.kept <==> TidyPipeline(p, piped))
    decreases p
  {
    match p
    case Last(c) =>
    case Piped(c, rest) => StartKeeps(rest, PipeRead(w.pipes), true, StartFeeder(Actual, c, given, piped, w));
  }

  lemma {:induction false} StepKeeps(op: Option<Op>, p: Pipeline, w: World, exits: nat -> nat)
    ensures var r := Step(Actual, op, p, w, exits);
            r.kept >= w.kept && (r.kept == w.kept <==> TidyItem(Gate(op, w.last), p))
  {
    if Gate(op, w.last) {
      StartKeeps(p, Stdin, false, w);
    } else if p.Piped? {
      var v := SkipFeeder(p.cmd, w);
      StartKeeps(p.rest, PipeRead(w.pipes), true, v);
    }
  }

  lemma {:induction false} TailKeeps(t: Tail, w: World, exits: nat -> nat)
    ensures var r := RunTail(Actual, t, w, exits); r.kept >= w.kept && (r.kept == w.kept <==> TidyTail(t, w, exits))
    decreases t
  {
    match t
    case End =>
    case More(op, p, rest) =>
      StepKeeps(Some(op), p, w, exits);
      TailKeeps(rest, Step(Actual, Some(op), p, w, exits), exits);
  }

  /** A run leaves no descriptor open if and only if nothing it skips is a redirected command and nothing else replaces
      one descriptor by another. */
  lemma {:induction false} NothingKept(first: Pipeline, t: Tail, w: World, exits: nat -> nat)
    ensures RunList(Actual, first, t, w, exits).kept == w.kept
       <==> TidyPipeline(first, false) && TidyTail(t, RunPipeline(Actual, first, w.(last := 0), exits), exits)
  {
    StepKeeps(None, first, w.(last := 0), exits);
    TailKeeps(t, RunPipeline(Actual, first, w.(last := 0), exits), exits);
  }

  lemma {:induction false} BarePipelineIsTidy(p: Pipeline, piped: bool)
    requires TotalRedirections(p) == 0
    ensures TidyPipeline(p, piped)
  {
    if p.Piped? {
      BarePipelineIsTidy(p.rest, true);
    }
  }

  lemma {:induction false} BareTailIsTidy(t: Tail, w: World, exits: nat -> nat)
    requires TailRedirections(t) == 0
    ensures TidyTail(t, w, exits)
    decreases t
  {
    if t.More? {
      BarePipelineIsTidy(t.pipe, false);
      BareTailIsTidy(t.tail, Step(Actual, Some(t.op), t.pipe, w, exits), exits);
    }
  }

  /** Without redirections nothing is ever kept, whatever is skipped. */
  lemma {:induction false} BareListsKeepNothing(first: Pipeline, t: Tail, w: World, exits: nat -> nat)
    requires TotalRedirections(first) + TailRedirections(t) == 0
    ensures RunList(Actual, first, t, w, exits).kept == w.kept
  {
    BarePipelineIsTidy(first, false);
    BareTailIsTidy(t, RunPipeline(Actual, first, w.(last := 0), exits), exits);
    NothingKept(first, t, w, exits);
  }

  /** What can be asked of every pipeline after the first one, without knowing which of them will run. */
  predicate TidyLater(t: Tail) {
    t.End? || (TidyItem(false, t.pipe) && TidyLater(t.tail))
  }

  /** The operator before the first pipeline that may leave a descriptor open. */
  function FirstUntidy(t: Tail): Op
    requires !TidyLater(t)
  {
    if TidyItem(false, t.pipe) then FirstUntidy(t.tail) else t.op
  }

  lemma {:induction false} UntidyIsSkipped(t: Tail, w: World, e: nat)
    requires !TidyLater(t) && w.last == e == ClosingStatus(FirstUntidy(t))
    ensures !TidyTail(t, w, _ => e)
    decreases t
  {
    if TidyItem(false, t.pipe) {
      UntidyIsSkipped(t.tail, Step(Actual, Some(t.op), t.pipe, w, _ => e), e);
    }
  }

  lemma {:induction false} TidyLaterIsTidy(t: Tail, w: World, exits: nat -> nat)
    requires TidyLater(t)
    ensures TidyTail(t, w, exits)
    decreases t
  {
    if t.More? {
      TidyLaterIsTidy(t.tail, Step(Actual, Some(t.op), t.pipe, w, exits), exits);
    }
  }

  /** Whatever the commands will answer, no descriptor stays open: this can be promised for a list, before it is run,
      if and only if its first pipeline is tidy, and so is every later one, a later single command being free of
      redirections. */
  lemma {:induction false} NothingEverKept(first: Pipeline, t: Tail, w: World)
    ensures (forall exits: nat -> nat :: RunList(Actual, first, t, w, exits).kept == w.kept)
       <==> TidyPipeline(first, false) && TidyLater(t)
  {
    if TidyPipeline(first, false) && TidyLater(t) {
      forall exits: nat -> nat
        ensures RunList(Actual, first, t, w, exits).kept == w.kept
      {
        TidyLaterIsTidy(t, RunPipeline(Actual, first, w.(last := 0), exits), exits);
        NothingKept(first, t, w, exits);
      }
    } else {
      var e := if TidyLater(t) then 0 else ClosingStatus(FirstUntidy(t));
      var exits := (k: nat) => e;
      if TidyPipeline(first, false) {
        UntidyIsSkipped(t, RunPipeline(Actual, first, w.(last := 0), exits), e);
      }
      NothingKept(first, t, w, exits);
      assert RunList(Actual, first, t, w, exits).kept != w.kept;
    }
  }

  /** `false && a > file`: the file is opened and emptied although `a` is skipped, and its descriptor stays open. */
  lemma {:induction false} SkippedRedirectionIsKept(f: Cmd, a: Cmd, file: string, w: World, exits: nat -> nat)
    requires Redirections(f) == 0 && !Success(exits(w.pids))
    requires a.input.None? && a.output == Some(file) && a.input2.None?
    ensures var r := RunList(Actual, Last(f), More(AndIf, Last(a), End), w, exits);
            && r.kept == w.kept + 1
            && r.log == w.log + [Spawn(Words(f), Stdin, Stdout), Wait(w.pids), Open(Writes(file))]
  {
    var v := RunPipeline(Actual, Last(f), w.(last := 0), exits);
    assert Waits(w.pids, 1) == [Wait(w.pids)];
    assert v.log == w.log + [Spawn(Words(f), Stdin, Stdout), Wait(w.pids)];
    assert v.last == exits(w.pids) && v.kept == w.kept;
    assert Opens(a) == [Open(Writes(file))];
    assert RunList(Actual, Last(f), More(AndIf, Last(a), End), w, exits)
        == RunTail(Actual, End, SkipActual(Last(a), v, exits), exits);
  }
}
