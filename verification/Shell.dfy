/** The evaluator: one pass over the lexems, starting and waiting for processes as it goes. */
module Shell {
  import opened Sequences
  import opened Lexer
  import opened CommandList
  import opened KernelModel
  import opened ShellPrint
  import L = CommandLaws

  class Shell {
    const exits: nat -> nat
    var os: Kernel
    var readfd_: nat
    var prev_readfd_: nat
    var writefd_: nat
    var pipefd_: (nat, nat)
    var prev_exit_status_: nat
    var cur_childs: set<nat>

    /** `exits` gives the wait status of every process that will ever be started. */
    constructor (fds: map<nat, Stream>, exits: nat -> nat)
      requires Keeps(fds, fds)
      ensures this.exits == exits && os == Kernel(fds, [], 0, 0, {}) && Valid()
    {
      this.exits := exits;
      os := Kernel(fds, [], 0, 0, {});
      readfd_, prev_readfd_, writefd_ := 0, 0, 1;
      pipefd_ := (0, 0);
      prev_exit_status_ := 0;
      cur_childs := {};
    }

    /** Between two lines: standard streams open, nothing pending, children numbered below the next process. */
    ghost predicate Valid()
      reads this
    {
      Keeps(os.fds, os.fds) && prev_readfd_ == 0 && writefd_ == 1 && Fresh(os, cur_childs)
    }

    ghost function State(): World
      reads this
    {
      World(os.log, os.pids, os.pipes, prev_exit_status_, |os.fds|)
    }

    // --- Call::Call -------------------------------------------------------------

    method ReadWords(lexems: seq<Lexem>, idx: nat, ghost words: seq<string>, ghost after: seq<Lexem>)
      returns (argv: seq<string>, j: nat)
      requires idx <= |lexems| && lexems[idx..] == Arguments(words) + after && words != []
      requires after != [] ==> after[0].kind != Argument
      ensures argv == words && j <= |lexems| && lexems[j..] == after
    {
      Advance(lexems, idx, Arguments(words), after);
      ghost var end: nat := idx + |words|;
      Peek(lexems, end, after);
      j := idx + 1;
      while j < |lexems| && lexems[j].kind == Argument
        invariant idx < j <= end
      {
        if j < end {
          assert lexems[idx + (j - idx)] == Arguments(words)[j - idx];
        }
        j := j + 1;
      }
      argv := [];
      for k := idx to j
        invariant argv == words[..k - idx]
      {
        assert lexems[idx + (k - idx)] == Arguments(words)[k - idx];
        argv := argv + [lexems[k].text];
      }
    }

    method TakeInput(lexems: seq<Lexem>, idx0: nat, call0: Call, ghost file: Option<string>, ghost after: seq<Lexem>)
      returns (idx: nat, call: Call)
      requires idx0 <= |lexems| && lexems[idx0..] == PrintRedirection(LESS, file) + after
      requires file.None? && after != [] ==> after[0].kind != Input
      modifies `os
      ensures idx <= |lexems| && lexems[idx..] == after && (os, call) == OpenInput(old(os), call0, file)
    {
      idx, call := idx0, call0;
      Advance(lexems, idx, PrintRedirection(LESS, file), after);
      Peek(lexems, idx, PrintRedirection(LESS, file) + after);
      if idx < |lexems| && lexems[idx].kind == Input {
        idx := idx + 1;
        assert lexems[idx0 + 1] == PrintRedirection(LESS, file)[1];
        var fd := FreeFd(os);
        os := OpenFile(os, Reads(lexems[idx].text));
        idx := idx + 1;
        call := call.(readfd := fd);
      }
    }

    method TakeOutput(lexems: seq<Lexem>, idx0: nat, call0: Call, ghost file: Option<string>, ghost after: seq<Lexem>)
      returns (idx: nat, call: Call)
      requires idx0 <= |lexems| && lexems[idx0..] == PrintRedirection(GREATER, file) + after
      requires file.None? && after != [] ==> after[0].kind != Output
      modifies `os
      ensures idx <= |lexems| && lexems[idx..] == after && (os, call) == OpenOutput(old(os), call0, file)
    {
      idx, call := idx0, call0;
      Advance(lexems, idx, PrintRedirection(GREATER, file), after);
      Peek(lexems, idx, PrintRedirection(GREATER, file) + after);
      if idx < |lexems| && lexems[idx].kind == Output {
        idx := idx + 1;
        assert lexems[idx0 + 1] == PrintRedirection(GREATER, file)[1];
        var fd := FreeFd(os);
        os := OpenFile(os, Writes(lexems[idx].text));
        idx := idx + 1;
        call := call.(writefd := fd);
      }
    }

    /** Takes a `&` that stands directly after the words. */
    method TakeAmpersand(lexems: seq<Lexem>, idx0: nat, ghost c: Cmd, ghost after: seq<Lexem>) returns (idx: nat)
      requires idx0 <= |lexems| && lexems[idx0..] == PrintRedirections(c) + after && Follows(after)
      ensures idx <= |lexems| && lexems[idx..] == PrintRedirections(c) + AfterCall(c, after)
    {
      idx := idx0;
      Peek(lexems, idx, PrintRedirections(c) + after);
      if idx < |lexems| && lexems[idx].kind == Subprocess {
        idx := idx + 1;
      }
    }

    /** Consumes one command's lexems and opens its files. */
    method NewCall(lexems: seq<Lexem>, idx0: nat, readfd: nat, writefd: nat, ghost c: Cmd, ghost after: seq<Lexem>)
      returns (idx: nat, call: Call)
      requires idx0 <= |lexems| && lexems[idx0..] == PrintCmd(c) + after && Follows(after)
      modifies `os
      ensures idx <= |lexems| && lexems[idx..] == AfterCall(c, after)
      ensures (os, call) == Redirect(old(os), Call(Words(c), readfd, writefd), c)
    {
      ConcatAssociative(Arguments(Words(c)), PrintRedirections(c), after);
      var argv;
      argv, idx := ReadWords(lexems, idx0, Words(c), PrintRedirections(c) + after);
      idx := TakeAmpersand(lexems, idx, c, after);
      idx, call := TakeRedirections(lexems, idx, Call(argv, readfd, writefd), c, AfterCall(c, after));
    }

    /** Opens the files in the order in which they are written. */
    method TakeRedirections(lexems: seq<Lexem>, idx0: nat, call0: Call, ghost c: Cmd, ghost rest: seq<Lexem>)
      returns (idx: nat, call: Call)
      requires idx0 <= |lexems| && lexems[idx0..] == PrintRedirections(c) + rest && Follows(rest)
      modifies `os
      ensures idx <= |lexems| && lexems[idx..] == rest && (os, call) == Redirect(old(os), call0, c)
    {
      ghost var r1, r2, r3 :=
        PrintRedirection(LESS, c.input), PrintRedirection(GREATER, c.output), PrintRedirection(LESS, c.input2);
      assert (r1 + (r2 + r3)) + rest == r1 + (r2 + (r3 + rest));
      idx, call := TakeInput(lexems, idx0, call0, c.input, r2 + (r3 + rest));
      idx, call := TakeOutput(lexems, idx, call, c.output, r3 + rest);
      idx, call := TakeInput(lexems, idx, call, c.input2, rest);
    }

    // --- starting and waiting -----------------------------------------------------

    /** Starts one command, waits for it and takes its status. */
    method RunAlone(call: Call, ghost base: map<nat, Stream>, ghost c: Cmd, ghost w: World) returns (status: nat)
      requires Ready(base, os, call, c, Stdin, false, w) && Fresh(os, cur_childs)
      modifies `os, `cur_childs, `prev_exit_status_
      ensures Idle(base, os, RunPipeline(Actual, Last(c), w, exits))
      ensures prev_exit_status_ == status == RunPipeline(Actual, Last(c), w, exits).last
      ensures os.live == old(os.live) && cur_childs == old(cur_childs)
    {
      AloneIsIdle(base, os, call, c, w, exits);
      ComesAndGoes(os.live, os.pids);
      ComesAndGoes(cur_childs, os.pids);
      var pid := os.pids;
      os := Fork(os, call);
      os := CloseCall(os, call);
      cur_childs := cur_childs + {pid};
      status := exits(pid);
      os := Reap(os, pid);
      cur_childs := cur_childs - {pid};
      prev_exit_status_ := status;
    }

    method CalcCommand(call: Call, ghost base: map<nat, Stream>, ghost c: Cmd, ghost w: World) returns (status: nat)
      requires Ready(base, os, call, c, Stdin, false, w) && Fresh(os, cur_childs)
      modifies `os, `cur_childs, `prev_exit_status_
      ensures Idle(base, os, Step(Actual, None, Last(c), w, exits))
      ensures prev_exit_status_ == status == Step(Actual, None, Last(c), w, exits).last
      ensures os.live == old(os.live) && cur_childs == old(cur_childs)
    {
      status := RunAlone(call, base, c, w);
    }

    method CalcAnd(call: Call, status0: nat, ghost base: map<nat, Stream>, ghost c: Cmd, ghost w: World)
      returns (status: nat)
      requires Ready(base, os, call, c, Stdin, false, w) && Fresh(os, cur_childs)
      requires prev_exit_status_ == status0 == w.last
      modifies `os, `cur_childs, `prev_exit_status_
      ensures Idle(base, os, Step(Actual, Some(AndIf), Last(c), w, exits))
      ensures prev_exit_status_ == status == Step(Actual, Some(AndIf), Last(c), w, exits).last
      ensures os.live == old(os.live) && cur_childs == old(cur_childs)
    {
      status := status0;
      if Success(prev_exit_status_) {
        status := RunAlone(call, base, c, w);
      } else {
        SkippedKeeps(base, os, call, c, w, exits);
      }
    }

    method CalcOr(call: Call, status0: nat, ghost base: map<nat, Stream>, ghost c: Cmd, ghost w: World)
      returns (status: nat)
      requires Ready(base, os, call, c, Stdin, false, w) && Fresh(os, cur_childs)
      requires prev_exit_status_ == status0 == w.last
      modifies `os, `cur_childs, `prev_exit_status_
      ensures Idle(base, os, Step(Actual, Some(OrIf), Last(c), w, exits))
      ensures prev_exit_status_ == status == Step(Actual, Some(OrIf), Last(c), w, exits).last
      ensures os.live == old(os.live) && cur_childs == old(cur_childs)
    {
      status := status0;
      if !Success(prev_exit_status_) {
        status := RunAlone(call, base, c, w);
      } else {
        SkippedKeeps(base, os, call, c, w, exits);
      }
    }

    /** One pass of the main loop: builds the call and runs it, or its pipeline, as the operator before it says. */
    method RunItem(lexems: seq<Lexem>, idx0: nat, status0: nat, prev_op: Option<LexType>,
                   ghost base: map<nat, Stream>, ghost p: Pipeline, ghost after: seq<Lexem>, ghost w: World,
                   ghost op: Option<Op>)
      returns (status: nat, idx: nat)
      requires idx0 <= |lexems| && lexems[idx0..] == PrintPipeline(p) + after && Ends(after)
      requires Idle(base, os, w) && Fresh(os, cur_childs) && prev_op == TypeOfOp(op)
      requires prev_exit_status_ == w.last && (op.Some? ==> status0 == w.last) && prev_readfd_ == 0 && writefd_ == 1
      modifies `os, `cur_childs, `readfd_, `pipefd_, `prev_readfd_, `prev_exit_status_
      ensures idx <= |lexems| && lexems[idx..] == AfterPipeline(p, after)
      ensures Idle(base, os, Step(Actual, op, p, w, exits)) && prev_readfd_ == 0
      ensures prev_exit_status_ == status == Step(Actual, op, p, w, exits).last
      ensures os.live == old(os.live) && cur_childs == old(cur_childs)
    {
      HeadOf(p, after);
      FollowingFollows(p, after);
      readfd_ := prev_readfd_;
      RedirectIsReady(base, os, 0, p.cmd, w);
      var call;
      idx, call := NewCall(lexems, idx0, readfd_, writefd_, p.cmd, Following(p, after));
      Peek(lexems, idx, Ahead(p, after));
      status := status0;
      if idx < |lexems| && lexems[idx].kind == Pipe {
        status, idx := CalcPipeline(call, status, lexems, idx, prev_op, base, p, after, w, op);
      } else {
        status := RunSingle(call, status, prev_op, base, p.cmd, w, op);
      }
    }

    /** A command that is no pipeline, run as the operator before it says. */
    method RunSingle(call: Call, status0: nat, prev_op: Option<LexType>, ghost base: map<nat, Stream>, ghost c: Cmd,
                     ghost w: World, ghost op: Option<Op>)
      returns (status: nat)
      requires Ready(base, os, call, c, Stdin, false, w) && Fresh(os, cur_childs) && prev_op == TypeOfOp(op)
      requires prev_exit_status_ == w.last && (op.Some? ==> status0 == w.last)
      modifies `os, `cur_childs, `prev_exit_status_
      ensures Idle(base, os, Step(Actual, op, Last(c), w, exits))
      ensures prev_exit_status_ == status == Step(Actual, op, Last(c), w, exits).last
      ensures os.live == old(os.live) && cur_childs == old(cur_childs)
    {
      status := status0;
      if prev_op == None {
        status := CalcCommand(call, base, c, w);
      } else if prev_op == Some(And) {
        status := CalcAnd(call, status, base, c, w);
      } else if prev_op == Some(Or) {
        status := CalcOr(call, status, base, c, w);
      }
    }

    /** One line of input in the foreground: cut into lexems, then run. */
    method RunLine(line: string, unset: nat, ghost first: Pipeline, ghost tail: Tail) returns (ret: nat)
      requires Valid() && (Tokens(line) == [] || Tokens(line) == PrintPipeline(first) + PrintTail(tail, false))
      modifies this
      ensures Valid() && os.live == old(os.live) && cur_childs == old(cur_childs) && Keeps(old(os.fds), os.fds)
      ensures Tokens(line) == [] ==> ret == 0 && State() == old(State())
      ensures Tokens(line) != [] ==> State() == RunList(Actual, first, tail, old(State()), exits)
      ensures Tokens(line) != [] ==> ret == ExitCode(State().last)
      ensures Tokens(line) != [] ==> forall e :: L.EndsWith(State(), exits, e) ==> ret == L.Answer(e)
    {
      var lp := new LexemParser(line);
      lp.Parse();
      assert lp.lexems_ == Tokens(line);
      ret := CalcCalls(lp.lexems_, unset, first, tail, false);
    }

    /** Runs a printed command list; an empty list does nothing. `unset` is the initial value of `status`. */
    method CalcCalls(lexems: seq<Lexem>, unset: nat, ghost first: Pipeline, ghost tail: Tail, ghost background: bool)
      returns (ret: nat)
      requires Valid() && (lexems == [] || lexems == PrintPipeline(first) + PrintTail(tail, background))
      modifies this
      ensures Valid() && os.live == old(os.live) && cur_childs == old(cur_childs) && Keeps(old(os.fds), os.fds)
      ensures lexems == [] ==> ret == 0 && State() == old(State())
      ensures lexems != [] ==> State() == RunList(Actual, first, tail, old(State()), exits)
      ensures lexems != [] ==> ret == ExitCode(State().last)
      ensures lexems != [] ==> forall e :: L.EndsWith(State(), exits, e) ==> ret == L.Answer(e)
    {
      var idx: nat, status: nat := 0, unset;
      var prev_op: Option<LexType> := None;
      if lexems == [] {
        return 0;
      }
      prev_exit_status_ := 0;
      ghost var base, target := os.fds, RunList(Actual, first, tail, State(), exits);
      ghost var s := Stand(first, tail, None, State());
      assert lexems[0..] == lexems;
      while idx < |lexems|
        invariant Listing(lexems, idx, s, background, target, exits) && prev_readfd_ == 0 && writefd_ == 1
        invariant Amid(lexems, idx, s, prev_op, prev_exit_status_, status) && Idle(base, os, s.v)
        invariant os.live == old(os.live) && cur_childs == old(cur_childs) && Fresh(os, cur_childs)
        decreases s.t, |lexems| - idx
      {
        status, idx, prev_op, s := RunNext(lexems, idx, status, prev_op, base, s, background, target);
      }
      ret := ExitCode(status);
      AnswersAfter(first, tail, old(State()), exits, ret);
    }

    /** The body of the main loop. */
    method RunNext(lexems: seq<Lexem>, idx0: nat, status0: nat, prev_op0: Option<LexType>,
                   ghost base: map<nat, Stream>, ghost s: Stand, ghost background: bool, ghost target: World)
      returns (status: nat, idx: nat, prev_op: Option<LexType>, ghost s2: Stand)
      requires Listing(lexems, idx0, s, background, target, exits) && idx0 < |lexems| && prev_readfd_ == 0
               && writefd_ == 1
      requires Amid(lexems, idx0, s, prev_op0, prev_exit_status_, status0) && Idle(base, os, s.v)
               && Fresh(os, cur_childs)
      modifies `os, `cur_childs, `readfd_, `pipefd_, `prev_readfd_, `prev_exit_status_
      ensures Listing(lexems, idx, s2, background, target, exits) && prev_readfd_ == 0
      ensures Amid(lexems, idx, s2, prev_op, prev_exit_status_, status) && Idle(base, os, s2.v)
      ensures os.live == old(os.live) && cur_childs == old(cur_childs) && Fresh(os, cur_childs)
      ensures if s.t.More? then s2.t == s.t.tail else s2.t == s.t && idx == |lexems|
    {
      ListStands(lexems, idx0, s, background, target, exits);
      status, idx := RunItem(lexems, idx0, status0, prev_op0, base, s.p, PrintTail(s.t, background), s.v, s.op);
      ListGoesOn(lexems, idx, s, background, target, exits);
      prev_op := prev_op0;
      if idx < |lexems| {
        prev_op := Some(lexems[idx].kind);
        idx := idx + 1;
      }
      s2 := NextStand(s, exits);
    }

    // --- pipelines ------------------------------------------------------------------

    /** Starts a stage and closes the parent's copies of its descriptors. */
    method Launch(call: Call, pipe_pids0: seq<nat>) returns (pipe_pids: seq<nat>)
      requires Executable(os.fds, call)
      modifies `os, `cur_childs
      ensures os == CloseCall(Fork(old(os), call), call)
      ensures cur_childs == old(cur_childs) + {old(os.pids)} && pipe_pids == pipe_pids0 + [old(os.pids)]
    {
      var pid := os.pids;
      os := Fork(os, call);
      pipe_pids := pipe_pids0 + [pid];
      cur_childs := cur_childs + {pid};
      os := CloseCall(os, call);
    }

    /** Makes a pipe: the call will write to it, and its read end is remembered for the next call. */
    method NewPipe(call0: Call) returns (call: Call)
      modifies `os, `pipefd_, `prev_readfd_
      ensures var m := MakePipe(old(os)); os == m.0 && prev_readfd_ == m.1 && call == call0.(writefd := m.2)
    {
      var made := MakePipe(os);
      os := made.0;
      pipefd_ := (made.1, made.2);
      prev_readfd_ := pipefd_.0;
      call := call0.(writefd := pipefd_.1);
    }

    /** Makes the pipe behind a stage and starts the stage, unless it is to be skipped. */
    method FeedPipe(call0: Call, skip: bool, pipe_pids0: seq<nat>, ghost base: map<nat, Stream>, ghost c: Cmd,
                    ghost given: Stream, ghost piped: bool, ghost v: World, ghost argv: seq<string>)
      returns (pipe_pids: seq<nat>)
      requires Ready(base, os, call0, c, given, piped, v) && (skip ==> !piped)
      modifies `os, `cur_childs, `pipefd_, `prev_readfd_
      ensures HoldsRead(base, os, prev_readfd_, argv, v.pipes, Fed(skip, c, given, piped, v))
      ensures Spawned(skip, old(os.pids), os.pids, pipe_pids0, pipe_pids, old(os.live), os.live,
                      old(cur_childs), cur_childs)
    {
      StageIsFed(base, os, call0, skip, c, given, piped, v, argv);
      var call := NewPipe(call0);
      pipe_pids := pipe_pids0;
      if skip {
        os := CloseCall(os, call);
      } else {
        pipe_pids := Launch(call, pipe_pids);
      }
    }

    /** One turn of the pipeline loop: feeds a pipe and builds the call that reads from it. */
    method NextStage(call0: Call, lexems: seq<Lexem>, idx0: nat, skip: bool, pipe_pids0: seq<nat>,
                     ghost base: map<nat, Stream>, ghost c: Cmd, ghost given: Stream, ghost piped: bool, ghost v: World,
                     ghost next: Cmd, ghost after: seq<Lexem>)
      returns (call: Call, idx: nat, pipe_pids: seq<nat>)
      requires Ready(base, os, call0, c, given, piped, v) && (skip ==> !piped)
      requires idx0 <= |lexems| && lexems[idx0..] == [BAR] + (PrintCmd(next) + after) && Follows(after)
      modifies `os, `cur_childs, `pipefd_, `prev_readfd_
      ensures Ready(base, os, call, next, PipeRead(v.pipes), true, Fed(skip, c, given, piped, v))
      ensures idx <= |lexems| && lexems[idx..] == AfterCall(next, after)
      ensures Spawned(skip, old(os.pids), os.pids, pipe_pids0, pipe_pids, old(os.live), os.live,
                      old(cur_childs), cur_childs)
    {
      pipe_pids := FeedPipe(call0, skip, pipe_pids0, base, c, given, piped, v, Words(next));
      Advance(lexems, idx0, [BAR], PrintCmd(next) + after);
      RedirectIsReady(base, os, prev_readfd_, next, Fed(skip, c, given, piped, v));
      idx, call := NewCall(lexems, idx0 + 1, prev_readfd_, 1, next, after);
    }

    method CalcPipeline(call0: Call, status0: nat, lexems: seq<Lexem>, idx0: nat, prev_op: Option<LexType>,
                        ghost base: map<nat, Stream>, ghost p: Pipeline, ghost after: seq<Lexem>, ghost w: World,
                        ghost op: Option<Op>)
      returns (status: nat, idx: nat)
      requires p.Piped? && At(lexems, idx0, p, p, after) && Ends(after)
      requires Ready(base, os, call0, p.cmd, Stdin, false, w) && Fresh(os, cur_childs)
      requires prev_op == TypeOfOp(op) && prev_exit_status_ == w.last
      modifies `os, `cur_childs, `pipefd_, `prev_readfd_, `prev_exit_status_
      ensures idx <= |lexems| && lexems[idx..] == AfterPipeline(p, after)
      ensures Idle(base, os, Step(Actual, op, p, w, exits)) && prev_readfd_ == 0
      ensures prev_exit_status_ == status == Step(Actual, op, p, w, exits).last
      ensures os.live == old(os.live) && cur_childs == old(cur_childs)
    {
      ghost var s;
      var call, pipe_pids;
      call, idx, pipe_pids, s := FeedAll(call0, lexems, idx0, prev_op, base, p, after, w, op);
      PipeAhead(lexems, idx, s.cur, after);
      LastIsAll(!Gate(op, w.last), p, w, s, op, exits);
      status := LastStage(call, status0, pipe_pids, base, s.cur.cmd, s.given, s.piped, s.v, w.pids,
                          old(os.live), old(cur_childs), Step(Actual, op, p, w, exits));
      prev_exit_status_ := status;
      prev_readfd_ := 0;
    }

    /** The loop over the pipes: everything but the last stage. */
    method FeedAll(call0: Call, lexems: seq<Lexem>, idx0: nat, prev_op: Option<LexType>,
                   ghost base: map<nat, Stream>, ghost p: Pipeline, ghost after: seq<Lexem>, ghost w: World,
                   ghost op: Option<Op>)
      returns (call: Call, idx: nat, pipe_pids: seq<nat>, ghost s: Spot)
      requires p.Piped? && At(lexems, idx0, p, p, after) && Ends(after)
      requires Ready(base, os, call0, p.cmd, Stdin, false, w) && prev_op == TypeOfOp(op) && prev_exit_status_ == w.last
      modifies `os, `cur_childs, `pipefd_, `prev_readfd_
      ensures s.cur.Last? && At(lexems, idx, s.cur, p, after) && OnTheWay(false, !Gate(op, w.last), p, w, s)
      ensures Ready(base, os, call, s.cur.cmd, s.given, s.piped, s.v)
      ensures Brood(pipe_pids, old(os.live), os.live, old(cur_childs), cur_childs, w.pids, os.pids)
    {
      pipe_pids := [];
      var first := true;
      call := call0;
      idx := idx0;
      s := Spot(p, Stdin, false, w);
      PipeAhead(lexems, idx, s.cur, after);
      while idx < |lexems| && lexems[idx].kind == Pipe
        invariant At(lexems, idx, s.cur, p, after) && OnTheWay(first, !Gate(op, w.last), p, w, s)
        invariant Ready(base, os, call, s.cur.cmd, s.given, s.piped, s.v)
        invariant Brood(pipe_pids, old(os.live), os.live, old(cur_childs), cur_childs, w.pids, os.pids)
        invariant first ==> s.cur.Piped?
        decreases s.cur
      {
        PipeAhead(lexems, idx, s.cur, after);
        OneStageOn(first, !Gate(op, w.last), p, w, s);
        call, idx, pipe_pids, s := CountedTurn(call, lexems, idx, first, prev_op, pipe_pids, base, p, after, w.last, op,
                                               s, old(os.live), old(cur_childs), w.pids);
        first := false;
      }
      PipeAhead(lexems, idx, s.cur, after);
    }

    /** One turn of the loop, with the children it adds. */
    method CountedTurn(call0: Call, lexems: seq<Lexem>, idx0: nat, first: bool, prev_op: Option<LexType>,
                       pipe_pids0: seq<nat>, ghost base: map<nat, Stream>, ghost p: Pipeline,
                       ghost after: seq<Lexem>, ghost last: nat, ghost op: Option<Op>, ghost s: Spot,
                       ghost live0: set<nat>, ghost childs0: set<nat>, ghost from: nat)
      returns (call: Call, idx: nat, pipe_pids: seq<nat>, ghost s2: Spot)
      requires s.cur.Piped? && Ends(after) && prev_op == TypeOfOp(op) && prev_exit_status_ == last
               && (first ==> !s.piped)
      requires At(lexems, idx0, s.cur, p, after) && Ready(base, os, call0, s.cur.cmd, s.given, s.piped, s.v)
      requires Brood(pipe_pids0, live0, os.live, childs0, cur_childs, from, os.pids)
      modifies `os, `cur_childs, `pipefd_, `prev_readfd_
      ensures s2 == NextSpot(first && !Gate(op, last), s)
      ensures At(lexems, idx, s2.cur, p, after) && Ready(base, os, call, s2.cur.cmd, s2.given, s2.piped, s2.v)
      ensures Brood(pipe_pids, live0, os.live, childs0, cur_childs, from, os.pids)
    {
      call, idx, pipe_pids, s2 := Turn(call0, lexems, idx0, first, prev_op, pipe_pids0, base, p, after, last, op, s);
      BroodNext(first && !Gate(op, last), pipe_pids0, pipe_pids, live0, old(os.live), os.live,
                childs0, old(cur_childs), cur_childs, from, old(os.pids), os.pids);
    }

    /** The body of the loop: decides whether the stage is skipped and moves on to the next. */
    method Turn(call0: Call, lexems: seq<Lexem>, idx0: nat, first: bool, prev_op: Option<LexType>, pipe_pids0: seq<nat>,
                ghost base: map<nat, Stream>, ghost p: Pipeline, ghost after: seq<Lexem>, ghost last: nat,
                ghost op: Option<Op>, ghost s: Spot)
      returns (call: Call, idx: nat, pipe_pids: seq<nat>, ghost s2: Spot)
      requires s.cur.Piped? && Ends(after) && prev_op == TypeOfOp(op) && prev_exit_status_ == last
               && (first ==> !s.piped)
      requires At(lexems, idx0, s.cur, p, after) && Ready(base, os, call0, s.cur.cmd, s.given, s.piped, s.v)
      modifies `os, `cur_childs, `pipefd_, `prev_readfd_
      ensures s2 == NextSpot(first && !Gate(op, last), s)
      ensures At(lexems, idx, s2.cur, p, after) && Ready(base, os, call, s2.cur.cmd, s2.given, s2.piped, s2.v)
      ensures Spawned(first && !Gate(op, last), old(os.pids), os.pids, pipe_pids0, pipe_pids, old(os.live), os.live,
                      old(cur_childs), cur_childs)
    {
      PipeAhead(lexems, idx0, s.cur, after);
      var skip := first && ((prev_op == Some(And) && !Success(prev_exit_status_))
                            || (prev_op == Some(Or) && Success(prev_exit_status_)));
      SkipIsGate(prev_op, op, last);
      s2 := NextSpot(skip, s);
      call, idx, pipe_pids := NextStage(call0, lexems, idx0, skip, pipe_pids0, base, s.cur.cmd, s.given, s.piped, s.v,
                                        s.cur.rest.cmd, Following(s.cur.rest, after));
    }

    /** Starts the last stage and waits for all of them, which leads to the world `target`. */
    method LastStage(call: Call, status0: nat, pipe_pids0: seq<nat>, ghost base: map<nat, Stream>, ghost c: Cmd,
                     ghost given: Stream, ghost piped: bool, ghost v: World, ghost from: nat,
                     ghost live0: set<nat>, ghost childs0: set<nat>, ghost target: World)
      returns (status: nat)
      requires Ready(base, os, call, c, given, piped, v)
      requires Brood(pipe_pids0, live0, os.live, childs0, cur_childs, from, os.pids)
      requires (forall pid :: pid in live0 ==> pid < from) && (forall pid :: pid in childs0 ==> pid < from)
      requires from < StartLast(c, given, piped, v).pids
               && target == WaitAll(from, StartLast(c, given, piped, v), exits)
      modifies `os, `cur_childs
      ensures Idle(base, os, target) && status == target.last
      ensures os.live == live0 && cur_childs == childs0
    {
      LaunchLast(base, os, call, c, given, piped, v);
      BroodGrows(pipe_pids0, live0, os.live, childs0, cur_childs, from, os.pids);
      LaunchAdds(os, call);
      var pipe_pids := Launch(call, pipe_pids0);
      status := WaitForBrood(pipe_pids, status0, base, StartLast(c, given, piped, v), from, live0, childs0, target);
    }

    /** Waits for all stages; then only the children of before are left. */
    method WaitForBrood(pipe_pids: seq<nat>, status0: nat, ghost base: map<nat, Stream>, ghost v: World,
                        ghost from: nat, ghost live0: set<nat>, ghost childs0: set<nat>, ghost target: World)
      returns (status: nat)
      requires Idle(base, os, v) && Brood(pipe_pids, live0, os.live, childs0, cur_childs, from, os.pids)
      requires from < v.pids && target == WaitAll(from, v, exits)
      requires (forall pid :: pid in live0 ==> pid < from) && (forall pid :: pid in childs0 ==> pid < from)
      modifies `os, `cur_childs
      ensures Idle(base, os, target) && status == target.last
      ensures os.live == live0 && cur_childs == childs0
    {
      ghost var n: nat := os.pids - from;
      BroodLeaves(live0, from, n);
      BroodLeaves(childs0, from, n);
      WaitIsIdle(base, os, v, from, PidSet(from, n), exits);
      status := WaitStages(pipe_pids, status0, from);
    }

    /** Waits for the stages in order; the last one's status counts. */
    method WaitStages(pipe_pids: seq<nat>, status0: nat, ghost from: nat)
      returns (status: nat)
      requires pipe_pids != [] && pipe_pids == Pids(from, |pipe_pids|)
      modifies `os, `cur_childs
      ensures os == old(os).(log := old(os.log) + Waits(from, |pipe_pids|),
                             live := old(os.live) - PidSet(from, |pipe_pids|))
      ensures cur_childs == old(cur_childs) - PidSet(from, |pipe_pids|)
      ensures status == exits(from + |pipe_pids| - 1)
    {
      status := status0;
      for i := 0 to |pipe_pids|
        invariant os == old(os).(log := old(os.log) + Waits(from, i), live := old(os.live) - PidSet(from, i))
        invariant cur_childs == old(cur_childs) - PidSet(from, i)
        invariant i == |pipe_pids| ==> status == exits(from + i - 1)
      {
        WaitsNext(old(os.log), from, i);
        PidSetNext(old(os.live), from, i);
        PidSetNext(old(cur_childs), from, i);
        assert pipe_pids[i] == from + i;
        if i == |pipe_pids| - 1 {
          status := exits(pipe_pids[i]);
          os := Reap(os, pipe_pids[i]);
          cur_childs := cur_childs - {pipe_pids[i]};
        } else {
          os := Reap(os, pipe_pids[i]);
          cur_childs := cur_childs - {pipe_pids[i]};
        }
      }
    }
  }

  /** Every child known is older than the next one. */
  ghost predicate Fresh(os: Kernel, cur_childs: set<nat>) {
    (forall pid :: pid in os.live ==> pid < os.pids) && (forall pid :: pid in cur_childs ==> pid < os.pids)
  }

  lemma {:induction false} AnswersAfter(first: Pipeline, t: Tail, w: World, exits: nat -> nat, ret: nat)
    requires ret == ExitCode(RunList(Actual, first, t, w, exits).last)
    ensures forall e :: L.EndsWith(RunList(Actual, first, t, w, exits), exits, e) ==> ret == L.Answer(e)
  {
    forall e | L.EndsWith(RunList(Actual, first, t, w, exits), exits, e)
      ensures ret == L.Answer(e)
    {
      L.AnswerAfter(Actual, first, t, w, exits, e);
    }
  }

  /** A new child that has been waited for leaves no trace. */
  lemma {:induction false} ComesAndGoes(s: set<nat>, pid: nat)
    requires pid !in s
    ensures s + {pid} - {pid} == s
  {
  }

  /** Starting a single command, closing its descriptors and waiting for it. */
  lemma {:induction false} AloneIsIdle(base: map<nat, Stream>, os: Kernel, call: Call, c: Cmd, w: World,
                                       exits: nat -> nat)
    requires Ready(base, os, call, c, Stdin, false, w)
    ensures Executable(os.fds, call)
    ensures Idle(base, Reap(CloseCall(Fork(os, call), call), os.pids), RunPipeline(Actual, Last(c), w, exits))
    ensures CloseCall(Fork(os, call), call).live == os.live + {os.pids}
    ensures RunPipeline(Actual, Last(c), w, exits).last == exits(os.pids)
  {
    LaunchLast(base, os, call, c, Stdin, false, w);
    ReapIsIdle(base, CloseCall(Fork(os, call), call), StartLast(c, Stdin, false, w), os.pids, exits);
  }

  lemma {:induction false} ReapIsIdle(base: map<nat, Stream>, os: Kernel, w: World, pid: nat, exits: nat -> nat)
    requires Idle(base, os, w) && w.pids == pid + 1
    ensures Idle(base, Reap(os, pid), WaitAll(pid, w, exits)) && WaitAll(pid, w, exits).last == exits(pid)
  {
    WaitsOne(pid);
  }

  /** The world after a stage in front of a pipe has been started or skipped. */
  ghost function Fed(skip: bool, c: Cmd, given: Stream, piped: bool, v: World): World {
    if skip then SkipFeeder(c, v) else StartFeeder(Actual, c, given, piped, v)
  }

  /** The read end of pipe `pipe` is held for the next call. */
  ghost predicate HoldsRead(base: map<nat, Stream>, os: Kernel, rd: nat, argv: seq<string>, pipe: nat, v: World) {
    Holding(base, os.fds, v.kept, Call(argv, rd, 1)) && os.fds[rd] == PipeRead(pipe) && rd != 0 && Tallies(os, v.log, v)
  }

  lemma {:induction false} StageIsFed(base: map<nat, Stream>, os: Kernel, call0: Call, skip: bool, c: Cmd,
                                      given: Stream, piped: bool, v: World, argv: seq<string>)
    requires Ready(base, os, call0, c, given, piped, v) && (skip ==> !piped)
    ensures var m := MakePipe(os);
            var call := call0.(writefd := m.2);
            && m.0.live == os.live && m.0.pids == os.pids
            && (if skip then HoldsRead(base, CloseCall(m.0, call), m.1, argv, v.pipes, SkipFeeder(c, v))
                             && CloseCall(m.0, call).live == os.live
                else Executable(m.0.fds, call)
                     && HoldsRead(base, CloseCall(Fork(m.0, call), call), m.1, argv, v.pipes,
                                  StartFeeder(Actual, c, given, piped, v))
                     && CloseCall(Fork(m.0, call), call).live == os.live + {os.pids})
  {
    var m := MakePipe(os);
    var call := call0.(writefd := m.2);
    PipeIsMade(base, os, call0, c, given, piped, v);
    if skip {
      DropFeeder(base, m.0, call, m.1, c, given, v, argv);
    } else {
      LaunchFeeder(base, m.0, call, m.1, c, given, piped, v, argv);
    }
  }

  // --- where the main loop stands ---------------------------------------------------

  /** The pipeline the loop is about to run, what comes after it, the operator before it, and the world. */
  datatype Stand = Stand(p: Pipeline, t: Tail, op: Option<Op>, v: World)

  ghost predicate Listing(lexems: seq<Lexem>, idx: nat, s: Stand, background: bool, target: World, exits: nat -> nat) {
    idx <= |lexems|
    && if idx == |lexems| then s.v == target
       else lexems[idx..] == PrintPipeline(s.p) + PrintTail(s.t, background)
            && RunTail(Actual, s.t, Step(Actual, s.op, s.p, s.v, exits), exits) == target
  }

  /** The loop's own variables: the status is that of the last command once one has been looked at. */
  ghost predicate Amid(lexems: seq<Lexem>, idx: nat, s: Stand, prev_op: Option<LexType>, prev_exit: nat, status: nat) {
    prev_exit == s.v.last && (idx < |lexems| ==> prev_op == TypeOfOp(s.op))
    && (s.op.Some? || idx >= |lexems| ==> status == s.v.last)
  }

  ghost function NextStand(s: Stand, exits: nat -> nat): Stand {
    var v := Step(Actual, s.op, s.p, s.v, exits);
    if s.t.End? then s.(v := v) else Stand(s.t.pipe, s.t.tail, Some(s.t.op), v)
  }

  lemma {:induction false} ListStands(lexems: seq<Lexem>, idx: nat, s: Stand, background: bool, target: World,
                                      exits: nat -> nat)
    requires Listing(lexems, idx, s, background, target, exits) && idx < |lexems|
    ensures lexems[idx..] == PrintPipeline(s.p) + PrintTail(s.t, background) && Ends(PrintTail(s.t, background))
    ensures Step(Actual, s.op, s.p, s.v, exits).pids >= s.v.pids
  {
    TailFollows(s.t, background);
  }

  lemma {:induction false} ListGoesOn(lexems: seq<Lexem>, idx: nat, s: Stand, background: bool, target: World,
                                      exits: nat -> nat)
    requires idx <= |lexems| && lexems[idx..] == AfterPipeline(s.p, PrintTail(s.t, background))
    requires RunTail(Actual, s.t, Step(Actual, s.op, s.p, s.v, exits), exits) == target
    ensures s.t.End? ==> idx == |lexems| || idx + 1 == |lexems|
    ensures var s2 := NextStand(s, exits);
            if idx == |lexems| then s.t.End? && Listing(lexems, idx, s2, background, target, exits)
            else Listing(lexems, idx + 1, s2, background, target, exits)
                 && (idx + 1 < |lexems| ==> Some(lexems[idx].kind) == TypeOfOp(s2.op))
  {
    var after := PrintTail(s.t, background);
    TailFollows(s.t, background);
    AfterPipelineIs(s.p, after);
    Peek(lexems, idx, AfterPipeline(s.p, after));
    if s.t.More? {
      assert PrintPipeline(s.t.pipe)[0] == Lexem(s.t.pipe.cmd.name, Argument);
      assert after[0] == OpLexem(s.t.op) && after[1..] == PrintPipeline(s.t.pipe) + PrintTail(s.t.tail, background);
    }
  }

  // --- where the pipeline loop stands ---------------------------------------------

  /** Everything that is to be started, from world `w` on. */
  ghost function AllStarted(skips: bool, p: Pipeline, w: World): World
    requires p.Piped?
  {
    if skips then Start(Actual, p.rest, PipeRead(w.pipes), true, SkipFeeder(p.cmd, w))
    else Start(Actual, p, Stdin, false, w)
  }

  /** The rest of the pipeline, what its first command reads, and the world before that command. */
  datatype Spot = Spot(cur: Pipeline, given: Stream, piped: bool, v: World)

  ghost function NextSpot(skip: bool, s: Spot): Spot
    requires s.cur.Piped?
  {
    Spot(s.cur.rest, PipeRead(s.v.pipes), true, Fed(skip, s.cur.cmd, s.given, s.piped, s.v))
  }

  ghost predicate OnTheWay(first: bool, skips: bool, p: Pipeline, w: World, s: Spot)
    requires p.Piped?
  {
    if first then s == Spot(p, Stdin, false, w)
    else Start(Actual, s.cur, s.given, s.piped, s.v) == AllStarted(skips, p, w)
  }

  ghost predicate At(lexems: seq<Lexem>, idx: nat, cur: Pipeline, p: Pipeline, after: seq<Lexem>) {
    idx <= |lexems| && lexems[idx..] == Ahead(cur, after) && AfterPipeline(cur, after) == AfterPipeline(p, after)
  }

  lemma {:induction false} OneStageOn(first: bool, skips: bool, p: Pipeline, w: World, s: Spot)
    requires p.Piped? && s.cur.Piped? && OnTheWay(first, skips, p, w, s)
    ensures OnTheWay(false, skips, p, w, NextSpot(first && skips, s)) && (first ==> !s.piped)
  {
  }

  /** The children of the pipeline so far. */
  ghost predicate Brood(pipe_pids: seq<nat>, live0: set<nat>, live: set<nat>, childs0: set<nat>, childs: set<nat>,
                        from: nat, to: nat)
  {
    from <= to && pipe_pids == Pids(from, to - from)
    && live == live0 + PidSet(from, to - from) && childs == childs0 + PidSet(from, to - from)
  }

  lemma {:induction false} BroodGrows(pipe_pids: seq<nat>, live0: set<nat>, live: set<nat>, childs0: set<nat>,
                                      childs: set<nat>,
                                      from: nat, to: nat)
    requires Brood(pipe_pids, live0, live, childs0, childs, from, to)
    ensures Brood(pipe_pids + [to], live0, live + {to}, childs0, childs + {to}, from, to + 1)
  {
  }

  /** One more child, which the shell knows of and will wait for, or none. */
  ghost predicate Spawned(skip: bool, next: nat, next': nat, pipe_pids: seq<nat>, pipe_pids': seq<nat>,
                          live: set<nat>, live': set<nat>, childs: set<nat>, childs': set<nat>)
  {
    if skip then next' == next && pipe_pids' == pipe_pids && live' == live && childs' == childs
    else next' == next + 1 && pipe_pids' == pipe_pids + [next] && live' == live + {next} && childs' == childs + {next}
  }

  lemma {:induction false} BroodNext(
    skip: bool, pipe_pids: seq<nat>, pipe_pids': seq<nat>, live0: set<nat>, live: set<nat>, live': set<nat>,
    childs0: set<nat>, childs: set<nat>, childs': set<nat>, from: nat, to: nat, to': nat)
    requires Brood(pipe_pids, live0, live, childs0, childs, from, to)
    requires Spawned(skip, to, to', pipe_pids, pipe_pids', live, live', childs, childs')
    ensures Brood(pipe_pids', live0, live', childs0, childs', from, to')
  {
    if !skip {
      BroodGrows(pipe_pids, live0, live, childs0, childs, from, to);
    }
  }

  lemma {:induction false} LastIsAll(skips: bool, p: Pipeline, w: World, s: Spot, op: Option<Op>, exits: nat -> nat)
    requires p.Piped? && s.cur.Last? && OnTheWay(false, skips, p, w, s) && skips == !Gate(op, w.last)
    ensures StartLast(s.cur.cmd, s.given, s.piped, s.v).pids > w.pids
    ensures WaitAll(w.pids, StartLast(s.cur.cmd, s.given, s.piped, s.v), exits) == Step(Actual, op, p, w, exits)
  {
  }

  lemma {:induction false} LaunchAdds(os: Kernel, call: Call)
    requires Executable(os.fds, call)
    ensures var r := CloseCall(Fork(os, call), call); r.live == os.live + {os.pids} && r.pids == os.pids + 1
  {
  }

  lemma {:induction false} WaitIsIdle(base: map<nat, Stream>, os: Kernel, w: World, from: nat, gone: set<nat>,
                                      exits: nat -> nat)
    requires Idle(base, os, w) && from < os.pids
    ensures from < w.pids
    ensures Idle(base, os.(log := os.log + Waits(from, os.pids - from), live := os.live - gone), WaitAll(from, w,
        exits))
    ensures WaitAll(from, w, exits).last == exits(os.pids - 1)
  {
  }

  lemma {:induction false} PidSetIs(from: nat, n: nat, pid: nat)
    ensures pid in PidSet(from, n) <==> from <= pid < from + n
  {
    if n > 0 {
      PidSetIs(from, n - 1, pid);
    }
  }

  lemma {:induction false} BroodLeaves(s: set<nat>, from: nat, n: nat)
    requires forall pid :: pid in s ==> pid < from
    ensures s + PidSet(from, n) - PidSet(from, n) == s
  {
    forall pid | pid in s
      ensures pid !in PidSet(from, n)
    {
      PidSetIs(from, n, pid);
    }
  }

  lemma {:induction false} SkipIsGate(prev_op: Option<LexType>, op: Option<Op>, last: nat)
    requires prev_op == TypeOfOp(op)
    ensures (prev_op == Some(And) && !Success(last)) || (prev_op == Some(Or) && Success(last)) <==> !Gate(op, last)
  {
  }

  ghost function Pids(from: nat, n: nat): seq<nat> {
    seq<nat>(n, i requires 0 <= i < n => from + i)
  }

  ghost function PidSet(from: nat, n: nat): set<nat> {
    if n == 0 then {} else PidSet(from, n - 1) + {from + n - 1}
  }

  lemma {:induction false} WaitsOne(pid: nat)
    ensures Waits(pid, 1) == [Wait(pid)]
  {
  }

  lemma {:induction false} WaitsNext(log: seq<Event>, from: nat, i: nat)
    ensures log + Waits(from, i) + [Wait(from + i)] == log + Waits(from, i + 1)
  {
  }

  lemma {:induction false} PidSetNext(s: set<nat>, from: nat, i: nat)
    ensures s - PidSet(from, i) - {from + i} == s - PidSet(from, i + 1)
  {
  }
}
