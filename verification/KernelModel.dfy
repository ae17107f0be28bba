/** The calls the shell makes on the operating system: a table of open descriptors and a set of children. */
module KernelModel {
  import opened Sequences
  import opened CommandList

  /** `live` are the children that have been started and not yet waited for. */
  datatype Kernel = Kernel(fds: map<nat, Stream>, log: seq<Event>, pids: nat, pipes: nat, live: set<nat>)

  /** The lowest number from `k` on that is not in use. */
  function FreeFrom(used: set<nat>, k: nat): (fd: nat)
    ensures fd >= k && fd !in used && forall j: nat :: k <= j < fd ==> j in used
    decreases used
  {
    if k !in used then k else FreeFrom(used - {k}, k + 1)
  }

  function FreeFd(os: Kernel): (fd: nat)
    ensures fd !in os.fds && forall j: nat :: j < fd ==> j in os.fds
  {
    FreeFrom(os.fds.Keys, 0)
  }

  function OpenFile(os: Kernel, file: Stream): Kernel {
    os.(fds := os.fds[FreeFd(os) := file], log := os.log + [Open(file)])
  }

  /** `pipe`: the read end takes the lowest free descriptor, the write end the next. */
  function MakePipe(os: Kernel): (r: (Kernel, nat, nat)) {
    var a := FreeFd(os);
    var v := os.(fds := os.fds[a := PipeRead(os.pipes)]);
    var b := FreeFd(v);
    (v.(fds := v.fds[b := PipeWrite(os.pipes)], pipes := os.pipes + 1), a, b)
  }

  /** The read end gets the lowest free descriptor, the write end the next free one; nothing else changes. */
  lemma {:induction false} PipeEnds(os: Kernel)
    ensures var v, rd, wr := MakePipe(os).0, MakePipe(os).1, MakePipe(os).2;
            && rd < wr && rd !in os.fds && wr !in os.fds
            && (forall fd: nat :: fd < wr && fd != rd ==> fd in os.fds)
            && v.fds == os.fds[rd := PipeRead(os.pipes)][wr := PipeWrite(os.pipes)]
            && v == os.(fds := v.fds, pipes := os.pipes + 1)
  {
    var a := FreeFd(os);
    var v := os.(fds := os.fds[a := PipeRead(os.pipes)]);
    forall fd: nat | fd < FreeFd(v) && fd != a ensures fd in os.fds {
      assert fd in v.fds;
    }
  }

  function Close(os: Kernel, fd: nat): Kernel {
    os.(fds := os.fds - {fd})
  }

  // --- calls ------------------------------------------------------------------

  datatype Call = Call(argv: seq<string>, readfd: nat, writefd: nat)

  /** What a call needs to be executed: its descriptors are open and do not clash. */
  predicate Executable(fds: map<nat, Stream>, call: Call) {
    0 in fds && 1 in fds && call.readfd in fds && call.writefd in fds
    && call.readfd != call.writefd && call.readfd != 1 && call.writefd != 0
  }

  /** The child's table after `exec` has moved the call's descriptors to 0 and 1. */
  function ExecTable(fds: map<nat, Stream>, call: Call): (t: map<nat, Stream>)
    requires Executable(fds, call)
    ensures 0 in t && 1 in t && t[0] == fds[call.readfd] && t[1] == fds[call.writefd]
    ensures (call.readfd != 0 ==> call.readfd !in t) && (call.writefd != 1 ==> call.writefd !in t)
  {
    var a := if call.readfd != 0 then fds[0 := fds[call.readfd]] - {call.readfd} else fds;
    if call.writefd != 1 then a[1 := a[call.writefd]] - {call.writefd} else a
  }

  /** `fork` and, in the child, `exec`. The child is number `os.pids`. */
  function Fork(os: Kernel, call: Call): Kernel
    requires Executable(os.fds, call)
  {
    var t := ExecTable(os.fds, call);
    os.(log := os.log + [Spawn(call.argv, t[0], t[1])], pids := os.pids + 1, live := os.live + {os.pids})
  }

  function Reap(os: Kernel, pid: nat): Kernel {
    os.(log := os.log + [Wait(pid)], live := os.live - {pid})
  }

  function CloseCall(os: Kernel, call: Call): Kernel {
    var v := if call.readfd != 0 then Close(os, call.readfd) else os;
    if call.writefd != 1 then Close(v, call.writefd) else v
  }

  function OpenInput(os: Kernel, call: Call, file: Option<string>): (Kernel, Call) {
    if file.None? then (os, call) else (OpenFile(os, Reads(file.value)), call.(readfd := FreeFd(os)))
  }

  function OpenOutput(os: Kernel, call: Call, file: Option<string>): (Kernel, Call) {
    if file.None? then (os, call) else (OpenFile(os, Writes(file.value)), call.(writefd := FreeFd(os)))
  }

  /** `fd` is the lowest descriptor not in use. */
  predicate IsLowest(os: Kernel, fd: nat) {
    fd !in os.fds && forall j: nat :: j < fd ==> j in os.fds
  }

  /** An opened file gets the lowest free descriptor, for reading or for writing; the other stream stays. */
  lemma {:induction false} FilesGetLowest(os: Kernel, call: Call, file: string)
    ensures var v, c := OpenInput(os, call, Some(file)).0, OpenInput(os, call, Some(file)).1;
            && IsLowest(os, c.readfd) && c == call.(readfd := c.readfd)
            && v == os.(fds := os.fds[c.readfd := Reads(file)], log := os.log + [Open(Reads(file))])
    ensures var v, c := OpenOutput(os, call, Some(file)).0, OpenOutput(os, call, Some(file)).1;
            && IsLowest(os, c.writefd) && c == call.(writefd := c.writefd)
            && v == os.(fds := os.fds[c.writefd := Writes(file)], log := os.log + [Open(Writes(file))])
  {
  }

  function Redirect(os: Kernel, call: Call, c: Cmd): (Kernel, Call) {
    var a := OpenInput(os, call, c.input);
    var b := OpenOutput(a.0, a.1, c.output);
    OpenInput(b.0, b.1, c.input2)
  }

  // --- descriptor accounting ----------------------------------------------------

  function One(b: bool): nat {
    if b then 1 else 0
  }

  ghost predicate Keeps(base: map<nat, Stream>, fds: map<nat, Stream>) {
    0 in base && 1 in base && base[0] == Stdin && base[1] == Stdout
    && forall fd :: fd in base ==> fd in fds && fds[fd] == base[fd]
  }

  /** Besides the `kept` descriptors the shell has open exactly those of the call, and they are its own. */
  ghost predicate Holding(base: map<nat, Stream>, fds: map<nat, Stream>, kept: nat, call: Call) {
    Keeps(base, fds) && call.readfd in fds && call.writefd in fds && call.readfd != call.writefd
    && (call.readfd == 0 || call.readfd !in base) && (call.writefd == 1 || call.writefd !in base)
    && |fds| == kept + One(call.readfd != 0) + One(call.writefd != 1)
  }

  /** The table and the world agree. */
  ghost predicate Tallies(os: Kernel, log: seq<Event>, w: World) {
    os.log == log && os.pids == w.pids && os.pipes == w.pipes
  }

  ghost predicate Idle(base: map<nat, Stream>, os: Kernel, w: World) {
    Keeps(base, os.fds) && |os.fds| == w.kept && Tallies(os, w.log, w)
  }

  /** A call that has its files open and is ready to be started from world `w`. */
  ghost predicate Ready(base: map<nat, Stream>, os: Kernel, call: Call, c: Cmd, given: Stream, piped: bool, w: World) {
    Holding(base, os.fds, w.kept + Replaced(c, piped), call) && Tallies(os, w.log + Opens(c), w)
    && call.argv == Words(c) && os.fds[call.readfd] == InputOf(c, given) && os.fds[call.writefd] == OutputOf(c, Stdout)
    && (call.writefd != 1 <==> c.output.Some?) && (call.readfd != 0 <==> piped || c.input.Some? || c.input2.Some?)
  }

  lemma {:induction false} CardOfClose(fds: map<nat, Stream>, fd: nat)
    requires fd in fds
    ensures |fds - {fd}| == |fds| - 1
  {
    assert (fds - {fd}).Keys == fds.Keys - {fd};
  }

  lemma {:induction false} HoldingReads(base: map<nat, Stream>, os: Kernel, kept: nat, call: Call, file: Option<string>)
    requires Holding(base, os.fds, kept, call)
    ensures var r := OpenInput(os, call, file);
            && Holding(base, r.0.fds, kept + One(file.Some? && call.readfd != 0), r.1)
            && r.0.fds[r.1.readfd] == (if file.Some? then Reads(file.value) else os.fds[call.readfd])
            && r.0.fds[r.1.writefd] == os.fds[call.writefd] && r.1.writefd == call.writefd
            && r.0 == os.(fds := r.0.fds, log := os.log + OpenOne(Reading(file)))
            && (r.1.readfd != 0 <==> call.readfd != 0 || file.Some?) && r.1.argv == call.argv
  {
  }

  lemma {:induction false} HoldingWrites(base: map<nat, Stream>, os: Kernel, kept: nat, call: Call,
                                         file: Option<string>)
    requires Holding(base, os.fds, kept, call) && call.writefd == 1
    ensures var r := OpenOutput(os, call, file);
            && Holding(base, r.0.fds, kept, r.1)
            && r.0.fds[r.1.writefd] == (if file.Some? then Writes(file.value) else Stdout)
            && r.0.fds[r.1.readfd] == os.fds[call.readfd] && r.1.readfd == call.readfd
            && r.0 == os.(fds := r.0.fds, log := os.log + OpenOne(Writing(file)))
            && (r.1.writefd != 1 <==> file.Some?) && r.1.argv == call.argv
  {
  }

  lemma {:induction false} RedirectIsReady(base: map<nat, Stream>, os: Kernel, rd: nat, c: Cmd, w: World)
    requires Holding(base, os.fds, w.kept, Call(Words(c), rd, 1)) && Tallies(os, w.log, w)
    ensures var r := Redirect(os, Call(Words(c), rd, 1), c);
            Ready(base, r.0, r.1, c, os.fds[rd], rd != 0, w) && r.0.live == os.live
  {
    var call := Call(Words(c), rd, 1);
    var a := OpenInput(os, call, c.input);
    var b := OpenOutput(a.0, a.1, c.output);
    HoldingReads(base, os, w.kept, call, c.input);
    var k := w.kept + One(c.input.Some? && rd != 0);
    HoldingWrites(base, a.0, k, a.1, c.output);
    HoldingReads(base, b.0, k, b.1, c.input2);
    ConcatThree(w.log, OpenOne(Reading(c.input)), OpenOne(Writing(c.output)), OpenOne(Reading(c.input2)));
  }

  lemma {:induction false} CloseIsIdle(base: map<nat, Stream>, os: Kernel, kept: nat, call: Call)
    requires Holding(base, os.fds, kept, call)
    ensures var r := CloseCall(os, call); Keeps(base, r.fds) && |r.fds| == kept && r == os.(fds := r.fds)
  {
    if call.readfd != 0 {
      CardOfClose(os.fds, call.readfd);
    }
    if call.writefd != 1 {
      CardOfClose((if call.readfd != 0 then Close(os, call.readfd) else os).fds, call.writefd);
    }
  }

  /** Starting the last command of a pipeline and closing its descriptors. */
  lemma {:induction false} LaunchLast(base: map<nat, Stream>, os: Kernel, call: Call, c: Cmd, given: Stream,
                                      piped: bool, w: World)
    requires Ready(base, os, call, c, given, piped, w)
    ensures Executable(os.fds, call)
    ensures Idle(base, CloseCall(Fork(os, call), call), StartLast(c, given, piped, w))
  {
    CloseIsIdle(base, Fork(os, call), w.kept + Replaced(c, piped), call);
  }

  /** A new pipe: its write end becomes the call's output, its read end is held for the next command. */
  ghost predicate Piping(base: map<nat, Stream>, os: Kernel, call: Call, rd: nat, c: Cmd, given: Stream, piped: bool,
                         w: World) {
    Holding(base, os.fds - {rd}, w.kept + Replaced(c, piped) + Count(c.output), call)
    && os.log == w.log + Opens(c) && os.pids == w.pids && os.pipes == w.pipes + 1
    && call.argv == Words(c) && os.fds[call.readfd] == InputOf(c, given) && os.fds[call.writefd] == PipeWrite(w.pipes)
    && rd in os.fds && rd !in base && os.fds[rd] == PipeRead(w.pipes) && rd != call.readfd && rd != call.writefd
  }

  lemma {:induction false} PipeIsMade(base: map<nat, Stream>, os: Kernel, call: Call, c: Cmd, given: Stream,
                                      piped: bool, w: World)
    requires Ready(base, os, call, c, given, piped, w)
    ensures var r := MakePipe(os);
            Piping(base, r.0, call.(writefd := r.2), r.1, c, given, piped, w) && r.0.live == os.live
  {
    var r := MakePipe(os);
    var fds := os.fds[r.2 := PipeWrite(os.pipes)];
    assert r.0.fds - {r.1} == fds;
    assert |fds| == |os.fds| + 1;
  }

  /** Closing a call's descriptors does not touch another one. */
  lemma {:induction false} CloseBesides(os: Kernel, call: Call, rd: nat)
    requires rd in os.fds && rd != call.readfd && rd != call.writefd
    ensures var r := CloseCall(os, call);
            CloseCall(Close(os, rd), call).fds == r.fds - {rd} && rd in r.fds && r.fds[rd] == os.fds[rd]
  {
  }

  lemma {:induction false} CloseKeepsRead(base: map<nat, Stream>, os: Kernel, kept: nat, call: Call, rd: nat,
                                          argv: seq<string>)
    requires Holding(base, os.fds - {rd}, kept, call) && rd in os.fds && rd !in base && rd != call.readfd
             && rd != call.writefd
    ensures var r := CloseCall(os, call);
            Holding(base, r.fds, kept, Call(argv, rd, 1)) && r.fds[rd] == os.fds[rd] && r == os.(fds := r.fds)
  {
    CloseIsIdle(base, Close(os, rd), kept, call);
    CloseBesides(os, call, rd);
    CardOfClose(CloseCall(os, call).fds, rd);
  }

  lemma {:induction false} LaunchFeeder(base: map<nat, Stream>, os: Kernel, call: Call, rd: nat, c: Cmd,
                                        given: Stream, piped: bool, w: World, argv: seq<string>)
    requires Piping(base, os, call, rd, c, given, piped, w)
    ensures Executable(os.fds, call)
    ensures var r, v := CloseCall(Fork(os, call), call), StartFeeder(Actual, c, given, piped, w);
            Holding(base, r.fds, v.kept, Call(argv, rd, 1)) && r.fds[rd] == PipeRead(w.pipes) && Tallies(r, v.log, v)
  {
    CloseKeepsRead(base, Fork(os, call), w.kept + Replaced(c, piped) + Count(c.output), call, rd, argv);
  }

  lemma {:induction false} DropFeeder(base: map<nat, Stream>, os: Kernel, call: Call, rd: nat, c: Cmd, given: Stream,
                                      w: World, argv: seq<string>)
    requires Piping(base, os, call, rd, c, given, false, w)
    ensures var r, v := CloseCall(os, call), SkipFeeder(c, w);
            Holding(base, r.fds, v.kept, Call(argv, rd, 1)) && r.fds[rd] == PipeRead(w.pipes) && Tallies(r, v.log, v)
  {
    CloseKeepsRead(base, os, w.kept + Replaced(c, false) + Count(c.output), call, rd, argv);
  }

  /** A command that is not started keeps its descriptors. */
  lemma {:induction false} SkippedKeeps(base: map<nat, Stream>, os: Kernel, call: Call, c: Cmd, w: World,
                                        exits: nat -> nat)
    requires Ready(base, os, call, c, Stdin, false, w)
    ensures Idle(base, os, SkipActual(Last(c), w, exits))
  {
  }

  /** Keeping every descriptor and their number is keeping the table. */
  lemma {:induction false} SameTable(base: map<nat, Stream>, fds: map<nat, Stream>)
    requires Keeps(base, fds) && |fds| == |base|
    ensures fds == base
  {
    assert base.Keys <= fds.Keys;
    SameKeys(base.Keys, fds.Keys);
  }

  lemma {:induction false} SameKeys(a: set<nat>, b: set<nat>)
    requires a <= b && |a| == |b|
    ensures a == b
  {
    assert b == a + (b - a);
  }
}
