/** The fork-server handshake as a state machine: the fuzzer's run_target, the server loop inside the
    target, the processes it forks and the timeout signal all move in any order. The two pipes carry
    bare words; what a word means is not part of the word. */
module ForkServer {
  import opened Coverage
  import opened Wrappers

  const SIGKILL: nat := 9

  datatype Ending = Exited(code: nat) | Signaled(signal: nat)

  predicate RealEnding(e: Ending) {
    match e case Exited(c) => c < 256 case Signaled(g) => 0 < g < 127
  }

  /** The wait status of an ending, and the two questions asked of it. */
  function Encode(e: Ending): nat {
    match e case Exited(c) => 256 * c case Signaled(g) => g
  }

  predicate WasSignaled(status: int) {
    status % 128 != 0 && status % 128 != 127
  }

  function TermSignal(status: int): int {
    status % 128
  }

  lemma StatusTellsEnding(e: Ending)
    requires RealEnding(e)
    ensures WasSignaled(Encode(e)) <==> e.Signaled?
    ensures e.Signaled? ==> TermSignal(Encode(e)) == e.signal
  {
  }

  datatype Verdict = NoFault | Timeout | Crash

  // ---------- States ----------

  /** Where the fuzzer is: starting up, between two requests, or inside one. */
  datatype FuzzerAt =
    | AwaitHello | DisarmStartup | Idle | Clearing | Requesting | AwaitPid | Arming | AwaitStatus
    | Forgetting | Disarming | Counting | Reporting | Fatal

  datatype ServerAt = Greeting | Waiting | Forking | SendingPid | Reaping | SendingStatus | Dead

  /** A forked process: which request it serves, the slots it hit, how it ended, and whether the kill of
      the timer ended it. */
  datatype Process = Process(request: nat, hits: seq<nat>, ended: Option<Ending>, byTimer: bool)

  /** Kind and request are what the word stands for; only `word` can be seen. */
  datatype Meaning = Hello | PidOf(request: int) | StatusOf(request: int, pid: int)

  datatype Message = Message(word: int, meaning: Meaning)

  datatype State = State(
    f: FuzzerAt, childPid: int, childTimedOut: bool, timer: bool, status: int, verdict: Verdict,
    s: ServerAt, forkPid: int, waitStatus: int,
    procs: map<int, Process>, ctl: nat, st: seq<Message>, trace: Map,
    requests: nat,                             // requests written so far
    reaped: seq<Process>)                      // the processes waited for so far

  function Initial(size: nat): State {
    State(AwaitHello, -1, false, true, 0, NoFault, Greeting, 0, 0, map[], 0, [], seq(size, _ => 0), 0, [])
  }

  function Zeros(size: nat): Map {
    seq(size, _ => 0)
  }

  function Bumped(t: Map, i: nat): (r: Map)
    requires i < |t|
    ensures |r| == |t|
  {
    t[i := t[i] + 1]
  }

  predicate InMap(hits: seq<nat>, size: nat) {
    forall k :: 0 <= k < |hits| ==> hits[k] < size
  }

  /** The map that a process leaves that hits these slots, starting from a clear one. */
  ghost function Tally(hits: seq<nat>, size: nat): (t: Map)
    requires InMap(hits, size)
    ensures |t| == size
  {
    if hits == [] then Zeros(size) else Bumped(Tally(hits[..|hits| - 1], size), hits[|hits| - 1])
  }

  predicate Alive(st: State, pid: int) {
    pid in st.procs && st.procs[pid].ended == None
  }

  ghost predicate NobodyAlive(st: State) {
    forall pid :: pid in st.procs ==> st.procs[pid].ended != None
  }

  // ---------- Moves ----------

  datatype Move =
    // the fuzzer
    | ReadHello | EndStartup | Begin | Clear | WriteRequest | ReadPid | Arm | ReadStatus | ForgetPid
    | Disarm | Classify | Report | GiveUp
    // the timer signal
    | TimerFires
    // the server
    | Greet | ReadRequest | Fork(pid: int) | ForkFails | SendPid | Reap | SendStatus
    // a process
    | Hit(pid: int, slot: nat) | End(pid: int, how: Ending)

  predicate Enabled(m: Move, x: State) {
    match m
    case ReadHello => x.f == AwaitHello && x.st != []
    case EndStartup => x.f == DisarmStartup
    case Begin => x.f == Idle
    case Clear => x.f == Clearing
    case WriteRequest => x.f == Requesting && x.s != Dead
    case ReadPid => x.f == AwaitPid && x.st != []
    case Arm => x.f == Arming
    case ReadStatus => x.f == AwaitStatus && x.st != []
    case ForgetPid => x.f == Forgetting
    case Disarm => x.f == Disarming
    case Classify => x.f == Counting
    case Report => x.f == Reporting
    case GiveUp => x.s == Dead &&
      (x.f == Requesting || (x.st == [] && (x.f == AwaitHello || x.f == AwaitPid || x.f == AwaitStatus)))
    case TimerFires => x.timer
    case Greet => x.s == Greeting
    case ReadRequest => x.s == Waiting && x.ctl > 0
    case Fork(pid) => x.s == Forking && pid > 0 && pid !in x.procs
    case ForkFails => x.s == Forking
    case SendPid => x.s == SendingPid
    case Reap => x.s == Reaping && x.forkPid in x.procs && x.procs[x.forkPid].ended != None
    case SendStatus => x.s == SendingStatus
    case Hit(pid, slot) => Alive(x, pid) && slot < |x.trace|
    case End(pid, how) => Alive(x, pid) && RealEnding(how)
  }

  /** The outcome of a request, from the wait status and the timeout flag. */
  function Judge(status: int, timedOut: bool): Verdict {
    if WasSignaled(status) then (if timedOut && TermSignal(status) == SIGKILL then Timeout else Crash) else NoFault
  }

  /** A kill signal ends the process if it still runs; a dead or unknown one is not affected. */
  function Killed(x: State, pid: int): map<int, Process> {
    if Alive(x, pid) then x.procs[pid := x.procs[pid].(ended := Some(Signaled(SIGKILL)), byTimer := true)] else x.procs
  }

  ghost function Do(m: Move, x: State): State
    requires Enabled(m, x)
  {
    match m
    case ReadHello => x.(f := DisarmStartup, st := x.st[1..])
    case EndStartup => x.(f := Idle, timer := false)
    case Begin => x.(f := Clearing, childTimedOut := false)
    case Clear => x.(f := Requesting, trace := Zeros(|x.trace|))
    case WriteRequest => x.(f := AwaitPid, ctl := x.ctl + 1, requests := x.requests + 1)
    case ReadPid => x.(f := Arming, childPid := x.st[0].word, st := x.st[1..])
    case Arm => x.(f := AwaitStatus, timer := true)
    case ReadStatus => x.(f := Forgetting, status := x.st[0].word, st := x.st[1..])
    case ForgetPid => x.(f := Disarming, childPid := 0)
    case Disarm => x.(f := Counting, timer := false)
    case Classify => x.(f := Reporting, trace := Classified(x.trace))
    case Report => x.(f := Idle, verdict := Judge(x.status, x.childTimedOut))
    case GiveUp => x.(f := Fatal)
    case TimerFires =>
      if x.childPid > 0 then x.(timer := false, childTimedOut := true, procs := Killed(x, x.childPid))
      else if x.childPid == -1 then x.(timer := false, childTimedOut := true, s := Dead)
      else x.(timer := false)
    case Greet => x.(s := Waiting, st := x.st + [Message(0, Hello)])
    case ReadRequest => x.(s := Forking, ctl := x.ctl - 1)
    case Fork(pid) => x.(s := SendingPid, forkPid := pid, procs := x.procs[pid := Process(|x.reaped|, [], None, false)])
    case ForkFails => x.(s := Dead)
    case SendPid => x.(s := Reaping, st := x.st + [Message(x.forkPid, PidOf(|x.reaped|))])
    case Reap =>
      var p := x.procs[x.forkPid];
      x.(s := SendingStatus, waitStatus := Encode(p.ended.value), procs := x.procs - {x.forkPid},
         reaped := x.reaped + [p])
    case SendStatus => x.(s := Waiting, st := x.st + [Message(x.waitStatus, StatusOf(|x.reaped| - 1, x.forkPid))])
    case Hit(pid, slot) =>
      x.(trace := Bumped(x.trace, slot), procs := x.procs[pid := x.procs[pid].(hits := x.procs[pid].hits + [slot])])
    case End(pid, how) => x.(procs := x.procs[pid := x.procs[pid].(ended := Some(how))])
  }

  // ---------- What always holds ----------

  /** The server is between two requests and nothing is under way. */
  ghost predicate Quiet(x: State) {
    x.ctl == 0 && x.st == [] && x.procs == map[] && (x.s == Waiting || x.s == Dead) && |x.reaped| == x.requests
  }

  /** If the kill of the timer ended the process, then the fuzzer knows that the timer went off. */
  predicate TimerRecorded(x: State, p: Process) {
    p.byTimer ==> p.ended == Some(Signaled(SIGKILL)) && x.childTimedOut
  }

  ghost predicate OneProcess(x: State) {
    && x.forkPid > 0 && x.procs.Keys == {x.forkPid} && |x.reaped| + 1 == x.requests
    && x.procs[x.forkPid].request == |x.reaped|
    && InMap(x.procs[x.forkPid].hits, |x.trace|)
    && x.trace == Tally(x.procs[x.forkPid].hits, |x.trace|)
    && (x.procs[x.forkPid].ended.Some? ==> RealEnding(x.procs[x.forkPid].ended.value))
    && TimerRecorded(x, x.procs[x.forkPid])
  }

  /** The last process waited for belongs to the current request, and the map holds what it hit. */
  ghost predicate JustReaped(x: State) {
    && x.forkPid > 0 && x.procs == map[] && |x.reaped| == x.requests > 0
    && var p := x.reaped[x.requests - 1];
    && p.request == x.requests - 1 && p.ended.Some? && RealEnding(p.ended.value)
    && InMap(p.hits, |x.trace|) && TimerRecorded(x, p)
  }

  ghost predicate MapHoldsHits(x: State)
    requires JustReaped(x)
  {
    x.trace == Tally(x.reaped[x.requests - 1].hits, |x.trace|)
  }

  function LastEnding(x: State): nat
    requires |x.reaped| > 0 && x.reaped[|x.reaped| - 1].ended.Some?
  {
    Encode(x.reaped[|x.reaped| - 1].ended.value)
  }

  function PidMessage(x: State): Message {
    Message(x.forkPid, PidOf(x.requests - 1))
  }

  function StatusMessage(x: State): Message
    requires |x.reaped| > 0 && x.reaped[|x.reaped| - 1].ended.Some?
  {
    Message(LastEnding(x), StatusOf(x.requests - 1, x.forkPid))
  }

  /** The request is under way on the server's side, with its pid message still to be read. */
  ghost predicate Serving(x: State) {
    match x.s
    case Waiting =>
      || (x.ctl == 1 && x.st == [] && NotForked(x))
      || (x.ctl == 0 && JustReaped(x) && MapHoldsHits(x) && x.st == [PidMessage(x), StatusMessage(x)])
    case Forking => x.ctl == 0 && x.st == [] && NotForked(x)
    case Dead => x.ctl == 0 && x.st == [] && NotForked(x)
    case SendingPid => x.ctl == 0 && x.st == [] && OneProcess(x)
    case Reaping => x.ctl == 0 && x.st == [PidMessage(x)] && OneProcess(x)
    case SendingStatus =>
      x.ctl == 0 && JustReaped(x) && MapHoldsHits(x) && x.waitStatus == LastEnding(x) && x.st == [PidMessage(x)]
    case Greeting => false
  }

  ghost predicate NotForked(x: State) {
    x.procs == map[] && |x.reaped| + 1 == x.requests && x.trace == Zeros(|x.trace|)
  }

  /** The same with the pid message read. */
  ghost predicate Finishing(x: State) {
    && x.childPid == x.forkPid && x.ctl == 0
    && match x.s
       case Reaping => x.st == [] && OneProcess(x)
       case SendingStatus => JustReaped(x) && MapHoldsHits(x) && x.waitStatus == LastEnding(x) && x.st == []
       case Waiting => JustReaped(x) && MapHoldsHits(x) && x.st == [StatusMessage(x)]
       case _ => false
  }

  /** The status has been read and nothing is left in the pipes. */
  ghost predicate Finished(x: State) {
    x.s == Waiting && x.ctl == 0 && x.st == [] && JustReaped(x) && x.status == LastEnding(x)
  }

  ghost predicate Starting(x: State) {
    && x.childPid == -1 && x.ctl == 0 && x.procs == map[] && x.requests == 0 && x.reaped == []
    && (x.s == Greeting ==> x.st == [])
    && (x.s == Waiting ==> x.st == [Message(0, Hello)])
    && (x.s == Dead ==> (x.st == [] || x.st == [Message(0, Hello)]) && !x.timer)
    && (x.s == Greeting || x.s == Waiting || x.s == Dead)
  }

  ghost predicate Inv(x: State) {
    match x.f
    case AwaitHello => Starting(x)
    case DisarmStartup => Quiet(x) && x.childPid == -1
    case Idle => Quiet(x) && !x.timer && -1 <= x.childPid <= 0
    case Clearing => Quiet(x) && !x.timer && -1 <= x.childPid <= 0
    case Requesting => Quiet(x) && !x.timer && -1 <= x.childPid <= 0 && x.trace == Zeros(|x.trace|)
    case AwaitPid => Serving(x) && !x.timer && -1 <= x.childPid <= 0
    case Arming => Finishing(x) && !x.timer
    case AwaitStatus => Finishing(x) && (Alive(x, x.forkPid) ==> x.timer)
    case Forgetting => Finished(x) && MapHoldsHits(x) && x.childPid == x.forkPid
    case Disarming => Finished(x) && MapHoldsHits(x) && x.childPid == 0
    case Counting => Finished(x) && MapHoldsHits(x) && !x.timer && x.childPid == 0
    case Reporting =>
      Finished(x) && x.trace == Classified(Tally(x.reaped[x.requests - 1].hits, |x.trace|)) && !x.timer &&
          x.childPid == 0
    case Fatal => x.s == Dead && x.procs == map[] && !x.timer
  }

  predicate FuzzerMove(m: Move) {
    m.ReadHello? || m.EndStartup? || m.Begin? || m.Clear? || m.WriteRequest? || m.ReadPid? || m.Arm? || m.ReadStatus? ||
    m.ForgetPid? || m.Disarm? || m.Classify? || m.Report? || m.GiveUp?
  }

  predicate ServerMove(m: Move) {
    m.Greet? || m.ReadRequest? || m.Fork? || m.ForkFails? || m.SendPid? || m.Reap? || m.SendStatus?
  }

  lemma RequestKeepsInv(m: Move, x: State)
    requires Inv(x) && Enabled(m, x) && FuzzerMove(m)
    requires m.ReadHello? || m.EndStartup? || m.Begin? || m.Clear? || m.WriteRequest? || m.GiveUp?
    ensures Inv(Do(m, x))
  {
    hide Tally, Classified;
  }

  lemma ResponseKeepsInv(m: Move, x: State)
    requires Inv(x) && Enabled(m, x) && FuzzerMove(m)
    requires m.ReadPid? || m.Arm? || m.ReadStatus? || m.ForgetPid? || m.Disarm? || m.Classify? || m.Report?
    ensures Inv(Do(m, x))
  {
    hide Tally, Classified;
  }

  lemma FuzzerKeepsInv(m: Move, x: State)
    requires Inv(x) && Enabled(m, x) && FuzzerMove(m)
    ensures Inv(Do(m, x))
  {
    hide Inv, Enabled, Do;
    if m.ReadHello? || m.EndStartup? || m.Begin? || m.Clear? || m.WriteRequest? || m.GiveUp? {
      RequestKeepsInv(m, x);
    } else {
      ResponseKeepsInv(m, x);
    }
  }

  lemma SimpleServerMove(m: Move, x: State)
    requires Inv(x) && Enabled(m, x) && ServerMove(m) && !m.Reap? && !m.Fork?
    ensures Inv(Do(m, x))
  {
    hide Tally, Classified;
  }

  lemma ForkKeepsInv(x: State, pid: int)
    requires Inv(x) && Enabled(Fork(pid), x)
    ensures Inv(Do(Fork(pid), x))
  {
    hide Classified, MapHoldsHits, JustReaped;
    assert Do(Fork(pid), x).procs.Keys == {pid};
  }

  lemma ReapKeepsInv(x: State)
    requires Inv(x) && Enabled(Reap, x)
    ensures Inv(Do(Reap, x))
  {
    hide Tally, Classified;
    OnlyOne(x, x.forkPid);
    assert Do(Reap, x).procs == map[];
  }

  lemma ServerKeepsInv(m: Move, x: State)
    requires Inv(x) && Enabled(m, x) && ServerMove(m)
    ensures Inv(Do(m, x))
  {
    hide Inv, Enabled, Do;
    if m.Reap? { ReapKeepsInv(x); } else if m.Fork? { ForkKeepsInv(x, m.pid); } else { SimpleServerMove(m, x); }
  }

  lemma TallyMore(hits: seq<nat>, slot: nat, size: nat)
    requires InMap(hits, size) && slot < size
    ensures InMap(hits + [slot], size) && Tally(hits + [slot], size) == Bumped(Tally(hits, size), slot)
  {
    assert (hits + [slot])[..|hits|] == hits;
  }

  /** A process that exists is the one under way. */
  lemma OnlyOne(x: State, pid: int)
    requires Inv(x) && pid in x.procs
    ensures OneProcess(x) && pid == x.forkPid
    ensures (x.f == AwaitPid && (x.s == SendingPid || x.s == Reaping)) ||
      ((x.f == Arming || x.f == AwaitStatus) && x.s == Reaping)
  {
    hide Tally, Classified;
  }

  lemma HitKeepsInv(x: State, pid: int, slot: nat)
    requires Inv(x) && Enabled(Hit(pid, slot), x)
    ensures Inv(Do(Hit(pid, slot), x))
  {
    OnlyOne(x, pid);
    TallyMore(x.procs[pid].hits, slot, |x.trace|);
    hide Tally, Classified;
    var y := Do(Hit(pid, slot), x);
    assert y.procs.Keys == {x.forkPid};
    assert OneProcess(y);
  }

  lemma EndKeepsInv(x: State, pid: int, how: Ending)
    requires Inv(x) && Enabled(End(pid, how), x)
    ensures Inv(Do(End(pid, how), x))
  {
    hide Tally, Classified;
    OnlyOne(x, pid);
    var y := Do(End(pid, how), x);
    assert y.procs.Keys == {x.forkPid};
    assert OneProcess(y);
  }

  lemma TimerKeepsInv(x: State)
    requires Inv(x) && Enabled(TimerFires, x)
    ensures Inv(Do(TimerFires, x))
  {
    hide Tally, Classified;
  }

  // ---------- Every interleaving ----------

  lemma MoveKeepsInv(m: Move, x: State)
    requires Inv(x) && Enabled(m, x)
    ensures Inv(Do(m, x))
  {
    hide Inv, Do, Enabled;
    if FuzzerMove(m) { FuzzerKeepsInv(m, x); }
    else if ServerMove(m) { ServerKeepsInv(m, x); }
    else if m.TimerFires? { TimerKeepsInv(x); }
    else if m.Hit? { HitKeepsInv(x, m.pid, m.slot); }
    else { EndKeepsInv(x, m.pid, m.how); }
  }

  /** The moves can be made one after the other. */
  ghost predicate Plays(ms: seq<Move>, x: State)
    decreases |ms|
  {
    ms == [] || (Enabled(ms[0], x) && Plays(ms[1..], Do(ms[0], x)))
  }

  ghost function After(ms: seq<Move>, x: State): State
    requires Plays(ms, x)
    decreases |ms|
  {
    if ms == [] then x else After(ms[1..], Do(ms[0], x))
  }

  lemma {:induction false} RunKeepsInv(ms: seq<Move>, x: State)
    requires Inv(x) && Plays(ms, x)
    ensures Inv(After(ms, x))
    decreases |ms|
  {
    hide Inv, Do, Enabled;
    if ms != [] {
      MoveKeepsInv(ms[0], x);
      RunKeepsInv(ms[1..], Do(ms[0], x));
    }
  }

  lemma InitialInv(size: nat)
    ensures Inv(Initial(size))
  {
  }

  /** In every interleaving at most one process exists, and the map is only cleared and only classified
      while none does. */
  lemma OneProcessAtMost(ms: seq<Move>, size: nat)
    requires Plays(ms, Initial(size))
    ensures var x := After(ms, Initial(size));
      && |x.procs| <= 1
      && (Enabled(Clear, x) || Enabled(Classify, x) ==> x.procs == map[] && NobodyAlive(x))
  {
    InitialInv(size);
    RunKeepsInv(ms, Initial(size));
    ProcessCount(After(ms, Initial(size)));
  }

  lemma ProcessCount(x: State)
    requires Inv(x)
    ensures |x.procs| <= 1 && (x.f == Clearing || x.f == Counting ==> x.procs == map[])
  {
    hide Tally, Classified;
    if x.procs != map[] {
      assert x.procs.Keys == {x.forkPid};
      assert |x.procs| == |x.procs.Keys|;
    }
  }

  /** In every interleaving the words are read as what they mean: the pid that the fuzzer reads is the one
      forked for its request, and the status is that of the process with this very pid. */
  lemma WordsAreUnderstood(ms: seq<Move>, size: nat)
    requires Plays(ms, Initial(size))
    ensures var x := After(ms, Initial(size));
      && (Enabled(ReadHello, x) ==> x.st[0].meaning == Hello)
      && (Enabled(ReadPid, x) ==> x.st[0] == Message(x.forkPid, PidOf(x.requests - 1)) && x.forkPid > 0)
      && (Enabled(ReadStatus, x) ==>
            && |x.reaped| == x.requests > 0 && x.reaped[x.requests - 1].ended.Some?
            && x.st[0] == Message(LastEnding(x), StatusOf(x.requests - 1, x.childPid)))
  {
    InitialInv(size);
    RunKeepsInv(ms, Initial(size));
    WordsInOrder(After(ms, Initial(size)));
  }

  lemma WordsInOrder(x: State)
    requires Inv(x)
    ensures Enabled(ReadHello, x) ==> x.st[0].meaning == Hello
    ensures Enabled(ReadPid, x) ==> x.st[0] == Message(x.forkPid, PidOf(x.requests - 1)) && x.forkPid > 0
    ensures Enabled(ReadStatus, x) ==>
      && |x.reaped| == x.requests > 0 && x.reaped[x.requests - 1].ended.Some?
      && x.st[0] == Message(LastEnding(x), StatusOf(x.requests - 1, x.childPid))
  {
    hide Tally, Classified;
  }

  /** In every interleaving the timeout signal only ever hits the process of the current request; once the
      handshake is over it never hits the server. */
  lemma KillHitsCurrent(ms: seq<Move>, size: nat)
    requires Plays(ms, Initial(size))
    ensures var x := After(ms, Initial(size));
      Enabled(TimerFires, x) ==>
        && (forall pid :: pid in x.procs && Do(TimerFires, x).procs[pid] != x.procs[pid] ==>
              pid == x.childPid && x.procs[pid].request == x.requests - 1)
        && (Do(TimerFires, x).s != x.s ==> x.f == AwaitHello || x.f == DisarmStartup)
  {
    InitialInv(size);
    RunKeepsInv(ms, Initial(size));
    if Enabled(TimerFires, After(ms, Initial(size))) { TimerIsAimed(After(ms, Initial(size))); }
  }

  lemma TimerIsAimed(x: State)
    requires Inv(x) && x.timer
    ensures Do(TimerFires, x).procs.Keys == x.procs.Keys
    ensures forall pid :: pid in x.procs && Do(TimerFires, x).procs[pid] != x.procs[pid] ==>
      pid == x.childPid && x.procs[pid].request == x.requests - 1
    ensures Do(TimerFires, x).s != x.s ==> x.f == AwaitHello || x.f == DisarmStartup
  {
    hide Tally, Classified;
  }

  /** In every interleaving the map that is classified holds exactly what the process of this request hit,
      and the verdict is about how that process ended: no fault exactly if it exited, and a timeout exactly
      if a kill signal ended it and the timer went off before it was disarmed. */
  lemma VerdictIsAboutRequest(ms: seq<Move>, size: nat)
    requires Plays(ms, Initial(size))
    ensures var x := After(ms, Initial(size));
      && (Enabled(Classify, x) ==>
            && |x.reaped| == x.requests > 0 && InMap(x.reaped[x.requests - 1].hits, |x.trace|)
            && x.trace == Tally(x.reaped[x.requests - 1].hits, |x.trace|))
      && (Enabled(Report, x) ==>
            && |x.reaped| == x.requests > 0 && x.reaped[x.requests - 1].ended.Some?
            && var e, v := x.reaped[x.requests - 1].ended.value, Do(Report, x).verdict;
            && (v == Timeout <==> e == Signaled(SIGKILL) && x.childTimedOut)
            && (v == NoFault <==> e.Exited?))
  {
    InitialInv(size);
    RunKeepsInv(ms, Initial(size));
    var x := After(ms, Initial(size));
    MapIsOfRequest(x);
    if Enabled(Report, x) { VerdictIsRight(x); }
  }

  lemma MapIsOfRequest(x: State)
    requires Inv(x)
    ensures Enabled(Classify, x) ==>
      && |x.reaped| == x.requests > 0 && InMap(x.reaped[x.requests - 1].hits, |x.trace|)
      && x.trace == Tally(x.reaped[x.requests - 1].hits, |x.trace|)
  {
    hide Tally, Classified;
  }

  lemma VerdictIsRight(x: State)
    requires Inv(x) && Enabled(Report, x)
    ensures |x.reaped| == x.requests > 0 && x.reaped[x.requests - 1].ended.Some?
    ensures var e, v := x.reaped[x.requests - 1].ended.value, Do(Report, x).verdict;
      && (v == Timeout <==> e == Signaled(SIGKILL) && x.childTimedOut)
      && (v == NoFault <==> e.Exited?)
  {
    hide Tally, Classified, Encode;
    StatusTellsEnding(x.reaped[x.requests - 1].ended.value);
  }

  // ---------- What a timeout means ----------

  /** A move by which something other than the timer kills the process. */
  predicate OtherKill(m: Move) {
    m.End? && m.how == Signaled(SIGKILL)
  }

  predicate OwnKill(p: Process) {
    p.ended == Some(Signaled(SIGKILL)) ==> p.byTimer
  }

  ghost predicate OwnKills(x: State) {
    && (forall pid :: pid in x.procs ==> OwnKill(x.procs[pid]))
    && (forall k :: 0 <= k < |x.reaped| ==> OwnKill(x.reaped[k]))
  }

  lemma OwnKillsStay(m: Move, x: State)
    requires OwnKills(x) && Enabled(m, x) && !OtherKill(m)
    ensures OwnKills(Do(m, x))
  {
    hide Classified;
  }

  lemma {:induction false} OwnKillsOnly(ms: seq<Move>, x: State)
    requires OwnKills(x) && Plays(ms, x) && forall m :: m in ms ==> !OtherKill(m)
    ensures OwnKills(After(ms, x))
    decreases |ms|
  {
    hide OwnKills, Do, Enabled, OtherKill;
    if ms != [] {
      assert ms[0] in ms;
      OwnKillsStay(ms[0], x);
      OwnKillsOnly(ms[1..], Do(ms[0], x));
    }
  }

  /** A process that the timer killed is always reported as a timeout. The other way round this holds as
      long as nothing else sends the kill signal. */
  lemma TimeoutMeansTimer(ms: seq<Move>, size: nat)
    requires Plays(ms, Initial(size)) && Enabled(Report, After(ms, Initial(size)))
    ensures var x := After(ms, Initial(size));
      && |x.reaped| == x.requests > 0
      && var p, v := x.reaped[x.requests - 1], Do(Report, x).verdict;
      && (p.byTimer ==> v == Timeout)
      && ((forall m :: m in ms ==> !OtherKill(m)) ==> (v == Timeout <==> p.byTimer))
  {
    InitialInv(size);
    RunKeepsInv(ms, Initial(size));
    var x := After(ms, Initial(size));
    VerdictIsRight(x);
    TimerIsRecorded(x);
    if forall m :: m in ms ==> !OtherKill(m) { OwnKillsOnly(ms, Initial(size)); }
  }

  /** The timer went off, and no request was begun since. */
  ghost predicate FiredSinceBegin(ms: seq<Move>) {
    exists k :: 0 <= k < |ms| && ms[k] == TimerFires && forall j :: k < j < |ms| ==> ms[j] != Begin
  }

  lemma TimedOutMove(m: Move, x: State)
    requires Enabled(m, x) && Do(m, x).childTimedOut
    ensures m == TimerFires || (x.childTimedOut && m != Begin)
  {
    hide Classified;
  }

  lemma {:induction false} TimedOutSince(ms: seq<Move>, x: State)
    requires Plays(ms, x) && After(ms, x).childTimedOut
    ensures FiredSinceBegin(ms) || (x.childTimedOut && Begin !in ms)
    decreases |ms|
  {
    hide Do, Enabled;
    if ms != [] {
      var m, rest := ms[0], ms[1..];
      var y := Do(m, x);
      TimedOutSince(rest, y);
      if FiredSinceBegin(rest) {
        var k :| 0 <= k < |rest| && rest[k] == TimerFires && forall j :: k < j < |rest| ==> rest[j] != Begin;
        assert ms[k + 1] == TimerFires && forall j :: k + 1 < j < |ms| ==> ms[j] == rest[j - 1];
      } else {
        TimedOutMove(m, x);
        assert forall j :: 0 < j < |ms| ==> ms[j] == rest[j - 1] && rest[j - 1] in rest;
      }
    }
  }

  /** A timeout is only ever reported if the timer went off within the request. */
  lemma TimeoutNeedsTimer(ms: seq<Move>, size: nat)
    requires Plays(ms, Initial(size)) && Enabled(Report, After(ms, Initial(size)))
    requires Do(Report, After(ms, Initial(size))).verdict == Timeout
    ensures FiredSinceBegin(ms)
  {
    InitialInv(size);
    RunKeepsInv(ms, Initial(size));
    VerdictIsRight(After(ms, Initial(size)));
    TimedOutSince(ms, Initial(size));
  }

  lemma TimerIsRecorded(x: State)
    requires Inv(x) && Enabled(Report, x)
    ensures JustReaped(x)
    ensures x.reaped[x.requests - 1].byTimer ==>
      x.childTimedOut && x.reaped[x.requests - 1].ended == Some(Signaled(SIGKILL))
  {
    hide Tally, Classified;
  }

  lemma {:induction false} PlaysMore(ms: seq<Move>, x: State, m: Move)
    requires Plays(ms, x) && Enabled(m, After(ms, x))
    ensures Plays(ms + [m], x) && After(ms + [m], x) == Do(m, After(ms, x))
    decreases |ms|
  {
    hide Enabled, Do;
    var all := ms + [m];
    if ms == [] {
      assert all[1..] == [];
    } else {
      assert all[0] == ms[0] && all[1..] == ms[1..] + [m];
      PlaysMore(ms[1..], Do(ms[0], x), m);
    }
  }

  lemma Next(ms: seq<Move>, x: State, m: Move) returns (longer: seq<Move>, y: State)
    requires Plays(ms, Initial(0)) && x == After(ms, Initial(0)) && Enabled(m, x)
    ensures Plays(longer, Initial(0)) && y == After(longer, Initial(0)) == Do(m, x)
  {
    PlaysMore(ms, Initial(0), m);
    longer, y := ms + [m], Do(m, x);
  }

  /** A process that something else kills just before the timer goes off is reported as a timeout too. */
  lemma FalseTimeout() returns (ms: seq<Move>)
    ensures Plays(ms, Initial(0)) && Enabled(Report, After(ms, Initial(0)))
    ensures var x := After(ms, Initial(0));
      |x.reaped| == 1 && Do(Report, x).verdict == Timeout && !x.reaped[0].byTimer
  {
    hide Plays, After, Classified;
    var x;
    ms, x := KilledRequest();
    ms, x := Next(ms, x, SendStatus);
    ms, x := Next(ms, x, ReadStatus);
    ms, x := Next(ms, x, ForgetPid);
    ms, x := Next(ms, x, Disarm);
    ms, x := Next(ms, x, Classify);
  }

  /** Something else kills the first process, the timer goes off, and the server waits for the process. */
  lemma KilledRequest() returns (ms: seq<Move>, x: State)
    ensures Plays(ms, Initial(0)) && x == After(ms, Initial(0))
    ensures x.f == AwaitStatus && x.s == SendingStatus && x.st == [] && x.childTimedOut
    ensures x.waitStatus == SIGKILL && x.reaped == [Process(0, [], Some(Signaled(SIGKILL)), false)]
  {
    hide Plays, After;
    ms, x := FirstRequest();
    ms, x := Next(ms, x, End(1, Signaled(SIGKILL)));
    ms, x := Next(ms, x, TimerFires);
    ms, x := Next(ms, x, Reap);
  }

  /** Everything up to the fuzzer waiting for the status of the first process. */
  lemma FirstRequest() returns (ms: seq<Move>, x: State)
    ensures Plays(ms, Initial(0)) && x == After(ms, Initial(0))
    ensures x.f == AwaitStatus && x.s == Reaping && x.timer && x.childPid == x.forkPid == 1 && x.st == []
    ensures x.procs == map[1 := Process(0, [], None, false)] && x.reaped == []
  {
    hide Plays, After;
    ms, x := FirstFork();
    ms, x := Next(ms, x, SendPid);
    ms, x := Next(ms, x, ReadPid);
    ms, x := Next(ms, x, Arm);
  }

  lemma FirstFork() returns (ms: seq<Move>, x: State)
    ensures Plays(ms, Initial(0)) && x == After(ms, Initial(0))
    ensures x.f == AwaitPid && x.s == SendingPid && x.forkPid == 1 && x.st == []
    ensures x.procs == map[1 := Process(0, [], None, false)] && x.reaped == []
  {
    hide Plays, After;
    ms, x := Startup();
    ms, x := Next(ms, x, Begin);
    ms, x := Next(ms, x, Clear);
    ms, x := Next(ms, x, WriteRequest);
    ms, x := Next(ms, x, ReadRequest);
    ms, x := Next(ms, x, Fork(1));
  }

  lemma Startup() returns (ms: seq<Move>, x: State)
    ensures Plays(ms, Initial(0)) && x == After(ms, Initial(0))
    ensures x.f == Idle && x.s == Waiting && x.st == [] && x.ctl == 0 && x.procs == map[] && x.reaped == []
  {
    assert Plays([], Initial(0)) && After([], Initial(0)) == Initial(0);
    hide Plays, After;
    ms, x := Next([], Initial(0), Greet);
    ms, x := Next(ms, x, ReadHello);
    ms, x := Next(ms, x, EndStartup);
  }

  // ---------- No request gets stuck ----------

  /** Unless the fuzzer has given up, the fuzzer or the server can always move, whatever the process does;
      or else the fuzzer waits for a running process, and then the timer is set and will end it. */
  lemma NeverStuck(ms: seq<Move>, size: nat)
    requires Plays(ms, Initial(size)) && After(ms, Initial(size)).f != Fatal
    ensures var x := After(ms, Initial(size));
      || (exists m :: Enabled(m, x) && (FuzzerMove(m) || ServerMove(m)))
      || (x.f == AwaitStatus && Alive(x, x.childPid) && Enabled(TimerFires, x) && !Alive(Do(TimerFires, x), x.childPid))
  {
    InitialInv(size);
    RunKeepsInv(ms, Initial(size));
    var m := SomeMove(After(ms, Initial(size)));
  }

  /** A move that needs nothing from the process, if need be that of the timer. */
  lemma SomeMove(x: State) returns (m: Move)
    requires Inv(x) && x.f != Fatal
    ensures Enabled(m, x) && (m == Begin <==> x.f == Idle)
    ensures FuzzerMove(m) || ServerMove(m) ||
      (m.TimerFires? && x.f == AwaitStatus && x.childPid > 0 && Alive(x, x.childPid))
  {
    hide Tally, Classified;
    match x.f
    case AwaitHello => m := if x.s == Greeting then Greet else if x.st != [] then ReadHello else GiveUp;
    case DisarmStartup => m := EndStartup;
    case Idle => m := Begin;
    case Clearing => m := Clear;
    case Requesting => m := if x.s == Dead then GiveUp else WriteRequest;
    case AwaitPid => m := if x.st != [] then ReadPid else if x.s == Dead then GiveUp else ServerStep(x);
    case Arming => m := Arm;
    case AwaitStatus =>
      m := if x.st != [] then ReadStatus else if Alive(x, x.forkPid) then TimerFires else ServerStep(x);
    case Forgetting => m := ForgetPid;
    case Disarming => m := Disarm;
    case Counting => m := Classify;
    case Reporting => m := Report;
  }

  /** Every request can be brought to its end even if its process never ends by itself. */
  lemma {:induction false} HangingEnds(x: State) returns (ms: seq<Move>)
    requires Inv(x)
    ensures Plays(ms, x) && |ms| <= Left(x)
    ensures forall m :: m in ms ==> FuzzerMove(m) || ServerMove(m) || m.TimerFires?
    ensures After(ms, x).f == Idle || After(ms, x).f == Fatal
    decreases Left(x)
  {
    hide Inv, Enabled, Do, Left, Alive;
    if x.f == Idle || x.f == Fatal {
      ms := [];
    } else {
      var m := SomeMove(x);
      RequestsEnd(m, x);
      MoveKeepsInv(m, x);
      var rest := HangingEnds(Do(m, x));
      ms := [m] + rest;
      assert ms[0] == m && ms[1..] == rest;
    }
  }

  /** What the server does next. */
  function ServerStep(x: State): Move {
    match x.s
    case Waiting => ReadRequest
    case Forking => ForkFails
    case SendingPid => SendPid
    case Reaping => Reap
    case SendingStatus => SendStatus
    case _ => Greet
  }

  function FuzzerLeft(x: State): nat {
    match x.f
    case AwaitHello => 2 case DisarmStartup => 1 case Idle => 0
    case Clearing => 21 case Requesting => 20 case AwaitPid => 8 case Arming => 7 case AwaitStatus => 5
    case Forgetting => 4 case Disarming => 3 case Counting => 2 case Reporting => 1 case Fatal => 0
  }

  function ServerLeft(x: State): nat {
    match x.s
    case Greeting => 1 case Waiting => 0 case Forking => 5 case SendingPid => 3 case Reaping => 2
    case SendingStatus => 1 case Dead => 0
  }

  /** How many moves are left of a request, apart from what its process does to the map. */
  ghost function Left(x: State): nat {
    FuzzerLeft(x) + ServerLeft(x) + 6 * x.ctl + (if x.timer then 1 else 0) +
    (if x.procs.Keys == {x.forkPid} && Alive(x, x.forkPid) then 1 else 0)
  }

  lemma FuzzerMoveShortens(m: Move, x: State)
    requires Inv(x) && Enabled(m, x) && FuzzerMove(m) && m != Begin
    ensures Left(Do(m, x)) < Left(x)
  {
    hide Tally, Classified, Starting, Serving, Finishing, Finished, Quiet;
  }

  lemma ServerMoveShortens(m: Move, x: State)
    requires Inv(x) && Enabled(m, x) && ServerMove(m)
    ensures Left(Do(m, x)) < Left(x)
  {
    hide Tally, Classified, MapHoldsHits;
  }

  lemma EndShortens(x: State, pid: int, how: Ending)
    requires Inv(x) && Enabled(End(pid, how), x)
    ensures Left(Do(End(pid, how), x)) < Left(x)
  {
    OnlyOne(x, pid);
    hide Inv;
    var y := Do(End(pid, how), x);
    assert y.procs.Keys == {x.forkPid} == x.procs.Keys;
  }

  lemma TimerShortens(x: State)
    requires Inv(x) && Enabled(TimerFires, x)
    ensures Left(Do(TimerFires, x)) < Left(x)
  {
    hide Tally, Classified, MapHoldsHits;
    var y := Do(TimerFires, x);
    assert y.procs.Keys == x.procs.Keys;
  }

  /** Every move but the start of a request and the hits of its process brings its end nearer. */
  lemma RequestsEnd(m: Move, x: State)
    requires Inv(x) && Enabled(m, x) && m != Begin && !m.Hit?
    ensures Left(Do(m, x)) < Left(x)
  {
    hide Inv, Do, Enabled, Left;
    if FuzzerMove(m) { FuzzerMoveShortens(m, x); }
    else if ServerMove(m) { ServerMoveShortens(m, x); }
    else if m.TimerFires? { TimerShortens(x); }
    else { EndShortens(x, m.pid, m.how); }
  }
}
