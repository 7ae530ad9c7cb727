/**
 The two processes of run_test_config in release/e2e.py: a child that runs a release test and reports
 its phases and its result through a queue, and a parent that reads the queue, enforces a budget per
 phase and finally drains what is left. Every interleaving of the two is considered, and the child
 may die at any point.
 */
module TestRunner {
  import opened Base

  /** The exceptions told apart by the child's handler. */
  datatype Err =
    | SessionTimeout | FileSyncTimeout | PrepareTimeout | CommandTimeout
    | PrepareFailed | BuildFailed | Infra | Runtime | Other

  predicate IsTimeout(e: Err) {
    e in {SessionTimeout, FileSyncTimeout, PrepareTimeout, CommandTimeout}
  }

  function StatusOf(e: Err): string {
    match e
    case CommandTimeout => "timeout"
    case PrepareTimeout => "infra_timeout"
    case FileSyncTimeout => "infra_timeout"
    case SessionTimeout => "infra_timeout"
    case PrepareFailed => "infra_timeout"
    case BuildFailed => "infra_timeout"
    case Infra => "infra_error"
    case Runtime => "runtime_error"
    case Other => "unknown timeout"
  }

  /** The data of an END report, with the exception it came from. */
  datatype Payload = Payload(status: string, cause: Option<Err>)

  datatype Msg = CmdPrepare(at: int) | CmdRun(at: int) | End(at: int, payload: Payload)

  /** The parent's `result`: the empty dictionary, None taken over from a phase report, or a payload. */
  datatype Data = Empty | NoneData | Final(payload: Payload)

  function DataOf(m: Msg): Data {
    if m.End? then Final(m.payload) else NoneData
  }

  datatype Config = Config(
    useConnect: bool, hasPrepare: bool, kickOffOnly: bool, longRunning: bool, checkProgress: bool,
    buildTimeout: int, prepareTimeout: int, timeout: int)

  // ---------------------------------------------------------------- the child

  datatype Child =
    | Setup | FileSync | PostPrepare | WaitPrepare | PostRun | WaitJob | WaitRun | Finish | PostKickoff
    | Checking
    | Handling(e: Err) | HandlingFinish
    | Cleanup | Dead

  /** The child goes on, hits an exception, reports progress of an existing session, or is killed. */
  datatype ChildStep = Advance | Fail(e: Err) | Report(status: string) | Die

  /** Timeouts are raised only where the stop event is checked, and only once it is set; a job run by connecting does not check it. */
  predicate CanFail(c: Child, e: Err, stop: bool) {
    && (IsTimeout(e) ==> stop)
    && (e == SessionTimeout ==> c == Setup) && (e == FileSyncTimeout ==> c == FileSync)
    && (e == PrepareTimeout ==> c == WaitPrepare) && (e == CommandTimeout ==> c == WaitRun)
  }

  predicate ChildEnabled(c: Child, a: ChildStep, stop: bool) {
    match a
    case Advance => c != Dead && c != Checking
    case Fail(e) => c != Dead && CanFail(c, e, stop)
    case Report(_) => c == Checking
    case Die => c != Dead
  }

  function Finished(now: int): Msg { End(now, Payload("finished", None)) }

  /** Where the child is next and what it posts on the way. */
  function ChildNext(c: Child, a: ChildStep, cfg: Config, now: int): (Child, Option<Msg>) {
    match a
    case Die => (Dead, None)
    case Fail(e) =>
      if c.Handling? || c == HandlingFinish || c == Cleanup || c == Dead then (Dead, None) else (Handling(e), None)
    case Report(status) => (Cleanup, Some(End(now, Payload(status, None))))
    case Advance =>
      match c
      case Setup => (if cfg.hasPrepare || !cfg.useConnect then FileSync else PostRun, None)
      case FileSync => (if cfg.hasPrepare then PostPrepare else PostRun, None)
      case PostPrepare => (WaitPrepare, Some(CmdPrepare(now)))
      case WaitPrepare => (PostRun, None)
      case PostRun =>
        (if cfg.useConnect then WaitJob else if cfg.kickOffOnly then PostKickoff else WaitRun, Some(CmdRun(now)))
      case WaitJob => (Finish, None)
      case WaitRun => (Finish, None)
      case Finish => (Cleanup, Some(Finished(now)))
      case PostKickoff => (Cleanup, Some(End(now, Payload("kickoff", None))))
      case Handling(e) =>
        if cfg.checkProgress then (Cleanup, Some(End(now, Payload("error", Some(e)))))
        else if IsTimeout(e) && cfg.longRunning then (HandlingFinish, None)
        else (Cleanup, Some(End(now, Payload(StatusOf(e), Some(e)))))
      case HandlingFinish => (Cleanup, Some(Finished(now)))
      case Cleanup => (Dead, None)
      case Checking => (Checking, None)
      case Dead => (Dead, None)
  }

  // ---------------------------------------------------------------- both together

  /** Loop head, waiting in get, get gave up, terminating the child, draining, done. */
  datatype Parent = LoopHead | Getting | GaveUp | Terminating | Draining | Over

  /**
   `posted` is everything ever put into the queue and the first `taken` of it have been read. `seen` is
   how much had been posted when get last gave up, `drainFrom` how much had been read when draining
   began, `final` how much had been posted when the queue was found empty at last.
   */
  datatype System = System(
    child: Child, parent: Parent, posted: seq<Msg>, taken: nat,
    clock: int, start: int, deadline: int, stop: bool, stoppedAt: int,
    seen: nat, drainFrom: nat, final: nat, result: Data)

  datatype Step = ChildActs(act: ChildStep) | Tick(dt: nat) | CheckAlive | Receive | GiveUp | CheckTime | Terminate | Drain | SeeEmpty

  predicate Enabled(s: System, e: Step) {
    match e
    case ChildActs(a) => ChildEnabled(s.child, a, s.stop)
    case Tick(_) => true
    case CheckAlive => s.parent == LoopHead
    case Receive => s.parent == Getting && s.taken < |s.posted|
    case GiveUp => s.parent == Getting && s.taken >= |s.posted|
    case CheckTime => s.parent == GaveUp
    case Terminate => s.parent == Terminating
    case Drain => s.parent == Draining && s.taken < |s.posted|
    case SeeEmpty => s.parent == Draining && s.taken >= |s.posted|
  }

  function BeginDrain(s: System): System {
    s.(parent := Draining, drainFrom := s.taken)
  }

  function Received(s: System, m: Msg, cfg: Config): System {
    var t := s.(taken := s.taken + 1, parent := LoopHead);
    match m
    case CmdPrepare(at) => t.(deadline := at + cfg.prepareTimeout)
    case CmdRun(at) => t.(deadline := at + cfg.timeout)
    case End(_, payload) => BeginDrain(t.(result := Final(payload)))
  }

  function Next(s: System, e: Step, cfg: Config): System
    requires Enabled(s, e)
  {
    match e
    case ChildActs(a) =>
      var (c, m) := ChildNext(s.child, a, cfg, s.clock);
      s.(child := c, posted := if m.Some? then s.posted + [m.value] else s.posted)
    case Tick(dt) => s.(clock := s.clock + dt)
    case CheckAlive => if s.child != Dead then s.(parent := Getting) else BeginDrain(s)
    case Receive => Received(s, s.posted[s.taken], cfg)
    case GiveUp => s.(parent := GaveUp, seen := |s.posted|)
    case CheckTime =>
      if s.clock > s.deadline then s.(parent := Terminating, stop := true, stoppedAt := s.clock)
      else s.(parent := LoopHead)
    case Terminate => BeginDrain(s)
    case Drain => s.(taken := s.taken + 1, result := DataOf(s.posted[s.taken]))
    case SeeEmpty => s.(parent := Over, final := |s.posted|)
  }

  function Start(cfg: Config, now: int): System {
    System(if cfg.checkProgress then Checking else Setup, LoopHead, [], 0,
           now, now, now + cfg.buildTimeout, false, now, 0, 0, 0, Empty)
  }

  ghost predicate IsRun(states: seq<System>, steps: seq<Step>, cfg: Config) {
    && |states| == |steps| + 1
    && (exists now :: states[0] == Start(cfg, now))
    && forall i :: 0 <= i < |steps| ==>
         Enabled(states[i], steps[i]) && states[i + 1] == Next(states[i], steps[i], cfg)
  }

  // ---------------------------------------------------------------- what the child keeps

  function Rank(m: Msg): nat {
    match m case CmdPrepare(_) => 0 case CmdRun(_) => 1 case End(_, _) => 2
  }

  /** Reports of a rank at or above this are still to come. */
  function Ahead(c: Child): nat {
    match c
    case Setup => 0
    case FileSync => 0
    case PostPrepare => 0
    case Checking => 0
    case WaitPrepare => 1
    case PostRun => 1
    case Cleanup => 3
    case Dead => 3
    case _ => 2
  }

  /** Prepare, run and end are reported at most once each and in this order; nothing follows END, after which the child only cleans up. */
  ghost predicate ChildInv(s: System) {
    && (forall i, j :: 0 <= i < j < |s.posted| ==> Rank(s.posted[i]) < Rank(s.posted[j]))
    && (forall i :: 0 <= i < |s.posted| ==> Rank(s.posted[i]) < Ahead(s.child))
  }

  ghost predicate ReportsTimeout(m: Msg) {
    m.End? && m.payload.cause.Some? && IsTimeout(m.payload.cause.value)
  }

  /** A timeout is handled or reported only after the stop event, and a long-running test never reports one. */
  ghost predicate TimeoutInv(s: System, cfg: Config) {
    && (s.child.Handling? && IsTimeout(s.child.e) ==> s.stop)
    && (forall i :: 0 <= i < |s.posted| && ReportsTimeout(s.posted[i]) ==> s.stop && (cfg.longRunning ==> cfg.checkProgress))
  }

  lemma StepKeepsChildInv(s: System, e: Step, cfg: Config)
    requires ChildInv(s) && Enabled(s, e)
    ensures ChildInv(Next(s, e, cfg))
  {
    if e.ChildActs? {
      var (c, m) := ChildNext(s.child, e.act, cfg, s.clock);
      assert Ahead(s.child) <= Ahead(c) && (m.Some? ==> Ahead(s.child) <= Rank(m.value) < Ahead(c));
    }
  }

  lemma StepKeepsTimeoutInv(s: System, e: Step, cfg: Config)
    requires TimeoutInv(s, cfg) && Enabled(s, e)
    ensures TimeoutInv(Next(s, e, cfg), cfg)
  {}

  /** What a report of the end says about how the test went, when the test itself is run. */
  ghost predicate Truthful(p: Payload, cfg: Config) {
    match p.cause
    case Some(e) => p.status == StatusOf(e)
    case None => p.status == "finished" || (p.status == "kickoff" && cfg.kickOffOnly && !cfg.useConnect)
  }

  ghost predicate PayloadInv(s: System, cfg: Config) {
    !cfg.checkProgress ==>
      && s.child != Checking && (s.child == PostKickoff ==> cfg.kickOffOnly && !cfg.useConnect)
      && forall i :: 0 <= i < |s.posted| && s.posted[i].End? ==> Truthful(s.posted[i].payload, cfg)
  }

  lemma StepKeepsPayloadInv(s: System, e: Step, cfg: Config)
    requires PayloadInv(s, cfg) && Enabled(s, e)
    ensures PayloadInv(Next(s, e, cfg), cfg)
  {}

  // ---------------------------------------------------------------- what the parent keeps

  /** The deadline of the latest phase among the first `n` reports; the build phase is the one before any report. */
  function DeadlineOf(s: System, n: nat, cfg: Config): int
    requires n <= |s.posted|
  {
    if n == 0 then s.start + cfg.buildTimeout
    else match s.posted[n - 1]
      case CmdPrepare(at) => at + cfg.prepareTimeout
      case CmdRun(at) => at + cfg.timeout
      case End(_, _) => DeadlineOf(s, n - 1, cfg)
  }

  ghost predicate InLoop(s: System) {
    s.parent != Draining && s.parent != Over
  }

  ghost predicate ParentInv(s: System, cfg: Config) {
    && s.taken <= |s.posted| && s.seen <= |s.posted| && s.drainFrom <= s.taken
    && s.deadline == DeadlineOf(s, if InLoop(s) then s.taken else s.drainFrom, cfg)
    && (s.parent == GaveUp || s.parent == Terminating ==> s.taken == s.seen)
    && (s.stop ==> s.stoppedAt > DeadlineOf(s, s.seen, cfg) && (s.parent == Terminating || !InLoop(s)))
    && (InLoop(s) ==> s.result == Empty && forall i :: 0 <= i < s.taken ==> !s.posted[i].End?)
    && (!InLoop(s) ==> s.result == ResultAt(s))
    && (s.parent == Over ==> s.taken == s.final)
  }

  /** What the reads so far have made of `result`. */
  ghost function ResultAt(s: System): Data
    requires s.drainFrom <= s.taken <= |s.posted|
  {
    if s.taken > s.drainFrom then DataOf(s.posted[s.taken - 1])
    else if s.drainFrom > 0 && s.posted[s.drainFrom - 1].End? then DataOf(s.posted[s.drainFrom - 1])
    else Empty
  }

  lemma {:induction false} DeadlineStable(s: System, t: System, n: nat, cfg: Config)
    requires n <= |s.posted| <= |t.posted| && t.posted[..|s.posted|] == s.posted && s.start == t.start
    ensures DeadlineOf(t, n, cfg) == DeadlineOf(s, n, cfg)
  {
    if n > 0 {
      assert t.posted[n - 1] == t.posted[..|s.posted|][n - 1] == s.posted[n - 1];
      DeadlineStable(s, t, n - 1, cfg);
    }
  }

  lemma OutsideKeepsParentInv(s: System, e: Step, cfg: Config)
    requires ParentInv(s, cfg) && Enabled(s, e) && (e.ChildActs? || e.Tick?)
    ensures ParentInv(Next(s, e, cfg), cfg)
  {
    var t := Next(s, e, cfg);
    assert t.posted[..|s.posted|] == s.posted;
    DeadlineStable(s, t, s.taken, cfg);
    DeadlineStable(s, t, s.seen, cfg);
    DeadlineStable(s, t, s.drainFrom, cfg);
    assert forall i :: 0 <= i < |s.posted| ==> t.posted[i] == s.posted[i];
  }

  /** Reading on, or giving up, inside the loop. */
  lemma LoopKeepsParentInv(s: System, e: Step, cfg: Config)
    requires ParentInv(s, cfg) && Enabled(s, e) && (e.CheckAlive? || e.GiveUp? || e.CheckTime? || e.Terminate?)
    ensures ParentInv(Next(s, e, cfg), cfg)
  {
    SameReports(s, Next(s, e, cfg), cfg);
  }

  lemma ReceiveKeepsParentInv(s: System, cfg: Config)
    requires ParentInv(s, cfg) && Enabled(s, Receive)
    ensures ParentInv(Next(s, Receive, cfg), cfg)
  {
    SameReports(s, Next(s, Receive, cfg), cfg);
  }

  lemma DrainKeepsParentInv(s: System, e: Step, cfg: Config)
    requires ParentInv(s, cfg) && Enabled(s, e) && (e.Drain? || e.SeeEmpty?)
    ensures ParentInv(Next(s, e, cfg), cfg)
  {
    SameReports(s, Next(s, e, cfg), cfg);
  }

  /** The deadlines do not change while nothing is posted. */
  lemma SameReports(s: System, t: System, cfg: Config)
    requires s.posted == t.posted && s.start == t.start
    ensures forall n: nat :: n <= |s.posted| ==> DeadlineOf(t, n, cfg) == DeadlineOf(s, n, cfg)
  {
    forall n: nat | n <= |s.posted|
      ensures DeadlineOf(t, n, cfg) == DeadlineOf(s, n, cfg)
    {
      DeadlineStable(s, t, n, cfg);
    }
  }

  lemma StepKeepsParentInv(s: System, e: Step, cfg: Config)
    requires ParentInv(s, cfg) && Enabled(s, e)
    ensures ParentInv(Next(s, e, cfg), cfg)
  {
    match e
    case ChildActs(_) => OutsideKeepsParentInv(s, e, cfg);
    case Tick(_) => OutsideKeepsParentInv(s, e, cfg);
    case Receive => ReceiveKeepsParentInv(s, cfg);
    case Drain => DrainKeepsParentInv(s, e, cfg);
    case SeeEmpty => DrainKeepsParentInv(s, e, cfg);
    case _ => LoopKeepsParentInv(s, e, cfg);
  }

  /** Everything above holds in every interleaving, at every moment. */
  lemma {:induction false} EveryInterleaving(states: seq<System>, steps: seq<Step>, cfg: Config, i: nat)
    requires IsRun(states, steps, cfg) && i < |states|
    ensures ChildInv(states[i]) && TimeoutInv(states[i], cfg) && PayloadInv(states[i], cfg) && ParentInv(states[i], cfg)
  {
    if i > 0 {
      EveryInterleaving(states, steps, cfg, i - 1);
      StepKeepsChildInv(states[i - 1], steps[i - 1], cfg);
      StepKeepsTimeoutInv(states[i - 1], steps[i - 1], cfg);
      StepKeepsPayloadInv(states[i - 1], steps[i - 1], cfg);
      StepKeepsParentInv(states[i - 1], steps[i - 1], cfg);
    }
  }

  // ---------------------------------------------------------------- consequences

  lemma EndIsLast(s: System, j: nat)
    requires ChildInv(s) && j < |s.posted| && s.posted[j].End?
    ensures j == |s.posted| - 1
  {
    var last := s.posted[|s.posted| - 1];
    assert Rank(last) <= 2;
  }

  /** The final result is END's payload if END was posted before the last look at the queue; failing that, a phase report drained at the end leaves None. */
  lemma FinalResult(states: seq<System>, steps: seq<Step>, cfg: Config, i: nat)
    requires IsRun(states, steps, cfg) && i < |states| && states[i].parent == Over
    ensures var s := states[i];
            && s.drainFrom <= s.final <= |s.posted|
            && (forall j :: 0 <= j < s.final && s.posted[j].End? ==> s.result == Final(s.posted[j].payload))
            && ((forall j :: 0 <= j < s.final ==> !s.posted[j].End?) ==>
                  s.result == if s.final > s.drainFrom then NoneData else Empty)
  {
    EveryInterleaving(states, steps, cfg, i);
    ResultWhenOver(states[i], cfg);
  }

  lemma ResultWhenOver(s: System, cfg: Config)
    requires ChildInv(s) && ParentInv(s, cfg) && s.parent == Over
    ensures s.drainFrom <= s.final <= |s.posted|
    ensures forall j :: 0 <= j < s.final && s.posted[j].End? ==> s.result == Final(s.posted[j].payload)
    ensures (forall j :: 0 <= j < s.final ==> !s.posted[j].End?) ==>
              s.result == if s.final > s.drainFrom then NoneData else Empty
  {
    forall j | 0 <= j < s.final && s.posted[j].End?
      ensures s.result == Final(s.posted[j].payload)
    {
      EndIsLast(s, j);
    }
  }

  /** The status that is stored; None where `result.setdefault` raises because the result is None. */
  function StoredStatus(d: Data): Option<string> {
    match d
    case Empty => Some("error (status not found)")
    case NoneData => None
    case Final(p) => Some(p.status)
  }

  /** The parent fails on its own result exactly when it drained phase reports and no END was among what was posted. */
  lemma ParentFailsIff(states: seq<System>, steps: seq<Step>, cfg: Config, i: nat)
    requires IsRun(states, steps, cfg) && i < |states| && states[i].parent == Over
    ensures var s := states[i];
            StoredStatus(s.result) == None <==>
            s.final > s.drainFrom && forall j :: 0 <= j < s.final ==> s.final <= |s.posted| && !s.posted[j].End?
  {
    FinalResult(states, steps, cfg, i);
  }

  /** A child that dies between reporting that the command runs and reporting the end makes it so. */
  lemma ChildDeathCanFailParent(cfg: Config, now: int) returns (states: seq<System>, steps: seq<Step>)
    requires cfg.useConnect && !cfg.hasPrepare && !cfg.checkProgress
    ensures IsRun(states, steps, cfg)
    ensures states[|steps|].parent == Over && StoredStatus(states[|steps|].result) == None
  {
    states, steps := [Start(cfg, now)], [];
    states, steps := Extend(states, steps, ChildActs(Advance), cfg);
    states, steps := Extend(states, steps, ChildActs(Advance), cfg);
    states, steps := Extend(states, steps, ChildActs(Die), cfg);
    states, steps := Extend(states, steps, CheckAlive, cfg);
    states, steps := Extend(states, steps, Drain, cfg);
    states, steps := Extend(states, steps, SeeEmpty, cfg);
  }

  /** A run goes on by any enabled step. */
  lemma Extend(states: seq<System>, steps: seq<Step>, e: Step, cfg: Config) returns (more: seq<System>, taken: seq<Step>)
    requires IsRun(states, steps, cfg) && Enabled(states[|steps|], e)
    ensures IsRun(more, taken, cfg) && |taken| == |steps| + 1
    ensures more[|taken|] == Next(states[|steps|], e, cfg)
  {
    more, taken := states + [Next(states[|steps|], e, cfg)], steps + [e];
    assert more[0] == states[0];
    forall i | 0 <= i < |taken|
      ensures Enabled(more[i], taken[i]) && more[i + 1] == Next(more[i], taken[i], cfg)
    {
      if i < |steps| {
        assert more[i] == states[i] && more[i + 1] == states[i + 1] && taken[i] == steps[i];
      }
    }
  }

  /** The stop event is set only after the phase that was the latest report when get gave up had overrun its own budget. */
  lemma StopOnlyAfterOverrun(states: seq<System>, steps: seq<Step>, cfg: Config, i: nat)
    requires IsRun(states, steps, cfg) && i < |steps| && !states[i].stop && states[i + 1].stop
    ensures var s := states[i];
            && steps[i] == CheckTime && s.seen == s.taken <= |s.posted|
            && s.clock > DeadlineOf(s, s.seen, cfg)
            && exists g :: 0 <= g < i && steps[g] == GiveUp && s.seen == |states[g].posted|
  {
    EveryInterleaving(states, steps, cfg, i);
    LastGiveUp(states, steps, cfg, i);
  }

  lemma {:induction false} LastGiveUp(states: seq<System>, steps: seq<Step>, cfg: Config, i: nat)
    requires IsRun(states, steps, cfg) && i < |states| && states[i].parent == GaveUp
    ensures exists g :: 0 <= g < i && steps[g] == GiveUp && states[i].seen == |states[g].posted|
  {
    if i > 0 {
      assert states[i] == Next(states[i - 1], steps[i - 1], cfg);
      if steps[i - 1] != GiveUp {
        LastGiveUp(states, steps, cfg, i - 1);
      }
    }
  }

  /** The payload in the parent's result is one that the child posted. */
  lemma ResultWasPosted(s: System, cfg: Config) returns (j: nat)
    requires ParentInv(s, cfg) && s.result.Final?
    ensures j < |s.posted| && s.posted[j].End? && s.posted[j].payload == s.result.payload
  {
    j := if s.taken > s.drainFrom then s.taken - 1 else s.drainFrom - 1;
  }

  /** A result that comes from a timeout implies that the stop event was set, and that the test is not a long-running one being run. */
  lemma TimeoutMeansStopped(states: seq<System>, steps: seq<Step>, cfg: Config, i: nat)
    requires IsRun(states, steps, cfg) && i < |states|
    requires states[i].result.Final? && states[i].result.payload.cause.Some?
    requires IsTimeout(states[i].result.payload.cause.value)
    ensures states[i].stop && (cfg.longRunning ==> cfg.checkProgress)
  {
    EveryInterleaving(states, steps, cfg, i);
    var j := ResultWasPosted(states[i], cfg);
    assert ReportsTimeout(states[i].posted[j]);
  }

  /** A test run that ends with status "timeout" was stopped; one that ends with "kickoff" was only kicked off. */
  lemma StatusIsTruthful(states: seq<System>, steps: seq<Step>, cfg: Config, i: nat)
    requires IsRun(states, steps, cfg) && i < |states| && !cfg.checkProgress && states[i].result.Final?
    ensures var status := states[i].result.payload.status;
            && (status == "timeout" ==> states[i].stop && !cfg.longRunning)
            && (status == "kickoff" ==> cfg.kickOffOnly && !cfg.useConnect)
            && (status == "finished" <==> states[i].result.payload.cause == None && status != "kickoff")
  {
    EveryInterleaving(states, steps, cfg, i);
    var j := ResultWasPosted(states[i], cfg);
    var p := states[i].posted[j].payload;
    assert Truthful(p, cfg);
    StatusesDiffer();
    if p.status == "timeout" {
      assert p.cause == Some(CommandTimeout);
      TimeoutMeansStopped(states, steps, cfg, i);
    }
  }

  /** Only a command that timed out is called a timeout, and no exception is called finished or kickoff. */
  lemma StatusesDiffer()
    ensures forall e :: StatusOf(e) == "timeout" <==> e == CommandTimeout
    ensures forall e :: StatusOf(e) != "finished" && StatusOf(e) != "kickoff"
    ensures "timeout" != "finished" && "timeout" != "kickoff" && "finished" != "kickoff"
  {
    forall e
      ensures StatusOf(e) == "timeout" <==> e == CommandTimeout
      ensures StatusOf(e) != "finished" && StatusOf(e) != "kickoff"
    {
      assert StatusOf(e)[0] in {'t', 'i', 'r', 'u'};
      assert "finished"[0] == 'f' && "kickoff"[0] == 'k' && "timeout"[0] == 't';
    }
    assert "finished"[0] == 'f' && "kickoff"[0] == 'k' && "timeout"[0] == 't';
  }

  /** The parent's last loop: every report left in the queue overwrites the result. */
  method DrainQueue(queue: seq<Msg>, before: Data) returns (result: Data)
    ensures result == if queue == [] then before else DataOf(queue[|queue| - 1])
  {
    result := before;
    var read := 0;
    while read < |queue|
      invariant 0 <= read <= |queue|
      invariant result == if read == 0 then before else DataOf(queue[read - 1])
    {
      result := DataOf(queue[read]);
      read := read + 1;
    }
  }
}
