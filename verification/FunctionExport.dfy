/**
 Worker.run_function_on_all_workers of python/ray/worker.py: any number of workers try to export the
 same functions, and a put-if-absent of a lock key decides which of them does. Every access to the
 shared store is a step of its own; between any two of them the call may raise, leaving its worker
 free to call again, or the whole worker may stop.
 */
module FunctionExport {
  import opened Base

  type Function = string
  type Job = int
  type Key = string

  /** What is stored under a function's key. */
  datatype Payload = Payload(job: Job, function': Function)

  const FUNCTION_SIZE_WARN_THRESHOLD: nat := 10_000_000

  /** How functions are told apart and measured: the key of the pickled function, its length, and the length that is refused. */
  datatype Pickling = Pickling(hash: Function -> Key, size: Function -> nat, errorThreshold: nat) {
    /** Up to the warning threshold a function passes whatever the error threshold is set to. */
    predicate Oversized(fn: Function) {
      size(fn) > FUNCTION_SIZE_WARN_THRESHOLD && size(fn) >= errorThreshold
    }
  }

  /** Where a worker is in its call; `Won` holds the lock, `Stored` has also put the value. */
  datatype Local =
    | Ready
    | AboutToLock(fn: Function, job: Job)
    | Won(fn: Function, job: Job)
    | Stored(fn: Function, job: Job)
    | Stopped

  /** A worker that is not connected only remembers its functions; connecting a driver then runs them in order. */
  datatype Worker = Worker(connected: bool, cached: seq<Function>, local: Local)

  /**
   The workers and the shared store: lock keys, values and the Exports list. As history, `ran` records
   which function ran on which worker and `abandoned` the keys locked by calls that ended without exporting.
   */
  datatype State = State(
    workers: map<nat, Worker>, locks: set<Key>, values: map<Key, Payload>, exports: seq<Key>,
    ran: set<(nat, Function)>, abandoned: set<Key>)

  datatype Step =
    | Call(w: nat, fn: Function, job: Job)
    | Connect(w: nat, script: bool)
    | RunCached(w: nat, job: Job)
    | TryLock(w: nat)
    | PutValue(w: nat)
    | Push(w: nat)
    | Abort(w: nat)
    | Stop(w: nat)

  /** The size check stands between the lock and the value, so an oversized function can only abort there. */
  ghost predicate Enabled(s: State, e: Step, p: Pickling) {
    && e.w in s.workers
    && var me := s.workers[e.w];
    match e
    case Call(_, _, _) => me.local.Ready?
    case Connect(_, _) => me.local.Ready? && !me.connected
    case RunCached(_, _) => me.local.Ready? && me.connected && me.cached != []
    case TryLock(_) => me.local.AboutToLock?
    case PutValue(_) => me.local.Won? && !p.Oversized(me.local.fn)
    case Push(_) => me.local.Stored?
    case Abort(_) => InCall(me.local)
    case Stop(_) => !me.local.Stopped?
  }

  predicate InCall(l: Local) {
    l.AboutToLock? || l.Won? || l.Stored?
  }

  /** The key a call holds the lock of, without having exported it yet. */
  function Held(l: Local, p: Pickling): Option<Key> {
    match l
    case Won(fn, _) => Some(p.hash(fn))
    case Stored(fn, _) => Some(p.hash(fn))
    case _ => None
  }

  function Put(s: State, w: nat, l: Local): State
    requires w in s.workers
  {
    s.(workers := s.workers[w := s.workers[w].(local := l)])
  }

  /** The worker leaves its call without exporting; a lock it held stays taken. */
  function Leave(s: State, w: nat, l: Local, p: Pickling): State
    requires w in s.workers
  {
    var held := Held(s.workers[w].local, p);
    Put(s, w, l).(abandoned := if held.Some? then s.abandoned + {held.value} else s.abandoned)
  }

  function Next(s: State, e: Step, p: Pickling): State
    requires e.w in s.workers
  {
    var me := s.workers[e.w];
    match e
    case Call(w, fn, job) =>
      if me.connected then Put(s, w, AboutToLock(fn, job)).(ran := s.ran + {(w, fn)})
      else s.(workers := s.workers[w := me.(cached := me.cached + [fn])])
    case Connect(w, script) =>
      s.(workers := s.workers[w := me.(connected := true, cached := if script then me.cached else [])])
    case RunCached(w, job) =>
      if me.cached == [] then s
      else s.(workers := s.workers[w := me.(cached := me.cached[1..], local := AboutToLock(me.cached[0], job))],
              ran := s.ran + {(w, me.cached[0])})
    case TryLock(w) =>
      if !me.local.AboutToLock? then s
      else if p.hash(me.local.fn) in s.locks then Put(s, w, Ready)
      else Put(s, w, Won(me.local.fn, me.local.job)).(locks := s.locks + {p.hash(me.local.fn)})
    case PutValue(w) =>
      if !me.local.Won? then s
      else Put(s, w, Stored(me.local.fn, me.local.job))
           .(values := s.values[p.hash(me.local.fn) := Payload(me.local.job, me.local.fn)])
    case Push(w) =>
      if !me.local.Stored? then s
      else Put(s, w, Ready).(exports := s.exports + [p.hash(me.local.fn)])
    case Abort(w) => Leave(s, w, Ready, p)
    case Stop(w) => Leave(s, w, Stopped, p)
  }

  ghost predicate Holds(s: State, w: nat, k: Key, p: Pickling) {
    w in s.workers && Held(s.workers[w].local, p) == Some(k)
  }

  /** Some call holds the lock of the key and may still go on. */
  ghost predicate InProgress(s: State, k: Key, p: Pickling) {
    exists w :: Holds(s, w, k, p)
  }

  /** A key is exported after its value, only under its lock, and by nobody else than the one holder. */
  ghost predicate Inv(s: State, p: Pickling) {
    && Distinct(s.exports)
    && (forall k :: k in s.exports ==> k in s.locks && k in s.values)
    && (forall k :: k in s.values ==> k in s.locks && p.hash(s.values[k].function') == k)
    && (forall w, k :: Holds(s, w, k, p) ==> k in s.locks && k !in s.exports)
    && (forall v, w, k :: Holds(s, v, k, p) && Holds(s, w, k, p) ==> v == w)
    && (forall k :: k in s.abandoned ==> k in s.locks && k !in s.exports && !InProgress(s, k, p))
    && (forall w :: w in s.workers && s.workers[w].local.Stored? ==> p.hash(s.workers[w].local.fn) in s.values)
  }

  /** A worker in the middle of a call has already run the function itself, and so has the worker that stored a value. */
  ghost predicate RanFirst(s: State) {
    && (forall w :: w in s.workers && InCall(s.workers[w].local) ==> (w, s.workers[w].local.fn) in s.ran)
    && (forall k :: k in s.values ==> RanSomewhere(s, s.values[k].function'))
  }

  ghost predicate RanSomewhere(s: State, fn: Function) {
    exists w :: (w, fn) in s.ran
  }

  lemma StepKeepsRanFirst(s: State, e: Step, p: Pickling)
    requires RanFirst(s) && Enabled(s, e, p)
    ensures RanFirst(Next(s, e, p))
  {
    var t := Next(s, e, p);
    forall k | k in t.values
      ensures RanSomewhere(t, t.values[k].function')
    {
      if k in s.values && t.values[k] == s.values[k] {
        var w :| (w, s.values[k].function') in s.ran;
        assert (w, t.values[k].function') in t.ran;
      } else {
        assert (e.w, t.values[k].function') in t.ran;
      }
    }
  }

  ghost predicate Initial(s: State) {
    s.locks == {} && s.values == map[] && s.exports == [] && s.ran == {} && s.abandoned == {}
    && forall w :: w in s.workers ==> s.workers[w].local.Ready?
  }

  lemma StepKeepsInv(s: State, e: Step, p: Pickling)
    requires Inv(s, p) && Enabled(s, e, p)
    ensures Inv(Next(s, e, p), p)
  {
    var t := Next(s, e, p);
    var before, after := Held(s.workers[e.w].local, p), Held(t.workers[e.w].local, p);
    OthersUnchanged(s, e, p);
    if before.Some? {
      assert Holds(s, e.w, before.value, p);
    }
    if e.Push? {
      AppendFresh(s.exports, before.value);
    }
    HoldersKeepLocks(s, e, p);
    forall k | k in t.abandoned
      ensures k in t.locks && k !in t.exports && !InProgress(t, k, p)
    {
      AbandonedStays(s, e, k, p);
    }
  }

  /** What a call holds is locked and unexported, and no two calls hold the same. */
  lemma HoldersKeepLocks(s: State, e: Step, p: Pickling)
    requires Inv(s, p) && Enabled(s, e, p)
    ensures var t := Next(s, e, p);
            && (forall w, k :: Holds(t, w, k, p) ==> k in t.locks && k !in t.exports)
            && (forall v, w, k :: Holds(t, v, k, p) && Holds(t, w, k, p) ==> v == w)
  {
    var t := Next(s, e, p);
    var before, after := Held(s.workers[e.w].local, p), Held(t.workers[e.w].local, p);
    OthersUnchanged(s, e, p);
    if before.Some? {
      assert Holds(s, e.w, before.value, p);
    }
    forall w, k | Holds(t, w, k, p)
      ensures k in t.locks && k !in t.exports
    {
      if w != e.w || before == after {
        assert Holds(s, w, k, p);
      }
    }
    forall v, w, k | Holds(t, v, k, p) && Holds(t, w, k, p)
      ensures v == w
    {
      if after != before && after.Some? {
        assert v != e.w ==> Holds(s, v, k, p);
        assert w != e.w ==> Holds(s, w, k, p);
      } else {
        assert Holds(s, v, k, p) && Holds(s, w, k, p);
      }
    }
  }

  /** An abandoned key stays locked, and no call can get hold of it again. */
  lemma AbandonedStays(s: State, e: Step, k: Key, p: Pickling)
    requires Inv(s, p) && Enabled(s, e, p) && k in Next(s, e, p).abandoned
    ensures var t := Next(s, e, p); k in t.locks && k !in t.exports && !InProgress(t, k, p)
  {
    var t := Next(s, e, p);
    OthersUnchanged(s, e, p);
    var before := Held(s.workers[e.w].local, p);
    if k !in s.abandoned {
      assert Holds(s, e.w, k, p);
    } else if before.Some? {
      assert Holds(s, e.w, before.value, p);
    }
    if w :| Holds(t, w, k, p) {
      if w != e.w {
        assert Holds(s, w, k, p);
      }
    }
  }

  lemma OthersUnchanged(s: State, e: Step, p: Pickling)
    requires e.w in s.workers
    ensures Next(s, e, p).workers.Keys == s.workers.Keys
    ensures forall w :: w in s.workers && w != e.w ==> Next(s, e, p).workers[w] == s.workers[w]
  {}

  /** A finite run: each state follows from the one before by an enabled step. */
  ghost predicate IsRun(states: seq<State>, steps: seq<Step>, p: Pickling) {
    && |states| == |steps| + 1
    && forall i :: 0 <= i < |steps| ==>
         Enabled(states[i], steps[i], p) && states[i + 1] == Next(states[i], steps[i], p)
  }

  /** In every interleaving, each function key is exported at most once, never before its value is stored, and its function ran where it was called before that. */
  lemma {:induction false} EveryInterleaving(states: seq<State>, steps: seq<Step>, p: Pickling, i: nat)
    requires IsRun(states, steps, p) && Initial(states[0]) && i < |states|
    ensures Inv(states[i], p) && RanFirst(states[i])
  {
    if i > 0 {
      EveryInterleaving(states, steps, p, i - 1);
      StepKeepsInv(states[i - 1], steps[i - 1], p);
      StepKeepsRanFirst(states[i - 1], steps[i - 1], p);
    }
  }

  // ---------------------------------------------------------------- calls that end while holding the lock

  /** Once a call on the key has raised or its worker has stopped, no continuation whatever exports the key. */
  lemma {:induction false} AbandonedForever(states: seq<State>, steps: seq<Step>, k: Key, p: Pickling, i: nat)
    requires IsRun(states, steps, p) && Inv(states[0], p) && k in states[0].abandoned && i < |states|
    ensures Inv(states[i], p) && k in states[i].abandoned && k !in states[i].exports
  {
    if i > 0 {
      AbandonedForever(states, steps, k, p, i - 1);
      StepKeepsInv(states[i - 1], steps[i - 1], p);
    }
  }

  ghost predicate CanBeExported(s: State, k: Key, p: Pickling) {
    exists states: seq<State>, steps: seq<Step> :: IsRun(states, steps, p) && states[0] == s && k in states[|steps|].exports
  }

  /** A locked key is exported, or a call on it is in progress, or such a call was abandoned, and only one of these. */
  ghost predicate Accounted(s: State, p: Pickling) {
    forall k :: k in s.locks ==> k in s.exports || InProgress(s, k, p) || k in s.abandoned
  }

  lemma StepKeepsAccounted(s: State, e: Step, p: Pickling)
    requires Inv(s, p) && Accounted(s, p) && Enabled(s, e, p)
    ensures Accounted(Next(s, e, p), p)
  {
    var t := Next(s, e, p);
    OthersUnchanged(s, e, p);
    forall k | k in t.locks
      ensures k in t.exports || InProgress(t, k, p) || k in t.abandoned
    {
      if k !in s.locks {
        assert Holds(t, e.w, k, p);
      } else if k in s.exports {
        assert k in t.exports;
      } else if InProgress(s, k, p) {
        var w :| Holds(s, w, k, p);
        if w == e.w && e.Push? {
          assert t.exports[|s.exports|] == k;
        } else if w != e.w || !(e.Abort? || e.Stop?) {
          assert Holds(t, w, k, p);
        }
      }
    }
  }

  /** In every interleaving, what becomes of a locked key is accounted for, and the three cases exclude one another. */
  lemma {:induction false} AlwaysAccounted(states: seq<State>, steps: seq<Step>, p: Pickling, i: nat)
    requires IsRun(states, steps, p) && Initial(states[0]) && i < |states|
    ensures Inv(states[i], p) && Accounted(states[i], p)
  {
    EveryInterleaving(states, steps, p, i);
    if i > 0 {
      AlwaysAccounted(states, steps, p, i - 1);
      StepKeepsAccounted(states[i - 1], steps[i - 1], p);
    }
  }

  /** A call on the key is in progress and past the size check, or will pass it. */
  ghost predicate MayFinish(s: State, k: Key, p: Pickling) {
    exists w :: Holds(s, w, k, p) && (s.workers[w].local.Stored? || !p.Oversized(s.workers[w].local.fn))
  }

  /** A key that is locked but not yet exported can still be exported exactly when a call on it is in progress whose function is not refused. */
  lemma LockedCanBeExportedIff(s: State, k: Key, p: Pickling)
    requires Inv(s, p) && k in s.locks && k !in s.exports
    ensures CanBeExported(s, k, p) <==> MayFinish(s, k, p)
  {
    if MayFinish(s, k, p) {
      var w :| Holds(s, w, k, p) && (s.workers[w].local.Stored? || !p.Oversized(s.workers[w].local.fn));
      FinishExport(s, w, k, p);
    } else if CanBeExported(s, k, p) {
      var states: seq<State>, steps: seq<Step> :| IsRun(states, steps, p) && states[0] == s && k in states[|steps|].exports;
      NeverFinishes(states, steps, k, p, |steps|);
    }
  }

  /** The key is locked and unexported, and no call on it may finish. */
  ghost predicate Blocked(s: State, k: Key, p: Pickling) {
    Inv(s, p) && k in s.locks && k !in s.exports && !MayFinish(s, k, p)
  }

  lemma StepKeepsBlocked(s: State, e: Step, k: Key, p: Pickling)
    requires Blocked(s, k, p) && Enabled(s, e, p)
    ensures Blocked(Next(s, e, p), k, p)
  {
    var t := Next(s, e, p);
    OthersUnchanged(s, e, p);
    StepKeepsInv(s, e, p);
    var before := Held(s.workers[e.w].local, p);
    if before == Some(k) {
      assert Holds(s, e.w, k, p);
    }
    if w :| Holds(t, w, k, p) && (t.workers[w].local.Stored? || !p.Oversized(t.workers[w].local.fn)) {
      assert Holds(s, w, k, p);
    }
  }

  lemma {:induction false} NeverFinishes(states: seq<State>, steps: seq<Step>, k: Key, p: Pickling, i: nat)
    requires IsRun(states, steps, p) && Blocked(states[0], k, p) && i < |states|
    ensures Blocked(states[i], k, p)
  {
    if i > 0 {
      NeverFinishes(states, steps, k, p, i - 1);
      StepKeepsBlocked(states[i - 1], steps[i - 1], k, p);
    }
  }

  /** A call that is not refused can finish by itself in at most two steps. */
  lemma FinishExport(s: State, w: nat, k: Key, p: Pickling)
    requires Holds(s, w, k, p) && (s.workers[w].local.Stored? || !p.Oversized(s.workers[w].local.fn))
    ensures CanBeExported(s, k, p)
  {
    if s.workers[w].local.Won? {
      var t := Next(s, PutValue(w), p);
      var u := Next(t, Push(w), p);
      assert u.exports[|s.exports|] == k;
      assert IsRun([s, t, u], [PutValue(w), Push(w)], p);
      assert [s, t, u][0] == s && k in [s, t, u][2].exports;
    } else {
      var u := Next(s, Push(w), p);
      assert u.exports[|s.exports|] == k;
      assert IsRun([s, u], [Push(w)], p);
      assert [s, u][0] == s && k in [s, u][1].exports;
    }
  }

  // ---------------------------------------------------------------- one call without interruption

  /** All steps of one call in a row; the size check raises for an oversized function. */
  function Uninterrupted(s: State, w: nat, fn: Function, job: Job, p: Pickling): State
    requires w in s.workers
  {
    var called := Next(s, Call(w, fn, job), p);
    if !s.workers[w].connected then called
    else
      var tried := Next(called, TryLock(w), p);
      if !tried.workers[w].local.Won? then tried
      else if p.Oversized(fn) then Next(tried, Abort(w), p)
      else Next(Next(tried, PutValue(w), p), Push(w), p)
  }

  /** A connected worker that is not interrupted leaves the key exported, unless somebody had taken the lock before or the function is oversized. */
  lemma UninterruptedExports(s: State, w: nat, fn: Function, job: Job, p: Pickling)
    requires Inv(s, p) && Enabled(s, Call(w, fn, job), p) && s.workers[w].connected
    ensures var t, k := Uninterrupted(s, w, fn, job, p), p.hash(fn);
            && Inv(t, p) && t.workers[w].local.Ready? && (w, fn) in t.ran && k in t.locks
            && (if k in s.locks || p.Oversized(fn) then t.exports == s.exports && t.values == s.values
                else t.exports == s.exports + [k] && t.values == s.values[k := Payload(job, fn)])
            && t.abandoned == if k !in s.locks && p.Oversized(fn) then s.abandoned + {k} else s.abandoned
  {
    var called := Next(s, Call(w, fn, job), p);
    StepKeepsInv(s, Call(w, fn, job), p);
    var tried := Next(called, TryLock(w), p);
    StepKeepsInv(called, TryLock(w), p);
    if tried.workers[w].local.Won? {
      if p.Oversized(fn) {
        StepKeepsInv(tried, Abort(w), p);
      } else {
        StepKeepsInv(tried, PutValue(w), p);
        StepKeepsInv(Next(tried, PutValue(w), p), Push(w), p);
      }
    }
  }

  /** Calling with an oversized function takes the lock for nothing: the worker lives on, and whatever any worker does later, the key is never exported. */
  lemma OversizedBlocksKey(s: State, w: nat, fn: Function, job: Job, p: Pickling, states: seq<State>, steps: seq<Step>, i: nat)
    requires Inv(s, p) && Enabled(s, Call(w, fn, job), p) && s.workers[w].connected
    requires p.Oversized(fn) && p.hash(fn) !in s.locks
    requires IsRun(states, steps, p) && states[0] == Uninterrupted(s, w, fn, job, p) && i < |states|
    ensures states[0].workers[w].local.Ready?
    ensures p.hash(fn) in states[i].locks && p.hash(fn) !in states[i].exports
  {
    UninterruptedExports(s, w, fn, job, p);
    AbandonedForever(states, steps, p.hash(fn), p, i);
  }

  /** The state a whole call leads to, when the worker is free before it. */
  function CallResult(s: State, w: nat, fn: Function, job: Job, p: Pickling): State {
    var k, called := p.hash(fn), s.(ran := s.ran + {(w, fn)});
    if k in s.locks then called
    else if p.Oversized(fn) then called.(locks := s.locks + {k}, abandoned := s.abandoned + {k})
    else called.(locks := s.locks + {k}, values := s.values[k := Payload(job, fn)], exports := s.exports + [k])
  }

  lemma CallLeadsTo(s: State, w: nat, fn: Function, job: Job, p: Pickling)
    requires w in s.workers && s.workers[w].local == Ready && s.workers[w].connected
    ensures Uninterrupted(s, w, fn, job, p) == CallResult(s, w, fn, job, p)
  {
    assert forall l :: s.workers[w := s.workers[w].(local := l)][w := s.workers[w]] == s.workers;
  }

  /** The shared key-value store and Exports list. */
  class Gcs {
    var locks: set<Key>
    var values: map<Key, Payload>
    var exports: seq<Key>
    ghost var ran: set<(nat, Function)>
    ghost var abandoned: set<Key>

    constructor ()
      ensures locks == {} && values == map[] && exports == [] && ran == {} && abandoned == {}
    {
      locks, values, exports, ran, abandoned := {}, map[], [], {}, {};
    }

    /** Put without overwriting: true when the lock key was not there before. */
    method PutLock(k: Key) returns (added: bool)
      modifies this`locks
      ensures added == (k !in old(locks)) && locks == old(locks) + {k}
    {
      added := k !in locks;
      locks := locks + {k};
    }
  }

  class WorkerProcess {
    const id: nat
    var connected: bool
    var cached: seq<Function>

    constructor (n: nat)
      ensures id == n && !connected && cached == []
    {
      id, connected, cached := n, false, [];
    }

    /** The state in which only this worker is known. */
    ghost function View(g: Gcs): State
      reads this, g
    {
      State(map[id := Worker(connected, cached, Ready)], g.locks, g.values, g.exports, g.ran, g.abandoned)
    }

    /** Does what the steps of a call do in a row; false where the original raises because the function is oversized. */
    method RunFunctionOnAllWorkers(fn: Function, job: Job, g: Gcs, p: Pickling) returns (ok: bool)
      modifies this`cached, g
      ensures View(g) == Uninterrupted(old(View(g)), id, fn, job, p)
      ensures !ok <==> connected && p.hash(fn) !in old(g.locks) && p.Oversized(fn)
    {
      if !connected {
        cached := cached + [fn];
        return true;
      }
      CallLeadsTo(View(g), id, fn, job, p);
      var key := p.hash(fn);
      g.ran := g.ran + {(id, fn)};
      var added := g.PutLock(key);
      if !added {
        assert g.locks == old(g.locks);
        return true;
      }
      if p.size(fn) > FUNCTION_SIZE_WARN_THRESHOLD && p.size(fn) >= p.errorThreshold {
        g.abandoned := g.abandoned + {key};
        return false;
      }
      g.values := g.values[key := Payload(job, fn)];
      g.exports := g.exports + [key];
      ok := true;
    }
  }
}
