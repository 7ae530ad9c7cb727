/**
 When remote functions and actor classes are exported: python/ray/remote_function.py and
 python/ray/actor.py export a definition lazily, once per (session, job) pair, where the session
 index of python/ray/worker.py grows with every disconnect of a connected worker.
 */
module SessionExport {
  import opened Base

  datatype Pair = Pair(session: nat, job: int)

  /** A remote function or an actor class. Functions are pickled before the export, actor classes are not. */
  datatype Definition = Definition(crossLanguage: bool, isActor: bool, last: Option<Pair>)

  /** The definition table of cluster `gcs` has a row for definition `id` under `job`. */
  datatype Row = Row(gcs: nat, job: int, id: string)

  datatype Submission = Submission(id: string, gcs: nat, job: int, backed: bool)

  /**
   The worker and its definitions, the rows of all clusters, and as history the submissions made and
   the exports that failed.
   */
  datatype State = State(
    connected: bool, session: nat, gcs: nat, job: int,
    definitions: map<string, Definition>, rows: set<Row>,
    submissions: seq<Submission>, failed: set<(Pair, string)>)
  {
    function Current(): Pair {
      Pair(session, job)
    }

    /** The guard of `_remote`. */
    predicate NeedsExport(id: string)
      requires id in definitions
    {
      !definitions[id].crossLanguage && definitions[id].last != Some(Current())
    }

    function Recorded(id: string): State
      requires id in definitions
    {
      this.(definitions := definitions[id := definitions[id].(last := Some(Current()))])
    }

    function Submitted(id: string): State
      requires id in definitions
    {
      this.(submissions := submissions + [Submission(id, gcs, job, definitions[id].crossLanguage || Row(gcs, job, id) in rows)])
    }
  }

  /** How a call goes if it has to export: pickling may fail first, then the export itself. */
  datatype Outcome = Fine | PickleFails | ExportFails

  datatype Step =
    | Define(id: string, crossLanguage: bool, isActor: bool)
    | Connect(gcs: nat, job: int)
    | SwitchJob(job: int)
    | Disconnect
    | Remote(id: string, outcome: Outcome)

  /** Connecting twice and calls on an unknown definition are errors of the caller that change nothing. */
  function Next(s: State, e: Step): State {
    match e
    case Define(id, crossLanguage, isActor) =>
      if id in s.definitions then s else s.(definitions := s.definitions[id := Definition(crossLanguage, isActor, None)])
    case Connect(gcs, job) => if s.connected then s else s.(connected := true, gcs := gcs, job := job)
    case SwitchJob(job) => if s.connected then s.(job := job) else s
    case Disconnect => if s.connected then s.(connected := false, session := s.session + 1) else s
    case Remote(id, outcome) => if !s.connected || id !in s.definitions then s else RemoteCall(s, id, outcome)
  }

  /** The pair is recorded before the export is attempted, so a failed export is not attempted again. */
  function RemoteCall(s: State, id: string, outcome: Outcome): State
    requires id in s.definitions
  {
    if !s.NeedsExport(id) then s.Submitted(id)
    else if outcome == PickleFails && !s.definitions[id].isActor then s
    else if outcome == Fine then s.Recorded(id).(rows := s.rows + {Row(s.gcs, s.job, id)}).Submitted(id)
    else s.Recorded(id).(failed := s.failed + {(s.Current(), id)})
  }

  // ---------------------------------------------------------------- the worker itself

  class Driver {
    var connected: bool
    var session: nat
    var gcs: nat
    var job: int
    var definitions: map<string, Definition>
    var rows: set<Row>
    ghost var submissions: seq<Submission>
    ghost var failed: set<(Pair, string)>

    ghost function Abs(): State
      reads this
    {
      State(connected, session, gcs, job, definitions, rows, submissions, failed)
    }

    constructor ()
      ensures Abs() == INITIAL
    {
      connected, session, gcs, job, definitions, rows := false, 0, 0, 0, map[], {};
      submissions, failed := [], {};
    }

    method ConnectTo(cluster: nat, newJob: int) returns (ok: bool)
      modifies this
      ensures ok == !old(connected) && Abs() == Next(old(Abs()), Connect(cluster, newJob))
    {
      if connected {
        return false;
      }
      connected, gcs, job := true, cluster, newJob;
      ok := true;
    }

    method DisconnectWorker()
      modifies this
      ensures Abs() == Next(old(Abs()), Disconnect)
    {
      if connected {
        session := session + 1;
      }
      connected := false;
    }

    /** Returns whether the task or actor creation was submitted. */
    method CallRemote(id: string, outcome: Outcome) returns (submitted: bool)
      modifies this
      ensures Abs() == Next(old(Abs()), Remote(id, outcome))
      ensures submitted <==> |submissions| == |old(submissions)| + 1
    {
      if !connected || id !in definitions {
        return false;
      }
      var d := definitions[id];
      if !d.crossLanguage && d.last != Some(Pair(session, job)) {
        if outcome == PickleFails && !d.isActor {
          return false;
        }
        definitions := definitions[id := d.(last := Some(Pair(session, job)))];
        if outcome != Fine {
          failed := failed + {(Pair(session, job), id)};
          return false;
        }
        rows := rows + {Row(gcs, job, id)};
      }
      submissions := submissions + [Submission(id, gcs, job, d.crossLanguage || Row(gcs, job, id) in rows)];
      submitted := true;
    }
  }

  // ---------------------------------------------------------------- every run

  const INITIAL := State(false, 0, 0, 0, map[], {}, [], {})

  /** A recorded pair of this session can only be there while connected, and then its export reached this cluster or failed. */
  ghost predicate RecordOk(s: State, id: string)
    requires id in s.definitions
  {
    var last := s.definitions[id].last;
    last.Some? ==>
      && last.value.session <= s.session
      && (last.value.session == s.session ==>
            s.connected && (Row(s.gcs, last.value.job, id) in s.rows || (last.value, id) in s.failed))
  }

  ghost predicate Inv(s: State) {
    forall id :: id in s.definitions ==> RecordOk(s, id)
  }

  lemma StepKeepsInv(s: State, e: Step)
    requires Inv(s)
    ensures Inv(Next(s, e))
  {
    var t := Next(s, e);
    forall id | id in t.definitions
      ensures RecordOk(t, id)
    {
      assert id in s.definitions ==> RecordOk(s, id);
    }
  }

  function After(s: State, es: seq<Step>): State {
    if es == [] then s else Next(After(s, es[..|es| - 1]), es[|es| - 1])
  }

  lemma {:induction false} EveryRunKeepsInv(es: seq<Step>)
    ensures Inv(After(INITIAL, es))
  {
    if es != [] {
      EveryRunKeepsInv(es[..|es| - 1]);
      StepKeepsInv(After(INITIAL, es[..|es| - 1]), es[|es| - 1]);
    }
  }

  /** After a connected worker disconnects, no recorded pair can ever be current again. */
  lemma {:induction false} PairsNeverRecur(s: State, es: seq<Step>, p: Pair)
    requires Inv(s) && s.connected && p.session <= s.session
    ensures After(Next(s, Disconnect), es).Current() != p
    ensures After(Next(s, Disconnect), es).session > s.session
  {
    if es != [] {
      PairsNeverRecur(s, es[..|es| - 1], p);
    }
  }

  ghost predicate AllBacked(s: State) {
    forall i :: 0 <= i < |s.submissions| ==> s.submissions[i].backed
  }

  /** If no export fails, every task and actor creation ever submitted had its definition in the cluster it went to. */
  lemma {:induction false} SubmissionsAreBacked(es: seq<Step>)
    requires After(INITIAL, es).failed == {}
    ensures AllBacked(After(INITIAL, es)) && Inv(After(INITIAL, es))
  {
    EveryRunKeepsInv(es);
    if es != [] {
      var most, e := es[..|es| - 1], es[|es| - 1];
      var s := After(INITIAL, most);
      FailuresStay(s, e);
      SubmissionsAreBacked(most);
      if e.Remote? && s.connected && e.id in s.definitions {
        assert RecordOk(s, e.id);
      }
    }
  }

  lemma FailuresStay(s: State, e: Step)
    ensures s.failed <= Next(s, e).failed
  {}

  /** A call submits an unbacked definition exactly when its export failed in this very session and job and no other export reached the cluster. */
  lemma UnbackedIff(es: seq<Step>, id: string, outcome: Outcome)
    requires var s := After(INITIAL, es); s.connected && id in s.definitions
    ensures var s := After(INITIAL, es);
            var t := Next(s, Remote(id, outcome));
            (|t.submissions| > |s.submissions| && !t.submissions[|s.submissions|].backed) <==>
            (!s.definitions[id].crossLanguage && s.definitions[id].last == Some(s.Current())
              && (s.Current(), id) in s.failed && Row(s.gcs, s.job, id) !in s.rows)
  {
    EveryRunKeepsInv(es);
    assert RecordOk(After(INITIAL, es), id);
  }

  /** One failed export and a second call are enough, for any definition that is not cross-language. */
  lemma FailedExportIsNotRepeated(gcs: nat, job: int, id: string, isActor: bool)
    ensures !AllBacked(After(INITIAL, [Define(id, false, isActor), Connect(gcs, job), Remote(id, ExportFails), Remote(id, Fine)]))
  {
    var steps := [Define(id, false, isActor), Connect(gcs, job), Remote(id, ExportFails), Remote(id, Fine)];
    assert steps[..3] == [Define(id, false, isActor), Connect(gcs, job), Remote(id, ExportFails)];
    assert steps[..3][..2] == [Define(id, false, isActor), Connect(gcs, job)];
    assert steps[..3][..2][..1] == [Define(id, false, isActor)];
    assert steps[..3][..2][..1][..0] == [];
    var s1 := Next(INITIAL, Define(id, false, isActor));
    var s2 := Next(s1, Connect(gcs, job));
    var s := Next(s2, Remote(id, ExportFails));
    assert After(INITIAL, steps[..3][..2][..1]) == s1;
    assert After(INITIAL, steps[..3][..2]) == s2;
    assert After(INITIAL, steps[..3]) == s;
    assert !Next(s, Remote(id, Fine)).submissions[0].backed;
  }
}
