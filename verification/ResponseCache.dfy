/**
 The response cache of dashboard/utils.py (aiohttp_cache): requests are answered from an ordered
 dictionary, misses and expired entries start a handler task, and a finished task fills the cache.
 */
module ResponseCache {
  import opened Base
  import opened Recency

  datatype Verb = GET | DELETE | OTHER(name: string)
  datatype Request = Request(verb: Verb, path: string, body: string)

  /** Requests whose method has no body are told apart by path alone. */
  datatype Key = NoBody(path: string) | WithBody(path: string, body: string)

  function KeyOf(r: Request): Key {
    if HasNoBody(r) then NoBody(r.path) else WithBody(r.path, r.body)
  }

  predicate HasNoBody(r: Request) { r.verb == GET || r.verb == DELETE }

  datatype Response = Response(status: int, headers: map<string, string>, body: string)

  /** How a handler task ended; an exception becomes an error response. */
  datatype Outcome = Returned(response: Response) | Raised(trace: string)

  datatype Settings = Settings(ttl: int, maxsize: nat, errorResponse: string -> Response) {
    function ResponseOf(o: Outcome): Response {
      match o case Returned(r) => r case Raised(trace) => errorResponse(trace)
    }
  }

  datatype Entry = Entry(key: Key, data: Response, expiration: int, task: nat)

  /** What the requester gets: cached data, cached data while a task refreshes it, or a task to wait for. */
  datatype Reply = Cached(data: Response) | Stale(data: Response, task: nat) | Await(task: nat)

  /** A finished handler task: its number, its response and when it was stored. */
  datatype Finished = Finished(task: nat, response: Response, at: int)

  /**
   Tasks are numbered in order of creation and `started` holds the key each was created for.
   `touches` and `finished` record history: the keys hit or stored, and the tasks done.
   */
  datatype State = State(
    entries: seq<Entry>, started: seq<Key>, pending: set<nat>,
    touches: seq<Key>, finished: seq<Finished>)

  const EMPTY := State([], [], {}, [], [])

  function Keys(es: seq<Entry>): (ks: seq<Key>)
    ensures |ks| == |es|
  {
    if es == [] then [] else Keys(es[..|es| - 1]) + [es[|es| - 1].key]
  }

  function Get(es: seq<Entry>, k: Key): Option<Entry> {
    if es == [] then None
    else if es[|es| - 1].key == k then Some(es[|es| - 1])
    else Get(es[..|es| - 1], k)
  }

  function Without(es: seq<Entry>, k: Key): seq<Entry> {
    if es == [] then []
    else Without(es[..|es| - 1], k) + if es[|es| - 1].key == k then [] else [es[|es| - 1]]
  }

  /** A request: a hit moves its entry to the end; only an entry that is neither being updated nor expired is served alone. */
  function Ask(s: State, k: Key, now: int): (State, Reply) {
    var task := |s.started|;
    match Get(s.entries, k)
    case None => (s.(started := s.started + [k], pending := s.pending + {task}), Await(task))
    case Some(e) =>
      var hit := s.(entries := Without(s.entries, k) + [e], touches := s.touches + [k]);
      if e.task in s.pending || e.expiration >= now then (hit, Cached(e.data))
      else (hit.(started := s.started + [k], pending := s.pending + {task}), Stale(e.data, task))
  }

  /** Drops the oldest entry when there are too many. */
  function Trim(es: seq<Entry>, maxsize: nat): seq<Entry> {
    if |es| > maxsize then es[1..] else es
  }

  /** A pending task ends: its response becomes the newest entry for its key and the oldest entry goes if there are too many. */
  function Finish(s: State, task: nat, response: Response, now: int, c: Settings): State
    requires task < |s.started|
  {
    var k := s.started[task];
    State(Trim(Without(s.entries, k) + [Entry(k, response, now + c.ttl, task)], c.maxsize),
          s.started, s.pending - {task}, s.touches + [k], s.finished + [Finished(task, response, now)])
  }

  // ---------------------------------------------------------------- the cache itself

  class Cache {
    const settings: Settings
    var entries: seq<Entry>
    var started: seq<Key>
    var pending: set<nat>
    ghost var touches: seq<Key>
    ghost var finished: seq<Finished>

    ghost function Abs(): State
      reads this
    {
      State(entries, started, pending, touches, finished)
    }

    constructor (c: Settings)
      requires c.maxsize > 0
      ensures settings == c && Abs() == EMPTY
    {
      settings := c;
      entries, started, pending, touches, finished := [], [], {}, [], [];
    }

    method HandleRequest(r: Request, now: int) returns (reply: Reply)
      modifies this
      ensures (Abs(), reply) == Ask(old(Abs()), KeyOf(r), now)
    {
      var key := KeyOf(r);
      var value := Get(entries, key);
      if value.Some? {
        entries := Without(entries, key) + [value.value];
        touches := touches + [key];
        if value.value.task in pending || value.value.expiration >= now {
          return Cached(value.value.data);
        }
      }
      var task := |started|;
      started := started + [key];
      pending := pending + {task};
      reply := if value.None? then Await(task) else Stale(value.value.data, task);
    }

    method UpdateCache(task: nat, outcome: Outcome, now: int) returns (response: Response)
      requires task in pending && task < |started|
      modifies this
      ensures response == settings.ResponseOf(outcome)
      ensures Abs() == Finish(old(Abs()), task, response, now, settings)
    {
      response := settings.ResponseOf(outcome);
      var key := started[task];
      entries := Without(entries, key) + [Entry(key, response, now + settings.ttl, task)];
      pending := pending - {task};
      touches, finished := touches + [key], finished + [Finished(task, response, now)];
      if |entries| > settings.maxsize {
        entries := entries[1..];
      }
    }
  }

  // ---------------------------------------------------------------- every interleaving

  datatype Event = Asked(key: Key, now: int) | Ended(task: nat, outcome: Outcome, now: int)

  ghost predicate Enabled(s: State, e: Event) {
    e.Ended? ==> e.task in s.pending
  }

  function After(s: State, e: Event, c: Settings): State
    requires e.Ended? ==> e.task < |s.started|
  {
    match e
    case Asked(k, now) => Ask(s, k, now).0
    case Ended(task, outcome, now) => Finish(s, task, c.ResponseOf(outcome), now, c)
  }

  /** The states of a run, in order, starting from the empty cache. */
  ghost predicate IsRun(states: seq<State>, events: seq<Event>, c: Settings) {
    && |states| == |events| + 1 && states[0] == EMPTY
    && forall i :: 0 <= i < |events| ==>
         && Enabled(states[i], events[i])
         && (events[i].Ended? ==> events[i].task < |states[i].started|)
         && states[i + 1] == After(states[i], events[i], c)
  }

  /** Task `e.task` is done, ran for the entry's key, and no later finished task did. */
  ghost predicate IsLatestRun(s: State, e: Entry, c: Settings) {
    exists i :: 0 <= i < |s.finished| && IsRunAt(s, e, i, c)
  }

  ghost predicate IsRunAt(s: State, e: Entry, i: nat, c: Settings)
    requires i < |s.finished|
  {
    var f := s.finished[i];
    && f.task == e.task && f.response == e.data && e.expiration == f.at + c.ttl
    && e.task < |s.started| && s.started[e.task] == e.key && e.task !in s.pending
    && forall j :: i < j < |s.finished| ==> RanFor(s, j) != Some(e.key)
  }

  ghost function RanFor(s: State, j: nat): Option<Key>
    requires j < |s.finished|
  {
    if s.finished[j].task < |s.started| then Some(s.started[s.finished[j].task]) else None
  }

  /** The cached keys, oldest first, are the newest of the keys touched. */
  ghost predicate KeysInv(s: State, c: Settings) {
    InOrder(s.entries, s.touches, c.maxsize)
  }

  ghost predicate InOrder(es: seq<Entry>, touches: seq<Key>, m: nat) {
    Keys(es) == Newest(ByLastUse(touches), m)
  }

  /** Each entry holds the response of the latest finished run for its key. */
  ghost predicate RunsInv(s: State, c: Settings) {
    && (forall t :: t in s.pending ==> t < |s.started|)
    && (forall j :: 0 <= j < |s.finished| ==> s.finished[j].task < |s.started|)
    && (forall e :: e in s.entries ==> IsLatestRun(s, e, c))
  }

  ghost predicate Inv(s: State, c: Settings) {
    KeysInv(s, c) && RunsInv(s, c)
  }

  lemma {:induction false} WithoutKeys(es: seq<Entry>, k: Key)
    ensures Keys(Without(es, k)) == Remove(Keys(es), k)
    ensures forall e :: e in Without(es, k) <==> e in es && e.key != k
  {
    if es != [] {
      var init, last := es[..|es| - 1], es[|es| - 1];
      WithoutKeys(init, k);
      assert es == init + [last];
      assert Keys(es)[..|es| - 1] == Keys(init);
      if last.key == k {
        assert Without(init, k) + [] == Without(init, k);
      } else {
        KeysSnoc(Without(init, k), last);
      }
    }
  }

  lemma KeysSnoc(es: seq<Entry>, e: Entry)
    ensures Keys(es + [e]) == Keys(es) + [e.key]
  {
    assert (es + [e])[..|es|] == es;
  }

  lemma {:induction false} KeysTail(es: seq<Entry>)
    requires es != []
    ensures Keys(es[1..]) == Keys(es)[1..]
  {
    if |es| > 1 {
      KeysTail(es[..|es| - 1]);
      assert es[1..][..|es| - 2] == es[..|es| - 1][1..];
    }
  }

  lemma {:induction false} GetKeys(es: seq<Entry>, k: Key)
    ensures Get(es, k).Some? <==> k in Keys(es)
    ensures Get(es, k).Some? ==> Get(es, k).value in es && Get(es, k).value.key == k
  {
    if es != [] {
      GetKeys(es[..|es| - 1], k);
      assert es == es[..|es| - 1] + [es[|es| - 1]];
    }
  }

  lemma TouchedKeys(touches: seq<Key>, k: Key, m: nat)
    requires m > 0
    ensures Newest(ByLastUse(touches + [k]), m) == Newest(Remove(Newest(ByLastUse(touches), m), k) + [k], m)
  {
    assert (touches + [k])[..|touches|] == touches;
    ByLastUseDistinct(touches);
    TouchNewest(ByLastUse(touches), k, m);
  }

  /** Adding to the history without touching entry `e` keeps its latest run. */
  lemma StaysLatest(s: State, t: State, e: Entry, c: Settings)
    requires IsLatestRun(s, e, c) && s.started <= t.started
    requires forall j :: 0 <= j < |s.finished| ==> s.finished[j].task < |s.started|
    requires t.finished == s.finished && (t.pending <= s.pending || t.pending == s.pending + {|s.started|})
    ensures IsLatestRun(t, e, c)
  {
    var i :| 0 <= i < |s.finished| && IsRunAt(s, e, i, c);
    forall j | i < j < |t.finished|
      ensures RanFor(t, j) != Some(e.key)
    {
      assert RanFor(s, j) != Some(e.key);
    }
    assert IsRunAt(t, e, i, c);
  }

  lemma AskKeepsKeys(s: State, k: Key, now: int, c: Settings)
    requires KeysInv(s, c) && c.maxsize > 0
    ensures KeysInv(Ask(s, k, now).0, c)
  {
    GetKeys(s.entries, k);
    var v := Get(s.entries, k);
    if v.Some? {
      MovedEntry(s.entries, v.value, s.touches, c.maxsize);
    }
  }

  lemma MovedEntry(es: seq<Entry>, e: Entry, touches: seq<Key>, m: nat)
    requires InOrder(es, touches, m) && e.key in Keys(es) && m > 0
    ensures InOrder(Without(es, e.key) + [e], touches + [e.key], m)
  {
    calc {
      Keys(Without(es, e.key) + [e]);
      { MovedKeys(es, e, e.key); }
      Remove(Keys(es), e.key) + [e.key];
      { HitKeys(Keys(es), touches, e.key, m); }
      Newest(ByLastUse(touches + [e.key]), m);
    }
  }

  lemma MovedKeys(es: seq<Entry>, e: Entry, k: Key)
    requires e.key == k
    ensures Keys(Without(es, k) + [e]) == Remove(Keys(es), k) + [k]
    ensures |Without(es, k) + [e]| <= |es| + 1
  {
    WithoutKeys(es, k);
    KeysSnoc(Without(es, k), e);
    RemoveElements(Keys(es), k);
  }

  lemma TrimKeys(es: seq<Entry>, m: nat)
    requires |es| <= m + 1
    ensures Keys(Trim(es, m)) == Newest(Keys(es), m)
  {
    if |es| > m {
      KeysTail(es);
    }
  }

  lemma AskKeepsRuns(s: State, k: Key, now: int, c: Settings)
    requires RunsInv(s, c)
    ensures RunsInv(Ask(s, k, now).0, c)
  {
    var t := Ask(s, k, now).0;
    GetKeys(s.entries, k);
    forall e | e in t.entries
      ensures IsLatestRun(t, e, c)
    {
      var v := Get(s.entries, k);
      if v.Some? {
        FilledEntries(s.entries, v.value, e, |t.entries|);
      }
      StaysLatest(s, t, e, c);
    }
  }

  /** A hit reorders the keys but never exceeds the size. */
  lemma HitKeys(ks: seq<Key>, touches: seq<Key>, k: Key, m: nat)
    requires ks == Newest(ByLastUse(touches), m) && k in ks && m > 0
    ensures Remove(ks, k) + [k] == Newest(ByLastUse(touches + [k]), m)
  {
    ByLastUseDistinct(touches);
    assert Distinct(ks);
    RemovePresent(ks, k);
    TouchedKeys(touches, k, m);
  }

  lemma FinishKeepsKeys(s: State, task: nat, response: Response, now: int, c: Settings)
    requires KeysInv(s, c) && c.maxsize > 0 && task < |s.started|
    ensures KeysInv(Finish(s, task, response, now, c), c)
  {
    var e := Entry(s.started[task], response, now + c.ttl, task);
    StoredKeys(s.entries, e, s.touches, c.maxsize);
  }

  lemma StoredKeys(es: seq<Entry>, e: Entry, touches: seq<Key>, m: nat)
    requires InOrder(es, touches, m) && m > 0
    ensures InOrder(Trim(Without(es, e.key) + [e], m), touches + [e.key], m)
  {
    var filled := Without(es, e.key) + [e];
    MovedKeys(es, e, e.key);
    assert |es| == |Keys(es)| <= m;
    calc {
      Keys(Trim(filled, m));
      { TrimKeys(filled, m); }
      Newest(Keys(filled), m);
      Newest(Remove(Newest(ByLastUse(touches), m), e.key) + [e.key], m);
      { TouchedKeys(touches, e.key, m); }
      Newest(ByLastUse(touches + [e.key]), m);
    }
  }

  lemma FinishKeepsRuns(s: State, task: nat, response: Response, now: int, c: Settings)
    requires RunsInv(s, c) && task in s.pending
    ensures RunsInv(Finish(s, task, response, now, c), c)
  {
    var t := Finish(s, task, response, now, c);
    var k := s.started[task];
    var added := Entry(k, response, now + c.ttl, task);
    forall e | e in t.entries
      ensures IsLatestRun(t, e, c)
    {
      FilledEntries(s.entries, added, e, c.maxsize);
      if e == added {
        assert IsRunAt(t, e, |s.finished|, c);
      } else {
        OthersStayLatest(s, t, e, task, response, now, c);
      }
    }
  }

  lemma FilledEntries(es: seq<Entry>, added: Entry, e: Entry, m: nat)
    requires e in Trim(Without(es, added.key) + [added], m)
    ensures e == added || (e in es && e.key != added.key)
  {
    WithoutKeys(es, added.key);
    assert e in Without(es, added.key) + [added];
  }

  lemma OthersStayLatest(s: State, t: State, e: Entry, task: nat, response: Response, now: int, c: Settings)
    requires IsLatestRun(s, e, c) && task < |s.started| && s.started[task] != e.key
    requires t.started == s.started && t.pending == s.pending - {task}
    requires t.finished == s.finished + [Finished(task, response, now)]
    ensures IsLatestRun(t, e, c)
  {
    var i :| 0 <= i < |s.finished| && IsRunAt(s, e, i, c);
    forall j | i < j < |t.finished|
      ensures RanFor(t, j) != Some(e.key)
    {
      if j < |s.finished| {
        assert RanFor(s, j) != Some(e.key);
      }
    }
    assert IsRunAt(t, e, i, c);
  }

  /**
   In every interleaving of requests and finishing tasks, the cached keys in order are the newest
   distinct keys touched, never more than the size, and each entry is the latest finished run for its key.
   */
  lemma {:induction false} EveryInterleaving(states: seq<State>, events: seq<Event>, c: Settings)
    requires IsRun(states, events, c) && c.maxsize > 0
    ensures forall i :: 0 <= i < |states| ==> Inv(states[i], c)
    decreases |events|
  {
    if events == [] {
      assert Keys(states[0].entries) == Newest(ByLastUse(states[0].touches), c.maxsize);
    } else {
      var n := |events| - 1;
      assert IsRun(states[..n + 1], events[..n], c);
      EveryInterleaving(states[..n + 1], events[..n], c);
      assert states[n] == states[..n + 1][n];
      match events[n] {
        case Asked(k, now) =>
          AskKeepsKeys(states[n], k, now, c);
          AskKeepsRuns(states[n], k, now, c);
        case Ended(task, outcome, now) =>
          FinishKeepsKeys(states[n], task, c.ResponseOf(outcome), now, c);
          FinishKeepsRuns(states[n], task, c.ResponseOf(outcome), now, c);
      }
      assert forall i :: 0 <= i <= n ==> states[i] == states[..n + 1][i];
    }
  }

  /** The cache never holds more than the size, nor two entries for a key. */
  lemma NeverTooMany(s: State, c: Settings)
    requires Inv(s, c)
    ensures |s.entries| <= c.maxsize && Distinct(Keys(s.entries))
  {
    ByLastUseDistinct(s.touches);
  }

  /** Every request that is not answered from the cache alone starts one pending task for its own key, and no other does. */
  lemma TaskIsStartedIff(s: State, k: Key, now: int)
    requires forall t :: t in s.pending ==> t < |s.started|
    ensures var (t, reply) := Ask(s, k, now);
            if reply.Cached? then t.started == s.started && t.pending == s.pending
            else reply.task !in s.pending && t.pending == s.pending + {reply.task} && t.started == s.started + [k]
                 && t.started[reply.task] == k
    ensures Ask(s, k, now).1.Await? <==> k !in Keys(s.entries)
  {
    GetKeys(s.entries, k);
  }

  /**
   A reply is from the cache alone exactly when the latest finished run for the key is cached and not
   older than the lifetime; since a cached task is always done, the test for a running one never matters.
   */
  lemma CachedReplyIsFresh(s: State, k: Key, now: int, c: Settings)
    requires Inv(s, c)
    ensures var reply := Ask(s, k, now).1;
            reply.Cached? <==> exists i :: 0 <= i < |s.finished| && Get(s.entries, k).Some?
                                && IsRunAt(s, Get(s.entries, k).value, i, c) && now <= s.finished[i].at + c.ttl
    ensures var reply := Ask(s, k, now).1;
            !reply.Await? ==> exists i :: 0 <= i < |s.finished| && RanFor(s, i) == Some(k) && s.finished[i].response == reply.data
                                && forall j :: i < j < |s.finished| ==> RanFor(s, j) != Some(k)
  {
    GetKeys(s.entries, k);
    if Get(s.entries, k).Some? {
      var e := Get(s.entries, k).value;
      var i :| 0 <= i < |s.finished| && IsRunAt(s, e, i, c);
      assert RanFor(s, i) == Some(k);
      forall l | 0 <= l < |s.finished| && IsRunAt(s, e, l, c)
        ensures l == i
      {
        assert RanFor(s, l) == Some(k);
        assert !(i < l) && !(l < i);
      }
    }
  }
}
