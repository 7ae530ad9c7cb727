/**
 The observable dictionary of dashboard/utils.py: a mapping with a lazily filled map of read-only
 views over its values, which queues a change record for its subscriber whenever a value changes.
 */
module ObservableDict {
  import opened Base

  /** A JSON-like value; Null is Python's None. */
  datatype Value = Null | Scalar(text: string) | List(items: seq<Value>) | Object(fields: map<string, Value>)

  /** What a reader sees: a read-only wrapper around lists and dictionaries, other values as they are. */
  datatype View = FrozenObject(of: Value) | FrozenList(of: Value) | Plain(of: Value)

  function MakeImmutable(v: Value): View {
    match v
    case Object(_) => FrozenObject(v)
    case List(_) => FrozenList(v)
    case _ => Plain(v)
  }

  type Mapping = map<string, Value>

  datatype Item = Item(key: string, value: Value)
  datatype Change = Change(old': Option<Item>, new': Option<Item>)

  /** dict.get: a missing key reads as None. */
  function Lookup(m: Mapping, k: string): Value {
    if k in m then m[k] else Null
  }

  // ---------------------------------------------------------------- writes and what they report

  datatype Op = Set(key: string, value: Value) | Del(key: string)

  function Apply(m: Mapping, op: Op): Mapping {
    match op
    case Set(k, v) => m[k := v]
    case Del(k) => m - {k}
  }

  function Report(m: Mapping, op: Op): seq<Change> {
    var was := Lookup(m, op.key);
    var before := if was == Null then None else Some(Item(op.key, was));
    match op
    case Set(k, v) => if was == v then [] else [Change(before, Some(Item(k, v)))]
    case Del(k) => if was == Null then [] else [Change(before, None)]
  }

  function KeyOf(c: Change): string {
    match c
    case Change(_, Some(item)) => item.key
    case Change(Some(item), None) => item.key
    case Change(None, None) => ""
  }

  ghost predicate IsRecord(c: Change) {
    && (c.old'.Some? || c.new'.Some?)
    && (c.old'.Some? && c.new'.Some? ==> c.old'.value.key == c.new'.value.key)
  }

  // ---------------------------------------------------------------- replaying the records

  function ReplayOne(m: Mapping, c: Change): Mapping {
    match c
    case Change(_, Some(item)) => m[item.key := item.value]
    case Change(Some(item), None) => m - {item.key}
    case Change(None, None) => m
  }

  function Replay(m: Mapping, log: seq<Change>): Mapping {
    if log == [] then m else ReplayOne(Replay(m, log[..|log| - 1]), log[|log| - 1])
  }

  /** The record's old side is what the replica holds, a missing old side meaning nothing or None. */
  ghost predicate Agrees(m: Mapping, c: Change) {
    && IsRecord(c)
    && (c.old'.Some? ==> c.old'.value.value != Null && Lookup(m, KeyOf(c)) == c.old'.value.value)
    && (c.old'.None? ==> Lookup(m, KeyOf(c)) == Null)
  }

  ghost predicate AllAgree(m: Mapping, log: seq<Change>) {
    forall i :: 0 <= i < |log| ==> Agrees(Replay(m, log[..i]), log[i])
  }

  /** Both mappings answer every lookup alike. */
  ghost predicate Same(a: Mapping, b: Mapping) {
    forall k :: Lookup(a, k) == Lookup(b, k)
  }

  /** From `base`, the log leads to a replica that answers like `m`, and each record fits where it stands. */
  ghost predicate Tracks(base: Mapping, log: seq<Change>, m: Mapping) {
    AllAgree(base, log) && Same(Replay(base, log), m)
  }

  lemma ReplaySnoc(base: Mapping, log: seq<Change>, c: Change)
    ensures Replay(base, log + [c]) == ReplayOne(Replay(base, log), c)
    ensures AllAgree(base, log) && Agrees(Replay(base, log), c) ==> AllAgree(base, log + [c])
  {
    var all := log + [c];
    assert all[..|log|] == log;
    if AllAgree(base, log) && Agrees(Replay(base, log), c) {
      forall i | 0 <= i < |all|
        ensures Agrees(Replay(base, all[..i]), all[i])
      {
        if i < |log| {
          assert all[..i] == log[..i];
        }
      }
    }
  }

  lemma ReportFits(replica: Mapping, m: Mapping, op: Op)
    requires Same(replica, m)
    ensures Report(m, op) == [] ==> Same(replica, Apply(m, op))
    ensures forall c :: Report(m, op) == [c] ==> Agrees(replica, c) && Same(ReplayOne(replica, c), Apply(m, op))
  {
    var records, after := Report(m, op), Apply(m, op);
    assert Lookup(replica, op.key) == Lookup(m, op.key);
    var next := if records == [] then replica else ReplayOne(replica, records[0]);
    forall k
      ensures Lookup(next, k) == Lookup(after, k)
    {
      assert Lookup(replica, k) == Lookup(m, k);
    }
  }

  /** Every write keeps the log in step. */
  lemma OpTracks(base: Mapping, log: seq<Change>, m: Mapping, op: Op)
    requires Tracks(base, log, m)
    ensures Tracks(base, log + Report(m, op), Apply(m, op))
  {
    var records := Report(m, op);
    ReportFits(Replay(base, log), m, op);
    if records == [] {
      assert log + records == log;
    } else {
      assert records == [records[0]];
      ReplaySnoc(base, log, records[0]);
    }
  }

  function AfterOps(m: Mapping, ops: seq<Op>): Mapping {
    if ops == [] then m else Apply(AfterOps(m, ops[..|ops| - 1]), ops[|ops| - 1])
  }

  function LogOf(m: Mapping, ops: seq<Op>): seq<Change> {
    if ops == [] then []
    else LogOf(m, ops[..|ops| - 1]) + Report(AfterOps(m, ops[..|ops| - 1]), ops[|ops| - 1])
  }

  /** For any run of writes over any values, replaying the records answers every lookup like the dictionary itself. */
  lemma {:induction false} RunTracks(m: Mapping, ops: seq<Op>)
    ensures Tracks(m, LogOf(m, ops), AfterOps(m, ops))
  {
    if ops != [] {
      var most := ops[..|ops| - 1];
      RunTracks(m, most);
      OpTracks(m, LogOf(m, most), AfterOps(m, most), ops[|ops| - 1]);
    }
  }

  /** Storing None under a new key, or deleting a key that holds None, goes unreported. */
  predicate Hidden(m: Mapping, op: Op) {
    match op
    case Set(k, v) => k !in m && v == Null
    case Del(k) => k in m && m[k] == Null
  }

  /** A single write is reproduced by its records exactly when it is not one of the hidden ones. */
  lemma ReproducedIff(m: Mapping, op: Op)
    ensures Replay(m, Report(m, op)) == Apply(m, op) <==> !Hidden(m, op)
  {
    var records := Report(m, op);
    if records != [] {
      assert [] + [records[0]] == records;
      ReplaySnoc(m, [], records[0]);
    }
    if Hidden(m, op) {
      assert op.key in Apply(m, op) <==> op.key !in m;
    } else if records == [] {
      assert Apply(m, op) == m;
    }
  }

  /** From where the replay is the dictionary, it goes on from the dictionary. */
  lemma ReplayGoesOn(base: Mapping, log: seq<Change>, m: Mapping, op: Op)
    requires Replay(base, log) == m
    ensures Replay(base, log + Report(m, op)) == Replay(m, Report(m, op))
  {
    var records := Report(m, op);
    if records == [] {
      assert log + records == log;
    } else {
      assert records == [records[0]] == [] + [records[0]];
      ReplaySnoc(base, log, records[0]);
      ReplaySnoc(m, [], records[0]);
    }
  }

  /** After the first `n` writes, the replay of their records is the dictionary. */
  ghost predicate Replayed(m: Mapping, ops: seq<Op>, n: nat)
    requires n <= |ops|
  {
    Replay(m, LogOf(m, ops[..n])) == AfterOps(m, ops[..n])
  }

  ghost predicate HiddenAt(m: Mapping, ops: seq<Op>, n: nat)
    requires n < |ops|
  {
    Hidden(AfterOps(m, ops[..n]), ops[n])
  }

  /** The replay is the dictionary after every write of the run. */
  ghost predicate AlwaysReplayed(m: Mapping, ops: seq<Op>) {
    forall n :: 0 <= n <= |ops| ==> Replayed(m, ops, n)
  }

  /** No write of the run is hidden where it is made. */
  ghost predicate NeverHidden(m: Mapping, ops: seq<Op>) {
    forall n :: 0 <= n < |ops| ==> !HiddenAt(m, ops, n)
  }

  lemma NextReplayedIff(m: Mapping, ops: seq<Op>, n: nat)
    requires n < |ops| && Replayed(m, ops, n)
    ensures Replayed(m, ops, n + 1) <==> !HiddenAt(m, ops, n)
  {
    var most := ops[..n];
    assert ops[..n + 1][..n] == most && ops[..n + 1][n] == ops[n];
    ReplayGoesOn(m, LogOf(m, most), AfterOps(m, most), ops[n]);
    ReproducedIff(AfterOps(m, most), ops[n]);
  }

  lemma {:induction false} ReplayedUpTo(m: Mapping, ops: seq<Op>, n: nat)
    requires NeverHidden(m, ops) && n <= |ops|
    ensures Replayed(m, ops, n)
  {
    if n == 0 {
      assert ops[..0] == [];
    } else {
      ReplayedUpTo(m, ops, n - 1);
      NextReplayedIff(m, ops, n - 1);
    }
  }

  /** For any run of writes, the replay is the dictionary all along exactly when no write is hidden. */
  lemma AlwaysReplayedIff(m: Mapping, ops: seq<Op>)
    ensures AlwaysReplayed(m, ops) <==> NeverHidden(m, ops)
  {
    if NeverHidden(m, ops) {
      forall n | 0 <= n <= |ops| ensures Replayed(m, ops, n) {
        ReplayedUpTo(m, ops, n);
      }
    }
    if AlwaysReplayed(m, ops) {
      forall n | 0 <= n < |ops| ensures !HiddenAt(m, ops, n) {
        assert Replayed(m, ops, n) && Replayed(m, ops, n + 1);
        NextReplayedIff(m, ops, n);
      }
    }
  }

  ghost predicate NoNulls(m: Mapping) {
    forall k :: k in m ==> m[k] != Null
  }

  ghost predicate StoresNoNull(ops: seq<Op>) {
    forall i :: 0 <= i < |ops| && ops[i].Set? ==> ops[i].value != Null
  }

  lemma {:induction false} RunHasNoNulls(m: Mapping, ops: seq<Op>)
    requires NoNulls(m) && StoresNoNull(ops)
    ensures NoNulls(AfterOps(m, ops))
  {
    if ops != [] {
      RunHasNoNulls(m, ops[..|ops| - 1]);
    }
  }

  /** When None is never stored, the replay is the dictionary. */
  lemma ReplayIsDictionary(m: Mapping, ops: seq<Op>)
    requires NoNulls(m) && StoresNoNull(ops)
    ensures AlwaysReplayed(m, ops)
  {
    forall n | 0 <= n < |ops|
      ensures !HiddenAt(m, ops, n)
    {
      RunHasNoNulls(m, ops[..n]);
    }
    AlwaysReplayedIff(m, ops);
  }

  // ---------------------------------------------------------------- how often a key is reported

  function Times(log: seq<Change>, k: string): nat {
    if log == [] then 0 else Times(log[..|log| - 1], k) + if KeyOf(log[|log| - 1]) == k then 1 else 0
  }

  ghost predicate AllRecords(log: seq<Change>) {
    forall i :: 0 <= i < |log| ==> IsRecord(log[i])
  }

  lemma TimesAppend(log: seq<Change>, m: Mapping, op: Op, k: string)
    requires AllRecords(log)
    ensures AllRecords(log + Report(m, op))
    ensures Times(log + Report(m, op), k) == Times(log, k) + if k == op.key && Report(m, op) != [] then 1 else 0
  {
    var records := Report(m, op);
    var all := log + records;
    if records == [] {
      assert all == log;
    } else {
      assert all[..|log|] == log && all[|log|] == records[0];
    }
  }

  // ---------------------------------------------------------------- the dictionary itself

  class Dict {
    var dict: Mapping
    var proxy: map<string, View>
    var queue: seq<Change>
    const subscribed: bool
    ghost const base: Mapping

    /** Every view is the view of the current value, and the queue tells the whole story since `base`. */
    ghost predicate Valid()
      reads this
    {
      && Coherent()
      && (subscribed ==> Tracks(base, queue, dict))
    }

    ghost predicate Coherent()
      reads this
    {
      forall k :: k in proxy ==> k in dict && proxy[k] == MakeImmutable(dict[k])
    }

    constructor (m: Mapping, hasSubscriber: bool)
      ensures Valid() && dict == m && base == m && queue == [] && subscribed == hasSubscriber
    {
      dict, proxy, queue := m, map[], [];
      subscribed, base := hasSubscriber, m;
    }

    /** Reads through the proxy, which is filled on first use; None where the original raises KeyError. */
    method GetItem(k: string) returns (r: Option<View>)
      requires Valid()
      modifies this`proxy
      ensures Valid()
      ensures r == if k in dict then Some(MakeImmutable(dict[k])) else None
    {
      if k in proxy && proxy[k] != Plain(Null) {
        return Some(proxy[k]);
      }
      if k !in dict {
        return None;
      }
      proxy := proxy[k := MakeImmutable(dict[k])];
      r := Some(proxy[k]);
    }

    /** Fills in the missing views and yields the keys of the proxy: they are the dictionary's keys. */
    method Iterate() returns (keys: set<string>)
      requires Valid()
      modifies this`proxy
      ensures Valid() && keys == dict.Keys
    {
      if |proxy| != |dict| {
        var missing := dict.Keys - proxy.Keys;
        while missing != {}
          invariant Coherent() && missing == dict.Keys - proxy.Keys
          decreases missing
        {
          var k :| k in missing;
          proxy := proxy[k := MakeImmutable(dict[k])];
          missing := missing - {k};
        }
        assert forall k :: k in dict.Keys && k !in proxy.Keys ==> k in missing;
      } else {
        assert |proxy.Keys| == |proxy| && |dict.Keys| == |dict|;
        EqualSizeIsComplete(proxy.Keys, dict.Keys);
      }
      keys := proxy.Keys;
    }

    method SetItem(k: string, v: Value)
      requires Valid()
      modifies this`dict, this`proxy, this`queue
      ensures Valid()
      ensures dict == Apply(old(dict), Set(k, v))
      ensures queue == old(queue) + if subscribed then Report(old(dict), Set(k, v)) else []
      ensures proxy == old(proxy) - {k}
    {
      OpTracksIf(subscribed, base, queue, dict, Set(k, v));
      var was := Lookup(dict, k);
      dict := dict - {k};
      proxy := proxy - {k};
      dict := dict[k := v];
      assert dict == old(dict)[k := v];
      if subscribed && was != v {
        if was == Null {
          queue := queue + [Change(None, Some(Item(k, v)))];
        } else {
          queue := queue + [Change(Some(Item(k, was)), Some(Item(k, v)))];
        }
      }
    }

    method DelItem(k: string)
      requires Valid()
      modifies this`dict, this`proxy, this`queue
      ensures Valid()
      ensures dict == Apply(old(dict), Del(k))
      ensures queue == old(queue) + if subscribed then Report(old(dict), Del(k)) else []
      ensures proxy == old(proxy) - {k}
    {
      OpTracksIf(subscribed, base, queue, dict, Del(k));
      var was := Lookup(dict, k);
      dict := dict - {k};
      proxy := proxy - {k};
      if subscribed && was != Null {
        queue := queue + [Change(Some(Item(k, was)), None)];
      }
    }

    /** Part of the way from `before` to `d`, with the records since `start`. */
    ghost predicate InReset(before: Mapping, d: Mapping, start: nat)
      reads this
    {
      Valid() && start <= |queue| && ResetSoFar(before, d, dict, queue[start..], subscribed)
    }

    method ResetDel(k: string, ghost before: Mapping, ghost d: Mapping, ghost start: nat)
      requires InReset(before, d, start) && k !in d
      modifies this`dict, this`proxy, this`queue
      ensures InReset(before, d, start) && dict == old(dict) - {k} && old(queue) <= queue
    {
      ResetStep(before, d, dict, queue[start..], Del(k), subscribed);
      DelItem(k);
      TailOfAppend(old(queue), if subscribed then Report(old(dict), Del(k)) else [], start);
    }

    method ResetSet(k: string, v: Value, ghost before: Mapping, ghost d: Mapping, ghost start: nat)
      requires InReset(before, d, start) && k in d && d[k] == v
      modifies this`dict, this`proxy, this`queue
      ensures InReset(before, d, start) && dict == old(dict)[k := v] && old(queue) <= queue
    {
      ResetStep(before, d, dict, queue[start..], Set(k, v), subscribed);
      SetItem(k, v);
      TailOfAppend(old(queue), if subscribed then Report(old(dict), Set(k, v)) else [], start);
    }

    /** Makes the dictionary equal to `d`, reporting each key whose lookup differs once and no other. */
    method Reset(d: Mapping)
      requires Valid()
      modifies this`dict, this`proxy, this`queue
      ensures Valid() && dict == d
      ensures old(queue) <= queue && AllRecords(queue[|old(queue)|..])
      ensures subscribed ==> forall k ::
                Times(queue[|old(queue)|..], k) == if Lookup(old(dict), k) != Lookup(d, k) then 1 else 0
    {
      ghost var before, start := dict, |queue|;
      assert queue[start..] == [];
      var gone := dict.Keys - d.Keys;
      while gone != {}
        invariant InReset(before, d, start) && old(queue) <= queue && dict.Keys - d.Keys == gone
        decreases gone
      {
        var k :| k in gone;
        ResetDel(k, before, d, start);
        gone := gone - {k};
      }
      assert forall k :: k in dict.Keys && k !in d.Keys ==> k in gone;
      var todo := d.Keys;
      while todo != {}
        invariant InReset(before, d, start) && old(queue) <= queue && todo <= d.Keys && dict.Keys <= d.Keys
        invariant forall k :: k in d.Keys - todo ==> k in dict && dict[k] == d[k]
        decreases todo
      {
        var k :| k in todo;
        ResetSet(k, d[k], before, d, start);
        todo := todo - {k};
      }
      assert dict == d;
    }
  }

  lemma TailOfAppend(queue: seq<Change>, records: seq<Change>, start: nat)
    requires start <= |queue|
    ensures (queue + records)[start..] == queue[start..] + records
  {}

  lemma OpTracksIf(subscribed: bool, base: Mapping, log: seq<Change>, m: Mapping, op: Op)
    requires subscribed ==> Tracks(base, log, m)
    ensures subscribed ==> Tracks(base, log + Report(m, op), Apply(m, op))
  {
    if subscribed {
      OpTracks(base, log, m, op);
    }
  }

  /** Views exist only for present keys, so equally many means all. */
  lemma EqualSizeIsComplete(views: set<string>, keys: set<string>)
    requires views <= keys && |views| == |keys|
    ensures views == keys
  {
    assert |keys| == |views| + |keys - views| by {
      assert keys == views + (keys - views);
    }
  }

  /** Each key answers as before or as it shall, and was reported exactly if it changed. */
  ghost predicate ResetSoFar(before: Mapping, d: Mapping, m: Mapping, log: seq<Change>, subscribed: bool) {
    && AllRecords(log)
    && (forall k :: Lookup(m, k) == Lookup(before, k) || Lookup(m, k) == Lookup(d, k))
    && (subscribed ==> forall k :: Times(log, k) == if Lookup(m, k) != Lookup(before, k) then 1 else 0)
  }

  lemma ResetStep(before: Mapping, d: Mapping, m: Mapping, log: seq<Change>, op: Op, subscribed: bool)
    requires ResetSoFar(before, d, m, log, subscribed)
    requires Lookup(Apply(m, op), op.key) == Lookup(d, op.key)
    ensures ResetSoFar(before, d, Apply(m, op), log + if subscribed then Report(m, op) else [], subscribed)
  {
    var after := Apply(m, op);
    assert forall k :: k != op.key ==> Lookup(after, k) == Lookup(m, k);
    if subscribed {
      assert Report(m, op) == [] <==> Lookup(m, op.key) == Lookup(after, op.key);
      forall k
        ensures Times(log + Report(m, op), k) == if Lookup(after, k) != Lookup(before, k) then 1 else 0
      {
        TimesAppend(log, m, op, k);
      }
      TimesAppend(log, m, op, op.key);
    } else {
      assert log + [] == log;
    }
  }
}
