/**
 The alert bookkeeping of release/alert.py: two queries that each return one latest row per key but
 stop at the same limit, and a run that decides from the truncated answers what to insert or update.
 */
module Alerts {
  import opened Base

  const RESULTS_LIMIT: nat := 120

  /** category, test_suite and test_name. */
  datatype Key = Key(category: string, suite: string, name: string)

  /**
   A row of either table. In the result table `stamp` is created_on and `data` the rest of the row;
   in the alert table they are last_notification_dt and last_result_hash.
   */
  datatype Row = Row(key: Key, stamp: int, data: string)

  // ---------------------------------------------------------------- the order of keys

  predicate KeyLess(a: Key, b: Key) {
    || StringLess(a.category, b.category)
    || (a.category == b.category && StringLess(a.suite, b.suite))
    || (a.category == b.category && a.suite == b.suite && StringLess(a.name, b.name))
  }

  lemma KeyOrder(a: Key, b: Key)
    ensures KeyLess(a, b) || a == b || KeyLess(b, a)
    ensures !(KeyLess(a, b) && KeyLess(b, a)) && !KeyLess(a, a)
  {
    StringOrder(a.category, b.category);
    StringOrder(a.suite, b.suite);
    StringOrder(a.name, b.name);
    StringOrder(a.category, a.category);
    StringOrder(a.suite, a.suite);
    StringOrder(a.name, a.name);
  }

  lemma KeyTransitive(a: Key, b: Key, c: Key)
    requires KeyLess(a, b) && KeyLess(b, c)
    ensures KeyLess(a, c)
  {
    if StringLess(a.category, b.category) && StringLess(b.category, c.category) {
      StringTransitive(a.category, b.category, c.category);
    }
    if StringLess(a.suite, b.suite) && StringLess(b.suite, c.suite) {
      StringTransitive(a.suite, b.suite, c.suite);
    }
    if StringLess(a.name, b.name) && StringLess(b.name, c.name) {
      StringTransitive(a.name, b.name, c.name);
    }
  }

  // ---------------------------------------------------------------- SELECT DISTINCT ON ... ORDER BY ... LIMIT

  ghost predicate Ascending(ks: seq<Key>) {
    forall i, j :: 0 <= i < j < |ks| ==> KeyLess(ks[i], ks[j])
  }

  function KeySet(rows: seq<Row>): set<Key> {
    set i | 0 <= i < |rows| :: rows[i].key
  }

  function InsertKey(ks: seq<Key>, k: Key): (r: seq<Key>)
    requires Ascending(ks)
    ensures Ascending(r) && Elements(r) == Elements(ks) + {k}
  {
    if ks == [] then
      assert Elements([k]) == {k} by { assert [k][0] == k; }
      [k]
    else
      var last := ks[|ks| - 1];
      var init := ks[..|ks| - 1];
      assert Elements(ks) == Elements(init) + {last};
      if k == last then ks
      else if KeyLess(last, k) then
        AppendAscending(ks, k);
        ks + [k]
      else
        var r := InsertKey(init, k);
        KeyOrder(k, last);
        BelowLast(init, k, r, last);
        r + [last]
  }

  lemma AppendAscending(ks: seq<Key>, k: Key)
    requires Ascending(ks) && ks != [] && KeyLess(ks[|ks| - 1], k)
    ensures Ascending(ks + [k]) && Elements(ks + [k]) == Elements(ks) + {k}
  {
    var r := ks + [k];
    forall i | 0 <= i < |ks|
      ensures KeyLess(ks[i], k)
    {
      if i < |ks| - 1 {
        KeyTransitive(ks[i], ks[|ks| - 1], k);
      }
    }
    assert r[|ks|] == k;
    assert forall i :: 0 <= i < |ks| ==> r[i] == ks[i];
  }

  lemma BelowLast(init: seq<Key>, k: Key, r: seq<Key>, last: Key)
    requires Ascending(r) && Elements(r) == Elements(init) + {k} && KeyLess(k, last)
    requires forall i :: 0 <= i < |init| ==> KeyLess(init[i], last)
    ensures Ascending(r + [last]) && Elements(r + [last]) == Elements(r) + {last}
  {
    forall i | 0 <= i < |r|
      ensures KeyLess(r[i], last)
    {
      assert r[i] in Elements(r);
    }
    var s := r + [last];
    assert s[|r|] == last;
    assert forall i :: 0 <= i < |r| ==> s[i] == r[i];
  }

  function SortedKeys(rows: seq<Row>): (ks: seq<Key>)
    ensures Ascending(ks) && Elements(ks) == KeySet(rows)
  {
    if rows == [] then []
    else
      var n := |rows| - 1;
      assert KeySet(rows) == KeySet(rows[..n]) + {rows[n].key};
      InsertKey(SortedKeys(rows[..n]), rows[n].key)
  }

  /** The row with the greatest stamp among those with key `k`; the first such row wins a tie. */
  function Latest(rows: seq<Row>, k: Key): (r: Row)
    requires k in KeySet(rows)
    ensures r in rows && r.key == k
    ensures forall i :: 0 <= i < |rows| && rows[i].key == k ==> rows[i].stamp <= r.stamp
  {
    var n := |rows| - 1;
    var init := rows[..n];
    assert forall i :: 0 <= i < n ==> rows[i] == init[i];
    if k !in KeySet(init) then rows[n]
    else
      var r := Latest(init, k);
      if rows[n].key == k && rows[n].stamp > r.stamp then rows[n] else r
  }

  function Page(rows: seq<Row>): (ks: seq<Key>)
    ensures Ascending(ks) && Elements(ks) <= KeySet(rows) && |ks| <= RESULTS_LIMIT
  {
    var all := SortedKeys(rows);
    if |all| <= RESULTS_LIMIT then all else all[..RESULTS_LIMIT]
  }

  /** The rows a query returns: one latest row per key, in key order, no more than the limit. */
  function Fetch(rows: seq<Row>): (r: seq<Row>)
    ensures |r| == |Page(rows)| <= RESULTS_LIMIT
    ensures forall i :: 0 <= i < |r| ==> r[i] in rows && r[i].key == Page(rows)[i]
  {
    var ks := Page(rows);
    seq(|ks|, i requires 0 <= i < |ks| => assert ks[i] in Elements(ks); Latest(rows, ks[i]))
  }

  lemma KeySetSnoc(rows: seq<Row>, row: Row)
    ensures KeySet(rows + [row]) == KeySet(rows) + {row.key}
  {
    var all := rows + [row];
    assert all[|rows|] == row;
    assert forall i :: 0 <= i < |rows| ==> all[i] == rows[i];
  }

  function Since(rows: seq<Row>, since: Option<int>): (r: seq<Row>)
    ensures KeySet(r) <= KeySet(rows)
    ensures since.None? ==> r == rows
  {
    if since.None? || rows == [] then rows
    else
      var n := |rows| - 1;
      assert KeySet(rows) == KeySet(rows[..n]) + {rows[n].key};
      var r := Since(rows[..n], since);
      KeySetSnoc(r, rows[n]);
      if rows[n].stamp >= since.value then r + [rows[n]] else r
  }

  // ---------------------------------------------------------------- ranks

  /** How many keys of the set come before `k`. */
  ghost function Rank(k: Key, keys: set<Key>): nat {
    |set x | x in keys && KeyLess(x, k)|
  }

  lemma {:induction false} CountElements(ks: seq<Key>)
    requires Ascending(ks)
    ensures |Elements(ks)| == |ks|
  {
    if ks != [] {
      var n := |ks| - 1;
      CountElements(ks[..n]);
      assert Elements(ks) == Elements(ks[..n]) + {ks[n]};
      assert ks[n] !in Elements(ks[..n]) by {
        KeyOrder(ks[n], ks[n]);
      }
    }
  }

  lemma RankIsIndex(ks: seq<Key>, i: nat)
    requires Ascending(ks) && i < |ks|
    ensures Rank(ks[i], Elements(ks)) == i
  {
    var below := set x | x in Elements(ks) && KeyLess(x, ks[i]);
    forall j | i <= j < |ks|
      ensures !KeyLess(ks[j], ks[i])
    {
      KeyOrder(ks[i], ks[j]);
    }
    assert below == Elements(ks[..i]) by {
      assert forall j :: 0 <= j < i ==> ks[..i][j] == ks[j];
    }
    CountElements(ks[..i]);
  }

  /** A key is returned exactly when fewer keys than the limit come before it. */
  lemma FetchedIffRank(rows: seq<Row>, k: Key)
    ensures k in KeySet(Fetch(rows)) <==> k in KeySet(rows) && Rank(k, KeySet(rows)) < RESULTS_LIMIT
  {
    var all, ks := SortedKeys(rows), Page(rows);
    assert KeySet(Fetch(rows)) == Elements(ks);
    if k in KeySet(rows) {
      var i :| 0 <= i < |all| && all[i] == k;
      RankIsIndex(all, i);
      if i < RESULTS_LIMIT {
        assert ks[i] == k;
      }
      if k in Elements(ks) {
        var j :| 0 <= j < |ks| && ks[j] == k;
        RankIsIndex(all, j);
      }
    } else {
      assert k !in Elements(ks);
    }
  }

  /** Among fewer keys a key has no greater rank, so what one query returns the other cannot cut off. */
  lemma SubsetIsNotCutOff(alerts: seq<Row>, results: seq<Row>, k: Key)
    requires KeySet(alerts) <= KeySet(results)
    requires k in KeySet(Fetch(results)) && k in KeySet(alerts)
    ensures k in KeySet(Fetch(alerts))
  {
    FetchedIffRank(results, k);
    FetchedIffRank(alerts, k);
    var few, many := set x | x in KeySet(alerts) && KeyLess(x, k), set x | x in KeySet(results) && KeyLess(x, k);
    assert few <= many;
    SubsetSize(few, many);
  }

  lemma SubsetSize<T>(a: set<T>, b: set<T>)
    requires a <= b
    ensures |a| <= |b|
  {
    assert b == a + (b - a);
    assert a * (b - a) == {};
  }

  // ---------------------------------------------------------------- one run

  /** How a result is judged: by its suite's own handler, or else by the default one. An empty answer is no alert. */
  datatype Handlers = Handlers(bySuite: map<string, Row -> string>, default: Row -> string) {
    function Alert(r: Row): string {
      if r.key.suite in bySuite then bySuite[r.key.suite](r) else default(r)
    }
  }

  /** What a run is given: the hash of a result, the handlers and the time of each mark. */
  datatype Setting = Setting(hash: Row -> string, handlers: Handlers, clock: nat -> int)

  /** Hash last notified for each key. */
  function Notified(fetched: seq<Row>): (m: map<Key, string>)
    ensures m.Keys == KeySet(fetched)
  {
    if fetched == [] then map[]
    else
      var n := |fetched| - 1;
      assert KeySet(fetched) == KeySet(fetched[..n]) + {fetched[n].key};
      Notified(fetched[..n])[fetched[n].key := fetched[n].data]
  }

  predicate Tried(last: map<Key, string>, r: Row, always: bool, s: Setting) {
    always || r.key !in last || last[r.key] != s.hash(r)
  }

  function Update(table: seq<Row>, row: Row): (t: seq<Row>)
    ensures |t| == |table|
    ensures forall i :: 0 <= i < |t| ==> t[i] == if table[i].key == row.key then row else table[i]
  {
    seq(|table|, i requires 0 <= i < |table| => if table[i].key == row.key then row else table[i])
  }

  function MarkAsHandled(table: seq<Row>, update: bool, row: Row): seq<Row> {
    if update then Update(table, row) else table + [row]
  }

  /** The alert table after the first rows of a run; a run without status update leaves it alone. */
  function TableAfter(table: seq<Row>, last: map<Key, string>, rows: seq<Row>, always: bool, noUpdate: bool, s: Setting): seq<Row> {
    if rows == [] then table
    else
      var n := |rows| - 1;
      var t := TableAfter(table, last, rows[..n], always, noUpdate, s);
      if Tried(last, rows[n], always, s) && !noUpdate
      then MarkAsHandled(t, rows[n].key in last, Row(rows[n].key, s.clock(n), s.hash(rows[n])))
      else t
  }

  /** The alerts raised, in order of the fetched rows. */
  function Raised(last: map<Key, string>, rows: seq<Row>, always: bool, s: Setting): seq<(Key, string)> {
    if rows == [] then []
    else
      var r := rows[|rows| - 1];
      var before := Raised(last, rows[..|rows| - 1], always, s);
      if Tried(last, r, always, s) && s.handlers.Alert(r) != "" then before + [(r.key, s.handlers.Alert(r))] else before
  }

  /** The results of a category that were tried and raised nothing. */
  function Quiet(last: map<Key, string>, rows: seq<Row>, always: bool, s: Setting, category: string): nat {
    if rows == [] then 0
    else
      var r := rows[|rows| - 1];
      Quiet(last, rows[..|rows| - 1], always, s, category)
      + if Tried(last, r, always, s) && s.handlers.Alert(r) == "" && r.key.category == category then 1 else 0
  }

  function CountOf(counter: map<string, nat>, category: string): nat {
    if category in counter then counter[category] else 0
  }

  class AlertState {
    var results: seq<Row>
    var alerts: seq<Row>

    constructor ()
      ensures results == [] && alerts == []
    {
      results, alerts := [], [];
    }

    method LastNotifications() returns (last: map<Key, string>)
      ensures last == Notified(Fetch(alerts))
    {
      last := map[];
      var notified := Fetch(alerts);
      for i := 0 to |notified|
        invariant last == Notified(notified[..i])
      {
        assert notified[..i + 1][..i] == notified[..i];
        last := last[notified[i].key := notified[i].data];
      }
      assert notified[..|notified|] == notified;
    }

    method HandleResultsAndGetAlerts(since: Option<int>, always: bool, noUpdate: bool, s: Setting)
      returns (raised: seq<(Key, string)>, nonAlerts: map<string, nat>)
      modifies this`alerts
      ensures var rows := Fetch(Since(results, since));
              var last := Notified(Fetch(old(alerts)));
              && alerts == TableAfter(old(alerts), last, rows, always, noUpdate, s)
              && raised == Raised(last, rows, always, s)
              && forall c :: CountOf(nonAlerts, c) == Quiet(last, rows, always, s, c)
    {
      var last := LastNotifications();
      var rows := Fetch(Since(results, since));
      raised, nonAlerts := HandleRows(rows, last, always, noUpdate, s);
    }

    method HandleRows(rows: seq<Row>, last: map<Key, string>, always: bool, noUpdate: bool, s: Setting)
      returns (raised: seq<(Key, string)>, nonAlerts: map<string, nat>)
      modifies this`alerts
      ensures alerts == TableAfter(old(alerts), last, rows, always, noUpdate, s)
      ensures raised == Raised(last, rows, always, s)
      ensures forall c :: CountOf(nonAlerts, c) == Quiet(last, rows, always, s, c)
    {
      raised, nonAlerts := [], map[];
      for i := 0 to |rows|
        invariant alerts == TableAfter(old(alerts), last, rows[..i], always, noUpdate, s)
        invariant raised == Raised(last, rows[..i], always, s)
        invariant forall c :: CountOf(nonAlerts, c) == Quiet(last, rows[..i], always, s, c)
      {
        assert rows[..i + 1][..i] == rows[..i];
        var r := rows[i];
        var tryAlert := always;
        if r.key in last {
          if last[r.key] != s.hash(r) {
            tryAlert := true;
          }
        } else {
          tryAlert := true;
        }
        assert tryAlert == Tried(last, r, always, s);
        if tryAlert {
          var alert := s.handlers.Alert(r);
          if alert != "" {
            raised := raised + [(r.key, alert)];
          } else {
            nonAlerts := nonAlerts[r.key.category := CountOf(nonAlerts, r.key.category) + 1];
          }
          if !noUpdate {
            alerts := MarkAsHandled(alerts, r.key in last, Row(r.key, s.clock(i), s.hash(r)));
          }
        }
      }
      assert rows[..|rows|] == rows;
    }
  }

  // ---------------------------------------------------------------- what every run keeps

  ghost predicate OneRowPerKey(table: seq<Row>) {
    forall i, j :: 0 <= i < j < |table| ==> table[i].key != table[j].key
  }

  function UpTo(rows: seq<Row>, n: nat): seq<Row> {
    if n <= |rows| then rows[..n] else rows
  }

  /** The two tables of the database. */
  datatype Tables = Tables(results: seq<Row>, alerts: seq<Row>) {
    /** Every alert is about a known result, and no key has two rows. */
    ghost predicate Inv() {
      KeySet(alerts) <= KeySet(results) && OneRowPerKey(alerts)
    }

    function Rows(since: Option<int>): seq<Row> {
      Fetch(Since(results, since))
    }

    function Last(): map<Key, string> {
      Notified(Fetch(alerts))
    }

    function AfterRun(since: Option<int>, always: bool, noUpdate: bool, s: Setting): Tables {
      Tables(results, TableAfter(alerts, Last(), Rows(since), always, noUpdate, s))
    }

    /** What a run leaves that raises an error when it has dealt with `n` rows: every statement commits by itself. */
    function AfterBrokenRun(since: Option<int>, always: bool, noUpdate: bool, s: Setting, n: nat): Tables {
      Tables(results, TableAfter(alerts, Last(), UpTo(Rows(since), n), always, noUpdate, s))
    }

    /** A fetched result whose row in the alert table was cut off by the limit. */
    ghost predicate CutOff(since: Option<int>, k: Key) {
      k in KeySet(Rows(since)) && k in KeySet(alerts) && k !in KeySet(Fetch(alerts))
    }
  }

  lemma AscendingFetch(rows: seq<Row>)
    ensures var f := Fetch(rows); forall i, j :: 0 <= i < j < |f| ==> f[i].key != f[j].key
  {
    var f, ks := Fetch(rows), Page(rows);
    forall i, j | 0 <= i < j < |f|
      ensures f[i].key != f[j].key
    {
      assert KeyLess(ks[i], ks[j]);
      KeyOrder(ks[i], ks[j]);
    }
  }

  lemma UpdateKeys(table: seq<Row>, row: Row)
    ensures KeySet(Update(table, row)) == KeySet(table)
    ensures OneRowPerKey(Update(table, row)) <==> OneRowPerKey(table)
  {
    var t := Update(table, row);
    assert forall i :: 0 <= i < |t| ==> t[i].key == table[i].key;
  }

  /** The keys a run adds are those of the fetched rows that it tried and had not been notified about. */
  lemma {:induction false} TableKeys(table: seq<Row>, last: map<Key, string>, rows: seq<Row>, always: bool, noUpdate: bool, s: Setting)
    ensures KeySet(TableAfter(table, last, rows, always, noUpdate, s)) ==
            KeySet(table) + if noUpdate then {} else KeySet(rows) - last.Keys
  {
    if rows != [] {
      var n := |rows| - 1;
      TableKeys(table, last, rows[..n], always, noUpdate, s);
      assert KeySet(rows) == KeySet(rows[..n]) + {rows[n].key};
      var t := TableAfter(table, last, rows[..n], always, noUpdate, s);
      MarkKeys(t, rows[n].key in last, Row(rows[n].key, s.clock(n), s.hash(rows[n])));
    }
  }

  lemma MarkKeys(t: seq<Row>, update: bool, row: Row)
    ensures KeySet(MarkAsHandled(t, update, row)) == KeySet(t) + if update then {} else {row.key}
  {
    if update {
      UpdateKeys(t, row);
    } else {
      KeySetSnoc(t, row);
    }
  }

  /** Duplicates appear exactly when a fetched key was in the table without being in the notified map. */
  lemma {:induction false} DuplicatesIff(table: seq<Row>, last: map<Key, string>, rows: seq<Row>, always: bool, s: Setting)
    requires OneRowPerKey(table) && OneRowPerKey(rows) && last.Keys <= KeySet(table)
    ensures OneRowPerKey(TableAfter(table, last, rows, always, false, s)) <==>
            forall k :: k in KeySet(rows) && k in KeySet(table) ==> k in last
  {
    if rows != [] {
      var n := |rows| - 1;
      var k := rows[n].key;
      DuplicatesIff(table, last, rows[..n], always, s);
      TableKeys(table, last, rows[..n], always, false, s);
      assert KeySet(rows) == KeySet(rows[..n]) + {k};
      var t := TableAfter(table, last, rows[..n], always, false, s);
      var row := Row(k, s.clock(n), s.hash(rows[n]));
      UpdateKeys(t, row);
      AppendOneRow(t, row);
      assert k !in KeySet(rows[..n]);
    }
  }

  lemma AppendOneRow(t: seq<Row>, row: Row)
    ensures OneRowPerKey(t + [row]) <==> OneRowPerKey(t) && row.key !in KeySet(t)
  {
    var u := t + [row];
    assert u[|t|] == row;
    assert forall i :: 0 <= i < |t| ==> u[i] == t[i];
    if row.key in KeySet(t) {
      var i :| 0 <= i < |t| && t[i].key == row.key;
      assert u[i].key == u[|t|].key;
    }
    if OneRowPerKey(u) {
      forall i, j | 0 <= i < j < |t|
        ensures t[i].key != t[j].key
      {
        assert u[i].key != u[j].key;
      }
    }
  }

  /** `k` is fetched as a result although as many alert keys as the limit come before it. */
  ghost predicate PastLimit(db: Tables, since: Option<int>, k: Key) {
    var recent := KeySet(Since(db.results, since));
    && k in recent && Rank(k, recent) < RESULTS_LIMIT
    && k in KeySet(db.alerts) && Rank(k, KeySet(db.alerts)) >= RESULTS_LIMIT
  }

  lemma CutOffIffPastLimit(db: Tables, since: Option<int>, k: Key)
    ensures db.CutOff(since, k) <==> PastLimit(db, since, k)
  {
    FetchedIffRank(Since(db.results, since), k);
    FetchedIffRank(db.alerts, k);
  }

  /** An updating run keeps one row per key exactly when no fetched key is past the limit among the alerts. */
  lemma RunKeepsOneRowIff(db: Tables, since: Option<int>, always: bool, s: Setting)
    requires db.Inv()
    ensures OneRowPerKey(db.AfterRun(since, always, false, s).alerts) <==> forall k :: !PastLimit(db, since, k)
  {
    AscendingFetch(Since(db.results, since));
    FetchKeys(db.alerts);
    CutOffIsMissing(db.alerts, db.Last(), db.Rows(since), always, s);
    forall k
      ensures PastLimit(db, since, k) <==> Missing(db.alerts, db.Last(), db.Rows(since), k)
    {
      CutOffIffPastLimit(db, since, k);
    }
  }

  ghost predicate Missing(table: seq<Row>, last: map<Key, string>, rows: seq<Row>, k: Key) {
    k in KeySet(rows) && k in KeySet(table) && k !in last
  }

  lemma CutOffIsMissing(table: seq<Row>, last: map<Key, string>, rows: seq<Row>, always: bool, s: Setting)
    requires OneRowPerKey(table) && OneRowPerKey(rows) && last.Keys <= KeySet(table)
    ensures OneRowPerKey(TableAfter(table, last, rows, always, false, s)) <==> forall k :: !Missing(table, last, rows, k)
  {
    DuplicatesIff(table, last, rows, always, s);
    if k: Key :| k in KeySet(rows) && k in KeySet(table) && k !in last {
      assert Missing(table, last, rows, k);
    }
  }

  lemma FetchKeys(rows: seq<Row>)
    ensures KeySet(Fetch(rows)) <= KeySet(rows)
  {
    forall k | k in KeySet(Fetch(rows))
      ensures k in KeySet(rows)
    {
      FetchedIffRank(rows, k);
    }
  }

  /** A run over all results never meets a key that was cut off. */
  lemma FullRunIsNotCutOff(db: Tables, k: Key)
    requires db.Inv()
    ensures !db.CutOff(None, k)
  {
    if db.CutOff(None, k) {
      SubsetIsNotCutOff(db.alerts, db.results, k);
    }
  }

  // ---------------------------------------------------------------- every sequence of runs

  /** New rows arriving in the result table, a run, or a run that raises an error after some rows. */
  datatype Event =
    | Arrive(rows: seq<Row>)
    | Run(since: Option<int>, always: bool, noUpdate: bool, s: Setting)
    | BrokenRun(since: Option<int>, always: bool, noUpdate: bool, s: Setting, n: nat)

  /** Runs that update look at all results, as the program's entry point makes them. */
  predicate Allowed(e: Event) {
    !e.Arrive? ==> e.noUpdate || e.since.None?
  }

  function After(db: Tables, e: Event): Tables {
    match e
    case Arrive(rows) => Tables(db.results + rows, db.alerts)
    case Run(since, always, noUpdate, s) => db.AfterRun(since, always, noUpdate, s)
    case BrokenRun(since, always, noUpdate, s, n) => db.AfterBrokenRun(since, always, noUpdate, s, n)
  }

  function AfterAll(db: Tables, es: seq<Event>): Tables {
    if es == [] then db else After(AfterAll(db, es[..|es| - 1]), es[|es| - 1])
  }

  lemma EventKeepsInv(db: Tables, e: Event)
    requires db.Inv() && Allowed(e)
    ensures After(db, e).Inv()
  {
    match e
    case Arrive(rows) =>
      var all := db.results + rows;
      forall k | k in KeySet(db.alerts)
        ensures k in KeySet(all)
      {
        var i :| 0 <= i < |db.results| && db.results[i].key == k;
        assert all[i].key == k;
      }
    case Run(since, always, noUpdate, s) =>
      assert db.Rows(since) == UpTo(db.Rows(since), |db.Rows(since)|);
      PartKeepsInv(db, since, always, noUpdate, s, |db.Rows(since)|);
    case BrokenRun(since, always, noUpdate, s, n) =>
      PartKeepsInv(db, since, always, noUpdate, s, n);
  }

  /** A run keeps the tables in order at every row it may stop at. */
  lemma PartKeepsInv(db: Tables, since: Option<int>, always: bool, noUpdate: bool, s: Setting, n: nat)
    requires db.Inv() && (noUpdate || since.None?)
    ensures db.AfterBrokenRun(since, always, noUpdate, s, n).Inv()
  {
    var rows := db.Rows(since);
    var part := UpTo(rows, n);
    TableKeys(db.alerts, db.Last(), part, always, noUpdate, s);
    FetchKeys(Since(db.results, since));
    assert KeySet(part) <= KeySet(rows);
    if noUpdate {
      NoUpdateKeepsTable(db.alerts, db.Last(), part, always, s);
    } else {
      AscendingFetch(Since(db.results, since));
      FetchKeys(db.alerts);
      forall k | k in KeySet(part) && k in KeySet(db.alerts)
        ensures k in db.Last()
      {
        FullRunIsNotCutOff(db, k);
      }
      DuplicatesIff(db.alerts, db.Last(), part, always, s);
    }
  }

  lemma {:induction false} NoUpdateKeepsTable(table: seq<Row>, last: map<Key, string>, rows: seq<Row>, always: bool, s: Setting)
    ensures TableAfter(table, last, rows, always, true, s) == table
  {
    if rows != [] {
      NoUpdateKeepsTable(table, last, rows[..|rows| - 1], always, s);
    }
  }

  /** From empty tables, however results arrive and runs follow, no key ever gets two rows and no later run is cut off. */
  lemma {:induction false} EveryRunKeepsInv(es: seq<Event>)
    requires forall i :: 0 <= i < |es| ==> Allowed(es[i])
    ensures var db := AfterAll(Tables([], []), es);
            db.Inv() && forall k :: !db.CutOff(None, k)
  {
    if es != [] {
      var n := |es| - 1;
      EveryRunKeepsInv(es[..n]);
      EventKeepsInv(AfterAll(Tables([], []), es[..n]), es[n]);
    }
    var db := AfterAll(Tables([], []), es);
    forall k
      ensures !db.CutOff(None, k)
    {
      FullRunIsNotCutOff(db, k);
    }
  }

  // ---------------------------------------------------------------- repeating a run

  lemma {:induction false} NotifiedAt(fetched: seq<Row>, i: nat)
    requires OneRowPerKey(fetched) && i < |fetched|
    ensures fetched[i].key in Notified(fetched) && Notified(fetched)[fetched[i].key] == fetched[i].data
  {
    var n := |fetched| - 1;
    if i < n {
      NotifiedAt(fetched[..n], i);
      assert fetched[..n][i] == fetched[i];
      assert fetched[i].key != fetched[n].key;
    }
  }

  /** With one row per key, what a query says about a key is what the table holds. */
  lemma NotifiedIsTable(table: seq<Row>, i: nat)
    requires OneRowPerKey(table) && i < |table|
    ensures table[i].key in Notified(Fetch(table)) ==> Notified(Fetch(table))[table[i].key] == table[i].data
  {
    var f, k := Fetch(table), table[i].key;
    if k in Notified(f) {
      var j :| 0 <= j < |f| && f[j].key == k;
      var m :| 0 <= m < |table| && table[m] == f[j];
      assert m == i;
      AscendingFetch(table);
      NotifiedAt(f, j);
    }
  }

  ghost predicate Holds(table: seq<Row>, k: Key, data: string) {
    exists i :: 0 <= i < |table| && table[i].key == k && table[i].data == data
  }

  lemma MarkHolds(t: seq<Row>, update: bool, row: Row, k: Key, data: string)
    requires update ==> row.key in KeySet(t)
    ensures Holds(MarkAsHandled(t, update, row), row.key, row.data)
    ensures k != row.key && Holds(t, k, data) ==> Holds(MarkAsHandled(t, update, row), k, data)
  {
    var u := MarkAsHandled(t, update, row);
    if update {
      var i :| 0 <= i < |t| && t[i].key == row.key;
      assert u[i] == row;
    } else {
      assert u[|t|] == row;
    }
    if k != row.key && Holds(t, k, data) {
      var i :| 0 <= i < |t| && t[i].key == k && t[i].data == data;
      assert u[i] == t[i];
    }
  }

  /** After an updating run the table holds the hash of every fetched result. */
  lemma {:induction false} RunStoresHashes(table: seq<Row>, last: map<Key, string>, rows: seq<Row>, always: bool, s: Setting, i: nat)
    requires OneRowPerKey(rows) && i < |rows|
    requires forall k :: k in last ==> Holds(table, k, last[k])
    ensures Holds(TableAfter(table, last, rows, always, false, s), rows[i].key, s.hash(rows[i]))
    decreases |rows|
  {
    var n := |rows| - 1;
    var t := TableAfter(table, last, rows[..n], always, false, s);
    var row := Row(rows[n].key, s.clock(n), s.hash(rows[n]));
    UntouchedKey(table, last, rows[..n], always, s, rows[n].key);
    if i < n {
      assert rows[..n][i] == rows[i];
      RunStoresHashes(table, last, rows[..n], always, s, i);
      assert rows[i].key != rows[n].key;
    }
    if Tried(last, rows[n], always, s) {
      if row.key in last {
        TableKeys(table, last, rows[..n], always, false, s);
        HoldsKey(table, row.key, last[row.key]);
      }
      MarkHolds(t, row.key in last, row, rows[i].key, s.hash(rows[i]));
    }
  }

  lemma HoldsKey(t: seq<Row>, k: Key, data: string)
    requires Holds(t, k, data)
    ensures k in KeySet(t)
  {}

  lemma {:induction false} UntouchedKey(table: seq<Row>, last: map<Key, string>, rows: seq<Row>, always: bool, s: Setting, k: Key)
    requires k !in KeySet(rows)
    requires forall x :: x in last ==> Holds(table, x, last[x])
    ensures k in last ==> Holds(TableAfter(table, last, rows, always, false, s), k, last[k])
  {
    if rows != [] && k in last {
      var n := |rows| - 1;
      assert KeySet(rows) == KeySet(rows[..n]) + {rows[n].key};
      UntouchedKey(table, last, rows[..n], always, s, k);
      var t := TableAfter(table, last, rows[..n], always, false, s);
      TableKeys(table, last, rows[..n], always, false, s);
      if rows[n].key in last {
        HoldsKey(table, rows[n].key, last[rows[n].key]);
      }
      MarkHolds(t, rows[n].key in last, Row(rows[n].key, s.clock(n), s.hash(rows[n])), k, last[k]);
    }
  }

  lemma {:induction false} NothingTried(table: seq<Row>, last: map<Key, string>, rows: seq<Row>, s: Setting)
    requires forall i :: 0 <= i < |rows| ==> !Tried(last, rows[i], false, s)
    ensures Raised(last, rows, false, s) == [] && TableAfter(table, last, rows, false, false, s) == table
    ensures forall c :: Quiet(last, rows, false, s, c) == 0
  {
    if rows != [] {
      NothingTried(table, last, rows[..|rows| - 1], s);
    }
  }

  /** Repeating an updating run while no result arrives raises nothing, counts nothing and changes nothing. */
  lemma RepeatedRunIsSilent(db: Tables, always: bool, s: Setting, s': Setting)
    requires db.Inv() && s'.hash == s.hash
    ensures var db1 := db.AfterRun(None, always, false, s);
            && Raised(db1.Last(), db1.Rows(None), false, s') == []
            && (forall c :: Quiet(db1.Last(), db1.Rows(None), false, s', c) == 0)
            && db1.AfterRun(None, false, false, s') == db1
  {
    var db1 := db.AfterRun(None, always, false, s);
    var rows, last := db.Rows(None), db1.Last();
    EventKeepsInv(db, Run(None, always, false, s));
    AscendingFetch(Since(db.results, None));
    LastIsHeld(db.alerts);
    forall i | 0 <= i < |rows|
      ensures !Tried(last, rows[i], false, s')
    {
      RunStoresHashes(db.alerts, db.Last(), rows, always, s, i);
      var j :| 0 <= j < |db1.alerts| && db1.alerts[j].key == rows[i].key && db1.alerts[j].data == s.hash(rows[i]);
      FullRunIsNotCutOff(db1, rows[i].key);
      NotifiedIsTable(db1.alerts, j);
    }
    NothingTried(db1.alerts, last, rows, s');
  }

  lemma LastIsHeld(table: seq<Row>)
    ensures forall k :: k in Notified(Fetch(table)) ==> Holds(table, k, Notified(Fetch(table))[k])
  {
    var f := Fetch(table);
    AscendingFetch(table);
    forall k | k in Notified(f)
      ensures Holds(table, k, Notified(f)[k])
    {
      var j :| 0 <= j < |f| && f[j].key == k;
      NotifiedAt(f, j);
      var m :| 0 <= m < |table| && table[m] == f[j];
    }
  }

  // ---------------------------------------------------------------- the decision is right despite the limit

  /**
   A full run tries a result exactly when the whole alert table does not hold its hash yet, and updates
   rather than inserts exactly when the table has a row for it, although it has read only part of the table.
   */
  lemma DecisionIsRight(db: Tables, always: bool, s: Setting, i: nat)
    requires db.Inv() && i < |db.Rows(None)|
    ensures var r := db.Rows(None)[i];
            && (Tried(db.Last(), r, always, s) <==> always || !Holds(db.alerts, r.key, s.hash(r)))
            && (r.key in db.Last() <==> r.key in KeySet(db.alerts))
  {
    var r := db.Rows(None)[i];
    FullRunIsNotCutOff(db, r.key);
    FetchKeys(db.alerts);
    LastIsHeld(db.alerts);
    if Holds(db.alerts, r.key, s.hash(r)) {
      var j :| 0 <= j < |db.alerts| && db.alerts[j].key == r.key && db.alerts[j].data == s.hash(r);
      NotifiedIsTable(db.alerts, j);
    }
  }

  lemma {:induction false} OtherRowsStay(table: seq<Row>, last: map<Key, string>, rows: seq<Row>, always: bool, noUpdate: bool, s: Setting, j: nat)
    requires j < |table| && table[j].key !in KeySet(rows)
    ensures var after := TableAfter(table, last, rows, always, noUpdate, s);
            |after| >= |table| && after[j] == table[j]
  {
    if rows != [] {
      var n := |rows| - 1;
      assert KeySet(rows) == KeySet(rows[..n]) + {rows[n].key};
      OtherRowsStay(table, last, rows[..n], always, noUpdate, s, j);
    }
  }

  /** After a full updating run the table holds the hash of every fetched result, and rows of other keys are as before. */
  lemma RunWritesExactly(db: Tables, always: bool, s: Setting)
    requires db.Inv()
    ensures var rows, after := db.Rows(None), db.AfterRun(None, always, false, s).alerts;
            && |after| >= |db.alerts|
            && (forall i :: 0 <= i < |rows| ==> Holds(after, rows[i].key, s.hash(rows[i])))
            && (forall j :: 0 <= j < |db.alerts| && db.alerts[j].key !in KeySet(rows) ==> after[j] == db.alerts[j])
  {
    var rows := db.Rows(None);
    AscendingFetch(Since(db.results, None));
    LastIsHeld(db.alerts);
    TableGrows(db.alerts, db.Last(), rows, always, false, s);
    forall i | 0 <= i < |rows|
      ensures Holds(db.AfterRun(None, always, false, s).alerts, rows[i].key, s.hash(rows[i]))
    {
      RunStoresHashes(db.alerts, db.Last(), rows, always, s, i);
    }
    forall j | 0 <= j < |db.alerts| && db.alerts[j].key !in KeySet(rows)
      ensures db.AfterRun(None, always, false, s).alerts[j] == db.alerts[j]
    {
      OtherRowsStay(db.alerts, db.Last(), rows, always, false, s, j);
    }
  }

  lemma {:induction false} TableGrows(table: seq<Row>, last: map<Key, string>, rows: seq<Row>, always: bool, noUpdate: bool, s: Setting)
    ensures |TableAfter(table, last, rows, always, noUpdate, s)| >= |table|
  {
    if rows != [] {
      TableGrows(table, last, rows[..|rows| - 1], always, noUpdate, s);
    }
  }

  /** An alert is raised for exactly the fetched results that are tried and judged worth one. */
  lemma {:induction false} RaisedIff(last: map<Key, string>, rows: seq<Row>, always: bool, s: Setting, k: Key, alert: string)
    ensures (k, alert) in Raised(last, rows, always, s) <==>
            alert != "" && exists i :: 0 <= i < |rows| && rows[i].key == k && Tried(last, rows[i], always, s) && s.handlers.Alert(rows[i]) == alert
  {
    if rows != [] {
      var n := |rows| - 1;
      RaisedIff(last, rows[..n], always, s, k, alert);
      assert forall i :: 0 <= i < n ==> rows[i] == rows[..n][i];
    }
  }

  // ---------------------------------------------------------------- conservation

  function TriedRows(last: map<Key, string>, rows: seq<Row>, always: bool, s: Setting): nat {
    if rows == [] then 0
    else TriedRows(last, rows[..|rows| - 1], always, s) + if Tried(last, rows[|rows| - 1], always, s) then 1 else 0
  }

  function QuietIn(last: map<Key, string>, rows: seq<Row>, always: bool, s: Setting, categories: seq<string>): nat {
    if categories == [] then 0
    else Quiet(last, rows, always, s, categories[0]) + QuietIn(last, rows, always, s, categories[1..])
  }

  lemma {:induction false} QuietSnoc(last: map<Key, string>, rows: seq<Row>, always: bool, s: Setting, categories: seq<string>)
    requires rows != [] && Distinct(categories)
    ensures var r := rows[|rows| - 1];
            QuietIn(last, rows, always, s, categories) == QuietIn(last, rows[..|rows| - 1], always, s, categories)
              + if r.key.category in categories && Tried(last, r, always, s) && s.handlers.Alert(r) == "" then 1 else 0
  {
    if categories != [] {
      QuietSnoc(last, rows, always, s, categories[1..]);
      assert categories == [categories[0]] + categories[1..];
    }
  }

  lemma {:induction false} QuietNothing(last: map<Key, string>, always: bool, s: Setting, categories: seq<string>)
    ensures QuietIn(last, [], always, s, categories) == 0
  {
    if categories != [] {
      QuietNothing(last, always, s, categories[1..]);
    }
  }

  /** Every tried result is either an alert or counted once under its category. */
  lemma {:induction false} AlertsAndCountsAddUp(last: map<Key, string>, rows: seq<Row>, always: bool, s: Setting, categories: seq<string>)
    requires Distinct(categories)
    requires forall i :: 0 <= i < |rows| ==> rows[i].key.category in categories
    ensures |Raised(last, rows, always, s)| + QuietIn(last, rows, always, s, categories) == TriedRows(last, rows, always, s)
    decreases |rows|
  {
    if rows == [] {
      QuietNothing(last, always, s, categories);
    } else {
      AlertsAndCountsAddUp(last, rows[..|rows| - 1], always, s, categories);
      QuietSnoc(last, rows, always, s, categories);
    }
  }

  // ---------------------------------------------------------------- an updating run with a start date

  function Stars(n: nat): string {
    if n == 0 then "" else "*" + Stars(n - 1)
  }

  lemma {:induction false} StarsAscend(m: nat, n: nat)
    requires m < n
    ensures StringLess(Stars(m), Stars(n))
  {
    if m > 0 {
      StarsAscend(m - 1, n - 1);
    }
  }

  function StarKey(n: nat): Key { Key("", "", Stars(n)) }

  /** Old rows for the first `n` of an ascending family of keys. */
  function Crowd(n: nat): (rows: seq<Row>)
    ensures |rows| == n
  {
    if n == 0 then [] else Crowd(n - 1) + [Row(StarKey(n - 1), 0, "")]
  }

  lemma {:induction false} CrowdKeys(n: nat)
    ensures forall i :: 0 <= i < n ==> Crowd(n)[i].key == StarKey(i)
    ensures KeySet(Crowd(n)) == set i | 0 <= i < n :: StarKey(i)
  {
    if n > 0 {
      CrowdKeys(n - 1);
      KeySetSnoc(Crowd(n - 1), Row(StarKey(n - 1), 0, ""));
    }
  }

  lemma StarKeysDiffer(i: nat, j: nat)
    requires i < j
    ensures KeyLess(StarKey(i), StarKey(j)) && StarKey(i) != StarKey(j)
  {
    StarsAscend(i, j);
    StringOrder(Stars(i), Stars(j));
  }

  lemma CrowdHasOneRowPerKey(n: nat)
    ensures OneRowPerKey(Crowd(n))
  {
    CrowdKeys(n);
    forall i, j | 0 <= i < j < n
      ensures StarKey(i) != StarKey(j)
    {
      StarKeysDiffer(i, j);
    }
  }

  lemma LastOfCrowdRank(n: nat)
    ensures Rank(StarKey(n), KeySet(Crowd(n + 1))) == n
  {
    var ks := seq(n + 1, i requires 0 <= i <= n => StarKey(i));
    forall i, j | 0 <= i < j < |ks|
      ensures KeyLess(ks[i], ks[j])
    {
      StarKeysDiffer(i, j);
    }
    RankIsIndex(ks, n);
    CrowdKeys(n + 1);
    assert Elements(ks) == KeySet(Crowd(n + 1)) by {
      assert forall i :: 0 <= i <= n ==> ks[i] == StarKey(i);
    }
  }

  lemma {:induction false} OldAreDropped(n: nat)
    ensures Since(Crowd(n), Some(1)) == []
  {
    if n > 0 {
      OldAreDropped(n - 1);
      SinceSnoc(Crowd(n - 1), Row(StarKey(n - 1), 0, ""), 1);
    }
  }

  lemma SinceSnoc(rows: seq<Row>, row: Row, since: int)
    ensures Since(rows + [row], Some(since)) == Since(rows, Some(since)) + if row.stamp >= since then [row] else []
  {
    assert (rows + [row])[..|rows|] == rows;
  }

  lemma RankAlone(k: Key, row: Row)
    requires row.key == k
    ensures KeySet([row]) == {k} && Rank(k, {k}) == 0
  {
    assert [row][0] == row;
    KeyOrder(k, k);
    assert (set x | x in {k} && KeyLess(x, k)) == {};
  }

  lemma CrowdRecent(n: nat)
    ensures KeySet(Since(Crowd(n) + [Row(StarKey(n), 1, "")], Some(1))) == {StarKey(n)}
    ensures Rank(StarKey(n), {StarKey(n)}) == 0
  {
    var recent := Row(StarKey(n), 1, "");
    OldAreDropped(n);
    SinceSnoc(Crowd(n), recent, 1);
    assert [] + [recent] == [recent];
    RankAlone(StarKey(n), recent);
  }

  lemma CrowdInv(n: nat)
    ensures Tables(Crowd(n) + [Row(StarKey(n), 1, "")], Crowd(n + 1)).Inv()
    ensures StarKey(n) in KeySet(Crowd(n + 1))
  {
    KeySetSnoc(Crowd(n), Row(StarKey(n), 1, ""));
    KeySetSnoc(Crowd(n), Row(StarKey(n), 0, ""));
    CrowdHasOneRowPerKey(n + 1);
  }

  /** `n` + 1 keys are all notified, and only the last of their results is recent. */
  lemma CrowdedTables(n: nat) returns (db: Tables, k: Key)
    ensures db.Inv() && k in KeySet(db.alerts) && Rank(k, KeySet(db.alerts)) == n
    ensures KeySet(Since(db.results, Some(1))) == {k} && Rank(k, {k}) == 0
  {
    k := StarKey(n);
    db := Tables(Crowd(n) + [Row(k, 1, "")], Crowd(n + 1));
    CrowdInv(n);
    LastOfCrowdRank(n);
    CrowdRecent(n);
  }

  /**
   With a start date an updating run can meet a key whose alert row is past the limit, and then
   writes a second row for it.
   */
  lemma StartDateCanDuplicate(s: Setting) returns (db: Tables)
    ensures db.Inv() && !OneRowPerKey(db.AfterRun(Some(1), false, false, s).alerts)
  {
    var k: Key;
    db, k := CrowdedTables(RESULTS_LIMIT);
    assert PastLimit(db, Some(1), k);
    RunKeepsOneRowIff(db, Some(1), false, s);
  }
}
