/**
 Serialization of values in python/ray/serialization.py: what msgpack understands goes into the
 message, every other object into a table, its place in the message taken by its index.
 */
module Serialization {
  import opened Base

  /** A value: a container or scalar that msgpack packs itself, or some other Python object. */
  datatype Tree = Native(tag: string, children: seq<Tree>) | PyObject(id: string)

  /** A packed message, in which an extension record refers to the object table. */
  datatype Msg = Packed(tag: string, children: seq<Msg>) | Ext(index: nat)

  // ---------------------------------------------------------------- packing

  /** A packed message, or the point at which the nesting limit was exceeded; either way with the table so far. */
  datatype Packing = Done(msg: Msg, table: seq<Tree>) | TooDeep(table: seq<Tree>)
  datatype PackingAll = AllDone(msgs: seq<Msg>, table: seq<Tree>) | AnyTooDeep(table: seq<Tree>)

  /** Packs `t`, handing every object that is not native to the callback, which appends it and returns its index. */
  function Pack(t: Tree, table: seq<Tree>, limit: nat): Packing
    decreases t
  {
    if limit == 0 then TooDeep(table)
    else match t
      case PyObject(_) => Done(Ext(|table|), table + [t])
      case Native(tag, children) =>
        match PackAll(children, table, limit - 1)
        case AllDone(msgs, table') => Done(Packed(tag, msgs), table')
        case AnyTooDeep(table') => TooDeep(table')
  }

  /** Children are packed from left to right. */
  function PackAll(ts: seq<Tree>, table: seq<Tree>, limit: nat): PackingAll
    decreases ts
  {
    if ts == [] then AllDone([], table)
    else match Pack(ts[0], table, limit)
      case TooDeep(table') => AnyTooDeep(table')
      case Done(msg, table') =>
        match PackAll(ts[1..], table', limit)
        case AnyTooDeep(table'') => AnyTooDeep(table'')
        case AllDone(msgs, table'') => AllDone([msg] + msgs, table'')
  }

  /** A value nested too deeply is handed to the callback as a whole; what the failed attempt appended stays in the table. */
  function Dumps(t: Tree, limit: nat): (Msg, seq<Tree>) {
    match Pack(t, [], limit)
    case Done(msg, table) => (msg, table)
    case TooDeep(table) => (Ext(|table|), table + [t])
  }

  // ---------------------------------------------------------------- unpacking

  datatype Result<T> = Ok(value: T) | DeserializationError

  function Unpack(m: Msg, table: seq<Tree>): Result<Tree>
    decreases m
  {
    match m
    case Ext(index) => if index < |table| then Ok(table[index]) else DeserializationError
    case Packed(tag, children) =>
      match UnpackAll(children, table)
      case Ok(trees) => Ok(Native(tag, trees))
      case DeserializationError => DeserializationError
  }

  function UnpackAll(ms: seq<Msg>, table: seq<Tree>): Result<seq<Tree>>
    decreases ms
  {
    if ms == [] then Ok([])
    else match Unpack(ms[0], table)
      case DeserializationError => DeserializationError
      case Ok(t) =>
        match UnpackAll(ms[1..], table)
        case DeserializationError => DeserializationError
        case Ok(ts) => Ok([t] + ts)
  }

  ghost predicate Extends(big: seq<Tree>, small: seq<Tree>) {
    |small| <= |big| && big[..|small|] == small
  }

  /** The table only grows, and any table that extends it resolves the message back to the value. */
  lemma {:induction false} PackUnpack(t: Tree, table: seq<Tree>, limit: nat, later: seq<Tree>)
    ensures Extends(Pack(t, table, limit).table, table)
    ensures Pack(t, table, limit).Done? && Extends(later, Pack(t, table, limit).table) ==>
              Unpack(Pack(t, table, limit).msg, later) == Ok(t)
    decreases t
  {
    if limit > 0 {
      match t
      case PyObject(_) =>
        if Extends(later, table + [t]) {
          assert later[|table|] == later[..|table| + 1][|table|] == t;
        }
      case Native(_, children) =>
        PackUnpackAll(children, table, limit - 1, later);
    }
  }

  lemma {:induction false} PackUnpackAll(ts: seq<Tree>, table: seq<Tree>, limit: nat, later: seq<Tree>)
    ensures Extends(PackAll(ts, table, limit).table, table)
    ensures PackAll(ts, table, limit).AllDone? && Extends(later, PackAll(ts, table, limit).table) ==>
              UnpackAll(PackAll(ts, table, limit).msgs, later) == Ok(ts)
    decreases ts
  {
    if ts != [] {
      var first := Pack(ts[0], table, limit);
      PackUnpack(ts[0], table, limit, later);
      if first.Done? {
        var rest := PackAll(ts[1..], first.table, limit);
        PackUnpackAll(ts[1..], first.table, limit, later);
        ExtendsTransitive(rest.table, first.table, table);
        if rest.AllDone? && Extends(later, rest.table) {
          ExtendsTransitive(later, rest.table, first.table);
          assert ([first.msg] + rest.msgs)[1..] == rest.msgs;
          assert ts == [ts[0]] + ts[1..];
        }
      }
    }
  }

  lemma ExtendsTransitive(a: seq<Tree>, b: seq<Tree>, c: seq<Tree>)
    requires Extends(a, b) && Extends(b, c)
    ensures Extends(a, c)
  {
    assert a[..|c|] == a[..|b|][..|c|];
  }

  /** Every value comes back as it was, at every nesting depth. */
  lemma DumpsLoads(t: Tree, limit: nat)
    ensures var (msg, table) := Dumps(t, limit); Unpack(msg, table) == Ok(t)
  {
    var p := Pack(t, [], limit);
    PackUnpack(t, [], limit, p.table);
  }

  // ---------------------------------------------------------------- when the table is empty

  /** Nothing but native values. */
  ghost predicate Plain(t: Tree)
    decreases t
  {
    t.Native? && forall i :: 0 <= i < |t.children| ==> Plain(t.children[i])
  }

  /** The number of levels, at most `n`. */
  ghost predicate Within(t: Tree, n: nat)
    decreases t
  {
    n > 0 && (t.Native? ==> forall i :: 0 <= i < |t.children| ==> Within(t.children[i], n - 1))
  }

  lemma {:induction false} PackOutcome(t: Tree, table: seq<Tree>, limit: nat)
    ensures Pack(t, table, limit).Done? <==> Within(t, limit)
    ensures Pack(t, table, limit).Done? ==> (Pack(t, table, limit).table == table <==> Plain(t))
    decreases t
  {
    if limit > 0 {
      match t
      case PyObject(_) => assert |table + [t]| > |table|;
      case Native(_, children) => PackAllOutcome(children, table, limit - 1);
    }
  }

  lemma {:induction false} PackAllOutcome(ts: seq<Tree>, table: seq<Tree>, limit: nat)
    ensures PackAll(ts, table, limit).AllDone? <==> forall i :: 0 <= i < |ts| ==> Within(ts[i], limit)
    ensures PackAll(ts, table, limit).AllDone? ==>
              (PackAll(ts, table, limit).table == table <==> forall i :: 0 <= i < |ts| ==> Plain(ts[i]))
    decreases ts
  {
    if ts != [] {
      PackOutcome(ts[0], table, limit);
      var first := Pack(ts[0], table, limit);
      assert forall i :: 0 < i < |ts| ==> ts[i] == ts[1..][i - 1];
      if first.Done? {
        PackAllOutcome(ts[1..], first.table, limit);
        PackUnpack(ts[0], table, limit, []);
        PackUnpackAll(ts[1..], first.table, limit, []);
      }
    }
  }

  /** The table stays empty exactly for native values within the nesting limit. */
  lemma EmptyTableIff(t: Tree, limit: nat)
    ensures Dumps(t, limit).1 == [] <==> Plain(t) && Within(t, limit)
  {
    PackOutcome(t, [], limit);
  }

  // ---------------------------------------------------------------- values and their metadata

  datatype Metadata = CROSS_LANGUAGE | PYTHON | ACTOR_HANDLE | TASK_EXECUTION_EXCEPTION | RAW

  /** What can be serialized: raw bytes, a task error (as bytes), an actor handle (by its state), or any other value. */
  datatype Value = RawBytes(bytes: string) | TaskError(bytes: string) | ActorHandle(state: Tree) | Ordinary(tree: Tree)

  datatype Serialized = Serialized(metadata: Metadata, msg: Msg, table: seq<Tree>)

  function BytesTree(bytes: string): Tree {
    Native(bytes, [])
  }

  function KindOf(v: Value): Metadata {
    match v
    case RawBytes(_) => RAW
    case TaskError(_) => TASK_EXECUTION_EXCEPTION
    case ActorHandle(_) => ACTOR_HANDLE
    case Ordinary(_) => CROSS_LANGUAGE
  }

  function Body(v: Value): Tree {
    match v
    case RawBytes(bytes) => BytesTree(bytes)
    case TaskError(bytes) => BytesTree(bytes)
    case ActorHandle(state) => state
    case Ordinary(tree) => tree
  }

  /** A non-empty object table turns the metadata to PYTHON, whatever kind of value it was. */
  function SerializeValue(v: Value, limit: nat): Serialized {
    if v.RawBytes? then Serialized(RAW, Packed(v.bytes, []), [])
    else
      var (msg, table) := Dumps(Body(v), limit);
      Serialized(if table != [] then PYTHON else KindOf(v), msg, table)
  }

  /** The table is only read back when the metadata says PYTHON. */
  function DeserializeValue(s: Serialized): Result<Value> {
    if s.metadata == RAW then (if s.msg.Packed? then Ok(RawBytes(s.msg.tag)) else DeserializationError)
    else match Unpack(s.msg, if s.metadata == PYTHON then s.table else [])
      case DeserializationError => DeserializationError
      case Ok(t) =>
        match s.metadata
        case ACTOR_HANDLE => Ok(ActorHandle(t))
        case TASK_EXECUTION_EXCEPTION => if t.Native? then Ok(TaskError(t.tag)) else DeserializationError
        case _ => Ok(Ordinary(t))
  }

  /** Every value comes back as it was, except that an actor handle whose state needs the object table comes back as that state. */
  lemma RoundTrip(v: Value, limit: nat)
    requires limit > 0
    ensures DeserializeValue(SerializeValue(v, limit)) ==
            Ok(if v.ActorHandle? && !(Plain(v.state) && Within(v.state, limit)) then Ordinary(v.state) else v)
  {
    if !v.RawBytes? {
      DumpsLoads(Body(v), limit);
      EmptyTableIff(Body(v), limit);
      if v.TaskError? {
        assert Plain(Body(v)) && Within(Body(v), limit);
      }
    }
  }

  /** The state of an actor handle: the bytes the core worker gives, or a dictionary of fields where there is no core worker. */
  function HandleState(hasCoreWorker: bool, bytes: string, fields: Tree): Tree {
    if hasCoreWorker then BytesTree(bytes) else fields
  }

  /** Connecting always makes a core worker, and every handle serialized with one survives, with its own metadata and an empty table. */
  lemma ConnectedHandleSurvives(bytes: string, fields: Tree, limit: nat)
    requires limit > 0
    ensures var v := ActorHandle(HandleState(true, bytes, fields));
            var s := SerializeValue(v, limit);
            s.metadata == ACTOR_HANDLE && s.table == [] && DeserializeValue(s) == Ok(v)
  {
    var v := ActorHandle(HandleState(true, bytes, fields));
    assert Plain(v.state) && Within(v.state, limit);
    RoundTrip(v, limit);
    EmptyTableIff(v.state, limit);
  }

  /** For ordinary values the metadata says PYTHON exactly when something went into the table. */
  lemma MetadataIff(t: Tree, limit: nat)
    ensures var s := SerializeValue(Ordinary(t), limit);
            && s.metadata in {PYTHON, CROSS_LANGUAGE}
            && (s.metadata == PYTHON <==> s.table != [])
            && (s.metadata == PYTHON <==> !(Plain(t) && Within(t, limit)))
  {
    EmptyTableIff(t, limit);
  }

  // ---------------------------------------------------------------- the serializer at work

  /** The list of Python objects that the packer's callback appends to. */
  class ObjectTable {
    var objects: seq<Tree>

    constructor ()
      ensures objects == []
    {
      objects := [];
    }

    method PythonSerializer(o: Tree) returns (index: nat)
      modifies this
      ensures index == |old(objects)| && objects == old(objects) + [o]
    {
      index := |objects|;
      objects := objects + [o];
    }
  }

  method PackTree(t: Tree, table: ObjectTable, limit: nat) returns (r: Option<Msg>)
    modifies table
    ensures Pack(t, old(table.objects), limit) ==
            if r.Some? then Done(r.value, table.objects) else TooDeep(table.objects)
    decreases t
  {
    if limit == 0 {
      return None;
    }
    match t {
      case PyObject(_) =>
        var index := table.PythonSerializer(t);
        r := Some(Ext(index));
      case Native(tag, children) =>
        var msgs := PackTrees(children, table, limit - 1);
        r := if msgs.Some? then Some(Packed(tag, msgs.value)) else None;
    }
  }

  method PackTrees(ts: seq<Tree>, table: ObjectTable, limit: nat) returns (r: Option<seq<Msg>>)
    modifies table
    ensures PackAll(ts, old(table.objects), limit) ==
            if r.Some? then AllDone(r.value, table.objects) else AnyTooDeep(table.objects)
    decreases ts
  {
    if ts == [] {
      return Some([]);
    }
    var first := PackTree(ts[0], table, limit);
    if first.None? {
      return None;
    }
    var rest := PackTrees(ts[1..], table, limit);
    r := if rest.Some? then Some([first.value] + rest.value) else None;
  }

  method SerializeToMsgpack(v: Value, limit: nat) returns (s: Serialized)
    requires !v.RawBytes?
    ensures s == SerializeValue(v, limit)
  {
    var metadata := KindOf(v);
    var table := new ObjectTable();
    var packed := PackTree(Body(v), table, limit);
    var msg;
    if packed.Some? {
      msg := packed.value;
    } else {
      var index := table.PythonSerializer(Body(v));
      msg := Ext(index);
    }
    if table.objects != [] {
      metadata := PYTHON;
    }
    s := Serialized(metadata, msg, table.objects);
  }
}
