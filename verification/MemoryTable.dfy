/**
 The memory table of dashboard/memory_utils.py: object references collected from workers, sorted,
 grouped and summarized, and the laws that tie the groups and summaries to the entries.
 */
module MemoryTable {
  import opened Base

  datatype SortingType = PID | OBJECT_SIZE | REFERENCE_TYPE
  datatype GroupByType = NODE_ADDRESS | STACK_TRACE

  datatype ReferenceType =
    | ACTOR_HANDLE
    | PINNED_IN_MEMORY
    | LOCAL_REFERENCE
    | USED_BY_PENDING_TASK
    | CAPTURED_IN_OBJECT
    | UNKNOWN_STATUS

  /** The place of a reference type in the alphabetical order of its name. */
  function Alphabetical(t: ReferenceType): int {
    match t
    case ACTOR_HANDLE => 0
    case CAPTURED_IN_OBJECT => 1
    case LOCAL_REFERENCE => 2
    case PINNED_IN_MEMORY => 3
    case UNKNOWN_STATUS => 4
    case USED_BY_PENDING_TASK => 5
  }

  function NameOf(t: ReferenceType): string {
    match t
    case ACTOR_HANDLE => "ACTOR_HANDLE"
    case CAPTURED_IN_OBJECT => "CAPTURED_IN_OBJECT"
    case LOCAL_REFERENCE => "LOCAL_REFERENCE"
    case PINNED_IN_MEMORY => "PINNED_IN_MEMORY"
    case UNKNOWN_STATUS => "UNKNOWN_STATUS"
    case USED_BY_PENDING_TASK => "USED_BY_PENDING_TASK"
  }

  /** Sorting by the place is sorting by the name: the first letters decide, but for two names the second ones. */
  lemma AlphabeticalIsNameOrder(a: ReferenceType, b: ReferenceType)
    ensures Alphabetical(a) < Alphabetical(b) <==> StringLess(NameOf(a), NameOf(b))
  {
    if a == b {
      StringOrder(NameOf(a), NameOf(a));
    } else {
      LetterDecides(NameOf(a), NameOf(b));
    }
  }

  lemma LetterDecides(s: string, t: string)
    requires |s| > 1 && |t| > 1
    ensures s[0] != t[0] ==> (StringLess(s, t) <==> s[0] < t[0])
    ensures s[0] == t[0] && s[1] != t[1] ==> (StringLess(s, t) <==> s[1] < t[1])
  {
    assert s[1..][0] == s[1] && t[1..][0] == t[1];
  }

  const TASKID_RANDOM_BITS_SIZE: nat := 16
  const ACTORID_RANDOM_BITS_SIZE: nat := 24

  /** An object reference: its hexadecimal form and whether it is the nil reference. */
  datatype Ref = Ref(hex: string, nil: bool) {
    /** Random bits all f, actor random bits not: the task that creates an actor. */
    predicate IsActorHandle() {
      && AllF(0, TASKID_RANDOM_BITS_SIZE)
      && !AllF(TASKID_RANDOM_BITS_SIZE, TASKID_RANDOM_BITS_SIZE + ACTORID_RANDOM_BITS_SIZE)
    }

    /** The slice from `a` to `b` is that many f's; a shorter slice is not. */
    predicate AllF(a: nat, b: nat) {
      b <= |hex| && forall i :: a <= i < b ==> hex[i] == 'f'
    }
  }

  datatype Entry = Entry(
    isDriver: bool, pid: int, nodeAddress: string,
    objectSize: int, callSite: string, ref: Ref,
    localRefCount: int, pinnedInMemory: bool, submittedTaskRefCount: int, containedInOwned: seq<Ref>,
    referenceType: ReferenceType)
  {
    predicate IsValid() {
      && !(!pinnedInMemory && localRefCount == 0 && submittedTaskRefCount == 0 && |containedInOwned| == 0)
      && !ref.nil
    }

    function GetReferenceType(): ReferenceType {
      if ref.IsActorHandle() then ACTOR_HANDLE
      else if pinnedInMemory then PINNED_IN_MEMORY
      else if submittedTaskRefCount > 0 then USED_BY_PENDING_TASK
      else if localRefCount > 0 then LOCAL_REFERENCE
      else if |containedInOwned| > 0 then CAPTURED_IN_OBJECT
      else UNKNOWN_STATUS
    }

    ghost predicate IsClassified() {
      referenceType == GetReferenceType()
    }

    function GroupKey(g: GroupByType): string {
      if g == NODE_ADDRESS then nodeAddress else callSite
    }

    function SortKey(t: SortingType): int {
      match t
      case PID => pid
      case OBJECT_SIZE => objectSize
      case REFERENCE_TYPE => Alphabetical(referenceType)
    }
  }

  /** A valid entry is unclassified exactly when a count is negative and nothing else refers to the object. */
  lemma UnknownIff(e: Entry)
    requires e.IsValid() && e.IsClassified()
    ensures e.referenceType == UNKNOWN_STATUS <==>
            && !e.ref.IsActorHandle() && !e.pinnedInMemory && e.containedInOwned == []
            && e.localRefCount <= 0 && e.submittedTaskRefCount <= 0
            && (e.localRefCount < 0 || e.submittedTaskRefCount < 0)
  {}

  // ---------------------------------------------------------------- stable sorting

  ghost predicate Sorted(s: seq<Entry>, t: SortingType) {
    forall i, j :: 0 <= i < j < |s| ==> s[i].SortKey(t) <= s[j].SortKey(t)
  }

  /** Before the first entry whose key is not smaller, so that earlier entries stay ahead of equal ones. */
  function Insert(e: Entry, s: seq<Entry>, t: SortingType): seq<Entry> {
    if s == [] || e.SortKey(t) <= s[0].SortKey(t) then [e] + s
    else [s[0]] + Insert(e, s[1..], t)
  }

  function StableSort(s: seq<Entry>, t: SortingType): seq<Entry> {
    if s == [] then [] else Insert(s[0], StableSort(s[1..], t), t)
  }

  /** The entries whose group key is among `ks`, in order. */
  function Within(s: seq<Entry>, g: GroupByType, ks: set<string>): seq<Entry> {
    if s == [] then []
    else if s[0].GroupKey(g) in ks then [s[0]] + Within(s[1..], g, ks)
    else Within(s[1..], g, ks)
  }

  lemma {:induction false} InsertIsSorted(e: Entry, s: seq<Entry>, t: SortingType)
    requires Sorted(s, t)
    ensures Sorted(Insert(e, s, t), t)
    ensures multiset(Insert(e, s, t)) == multiset(s) + multiset{e}
  {
    if s == [] || e.SortKey(t) <= s[0].SortKey(t) {
      SortedCons(e, s, t);
    } else {
      InsertIsSorted(e, s[1..], t);
      InsertBounded(e, s[1..], t, s[0].SortKey(t));
      SortedCons(s[0], Insert(e, s[1..], t), t);
      assert s == [s[0]] + s[1..];
    }
  }

  lemma SortedCons(e: Entry, s: seq<Entry>, t: SortingType)
    requires Sorted(s, t) && (s != [] ==> e.SortKey(t) <= s[0].SortKey(t))
    ensures Sorted([e] + s, t)
  {
    var r := [e] + s;
    forall i, j | 0 <= i < j < |r|
      ensures r[i].SortKey(t) <= r[j].SortKey(t)
    {
      assert r[j] == s[j - 1];
      if i == 0 && j > 1 {
        assert s[0].SortKey(t) <= s[j - 1].SortKey(t);
      }
    }
  }

  lemma InsertBounded(e: Entry, s: seq<Entry>, t: SortingType, low: int)
    requires low <= e.SortKey(t) && (s != [] ==> low <= s[0].SortKey(t))
    ensures Insert(e, s, t) != [] && low <= Insert(e, s, t)[0].SortKey(t)
  {}

  lemma {:induction false} SortIsSorted(s: seq<Entry>, t: SortingType)
    ensures Sorted(StableSort(s, t), t) && multiset(StableSort(s, t)) == multiset(s)
  {
    if s != [] {
      SortIsSorted(s[1..], t);
      InsertIsSorted(s[0], StableSort(s[1..], t), t);
      assert s == [s[0]] + s[1..];
    }
  }

  /** The entries with one value of the sort key, in order. */
  function WithKey(s: seq<Entry>, t: SortingType, v: int): seq<Entry> {
    if s == [] then []
    else if s[0].SortKey(t) == v then [s[0]] + WithKey(s[1..], t, v)
    else WithKey(s[1..], t, v)
  }

  lemma {:induction false} InsertWithKey(e: Entry, s: seq<Entry>, t: SortingType, v: int)
    requires Sorted(s, t)
    ensures WithKey(Insert(e, s, t), t, v) == (if e.SortKey(t) == v then [e] else []) + WithKey(s, t, v)
  {
    if s == [] || e.SortKey(t) <= s[0].SortKey(t) {
      assert ([e] + s)[1..] == s;
      assert [] + WithKey(s, t, v) == WithKey(s, t, v);
    } else {
      var r := Insert(e, s[1..], t);
      InsertWithKey(e, s[1..], t, v);
      assert ([s[0]] + r)[1..] == r;
      if s[0].SortKey(t) == v {
        assert [] + WithKey(s[1..], t, v) == WithKey(s[1..], t, v);
        assert [] + WithKey(s, t, v) == WithKey(s, t, v);
      }
    }
  }

  /** Sorting keeps the order of entries with equal keys. */
  lemma {:induction false} SortIsStable(s: seq<Entry>, t: SortingType, v: int)
    ensures WithKey(StableSort(s, t), t, v) == WithKey(s, t, v)
  {
    if s != [] {
      SortIsStable(s[1..], t, v);
      SortIsSorted(s[1..], t);
      InsertWithKey(s[0], StableSort(s[1..], t), t, v);
      assert [] + WithKey(s[1..], t, v) == WithKey(s[1..], t, v);
    }
  }

  lemma {:induction false} WithKeyOccurs(s: seq<Entry>, t: SortingType, v: int)
    ensures WithKey(s, t, v) != [] <==> exists i :: 0 <= i < |s| && s[i].SortKey(t) == v
  {
    if s != [] {
      WithKeyOccurs(s[1..], t, v);
      assert forall i :: 0 < i < |s| ==> s[i] == s[1..][i - 1];
    }
  }

  lemma FirstIsLeast(a: seq<Entry>, b: seq<Entry>, t: SortingType)
    requires Sorted(b, t) && a != []
    requires forall v :: WithKey(a, t, v) == WithKey(b, t, v)
    ensures b != [] && b[0].SortKey(t) <= a[0].SortKey(t)
  {
    var v := a[0].SortKey(t);
    WithKeyOccurs(b, t, v);
    assert WithKey(a, t, v) == WithKey(b, t, v);
  }

  /** Being sorted and keeping equal keys in order leaves only one possible result. */
  lemma {:induction false} StableSortIsUnique(a: seq<Entry>, b: seq<Entry>, t: SortingType)
    requires Sorted(a, t) && Sorted(b, t)
    requires forall v :: WithKey(a, t, v) == WithKey(b, t, v)
    ensures a == b
    decreases |a|
  {
    if a != [] {
      FirstIsLeast(a, b, t);
      FirstIsLeast(b, a, t);
      var x := a[0].SortKey(t);
      forall v
        ensures WithKey(a[1..], t, v) == WithKey(b[1..], t, v)
      {
        assert WithKey(a, t, v) == WithKey(b, t, v);
        if v == x {
          assert WithKey(a[1..], t, v) == WithKey(a, t, v)[1..];
          assert WithKey(b[1..], t, v) == WithKey(b, t, v)[1..];
        }
      }
      StableSortIsUnique(a[1..], b[1..], t);
      assert a[0] == WithKey(a, t, x)[0] == WithKey(b, t, x)[0] == b[0];
      assert a == [a[0]] + a[1..] && b == [b[0]] + b[1..];
    } else if b != [] {
      FirstIsLeast(b, a, t);
    }
  }

  // ---------------------------------------------------------------- grouping after sorting

  lemma {:induction false} WithinKeepsOrder(s: seq<Entry>, g: GroupByType, ks: set<string>, t: SortingType, low: int)
    requires Sorted(s, t) && (s != [] ==> low <= s[0].SortKey(t))
    ensures Sorted(Within(s, g, ks), t)
    ensures Within(s, g, ks) != [] ==> low <= Within(s, g, ks)[0].SortKey(t)
  {
    if s != [] {
      WithinKeepsOrder(s[1..], g, ks, t, s[0].SortKey(t));
      SortedCons(s[0], Within(s[1..], g, ks), t);
    }
  }

  lemma {:induction false} InsertWithin(e: Entry, s: seq<Entry>, g: GroupByType, ks: set<string>, t: SortingType)
    requires Sorted(s, t)
    ensures Within(Insert(e, s, t), g, ks) ==
            if e.GroupKey(g) in ks then Insert(e, Within(s, g, ks), t) else Within(s, g, ks)
  {
    if s == [] || e.SortKey(t) <= s[0].SortKey(t) {
      assert ([e] + s)[1..] == s;
      WithinKeepsOrder(s, g, ks, t, e.SortKey(t));
    } else {
      var r := Insert(e, s[1..], t);
      InsertWithin(e, s[1..], g, ks, t);
      assert ([s[0]] + r)[1..] == r;
      var w := Within(s[1..], g, ks);
      assert ([s[0]] + w)[1..] == w;
    }
  }

  /** Sorting a table and then picking a group is sorting the group. */
  lemma {:induction false} SortThenGroup(s: seq<Entry>, g: GroupByType, ks: set<string>, t: SortingType)
    ensures Within(StableSort(s, t), g, ks) == StableSort(Within(s, g, ks), t)
  {
    if s != [] {
      SortThenGroup(s[1..], g, ks, t);
      SortIsSorted(s[1..], t);
      InsertWithin(s[0], StableSort(s[1..], t), g, ks, t);
      var w := Within(s[1..], g, ks);
      assert ([s[0]] + w)[1..] == w;
    }
  }

  // ---------------------------------------------------------------- groups partition the table

  /** Every group key that occurs is listed. */
  ghost predicate Covers(order: seq<string>, s: seq<Entry>, g: GroupByType) {
    forall i :: 0 <= i < |s| ==> s[i].GroupKey(g) in order
  }

  lemma {:induction false} WithinAll(s: seq<Entry>, g: GroupByType, ks: set<string>)
    requires forall i :: 0 <= i < |s| ==> s[i].GroupKey(g) in ks
    ensures Within(s, g, ks) == s
  {
    if s != [] {
      WithinAll(s[1..], g, ks);
      assert s == [s[0]] + s[1..];
    }
  }

  lemma {:induction false} WithinSplit(s: seq<Entry>, g: GroupByType, ks: set<string>, k: string)
    requires k !in ks
    ensures multiset(Within(s, g, ks + {k})) == multiset(Within(s, g, ks)) + multiset(Within(s, g, {k}))
  {
    if s != [] {
      WithinSplit(s[1..], g, ks, k);
    }
  }

  lemma {:induction false} WithinSum(s: seq<Entry>, g: GroupByType, ks: set<string>, k: string, f: Field)
    requires k !in ks
    ensures Sum(Within(s, g, ks + {k}), f) == Sum(Within(s, g, ks), f) + Sum(Within(s, g, {k}), f)
  {
    if s != [] {
      WithinSum(s[1..], g, ks, k, f);
      ConsSum(s[0], Within(s[1..], g, ks + {k}), f);
      ConsSum(s[0], Within(s[1..], g, ks), f);
      ConsSum(s[0], Within(s[1..], g, {k}), f);
    }
  }

  lemma {:induction false} WithinNone(s: seq<Entry>, g: GroupByType)
    ensures Within(s, g, {}) == []
  {
    if s != [] {
      WithinNone(s[1..], g);
    }
  }

  // ---------------------------------------------------------------- summaries

  /** The fields of a summary. */
  datatype Field = OBJECT_SIZES | LOCAL_REFS | PINNED | PENDING_TASKS | CAPTURED | ACTOR_HANDLES

  datatype Summary = Summary(objectSize: int, localRefs: int, pinned: int, pendingTasks: int, captured: int, actorHandles: int) {
    function Get(f: Field): int {
      match f
      case OBJECT_SIZES => objectSize
      case LOCAL_REFS => localRefs
      case PINNED => pinned
      case PENDING_TASKS => pendingTasks
      case CAPTURED => captured
      case ACTOR_HANDLES => actorHandles
    }

    /** The five reference counters together. */
    function Counted(): int {
      localRefs + pinned + pendingTasks + captured + actorHandles
    }
  }

  /** What an entry contributes to a field; sizes that are zero or unknown contribute nothing. */
  function Amount(e: Entry, f: Field): int {
    match f
    case OBJECT_SIZES => if e.objectSize > 0 then e.objectSize else 0
    case LOCAL_REFS => if e.referenceType == LOCAL_REFERENCE then 1 else 0
    case PINNED => if e.referenceType == PINNED_IN_MEMORY then 1 else 0
    case PENDING_TASKS => if e.referenceType == USED_BY_PENDING_TASK then 1 else 0
    case CAPTURED => if e.referenceType == CAPTURED_IN_OBJECT then 1 else 0
    case ACTOR_HANDLES => if e.referenceType == ACTOR_HANDLE then 1 else 0
  }

  function Sum(s: seq<Entry>, f: Field): int {
    if s == [] then 0 else Amount(s[0], f) + Sum(s[1..], f)
  }

  function SummaryOf(s: seq<Entry>): (r: Summary)
    ensures forall f :: r.Get(f) == Sum(s, f)
  {
    Summary(Sum(s, OBJECT_SIZES), Sum(s, LOCAL_REFS), Sum(s, PINNED), Sum(s, PENDING_TASKS), Sum(s, CAPTURED), Sum(s, ACTOR_HANDLES))
  }

  lemma ConsSum(e: Entry, s: seq<Entry>, f: Field)
    ensures Sum([e] + s, f) == Amount(e, f) + Sum(s, f)
  {
    assert ([e] + s)[1..] == s;
  }

  lemma {:induction false} SnocSum(s: seq<Entry>, e: Entry, f: Field)
    ensures Sum(s + [e], f) == Sum(s, f) + Amount(e, f)
  {
    if s == [] {
      assert s + [e] == [e] + s;
      ConsSum(e, [], f);
    } else {
      assert (s + [e])[1..] == s[1..] + [e];
      SnocSum(s[1..], e, f);
    }
  }

  lemma {:induction false} InsertSum(e: Entry, s: seq<Entry>, t: SortingType, f: Field)
    ensures Sum(Insert(e, s, t), f) == Amount(e, f) + Sum(s, f)
  {
    if s == [] || e.SortKey(t) <= s[0].SortKey(t) {
      ConsSum(e, s, f);
    } else {
      InsertSum(e, s[1..], t, f);
      ConsSum(s[0], Insert(e, s[1..], t), f);
    }
  }

  lemma {:induction false} SortSum(s: seq<Entry>, t: SortingType, f: Field)
    ensures Sum(StableSort(s, t), f) == Sum(s, f)
  {
    if s != [] {
      SortSum(s[1..], t, f);
      InsertSum(s[0], StableSort(s[1..], t), t, f);
    }
  }

  /** All groups one after the other, and their summaries added up. */
  function Flatten(s: seq<Entry>, g: GroupByType, order: seq<string>): seq<Entry> {
    if order == [] then []
    else Flatten(s, g, order[..|order| - 1]) + Within(s, g, {order[|order| - 1]})
  }

  function SumOfGroups(s: seq<Entry>, g: GroupByType, order: seq<string>, f: Field): int {
    if order == [] then 0
    else SumOfGroups(s, g, order[..|order| - 1], f) + SummaryOf(Within(s, g, {order[|order| - 1]})).Get(f)
  }

  lemma {:induction false} GroupsOf(s: seq<Entry>, g: GroupByType, order: seq<string>)
    requires Distinct(order)
    ensures multiset(Flatten(s, g, order)) == multiset(Within(s, g, Elements(order)))
  {
    if order == [] {
      assert Elements(order) == {};
      WithinNone(s, g);
    } else {
      var init, k := order[..|order| - 1], order[|order| - 1];
      GroupsOf(s, g, init);
      assert Elements(order) == Elements(init) + {k};
      WithinSplit(s, g, Elements(init), k);
    }
  }

  lemma {:induction false} GroupSums(s: seq<Entry>, g: GroupByType, order: seq<string>, f: Field)
    requires Distinct(order)
    ensures SumOfGroups(s, g, order, f) == Sum(Within(s, g, Elements(order)), f)
  {
    if order == [] {
      assert Elements(order) == {};
      WithinNone(s, g);
    } else {
      var init, k := order[..|order| - 1], order[|order| - 1];
      GroupSums(s, g, init, f);
      assert Elements(order) == Elements(init) + {k};
      WithinSum(s, g, Elements(init), k, f);
    }
  }

  /** The groups together are a permutation of the table, and every summary field adds up over them. */
  lemma GroupsConserve(s: seq<Entry>, g: GroupByType, order: seq<string>)
    requires Distinct(order) && Covers(order, s, g)
    ensures multiset(Flatten(s, g, order)) == multiset(s)
    ensures forall f :: SumOfGroups(s, g, order, f) == SummaryOf(s).Get(f)
  {
    GroupsOf(s, g, order);
    WithinAll(s, g, Elements(order));
    forall f
      ensures SumOfGroups(s, g, order, f) == Sum(s, f)
    {
      GroupSums(s, g, order, f);
    }
  }

  function Unknowns(s: seq<Entry>): nat {
    if s == [] then 0 else (if s[0].referenceType == UNKNOWN_STATUS then 1 else 0) + Unknowns(s[1..])
  }

  /** The five counters together count every entry that has a reference type. */
  lemma {:induction false} CountersCount(s: seq<Entry>)
    ensures SummaryOf(s).Counted() + Unknowns(s) == |s|
  {
    if s != [] {
      CountersCount(s[1..]);
      var e := s[0];
      assert Amount(e, LOCAL_REFS) + Amount(e, PINNED) + Amount(e, PENDING_TASKS) + Amount(e, CAPTURED)
           + Amount(e, ACTOR_HANDLES) == if e.referenceType == UNKNOWN_STATUS then 0 else 1;
    }
  }

  // ---------------------------------------------------------------- sizes per reference type

  datatype Tally = Tally(localRef: int, pinned: int, pendingTask: int, captured: int, actorHandle: int) {
    function Total(): int {
      localRef + pinned + pendingTask + captured + actorHandle
    }
  }

  function SizeOf(s: seq<Entry>, t: ReferenceType): int {
    if s == [] then 0 else SizeOf(s[..|s| - 1], t) + if s[|s| - 1].referenceType == t then s[|s| - 1].objectSize else 0
  }

  /** Adds the sizes up per reference type; None where the original raises KeyError for an unclassified entry. */
  method TrackReferenceSize(entries: seq<Entry>) returns (d: Option<Tally>)
    ensures d.None? <==> exists i :: 0 <= i < |entries| && entries[i].referenceType == UNKNOWN_STATUS
    ensures d.Some? ==> d.value == TallyOf(entries)
  {
    var r := Tally(0, 0, 0, 0, 0);
    for i := 0 to |entries|
      invariant r == TallyOf(entries[..i])
      invariant forall j :: 0 <= j < i ==> entries[j].referenceType != UNKNOWN_STATUS
    {
      assert entries[..i + 1][..i] == entries[..i];
      var size := entries[i].objectSize;
      match entries[i].referenceType {
        case LOCAL_REFERENCE => r := r.(localRef := r.localRef + size);
        case PINNED_IN_MEMORY => r := r.(pinned := r.pinned + size);
        case USED_BY_PENDING_TASK => r := r.(pendingTask := r.pendingTask + size);
        case CAPTURED_IN_OBJECT => r := r.(captured := r.captured + size);
        case ACTOR_HANDLE => r := r.(actorHandle := r.actorHandle + size);
        case UNKNOWN_STATUS => return None;
      }
    }
    assert entries[..|entries|] == entries;
    d := Some(r);
  }

  function TallyOf(s: seq<Entry>): Tally {
    Tally(SizeOf(s, LOCAL_REFERENCE), SizeOf(s, PINNED_IN_MEMORY), SizeOf(s, USED_BY_PENDING_TASK),
          SizeOf(s, CAPTURED_IN_OBJECT), SizeOf(s, ACTOR_HANDLE))
  }

  /** Entries whose size was never reported. */
  function Unsized(s: seq<Entry>): nat {
    if s == [] then 0 else Unsized(s[..|s| - 1]) + if s[|s| - 1].objectSize == -1 then 1 else 0
  }

  function Sizes(s: seq<Entry>): int {
    if s == [] then 0 else Sizes(s[..|s| - 1]) + s[|s| - 1].objectSize
  }

  lemma {:induction false} TallyTotal(s: seq<Entry>)
    requires forall i :: 0 <= i < |s| ==> s[i].referenceType != UNKNOWN_STATUS
    ensures TallyOf(s).Total() == Sizes(s)
  {
    if s != [] {
      TallyTotal(s[..|s| - 1]);
    }
  }

  lemma {:induction false} SizesAndSummary(s: seq<Entry>)
    requires forall i :: 0 <= i < |s| ==> s[i].objectSize >= -1
    ensures Sizes(s) == Sum(s, OBJECT_SIZES) - Unsized(s)
  {
    if s != [] {
      SizesAndSummary(s[..|s| - 1]);
      SnocSum(s[..|s| - 1], s[|s| - 1], OBJECT_SIZES);
      assert s == s[..|s| - 1] + [s[|s| - 1]];
    }
  }

  /** The tracked sizes fall short of the summary's total by one for every entry of unknown size. */
  lemma TrackedTotal(s: seq<Entry>)
    requires forall i :: 0 <= i < |s| ==> s[i].objectSize >= -1 && s[i].referenceType != UNKNOWN_STATUS
    ensures TallyOf(s).Total() == SummaryOf(s).objectSize - Unsized(s)
  {
    TallyTotal(s);
    SizesAndSummary(s);
  }

  // ---------------------------------------------------------------- the table itself

  datatype Group = Group(entries: seq<Entry>, summary: Summary)

  class Table {
    var table: seq<Entry>
    var group: map<string, Group>
    var order: seq<string>  // the keys of group in insertion order
    var summary: Option<Summary>

    /** Sorts first and groups afterwards when both are asked for. */
    constructor (entries: seq<Entry>, groupBy: Option<GroupByType>, sortBy: Option<SortingType>)
      ensures table == if sortBy.Some? then StableSort(entries, sortBy.value) else entries
      ensures groupBy.Some? ==> IsGrouped(groupBy.value)
      ensures groupBy.None? ==> group == map[] && order == []
      ensures summary == if groupBy.Some? && sortBy.Some? then Some(SummaryOf(table)) else None
    {
      table, group, order, summary := entries, map[], [], None;
      new;
      if groupBy.Some? && sortBy.Some? {
        Setup(groupBy.value, sortBy.value);
      } else if groupBy.Some? {
        GroupBy(groupBy.value);
      } else if sortBy.Some? {
        SortBy(sortBy.value);
      }
    }

    /** One group per occurring key, holding the entries with that key in table order, with its own summary. */
    ghost predicate IsGrouped(g: GroupByType)
      reads this
    {
      && Distinct(order) && (forall k :: k in order <==> k in group)
      && (forall k :: k in group <==> Within(table, g, {k}) != [])
      && forall k :: k in group ==> group[k] == Group(Within(table, g, {k}), SummaryOf(Within(table, g, {k})))
    }

    method Setup(g: GroupByType, t: SortingType)
      modifies this
      ensures table == StableSort(old(table), t) && IsGrouped(g) && summary == Some(SummaryOf(table))
    {
      SortBy(t);
      GroupBy(g);
      var all := Summarize(table);
      summary := Some(all);
    }

    method SortBy(t: SortingType)
      modifies this`table
      ensures table == StableSort(old(table), t)
    {
      table := StableSort(table, t);
    }

    method GroupBy(g: GroupByType)
      modifies this`group, this`order
      ensures IsGrouped(g)
    {
      var lists, keys := CollectEntries(table, g);
      order, group := keys, map[];
      var tables := BuildGroups(lists, keys);
      group := tables;
    }
  }

  /** Turns each list of entries into a summarized table. */
  method BuildGroups(lists: map<string, seq<Entry>>, keys: seq<string>) returns (group: map<string, Group>)
    requires forall k :: k in keys <==> k in lists
    ensures group.Keys == lists.Keys
    ensures forall k :: k in group ==> group[k] == Group(lists[k], SummaryOf(lists[k]))
  {
    group := map[];
    for i := 0 to |keys|
      invariant forall k :: k in group <==> k in keys[..i]
      invariant forall k :: k in group ==> k in lists && group[k] == Group(lists[k], SummaryOf(lists[k]))
    {
      var k := keys[i];
      assert k in keys && keys[..i + 1] == keys[..i] + [k];
      var s := Summarize(lists[k]);
      group := group[k := Group(lists[k], s)];
    }
    assert keys[..|keys|] == keys;
  }

  /** The lists hold the non-empty groups of `s`, and `order` their keys. */
  ghost predicate Collected(lists: map<string, seq<Entry>>, order: seq<string>, s: seq<Entry>, g: GroupByType) {
    Lists(lists, order) && HoldsGroups(lists, s, g)
  }

  ghost predicate Lists(lists: map<string, seq<Entry>>, order: seq<string>) {
    Distinct(order) && forall k :: k in order <==> k in lists
  }

  ghost predicate HoldsGroups(lists: map<string, seq<Entry>>, s: seq<Entry>, g: GroupByType) {
    && (forall k :: k in lists <==> Within(s, g, {k}) != [])
    && forall k :: k in lists ==> lists[k] == Within(s, g, {k})
  }

  /** One more entry extends its own group and no other. */
  lemma GroupsNext(s: seq<Entry>, e: Entry, g: GroupByType)
    ensures forall x :: Within(s + [e], g, {x}) == if x == e.GroupKey(g) then Within(s, g, {x}) + [e] else Within(s, g, {x})
  {
    forall x
      ensures Within(s + [e], g, {x}) == if x == e.GroupKey(g) then Within(s, g, {x}) + [e] else Within(s, g, {x})
    {
      WithinSnoc(s, e, g, {x});
    }
  }

  lemma CollectKnown(lists: map<string, seq<Entry>>, order: seq<string>, s: seq<Entry>, e: Entry, g: GroupByType)
    requires Collected(lists, order, s, g) && e.GroupKey(g) in lists
    ensures var k := e.GroupKey(g); Collected(lists[k := lists[k] + [e]], order, s + [e], g)
  {
    GroupsNext(s, e, g);
  }

  lemma CollectNew(lists: map<string, seq<Entry>>, order: seq<string>, s: seq<Entry>, e: Entry, g: GroupByType)
    requires Collected(lists, order, s, g) && e.GroupKey(g) !in lists
    ensures var k := e.GroupKey(g); Collected(lists[k := [e]], order + [k], s + [e], g)
  {
    ListsNew(lists, order, e.GroupKey(g), [e]);
    GroupsNew(lists, s, e, g);
  }

  lemma ListsNew(lists: map<string, seq<Entry>>, order: seq<string>, k: string, es: seq<Entry>)
    requires Lists(lists, order) && k !in lists
    ensures Lists(lists[k := es], order + [k])
  {
    AppendFresh(order, k);
  }

  lemma GroupsNew(lists: map<string, seq<Entry>>, s: seq<Entry>, e: Entry, g: GroupByType)
    requires HoldsGroups(lists, s, g) && e.GroupKey(g) !in lists
    ensures HoldsGroups(lists[e.GroupKey(g) := [e]], s + [e], g)
  {
    GroupsNext(s, e, g);
    assert Within(s, g, {e.GroupKey(g)}) == [];
    assert [] + [e] == [e];
  }

  lemma CollectAt(lists: map<string, seq<Entry>>, order: seq<string>, table: seq<Entry>, i: nat, g: GroupByType)
    requires i < |table| && Collected(lists, order, table[..i], g)
    ensures var e, k := table[i], table[i].GroupKey(g);
            if k in lists then Collected(lists[k := lists[k] + [e]], order, table[..i + 1], g)
            else Collected(lists[k := [e]], order + [k], table[..i + 1], g)
  {
    assert table[..i + 1] == table[..i] + [table[i]];
    if table[i].GroupKey(g) in lists {
      CollectKnown(lists, order, table[..i], table[i], g);
    } else {
      CollectNew(lists, order, table[..i], table[i], g);
    }
  }

  /** The entries of each group in table order, and the group keys in order of first appearance. */
  method CollectEntries(table: seq<Entry>, g: GroupByType) returns (lists: map<string, seq<Entry>>, order: seq<string>)
    ensures Collected(lists, order, table, g)
  {
    lists, order := map[], [];
    for i := 0 to |table|
      invariant Collected(lists, order, table[..i], g)
    {
      var e := table[i];
      var k := e.GroupKey(g);
      CollectAt(lists, order, table, i, g);
      if k in lists {
        lists := lists[k := lists[k] + [e]];
      } else {
        lists, order := lists[k := [e]], order + [k];
      }
    }
    assert table[..|table|] == table;
  }

  lemma {:induction false} WithinSnoc(s: seq<Entry>, e: Entry, g: GroupByType, ks: set<string>)
    ensures Within(s + [e], g, ks) == Within(s, g, ks) + if e.GroupKey(g) in ks then [e] else []
  {
    if s == [] {
      assert s + [e] == [e] && [e][1..] == [];
    } else {
      assert (s + [e])[1..] == s[1..] + [e];
      WithinSnoc(s[1..], e, g, ks);
    }
  }

  /** A grouped table lists every group key that occurs in it. */
  lemma {:induction false} GroupOccurs(s: seq<Entry>, g: GroupByType, i: nat)
    requires i < |s|
    ensures Within(s, g, {s[i].GroupKey(g)}) != []
  {
    if i > 0 {
      GroupOccurs(s[1..], g, i - 1);
    }
  }

  /** Counts the entries of a table by reference type and adds up the known sizes. */
  method Summarize(table: seq<Entry>) returns (s: Summary)
    ensures s == SummaryOf(table)
  {
    var objectSize, localRefs, pinned, pending, captured, actors := 0, 0, 0, 0, 0, 0;
    for i := 0 to |table|
      invariant objectSize == Sum(table[..i], OBJECT_SIZES) && localRefs == Sum(table[..i], LOCAL_REFS)
      invariant pinned == Sum(table[..i], PINNED) && pending == Sum(table[..i], PENDING_TASKS)
      invariant captured == Sum(table[..i], CAPTURED) && actors == Sum(table[..i], ACTOR_HANDLES)
    {
      SumsStep(table, i);
      if table[i].objectSize > 0 {
        objectSize := objectSize + table[i].objectSize;
      }
      match table[i].referenceType {
        case LOCAL_REFERENCE => localRefs := localRefs + 1;
        case PINNED_IN_MEMORY => pinned := pinned + 1;
        case USED_BY_PENDING_TASK => pending := pending + 1;
        case CAPTURED_IN_OBJECT => captured := captured + 1;
        case ACTOR_HANDLE => actors := actors + 1;
        case UNKNOWN_STATUS =>
      }
    }
    assert table[..|table|] == table;
    s := Summary(objectSize, localRefs, pinned, pending, captured, actors);
  }

  lemma SumsStep(table: seq<Entry>, i: nat)
    requires i < |table|
    ensures forall f :: Sum(table[..i + 1], f) == Sum(table[..i], f) + Amount(table[i], f)
  {
    assert table[..i + 1] == table[..i] + [table[i]];
    forall f
      ensures Sum(table[..i + 1], f) == Sum(table[..i], f) + Amount(table[i], f)
    {
      SnocSum(table[..i], table[i], f);
    }
  }

  // ---------------------------------------------------------------- tables built from worker statistics

  /** An object reference as reported; absent fields take the defaults below. */
  datatype RawRef = RawRef(
    ref: Ref, objectSize: Option<int>, callSite: Option<string>, localRefCount: Option<int>,
    pinnedInMemory: Option<bool>, submittedTaskRefCount: Option<int>, containedInOwned: Option<seq<Ref>>)

  datatype WorkerStats = WorkerStats(pid: int, workerType: Option<string>, ipAddress: string, refs: Option<seq<RawRef>>)

  function OrElse<T>(o: Option<T>, default: T): T {
    if o.Some? then o.value else default
  }

  function MakeEntry(w: WorkerStats, r: RawRef): (e: Entry)
    ensures e.IsClassified()
  {
    var e := Entry(w.workerType == Some("DRIVER"), w.pid, w.ipAddress,
                   OrElse(r.objectSize, -1), OrElse(r.callSite, "<Unknown>"), r.ref,
                   OrElse(r.localRefCount, 0), OrElse(r.pinnedInMemory, false),
                   OrElse(r.submittedTaskRefCount, 0), OrElse(r.containedInOwned, []), UNKNOWN_STATUS);
    e.(referenceType := e.GetReferenceType())
  }

  function ValidEntries(w: WorkerStats, refs: seq<RawRef>): (es: seq<Entry>)
    ensures forall i :: 0 <= i < |es| ==> es[i].IsValid() && es[i].IsClassified()
  {
    if refs == [] then []
    else
      var e := MakeEntry(w, refs[|refs| - 1]);
      ValidEntries(w, refs[..|refs| - 1]) + if e.IsValid() then [e] else []
  }

  function AllEntries(stats: seq<WorkerStats>): (es: seq<Entry>)
    ensures forall i :: 0 <= i < |es| ==> es[i].IsValid() && es[i].IsClassified()
  {
    if stats == [] then []
    else
      var w := stats[|stats| - 1];
      AllEntries(stats[..|stats| - 1]) + ValidEntries(w, OrElse(w.refs, []))
  }

  method ConstructMemoryTable(stats: seq<WorkerStats>, groupBy: GroupByType, sortBy: SortingType) returns (t: Table)
    ensures fresh(t) && t.table == StableSort(AllEntries(stats), sortBy)
    ensures t.IsGrouped(groupBy) && t.summary == Some(SummaryOf(t.table))
  {
    var entries: seq<Entry> := [];
    for i := 0 to |stats|
      invariant entries == AllEntries(stats[..i])
    {
      var w := stats[i];
      var refs := OrElse(w.refs, []);
      ghost var before := entries;
      for j := 0 to |refs|
        invariant entries == before + ValidEntries(w, refs[..j])
      {
        assert refs[..j + 1][..j] == refs[..j];
        var e := MakeEntry(w, refs[j]);
        if e.IsValid() {
          entries := entries + [e];
        }
      }
      assert refs[..|refs|] == refs;
      assert stats[..i + 1][..i] == stats[..i];
    }
    assert stats[..|stats|] == stats;
    t := new Table(entries, Some(groupBy), Some(sortBy));
  }

  /** The keys of a built table cover its entries, so its groups conserve entries and sums. */
  lemma GroupedTableConserves(t: Table, g: GroupByType)
    requires t.IsGrouped(g)
    ensures multiset(Flatten(t.table, g, t.order)) == multiset(t.table)
    ensures forall f :: SumOfGroups(t.table, g, t.order, f) == SummaryOf(t.table).Get(f)
  {
    forall i | 0 <= i < |t.table|
      ensures t.table[i].GroupKey(g) in t.order
    {
      GroupOccurs(t.table, g, i);
      assert t.table[i].GroupKey(g) in t.group;
    }
    GroupsConserve(t.table, g, t.order);
  }

  ghost predicate NonNegative(e: Entry) {
    e.localRefCount >= 0 && e.submittedTaskRefCount >= 0
  }

  /** With counts that are not negative, the counters of a summary add up to the number of entries. */
  lemma ValidEntriesAreCounted(s: seq<Entry>)
    requires forall i :: 0 <= i < |s| ==> s[i].IsValid() && s[i].IsClassified() && NonNegative(s[i])
    ensures SummaryOf(s).Counted() == |s|
  {
    CountersCount(s);
    NoUnknowns(s);
  }

  lemma {:induction false} NoUnknowns(s: seq<Entry>)
    requires forall i :: 0 <= i < |s| ==> s[i].IsValid() && s[i].IsClassified() && NonNegative(s[i])
    ensures Unknowns(s) == 0
  {
    if s != [] {
      UnknownIff(s[0]);
      NoUnknowns(s[1..]);
    }
  }

  /** What the statistics of a worker promise: no negative count, no size below the -1 of an unknown one. */
  ghost predicate IsSound(e: Entry) {
    e.IsValid() && e.IsClassified() && NonNegative(e) && e.objectSize >= -1
  }

  /** In a list of sound entries the counters count every entry and the tracked sizes make up the total. */
  ghost predicate AddsUp(s: seq<Entry>) {
    && SummaryOf(s).Counted() == |s|
    && TallyOf(s).Total() == SummaryOf(s).objectSize - Unsized(s)
  }

  lemma SoundEntriesAddUp(s: seq<Entry>)
    requires forall i :: 0 <= i < |s| ==> IsSound(s[i])
    ensures AddsUp(s)
  {
    ValidEntriesAreCounted(s);
    forall i | 0 <= i < |s|
      ensures s[i].referenceType != UNKNOWN_STATUS
    {
      UnknownIff(s[i]);
    }
    TrackedTotal(s);
  }

  lemma {:induction false} WithinMembers(s: seq<Entry>, g: GroupByType, ks: set<string>)
    requires forall i :: 0 <= i < |s| ==> IsSound(s[i])
    ensures forall i :: 0 <= i < |Within(s, g, ks)| ==> IsSound(Within(s, g, ks)[i])
  {
    if s != [] {
      WithinMembers(s[1..], g, ks);
    }
  }

  lemma SortedMembers(s: seq<Entry>, t: SortingType)
    requires forall i :: 0 <= i < |s| ==> IsSound(s[i])
    ensures forall i :: 0 <= i < |StableSort(s, t)| ==> IsSound(StableSort(s, t)[i])
  {
    SortIsSorted(s, t);
    forall i | 0 <= i < |StableSort(s, t)|
      ensures IsSound(StableSort(s, t)[i])
    {
      assert StableSort(s, t)[i] in multiset(s);
    }
  }

  /**
   For any worker statistics: each group is the stable sort of its own entries, the groups together are
   a permutation of all entries, and the summary of the table is the sum of the summaries of the groups.
   */
  lemma GroupLaws(stats: seq<WorkerStats>, g: GroupByType, t: SortingType, order: seq<string>)
    requires Distinct(order) && Covers(order, StableSort(AllEntries(stats), t), g)
    ensures var all := AllEntries(stats);
            var table := StableSort(all, t);
            && (forall k :: Within(table, g, {k}) == StableSort(Within(all, g, {k}), t))
            && multiset(Flatten(table, g, order)) == multiset(all)
            && (forall f :: SumOfGroups(table, g, order, f) == SummaryOf(table).Get(f) == SummaryOf(all).Get(f))
  {
    var all := AllEntries(stats);
    forall k
      ensures Within(StableSort(all, t), g, {k}) == StableSort(Within(all, g, {k}), t)
    {
      SortThenGroup(all, g, {k}, t);
    }
    SortIsSorted(all, t);
    GroupsConserve(StableSort(all, t), g, order);
    forall f
      ensures Sum(StableSort(all, t), f) == Sum(all, f)
    {
      SortSum(all, t, f);
    }
  }

  /**
   All laws together: for worker statistics without negative counts and with sizes of at least -1, the
   counters and the tracked sizes add up in the table and in each of its groups as well.
   */
  lemma TableLaws(stats: seq<WorkerStats>, g: GroupByType, t: SortingType, order: seq<string>)
    requires Distinct(order) && Covers(order, StableSort(AllEntries(stats), t), g)
    requires forall i :: 0 <= i < |AllEntries(stats)| ==> IsSound(AllEntries(stats)[i])
    ensures var all := AllEntries(stats);
            var table := StableSort(all, t);
            && (forall k :: Within(table, g, {k}) == StableSort(Within(all, g, {k}), t))
            && multiset(Flatten(table, g, order)) == multiset(all)
            && (forall f :: SumOfGroups(table, g, order, f) == SummaryOf(table).Get(f) == SummaryOf(all).Get(f))
            && AddsUp(table) && forall k :: AddsUp(Within(table, g, {k}))
  {
    var all := AllEntries(stats);
    var table := StableSort(all, t);
    GroupLaws(stats, g, t, order);
    SortedMembers(all, t);
    SoundEntriesAddUp(table);
    forall k
      ensures AddsUp(Within(table, g, {k}))
    {
      WithinMembers(table, g, {k});
      SoundEntriesAddUp(Within(table, g, {k}));
    }
  }
}
