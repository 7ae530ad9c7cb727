/** The distinct elements of a history in order of their last occurrence, and what is left of them when only the newest are kept. */
module Recency {
  import opened Base

  function Remove<T(==)>(s: seq<T>, x: T): seq<T> {
    if s == [] then [] else Remove(s[..|s| - 1], x) + if s[|s| - 1] == x then [] else [s[|s| - 1]]
  }

  /** Oldest first. */
  function ByLastUse<T(==)>(history: seq<T>): seq<T> {
    if history == [] then []
    else
      var x := history[|history| - 1];
      Remove(ByLastUse(history[..|history| - 1]), x) + [x]
  }

  /** The last `m` elements, or all of them. */
  function Newest<T>(s: seq<T>, m: nat): (r: seq<T>)
    ensures |r| <= m
  {
    if |s| <= m then s else s[|s| - m..]
  }

  lemma {:induction false} RemoveElements<T>(s: seq<T>, x: T)
    ensures forall y :: y in Remove(s, x) <==> y in s && y != x
    ensures Distinct(s) ==> Distinct(Remove(s, x))
    ensures |Remove(s, x)| <= |s|
  {
    if s != [] {
      var init, last := s[..|s| - 1], s[|s| - 1];
      RemoveElements(init, x);
      assert s == init + [last];
      if last == x {
        assert Remove(s, x) == Remove(init, x);
      }
      if Distinct(s) {
        assert last !in init;
      }
    }
  }

  lemma {:induction false} RemoveAbsent<T>(s: seq<T>, x: T)
    requires x !in s
    ensures Remove(s, x) == s
  {
    if s != [] {
      RemoveAbsent(s[..|s| - 1], x);
      assert s == s[..|s| - 1] + [s[|s| - 1]];
    }
  }

  lemma {:induction false} RemoveConcat<T>(a: seq<T>, b: seq<T>, x: T)
    ensures Remove(a + b, x) == Remove(a, x) + Remove(b, x)
  {
    if b == [] {
      assert a + b == a;
    } else {
      assert (a + b)[..|a + b| - 1] == a + b[..|b| - 1];
      RemoveConcat(a, b[..|b| - 1], x);
    }
  }

  lemma {:induction false} RemovePresent<T>(s: seq<T>, x: T)
    requires Distinct(s) && x in s
    ensures |Remove(s, x)| == |s| - 1
  {
    var init, last := s[..|s| - 1], s[|s| - 1];
    assert s == init + [last];
    if last == x {
      RemoveAbsent(init, x);
    } else {
      RemovePresent(init, x);
    }
  }

  lemma {:induction false} ByLastUseDistinct<T>(history: seq<T>)
    ensures Distinct(ByLastUse(history))
    ensures forall y :: y in ByLastUse(history) <==> y in history
  {
    if history != [] {
      var init, x := history[..|history| - 1], history[|history| - 1];
      ByLastUseDistinct(init);
      RemoveElements(ByLastUse(init), x);
      AppendFresh(Remove(ByLastUse(init), x), x);
      assert history == init + [x];
    }
  }

  /** The position of the last occurrence. */
  ghost function LastUse<T>(history: seq<T>, x: T): (i: int)
    ensures -1 <= i < |history|
  {
    if history == [] then -1
    else if history[|history| - 1] == x then |history| - 1
    else LastUse(history[..|history| - 1], x)
  }

  lemma {:induction false} LastUseIs<T>(history: seq<T>, x: T)
    ensures x in history ==> LastUse(history, x) >= 0 && history[LastUse(history, x)] == x
    ensures forall i :: LastUse(history, x) < i < |history| ==> history[i] != x
  {
    if history != [] {
      var init := history[..|history| - 1];
      LastUseIs(init, x);
      assert history == init + [history[|history| - 1]];
    }
  }

  /** ByLastUse is sorted by the position of the last occurrence, which with its elements determines it. */
  lemma {:induction false} ByLastUseIsSorted<T>(history: seq<T>, i: nat, j: nat)
    requires i < j < |ByLastUse(history)|
    ensures LastUse(history, ByLastUse(history)[i]) < LastUse(history, ByLastUse(history)[j])
  {
    var init, x := history[..|history| - 1], history[|history| - 1];
    var old', now := ByLastUse(init), ByLastUse(history);
    ByLastUseDistinct(history);
    LastUseIs(init, now[i]);
    assert now[|now| - 1] == x && now[i] != now[|now| - 1];
    if j < |now| - 1 {
      assert now[j] != now[|now| - 1];
      var k, l := RemoveKeepsOrder(old', x, i, j);
      ByLastUseIsSorted(init, k, l);
    }
  }

  lemma {:induction false} RemoveMember<T>(s: seq<T>, x: T, i: nat) returns (k: nat)
    requires i < |Remove(s, x)|
    ensures k < |s| && s[k] == Remove(s, x)[i]
  {
    if i < |Remove(s[..|s| - 1], x)| {
      k := RemoveMember(s[..|s| - 1], x, i);
    } else {
      k := |s| - 1;
    }
  }

  lemma {:induction false} RemoveKeepsOrder<T>(s: seq<T>, x: T, i: nat, j: nat) returns (k: nat, l: nat)
    requires i < j < |Remove(s, x)|
    ensures k < l < |s| && s[k] == Remove(s, x)[i] && s[l] == Remove(s, x)[j]
  {
    var init, r := s[..|s| - 1], Remove(s[..|s| - 1], x);
    if j < |r| {
      k, l := RemoveKeepsOrder(init, x, i, j);
    } else {
      l := |s| - 1;
      k := RemoveMember(init, x, i);
    }
  }

  /** Touching an element and then keeping the newest `m` can be done on the newest `m` alone. */
  lemma TouchNewest<T>(r: seq<T>, x: T, m: nat)
    requires Distinct(r) && m > 0
    ensures Newest(Remove(r, x) + [x], m) == Newest(Remove(Newest(r, m), x) + [x], m)
  {
    var s := Newest(r, m);
    var a := r[..|r| - |s|];
    assert r == a + s;
    assert Distinct(s);
    RemoveConcat(a, s, x);
    if x in s {
      TouchKept(a, s, x, m);
    } else {
      RemoveAbsent(s, x);
      Regroup(Remove(a, x), s, [x]);
      NewestConcat(Remove(a, x), s + [x], m);
    }
  }

  lemma TouchKept<T>(a: seq<T>, s: seq<T>, x: T, m: nat)
    requires Distinct(a + s) && x in s && (a == [] || |s| >= m)
    ensures Newest(Remove(a, x) + Remove(s, x) + [x], m) == Newest(Remove(s, x) + [x], m)
  {
    assert x !in a by {
      var j :| 0 <= j < |s| && s[j] == x;
      assert (a + s)[|a| + j] == x;
      assert forall i :: 0 <= i < |a| ==> (a + s)[i] == a[i];
    }
    assert Distinct(s) by {
      assert forall i :: 0 <= i < |s| ==> (a + s)[|a| + i] == s[i];
    }
    RemoveAbsent(a, x);
    RemovePresent(s, x);
    Regroup(a, Remove(s, x), [x]);
    NewestConcat(a, Remove(s, x) + [x], m);
  }

  lemma NewestConcat<T>(a: seq<T>, s: seq<T>, m: nat)
    requires a == [] || |s| >= m
    ensures Newest(a + s, m) == Newest(s, m)
  {
    if a == [] {
      assert a + s == s;
    }
  }
}
