/**
 SerializationContext.deserialize_objects of python/ray/serialization.py keeps the references of the
 objects being decoded on a stack, so that code run while decoding can ask which object it is part of.
 Decoding may itself call deserialize_objects again, and it may raise: an ordinary exception becomes
 the result of its object, anything else (a keyboard interrupt, say) leaves through every level.
 */
module OuterRefStack {
  import opened Base

  type Ref = string

  /** What decoding does that matters here: ask for the outer reference, decode further objects, raise an exception, or leave with something that is no `Exception`. */
  datatype Act = Ask | Nested(items: seq<Item>) | Raise | Exit

  /** An object to decode: its reference and what decoding it does. */
  datatype Item = Item(ref: Ref, acts: seq<Act>)

  /** The object decoded from a reference, or the error that stands for it. */
  datatype Decoded = Object(ref: Ref) | SystemError

  // ---------------------------------------------------------------- what should be seen, without a stack

  datatype Ending = Completed | Raised | Exited

  /** How running `acts` ends; exceptions inside nested calls are caught there, exits are not. */
  function EndOf(acts: seq<Act>): Ending
    decreases acts
  {
    if acts == [] then Completed
    else match acts[0]
      case Raise => Raised
      case Exit => Exited
      case Ask => EndOf(acts[1..])
      case Nested(items) => if ExitsInside(items) then Exited else EndOf(acts[1..])
  }

  predicate ExitsInside(items: seq<Item>)
    decreases items
  {
    items != [] && (EndOf(items[0].acts) == Exited || ExitsInside(items[1..]))
  }

  /** The answers to all questions asked while `acts` run inside object `outer`. */
  function Seen(acts: seq<Act>, outer: Option<Ref>): seq<Option<Ref>>
    decreases acts
  {
    if acts == [] then []
    else match acts[0]
      case Raise => []
      case Exit => []
      case Ask => [outer] + Seen(acts[1..], outer)
      case Nested(items) => SeenInside(items) + if ExitsInside(items) then [] else Seen(acts[1..], outer)
  }

  /** Each object's own questions are answered with that object's reference; nothing is asked after an exit. */
  function SeenInside(items: seq<Item>): seq<Option<Ref>>
    decreases items
  {
    if items == [] then []
    else Seen(items[0].acts, Some(items[0].ref)) + if EndOf(items[0].acts) == Exited then [] else SeenInside(items[1..])
  }

  function Results(items: seq<Item>): (r: seq<Decoded>)
    ensures |r| == |items|
    ensures forall i :: 0 <= i < |items| ==> r[i] == if EndOf(items[i].acts) == Raised then SystemError else Object(items[i].ref)
  {
    seq(|items|, i requires 0 <= i < |items| => if EndOf(items[i].acts) == Raised then SystemError else Object(items[i].ref))
  }

  // ---------------------------------------------------------------- the stack

  function Top(stack: seq<Ref>): Option<Ref> {
    if stack == [] then None else Some(stack[|stack| - 1])
  }

  class Context {
    var stack: seq<Ref>
    ghost var seen: seq<Option<Ref>>

    constructor ()
      ensures stack == [] && seen == []
    {
      stack, seen := [], [];
    }

    method GetOuterObjectRef() returns (r: Option<Ref>)
      modifies this`seen
      ensures r == Top(stack) && seen == old(seen) + [r]
    {
      r := if stack == [] then None else Some(stack[|stack| - 1]);
      seen := seen + [r];
    }

    /** Decodes one object's data. */
    method DeserializeObject(acts: seq<Act>) returns (ending: Ending)
      modifies this
      ensures stack == old(stack)
      ensures ending == EndOf(acts)
      ensures seen == old(seen) + Seen(acts, Top(old(stack)))
      decreases acts
    {
      if acts == [] {
        assert seen + [] == seen;
        return Completed;
      }
      match acts[0] {
        case Raise =>
          assert seen + [] == seen;
          ending := Raised;
        case Exit =>
          assert seen + [] == seen;
          ending := Exited;
        case Ask =>
          var r := GetOuterObjectRef();
          ending := DeserializeObject(acts[1..]);
          Regroup(old(seen), [r], Seen(acts[1..], Top(stack)));
        case Nested(items) =>
          var results := DeserializeObjects(items);
          if results.None? {
            assert SeenInside(items) + [] == SeenInside(items);
            return Exited;
          }
          ending := DeserializeObject(acts[1..]);
          Regroup(old(seen), SeenInside(items), Seen(acts[1..], Top(stack)));
      }
    }

    /**
     Restores the stack on every way out, lets each object see its own reference, and answers one result
     per object; None where something that is no `Exception` leaves through the call.
     */
    method DeserializeObjects(items: seq<Item>) returns (results: Option<seq<Decoded>>)
      modifies this
      ensures stack == old(stack)
      ensures results == if ExitsInside(items) then None else Some(Results(items))
      ensures seen == old(seen) + SeenInside(items)
      decreases items
    {
      var decoded: seq<Decoded> := [];
      for i := 0 to |items|
        invariant stack == old(stack) && decoded == Results(items[..i])
        invariant !ExitsInside(items[..i]) && seen == old(seen) + SeenInside(items[..i])
      {
        stack := stack + [items[i].ref];
        var ending := DeserializeObject(items[i].acts);
        if stack != [] {
          stack := stack[..|stack| - 1];
        }
        SeenNext(items, i);
        Regroup(old(seen), SeenInside(items[..i]), Seen(items[i].acts, Some(items[i].ref)));
        if ending == Exited {
          return None;
        }
        decoded := decoded + [if ending == Raised then SystemError else Object(items[i].ref)];
      }
      assert items[..|items|] == items;
      results := Some(decoded);
    }
  }

  lemma {:induction false} InsideConcat(a: seq<Item>, b: seq<Item>)
    ensures ExitsInside(a + b) <==> ExitsInside(a) || ExitsInside(b)
    ensures SeenInside(a + b) == SeenInside(a) + if ExitsInside(a) then [] else SeenInside(b)
  {
    if a == [] {
      assert a + b == b;
      assert [] + SeenInside(b) == SeenInside(b);
    } else {
      var first := Seen(a[0].acts, Some(a[0].ref));
      assert (a + b)[1..] == a[1..] + b;
      if EndOf(a[0].acts) == Exited {
        assert first + [] + [] == first + [];
      } else {
        InsideConcat(a[1..], b);
        Regroup(first, SeenInside(a[1..]), if ExitsInside(a[1..]) then [] else SeenInside(b));
      }
    }
  }

  lemma SeenOne(item: Item)
    ensures ExitsInside([item]) <==> EndOf(item.acts) == Exited
    ensures SeenInside([item]) == Seen(item.acts, Some(item.ref))
  {
    assert [item][1..] == [];
    assert Seen(item.acts, Some(item.ref)) + [] == Seen(item.acts, Some(item.ref));
  }

  /** One object further: if it exits, nothing that comes after it is seen. */
  lemma SeenNext(items: seq<Item>, i: nat)
    requires i < |items| && !ExitsInside(items[..i])
    ensures var now := SeenInside(items[..i]) + Seen(items[i].acts, Some(items[i].ref));
            && SeenInside(items[..i + 1]) == now
            && (ExitsInside(items[..i + 1]) <==> EndOf(items[i].acts) == Exited)
            && (EndOf(items[i].acts) == Exited ==> ExitsInside(items) && SeenInside(items) == now)
  {
    assert items[..i + 1] == items[..i] + [items[i]];
    InsideConcat(items[..i], [items[i]]);
    SeenOne(items[i]);
    if EndOf(items[i].acts) == Exited {
      assert items == items[..i + 1] + items[i + 1..];
      InsideConcat(items[..i + 1], items[i + 1..]);
      assert SeenInside(items[..i + 1]) + [] == SeenInside(items[..i + 1]);
    }
  }

  // ---------------------------------------------------------------- what an object sees does not depend on where it is decoded

  /** The questions an object asks itself, at its own level, before it is left. */
  function OwnQuestions(acts: seq<Act>): nat {
    if acts == [] || acts[0] == Raise || acts[0] == Exit || (acts[0].Nested? && ExitsInside(acts[0].items)) then 0
    else (if acts[0] == Ask then 1 else 0) + OwnQuestions(acts[1..])
  }

  function Answers(acts: seq<Act>, outer: Option<Ref>, r: Option<Ref>): nat {
    Count(Seen(acts, outer), r)
  }

  function Count(s: seq<Option<Ref>>, r: Option<Ref>): nat {
    if s == [] then 0 else (if s[0] == r then 1 else 0) + Count(s[1..], r)
  }

  lemma {:induction false} CountConcat(a: seq<Option<Ref>>, b: seq<Option<Ref>>, r: Option<Ref>)
    ensures Count(a + b, r) == Count(a, r) + Count(b, r)
  {
    if a == [] {
      assert a + b == b;
    } else {
      assert (a + b)[1..] == a[1..] + b;
      CountConcat(a[1..], b, r);
    }
  }

  /** No object decoded inside these acts, at any depth, has reference `r`. */
  ghost predicate Avoids(acts: seq<Act>, r: Ref)
    decreases acts
  {
    forall i :: 0 <= i < |acts| ==> acts[i].Nested? ==> AvoidsInside(acts[i].items, r)
  }

  ghost predicate AvoidsInside(items: seq<Item>, r: Ref)
    decreases items
  {
    forall i :: 0 <= i < |items| ==> items[i].ref != r && Avoids(items[i].acts, r)
  }

  lemma {:induction false} OthersDoNotAnswer(acts: seq<Act>, outer: Option<Ref>, r: Ref)
    requires Avoids(acts, r)
    ensures Answers(acts, outer, Some(r)) == if outer == Some(r) then OwnQuestions(acts) else 0
    decreases acts
  {
    if acts != [] {
      var rest := acts[1..];
      assert Avoids(rest, r) by {
        assert forall i :: 0 <= i < |rest| ==> rest[i] == acts[i + 1];
      }
      OthersDoNotAnswer(rest, outer, r);
      match acts[0] {
        case Raise =>
        case Exit =>
        case Ask => CountConcat([outer], Seen(rest, outer), Some(r));
        case Nested(items) =>
          CountConcat(SeenInside(items), if ExitsInside(items) then [] else Seen(rest, outer), Some(r));
          InsideDoesNotAnswer(items, r);
      }
    }
  }

  lemma {:induction false} InsideDoesNotAnswer(items: seq<Item>, r: Ref)
    requires AvoidsInside(items, r)
    ensures Count(SeenInside(items), Some(r)) == 0
    decreases items
  {
    if items != [] {
      var rest := items[1..];
      assert AvoidsInside(rest, r) by {
        assert forall i :: 0 <= i < |rest| ==> rest[i] == items[i + 1];
      }
      OthersDoNotAnswer(items[0].acts, Some(items[0].ref), r);
      InsideDoesNotAnswer(rest, r);
      CountConcat(Seen(items[0].acts, Some(items[0].ref)), if EndOf(items[0].acts) == Exited then [] else SeenInside(rest), Some(r));
    }
  }

  /** An object's reference is answered exactly as often as the object itself asks, however calls nest around and inside it. */
  lemma OwnReferenceOnly(item: Item)
    requires Avoids(item.acts, item.ref)
    ensures Answers(item.acts, Some(item.ref), Some(item.ref)) == OwnQuestions(item.acts)
  {
    OthersDoNotAnswer(item.acts, Some(item.ref), item.ref);
  }
}
