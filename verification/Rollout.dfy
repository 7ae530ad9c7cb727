/**
 The step-by-step rollout of rllib/evaluate.py: nested loops with a limit on steps and a limit on
 episodes, and the saver that records what happened either in a list or in a shelf.
 */
module Rollout {
  import opened Base
  import Decimals

  type Observation = string

  /** What agent and environment do in one step. */
  datatype Outcome = Outcome(action: string, nextObs: Observation, reward: real, done: bool, info: string)

  /** How agent and environment behave: the first observation of each rollout and the outcome of each of its steps. */
  datatype Env = Env(reset: nat -> Observation, step: (nat, nat) -> Outcome)

  /** A recorded step; `info` is kept only on request. */
  datatype Record = Record(
    obs: Observation, action: string, nextObs: Observation, reward: real, done: bool, info: Option<string>)

  predicate KeepGoing(steps: int, numSteps: int, episodes: int, numEpisodes: int) {
    if numEpisodes != 0 && episodes >= numEpisodes then false
    else if numSteps != 0 && steps >= numSteps then false
    else true
  }

  // ---------------------------------------------------------------- what a rollout is

  function At(env: Env, saveInfo: bool, r: nat, t: nat): Record {
    var o := env.step(r, t);
    Record(if t == 0 then env.reset(r) else env.step(r, t - 1).nextObs,
           o.action, o.nextObs, o.reward, o.done, if saveInfo then Some(o.info) else None)
  }

  /** The first `n` steps of rollout `r`. */
  function Steps(env: Env, saveInfo: bool, r: nat, n: nat): (s: seq<Record>)
    ensures |s| == n
    ensures forall t :: 0 <= t < n ==> s[t] == At(env, saveInfo, r, t)
  {
    if n == 0 then [] else Steps(env, saveInfo, r, n - 1) + [At(env, saveInfo, r, n - 1)]
  }

  /** In every rollout, consecutive steps hand on the observation. */
  ghost predicate AreChains(rollouts: seq<seq<Record>>) {
    forall r, t :: 0 <= r < |rollouts| && 0 < t < |rollouts[r]| ==> rollouts[r][t].obs == rollouts[r][t - 1].nextObs
  }

  /** No step before the last of the first `n` steps ends rollout `r`. */
  ghost predicate RunsOn(env: Env, r: nat, n: nat) {
    forall t :: 0 <= t < n - 1 ==> !env.step(r, t).done
  }

  ghost predicate EndsDone(env: Env, r: nat, n: nat) {
    n > 0 && env.step(r, n - 1).done
  }

  function Total(lengths: seq<nat>): nat {
    if lengths == [] then 0 else Total(lengths[..|lengths| - 1]) + lengths[|lengths| - 1]
  }

  /** Rollouts that ran to their end. */
  function Episodes(env: Env, lengths: seq<nat>): nat {
    if lengths == [] then 0
    else
      var r := |lengths| - 1;
      Episodes(env, lengths[..r]) + if lengths[r] > 0 && env.step(r, lengths[r] - 1).done then 1 else 0
  }

  function Recorded(env: Env, saveInfo: bool, lengths: seq<nat>): (rs: seq<seq<Record>>)
    ensures |rs| == |lengths|
    ensures forall r :: 0 <= r < |rs| ==> rs[r] == Steps(env, saveInfo, r, lengths[r])
  {
    if lengths == [] then []
    else Recorded(env, saveInfo, lengths[..|lengths| - 1]) + [Steps(env, saveInfo, |lengths| - 1, lengths[|lengths| - 1])]
  }

  // ---------------------------------------------------------------- the saver

  class Saver {
    const outfile: bool
    const useShelve: bool
    const saveInfo: bool
    var rollouts: seq<seq<Record>>
    var shelf: map<string, seq<Record>>
    var current: seq<Record>
    var numEpisodes: nat
    var totalSteps: nat
    ghost var ended: seq<seq<Record>>

    /** The list holds the ended rollouts, or else the shelf holds each under its number. */
    ghost predicate Valid()
      reads this`numEpisodes, this`rollouts, this`shelf, this`ended
    {
      && numEpisodes == |ended|
      && (outfile && !useShelve ==> rollouts == ended)
      && (outfile && useShelve ==>
            forall i :: 0 <= i < |ended| ==> Decimals.Show(i) in shelf && shelf[Decimals.Show(i)] == ended[i])
    }

    constructor (toFile: bool, shelve: bool, info: bool, before: map<string, seq<Record>>)
      ensures Valid() && ended == [] && totalSteps == 0 && current == []
      ensures outfile == toFile && useShelve == shelve && saveInfo == info
    {
      outfile, useShelve, saveInfo := toFile, shelve, info;
      rollouts, shelf, current, numEpisodes, totalSteps, ended := [], before, [], 0, 0, [];
    }

    method BeginRollout()
      modifies this`current
      ensures current == []
    {
      current := [];
    }

    method EndRollout()
      requires Valid()
      modifies this`rollouts, this`shelf, this`numEpisodes, this`ended
      ensures Valid() && ended == old(ended) + [current]
    {
      if outfile {
        if useShelve {
          KeysStayApart(numEpisodes);
          shelf := shelf[Decimals.Show(numEpisodes) := current];
        } else {
          rollouts := rollouts + [current];
        }
      }
      numEpisodes := numEpisodes + 1;
      ended := ended + [current];
    }

    method AppendStep(obs: Observation, o: Outcome)
      modifies this`current, this`totalSteps
      ensures totalSteps == old(totalSteps) + 1
      ensures current == old(current) + if !outfile then []
                else [Record(obs, o.action, o.nextObs, o.reward, o.done, if saveInfo then Some(o.info) else None)]
    {
      if outfile {
        current := current + [Record(obs, o.action, o.nextObs, o.reward, o.done, if saveInfo then Some(o.info) else None)];
      }
      totalSteps := totalSteps + 1;
    }
  }

  lemma KeysStayApart(n: nat)
    ensures forall i :: 0 <= i < n ==> Decimals.Show(i) != Decimals.Show(n)
  {
    forall i | 0 <= i < n
      ensures Decimals.Show(i) != Decimals.Show(n)
    {
      if Decimals.Show(i) == Decimals.Show(n) {
        Decimals.ShowInjective(i, n);
      }
    }
  }

  // ---------------------------------------------------------------- the loops

  ghost predicate EventuallyDone(env: Env, r: nat) {
    exists t: nat :: env.step(r, t).done
  }

  /** Either limit is set, and if only episodes are limited every rollout ends at some step. */
  ghost predicate Terminates(env: Env, numSteps: int, numEpisodes: int) {
    numSteps != 0 || (numEpisodes != 0 && forall r: nat :: EventuallyDone(env, r))
  }

  /** The limits allowed every step that was taken: the last one, and with it all before. */
  ghost predicate WasAllowed(env: Env, lengths: seq<nat>, numSteps: int, numEpisodes: int) {
    lengths != [] ==>
      KeepGoing(Total(lengths) - 1, numSteps, Episodes(env, lengths[..|lengths| - 1]), numEpisodes)
  }

  /** What holds of the rollouts done so far, whose lengths are given. */
  ghost predicate Sound(env: Env, lengths: seq<nat>) {
    && (forall r :: 0 <= r < |lengths| ==> lengths[r] > 0 && RunsOn(env, r, lengths[r]))
    && (forall r :: 0 <= r < |lengths| - 1 ==> EndsDone(env, r, lengths[r]))
  }

  function Kept(saver: Saver, env: Env, lengths: seq<nat>): (rs: seq<seq<Record>>)
    ensures |rs| == |lengths|
  {
    if saver.outfile then Recorded(env, saver.saveInfo, lengths) else seq(|lengths|, _ => [])
  }

  /** What one rollout of the given length may be: cut off by its end or by a limit, and by nothing earlier. */
  ghost predicate IsCut(env: Env, r: nat, before: nat, length: nat, numSteps: int, episodes: nat, numEpisodes: int) {
    && length > 0 && RunsOn(env, r, length)
    && KeepGoing(before + length - 1, numSteps, episodes, numEpisodes)
    && (EndsDone(env, r, length) || !KeepGoing(before + length, numSteps, episodes, numEpisodes))
  }

  lemma OneStepOn(env: Env, r: nat, n: nat)
    requires RunsOn(env, r, n) && !EndsDone(env, r, n)
    ensures RunsOn(env, r, n + 1) && (EndsDone(env, r, n + 1) <==> env.step(r, n).done)
  {}

  /** Runs one rollout until it is done or a limit is reached. */
  method RunOne(env: Env, r: nat, before: nat, numSteps: int, episodes: nat, numEpisodes: int, saver: Saver)
    returns (length: nat, done: bool)
    requires saver.Valid() && Terminates(env, numSteps, numEpisodes)
    requires KeepGoing(before, numSteps, episodes, numEpisodes)
    modifies saver
    ensures saver.Valid()
    ensures saver.ended == old(saver.ended) + [if saver.outfile then Steps(env, saver.saveInfo, r, length) else []]
    ensures saver.totalSteps == old(saver.totalSteps) + length
    ensures IsCut(env, r, before, length, numSteps, episodes, numEpisodes) && (done <==> EndsDone(env, r, length))
  {
    saver.BeginRollout();
    var obs := env.reset(r);
    done, length := false, 0;
    ghost var horizon: nat := 0;
    if numSteps == 0 {
      assert EventuallyDone(env, r);
      var t: nat :| env.step(r, t).done;
      horizon := t;
    }
    while !done && KeepGoing(before + length, numSteps, episodes, numEpisodes)
      invariant saver.Valid() && saver.ended == old(saver.ended) && saver.totalSteps == old(saver.totalSteps) + length
      invariant saver.current == if saver.outfile then Steps(env, saver.saveInfo, r, length) else []
      invariant obs == if length == 0 then env.reset(r) else env.step(r, length - 1).nextObs
      invariant RunsOn(env, r, length) && (done <==> EndsDone(env, r, length))
      invariant length > 0 ==> KeepGoing(before + length - 1, numSteps, episodes, numEpisodes)
      invariant numSteps == 0 ==> env.step(r, horizon).done && (!done ==> length <= horizon)
      decreases if numSteps != 0 then numSteps - (before + length) else horizon - length, !done
    {
      var o := env.step(r, length);
      OneStepOn(env, r, length);
      saver.AppendStep(obs, o);
      done, obs, length := o.done, o.nextObs, length + 1;
      assert numSteps == 0 && !done ==> length - 1 != horizon;
    }
    saver.EndRollout();
  }

  /** Where a run stands after rollouts of the given lengths. */
  ghost predicate Standing(env: Env, lengths: seq<nat>, steps: nat, episodes: nat, numSteps: int, numEpisodes: int) {
    && Sound(env, lengths) && steps == Total(lengths) && episodes == Episodes(env, lengths)
    && (numSteps > 0 ==> steps <= numSteps) && (numEpisodes > 0 ==> episodes <= numEpisodes)
    && WasAllowed(env, lengths, numSteps, numEpisodes)
  }

  /** The last rollout ended by itself if the run may go on. */
  ghost predicate MayGoOn(env: Env, lengths: seq<nat>, steps: nat, episodes: nat, numSteps: int, numEpisodes: int) {
    lengths != [] && KeepGoing(steps, numSteps, episodes, numEpisodes) ==>
      EndsDone(env, |lengths| - 1, lengths[|lengths| - 1])
  }

  lemma NextStanding(env: Env, lengths: seq<nat>, length: nat, steps: nat, episodes: nat, numSteps: int, numEpisodes: int)
    requires Standing(env, lengths, steps, episodes, numSteps, numEpisodes)
    requires MayGoOn(env, lengths, steps, episodes, numSteps, numEpisodes)
    requires KeepGoing(steps, numSteps, episodes, numEpisodes)
    requires IsCut(env, |lengths|, steps, length, numSteps, episodes, numEpisodes)
    ensures var ended := if EndsDone(env, |lengths|, length) then episodes + 1 else episodes;
            && Standing(env, lengths + [length], steps + length, ended, numSteps, numEpisodes)
            && MayGoOn(env, lengths + [length], steps + length, ended, numSteps, numEpisodes)
  {
    var all := lengths + [length];
    TotalsSnoc(env, lengths, length);
    assert all[..|lengths|] == lengths;
    forall r | 0 <= r < |all|
      ensures all[r] > 0 && RunsOn(env, r, all[r])
      ensures r < |all| - 1 ==> EndsDone(env, r, all[r])
    {
      if r < |lengths| {
        assert all[r] == lengths[r];
      }
    }
  }

  lemma TotalsSnoc(env: Env, lengths: seq<nat>, n: nat)
    requires n > 0
    ensures Total(lengths + [n]) == Total(lengths) + n
    ensures Episodes(env, lengths + [n]) == Episodes(env, lengths) + if EndsDone(env, |lengths|, n) then 1 else 0
  {
    assert (lengths + [n])[..|lengths|] == lengths;
  }

  /**
   The whole run. The rollouts are the environment's own steps cut off by `lengths`: every rollout but
   possibly the last ends in done, the steps add up, no limit is overrun and one limit is reached.
   */
  method RunAll(env: Env, numSteps: int, numEpisodes: int, saver: Saver)
    returns (steps: nat, episodes: nat, ghost lengths: seq<nat>)
    requires saver.Valid() && saver.ended == [] && saver.totalSteps == 0 && Terminates(env, numSteps, numEpisodes)
    modifies saver
    ensures saver.Valid() && saver.ended == Kept(saver, env, lengths) && saver.totalSteps == steps
    ensures Standing(env, lengths, steps, episodes, numSteps, numEpisodes) && IsWhole(env, lengths, numSteps, numEpisodes)
    ensures AreChains(saver.ended) && (saver.outfile ==> TotalLength(saver.ended) == steps)
  {
    steps, episodes, lengths := 0, 0, [];
    var r := 0;
    while KeepGoing(steps, numSteps, episodes, numEpisodes)
      invariant saver.Valid() && saver.ended == Kept(saver, env, lengths) && saver.totalSteps == steps
      invariant r == |lengths|
      invariant Standing(env, lengths, steps, episodes, numSteps, numEpisodes)
      invariant MayGoOn(env, lengths, steps, episodes, numSteps, numEpisodes)
      decreases if numSteps != 0 then numSteps - steps else numEpisodes - episodes
    {
      var length, done := RunOne(env, r, steps, numSteps, episodes, numEpisodes, saver);
      KeptSnoc(saver, env, lengths, length);
      NextStanding(env, lengths, length, steps, episodes, numSteps, numEpisodes);
      steps, lengths, r := steps + length, lengths + [length], r + 1;
      if done {
        episodes := episodes + 1;
      }
    }
    KeptAreChains(saver, env, lengths);
    KeptLength(saver, env, lengths);
  }

  lemma KeptAreChains(saver: Saver, env: Env, lengths: seq<nat>)
    ensures AreChains(Kept(saver, env, lengths))
  {}

  lemma KeptLength(saver: Saver, env: Env, lengths: seq<nat>)
    ensures saver.outfile ==> TotalLength(Kept(saver, env, lengths)) == Total(lengths)
  {
    SavedLengths(env, saver.saveInfo, lengths);
  }

  lemma KeptSnoc(saver: Saver, env: Env, lengths: seq<nat>, n: nat)
    ensures Kept(saver, env, lengths + [n]) ==
            Kept(saver, env, lengths) + [if saver.outfile then Steps(env, saver.saveInfo, |lengths|, n) else []]
  {
    assert (lengths + [n])[..|lengths|] == lengths;
  }

  // ---------------------------------------------------------------- there is one run only

  /** A run that has come to its end. */
  ghost predicate IsWhole(env: Env, lengths: seq<nat>, numSteps: int, numEpisodes: int) {
    && Sound(env, lengths) && WasAllowed(env, lengths, numSteps, numEpisodes)
    && !KeepGoing(Total(lengths), numSteps, Episodes(env, lengths), numEpisodes)
  }

  lemma {:induction false} PrefixTotals(env: Env, lengths: seq<nat>, r: nat)
    requires r <= |lengths|
    ensures Total(lengths[..r]) <= Total(lengths) && Episodes(env, lengths[..r]) <= Episodes(env, lengths)
    ensures r < |lengths| ==> Total(lengths[..r]) + lengths[r] <= Total(lengths)
    decreases |lengths|
  {
    if r == |lengths| {
      assert lengths[..r] == lengths;
    } else {
      var most := lengths[..|lengths| - 1];
      PrefixTotals(env, most, r);
      assert most[..r] == lengths[..r];
    }
  }

  /** The limits allowed each step of the run. */
  lemma StepWasAllowed(env: Env, lengths: seq<nat>, r: nat, t: nat, numSteps: int, numEpisodes: int)
    requires IsWhole(env, lengths, numSteps, numEpisodes) && r < |lengths| && t < lengths[r]
    ensures KeepGoing(Total(lengths[..r]) + t, numSteps, Episodes(env, lengths[..r]), numEpisodes)
  {
    var most := lengths[..|lengths| - 1];
    PrefixTotals(env, lengths, r);
    PrefixTotals(env, most, r);
    assert most[..r] == lengths[..r];
  }

  /** Of two whole runs that agree so far, neither stops earlier in the next rollout. */
  lemma SameLength(env: Env, a: seq<nat>, b: seq<nat>, r: nat, numSteps: int, numEpisodes: int)
    requires IsWhole(env, a, numSteps, numEpisodes) && IsWhole(env, b, numSteps, numEpisodes)
    requires r < |a| && r < |b| && a[..r] == b[..r]
    ensures a[r] >= b[r]
  {
    if a[r] < b[r] {
      StepWasAllowed(env, b, r, a[r], numSteps, numEpisodes);
    }
  }

  /** Nor does either stop before the next rollout. */
  lemma SameCount(env: Env, a: seq<nat>, b: seq<nat>, r: nat, numSteps: int, numEpisodes: int)
    requires IsWhole(env, a, numSteps, numEpisodes) && IsWhole(env, b, numSteps, numEpisodes)
    requires r < |a| && r <= |b| && a[..r] == b[..r]
    ensures r < |b|
  {
    StepWasAllowed(env, a, r, 0, numSteps, numEpisodes);
    assert b[..|b|] == b;
  }

  lemma {:induction false} SamePrefix(env: Env, a: seq<nat>, b: seq<nat>, r: nat, numSteps: int, numEpisodes: int)
    requires IsWhole(env, a, numSteps, numEpisodes) && IsWhole(env, b, numSteps, numEpisodes)
    requires r <= |a|
    ensures r <= |b| && a[..r] == b[..r]
  {
    if r > 0 {
      SamePrefix(env, a, b, r - 1, numSteps, numEpisodes);
      SameCount(env, a, b, r - 1, numSteps, numEpisodes);
      SameLength(env, a, b, r - 1, numSteps, numEpisodes);
      SameLength(env, b, a, r - 1, numSteps, numEpisodes);
      assert a[..r] == a[..r - 1] + [a[r - 1]] && b[..r] == b[..r - 1] + [b[r - 1]];
    }
  }

  /** Environment and limits leave one whole run only. */
  lemma OneRunOnly(env: Env, a: seq<nat>, b: seq<nat>, numSteps: int, numEpisodes: int)
    requires IsWhole(env, a, numSteps, numEpisodes) && IsWhole(env, b, numSteps, numEpisodes)
    ensures a == b
  {
    SamePrefix(env, a, b, |a|, numSteps, numEpisodes);
    SamePrefix(env, b, a, |b|, numSteps, numEpisodes);
    assert a[..|a|] == a && b[..|b|] == b;
  }

  /**
   A list saver and a shelf saver, each after a whole run on the same environment with the same limits,
   hold the same: the shelf under str(i) what the list has at i.
   */
  lemma ShelfHoldsWhatListHolds(env: Env, list: Saver, shelf: Saver, a: seq<nat>, b: seq<nat>, numSteps: int, numEpisodes: int)
    requires list.Valid() && list.outfile && !list.useShelve && list.ended == Kept(list, env, a)
    requires shelf.Valid() && shelf.outfile && shelf.useShelve && shelf.ended == Kept(shelf, env, b)
    requires list.saveInfo == shelf.saveInfo
    requires IsWhole(env, a, numSteps, numEpisodes) && IsWhole(env, b, numSteps, numEpisodes)
    ensures |list.rollouts| == shelf.numEpisodes
    ensures forall i :: 0 <= i < |list.rollouts| ==>
              Decimals.Show(i) in shelf.shelf && shelf.shelf[Decimals.Show(i)] == list.rollouts[i]
  {
    OneRunOnly(env, a, b, numSteps, numEpisodes);
  }

  /** With a file, the lengths of the saved rollouts add up to the steps taken. */
  lemma {:induction false} SavedLengths(env: Env, saveInfo: bool, lengths: seq<nat>)
    ensures TotalLength(Recorded(env, saveInfo, lengths)) == Total(lengths)
  {
    if lengths != [] {
      var n := |lengths| - 1;
      SavedLengths(env, saveInfo, lengths[..n]);
      assert Recorded(env, saveInfo, lengths)[..n] == Recorded(env, saveInfo, lengths[..n]);
    }
  }

  function TotalLength(rs: seq<seq<Record>>): nat {
    if rs == [] then 0 else TotalLength(rs[..|rs| - 1]) + |rs[|rs| - 1]|
  }
}
