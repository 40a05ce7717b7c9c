/**
  `populate`: the backend's timer fires the step over and over until the
  step reports `Finished`, at which point the interval is cleared. Here a
  run of the timer is the sequence of batches it handed to the progress
  callback and whether it reached the finished callback; the timer period
  is not modelled.
 */
module StaticPopulate {
  import opened Wrappers
  import opened StaticBackend

  /** A batch as handed to the progress callback. */
  type Batch = seq<Option<Host>>

  /** What a run of the timer did: the batches it emitted, in order, whether
      a tick then reported `Finished`, and the state it ended in. */
  datatype Trace = Trace(batches: seq<Batch>, finished: bool, last: State)

  /** The hosts handed out over a run, in order. */
  function Flatten(batches: seq<Batch>): Batch {
    if batches == [] then [] else batches[0] + Flatten(batches[1..])
  }

  /** Flattening a batch followed by more batches puts that batch first. */
  lemma FlattenPrepend(b: Batch, rest: seq<Batch>)
    ensures Flatten([b] + rest) == b + Flatten(rest)
  {
    assert ([b] + rest)[1..] == rest;
  }

  /** `fuel` firings of the timer driving `step` from `s`. The first
      `Finished` clears the interval, so no firing follows it: a run that
      did not finish emitted on every one of its firings. */
  function Run(step: State -> Outcome, s: State, fuel: nat): (r: Trace)
    ensures |r.batches| + (if r.finished then 1 else 0) <= fuel
    ensures !r.finished ==> |r.batches| == fuel
    decreases fuel
  {
    if fuel == 0 then Trace([], false, s)
    else
      var o := step(s);
      if o.tick.Finished? then Trace([], true, o.next)
      else
        var rest := Run(step, o.next, fuel - 1);
        Trace([o.tick.batch] + rest.batches, rest.finished, rest.last)
  }

  /** A run of at least one firing is its first tick followed by the run
      from the state that tick left, unless that tick finished. */
  lemma RunUnfold(step: State -> Outcome, s: State, fuel: nat)
    requires fuel > 0
    ensures step(s).tick.Finished? ==> Run(step, s, fuel) == Trace([], true, step(s).next)
    ensures step(s).tick.Emit? ==>
              var rest := Run(step, step(s).next, fuel - 1);
              Run(step, s, fuel) == Trace([step(s).tick.batch] + rest.batches, rest.finished, rest.last)
  {
  }

  /** One emitting tick followed by batches that hand out the rest of the
      list hands out everything from the tick's starting cursor. */
  lemma EmitThenRest(s: State, rest: seq<Batch>)
    requires Inv(s) && Step(s).tick.Emit?
    requires Flatten(rest) == AsValues(s.list[Step(s).next.cursor..])
    requires |rest| == (|s.list| - Step(s).next.cursor + 1) / 2
    ensures Flatten([Step(s).tick.batch] + rest) == AsValues(s.list[s.cursor..])
    ensures |[Step(s).tick.batch] + rest| == (|s.list| - s.cursor + 1) / 2
  {
    var o := Step(s);
    StepKeepsInvariant(s);
    FlattenPrepend(o.tick.batch, rest);
    AsValuesAppend(s.list[s.cursor..o.next.cursor], s.list[o.next.cursor..]);
    assert s.list[s.cursor..o.next.cursor] + s.list[o.next.cursor..] == s.list[s.cursor..];
  }

  /** The batches of a full `populate` from a state inside the bound, up to
      the tick that reports `Finished`. They hand out the rest of the list
      exactly once, in order, in ceil(remaining / 2) batches. */
  function Populate(s: State): (batches: seq<Batch>)
    requires Inv(s)
    ensures Flatten(batches) == AsValues(s.list[s.cursor..])
    ensures |batches| == (|s.list| - s.cursor + 1) / 2
    decreases |s.list| - s.cursor
  {
    var o := Step(s);
    StepKeepsInvariant(s);
    if o.tick.Finished? then
      []
    else
      var rest := Populate(o.next);
      EmitThenRest(s, rest);
      [o.tick.batch] + rest
  }

  /** Every batch of a full `populate` holds two hosts, except possibly the
      last one, which holds one or two. */
  lemma {:induction false} PopulateBatchSizes(s: State)
    requires Inv(s)
    ensures forall j :: 0 <= j < |Populate(s)| ==> 1 <= |Populate(s)[j]| <= 2
    ensures forall j :: 0 <= j < |Populate(s)| - 1 ==> |Populate(s)[j]| == 2
    decreases |s.list| - s.cursor
  {
    var o := Step(s);
    StepKeepsInvariant(s);
    if o.tick.Emit? {
      PopulateBatchSizes(o.next);
      var rest := Populate(o.next);
      assert Populate(s) == [o.tick.batch] + rest;
      if |o.tick.batch| == 1 {
        assert rest == [];
      }
    }
  }

  /** From the state at module load, `populate` hands out the whole default
      list, every host once and in order, in ceil(|list| / 2) batches. */
  lemma {:induction false} PopulateCoversList(list: seq<Host>)
    ensures Flatten(Populate(Init(list))) == AsValues(list)
    ensures |Populate(Init(list))| == (|list| + 1) / 2
  {
    assert list[0..] == list;
  }

  /** Given more firings than it has batches, the timer run emits exactly
      the batches of the full `populate`, then finishes with the cursor at
      the end of the list. */
  lemma {:induction false} RunMatchesPopulate(s: State, fuel: nat)
    requires Inv(s)
    requires fuel > |Populate(s)|
    ensures Run(Step, s, fuel) == Trace(Populate(s), true, State(s.list, |s.list|))
    decreases |s.list| - s.cursor
  {
    var o := Step(s);
    StepKeepsInvariant(s);
    RunUnfold(Step, s, fuel);
    if o.tick.Emit? {
      RunMatchesPopulate(o.next, fuel - 1);
    }
  }

  /** With no more firings than the full `populate` has batches, the timer
      never finishes early: it emits the first `fuel` batches of the full
      run, in order. */
  lemma {:induction false} RunPrefixOfPopulate(s: State, fuel: nat)
    requires Inv(s)
    requires fuel <= |Populate(s)|
    ensures !Run(Step, s, fuel).finished
    ensures Run(Step, s, fuel).batches == Populate(s)[..fuel]
    decreases fuel
  {
    if fuel > 0 {
      var o := Step(s);
      StepKeepsInvariant(s);
      RunUnfold(Step, s, fuel);
      assert o.tick.Emit?;
      RunPrefixOfPopulate(o.next, fuel - 1);
      assert Populate(s) == [o.tick.batch] + Populate(o.next);
      assert Populate(s)[..fuel] == [o.tick.batch] + Populate(o.next)[..fuel - 1];
    }
  }

  /** The end check as written (`currentIndex === list.length`) is skipped
      when `configure` shrinks the list below the cursor: from then on every
      firing emits two `undefined` values and the run never finishes. */
  lemma {:induction false} OverrunNeverFinishes(s: State, fuel: nat)
    requires s.cursor > |s.list|
    ensures !Run(Step, s, fuel).finished
    ensures forall j :: 0 <= j < fuel ==> Run(Step, s, fuel).batches[j] == [None, None]
    decreases fuel
  {
    if fuel > 0 {
      var o := Step(s);
      assert o == Outcome(Emit([None, None]), s.(cursor := s.cursor + 2));
      OverrunNeverFinishes(o.next, fuel - 1);
      RunUnfold(Step, s, fuel);
    }
  }

  /** A concrete way in: one tick over three hosts, then `configure` with a
      single host. The next tick hands out two `undefined` values. */
  lemma ReconfigureMidRunOverruns()
    ensures var s := Configure(Step(Init(["a.org", "b.org", "c.org"])).next, Options(Some(["x.org"])));
            s.cursor > |s.list| && Step(s).tick == Emit([None, None])
  {
  }

  /** The end check with `>=`: finish once the cursor has
      reached or passed the end of the list. */
  function StepGuarded(s: State): (o: Outcome)
    ensures o.tick.Finished? <==> s.cursor >= |s.list|
    ensures o.tick.Finished? ==> o.next == s
    ensures o.tick.Emit? ==>
              1 <= |o.tick.batch| <= 2 && o.next.list == s.list
              && o.next.cursor == s.cursor + |o.tick.batch| <= |s.list|
    ensures o.tick.Emit? ==>
              forall j :: 0 <= j < |o.tick.batch| ==> o.tick.batch[j] == Some(s.list[s.cursor + j])
  {
    if s.cursor >= |s.list| then Outcome(Finished, s) else Step(s)
  }

  /** Inside the bound the corrected step is the step as written, so every
      fact proved about `Step` under `Inv` holds of it too. */
  lemma GuardedAgrees(s: State)
    requires Inv(s)
    ensures StepGuarded(s) == Step(s)
  {
  }

  /** No value in a sequence of batch values is `undefined`. */
  predicate AllDefined(vs: Batch) {
    forall j :: 0 <= j < |vs| ==> vs[j].Some?
  }

  /** Firings the corrected run needs to report `Finished` from `s`. */
  function GuardedBound(s: State): nat {
    if Inv(s) then (|s.list| - s.cursor + 1) / 2 + 1 else 1
  }

  /** A corrected tick that emits brings the run one firing closer to its end. */
  lemma GuardedStepShrinksBound(s: State)
    requires StepGuarded(s).tick.Emit?
    ensures GuardedBound(StepGuarded(s).next) < GuardedBound(s)
  {
    var o := StepGuarded(s);
    var remaining := |s.list| - s.cursor;
    if |o.tick.batch| == 1 {
      assert remaining == 1;
    } else {
      assert |s.list| - o.next.cursor == remaining - 2;
      assert (remaining - 2 + 1) / 2 == (remaining + 1) / 2 - 1;
    }
  }

  /** With the corrected check, a run from any state, even one that
      `configure` left past the end, finishes within ceil(remaining / 2) + 1
      firings. */
  lemma {:induction false} GuardedRunFinishes(s: State, fuel: nat)
    requires fuel >= GuardedBound(s)
    ensures Run(StepGuarded, s, fuel).finished
    decreases fuel
  {
    var o := StepGuarded(s);
    RunUnfold(StepGuarded, s, fuel);
    if o.tick.Emit? {
      GuardedStepShrinksBound(s);
      GuardedRunFinishes(o.next, fuel - 1);
    }
  }

  /** Concatenating two runs without `undefined` gives a run without it. */
  lemma AllDefinedAppend(a: Batch, b: Batch)
    requires AllDefined(a) && AllDefined(b)
    ensures AllDefined(a + b)
  {
  }

  /** A batch of the corrected tick holds no `undefined`. */
  lemma GuardedBatchDefined(s: State)
    requires StepGuarded(s).tick.Emit?
    ensures AllDefined(StepGuarded(s).tick.batch)
  {
  }

  /** With the corrected check, no run, of any length and from any state,
      hands out `undefined`. */
  lemma {:induction false} GuardedRunDefined(s: State, fuel: nat)
    ensures AllDefined(Flatten(Run(StepGuarded, s, fuel).batches))
    decreases fuel
  {
    if fuel > 0 {
      var o := StepGuarded(s);
      RunUnfold(StepGuarded, s, fuel);
      if o.tick.Emit? {
        var rest := Run(StepGuarded, o.next, fuel - 1).batches;
        assert Run(StepGuarded, s, fuel).batches == [o.tick.batch] + rest;
        GuardedRunDefined(o.next, fuel - 1);
        FlattenPrepend(o.tick.batch, rest);
        GuardedBatchDefined(s);
        AllDefinedAppend(o.tick.batch, Flatten(rest));
      }
    }
  }
}
