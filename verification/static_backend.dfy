/**
  The static job-population backend: a list of hostnames and a cursor into it.
  `configure` may replace the list; each tick of the backend's timer either
  hands out the next one or two hostnames or reports that the list is
  exhausted. The timer and the two callbacks are replaced by a pure `Step`
  that returns what the tick would have passed to its callback.
 */
module StaticBackend {
  import opened Wrappers

  /** A hostname, optionally with `:port` or a path, as the backend hands it out. */
  type Host = string

  /** The backend's module-level state: the host `list` and `currentIndex`. */
  datatype State = State(list: seq<Host>, cursor: nat)

  /** The options object given to `configure`. `urls` is `None` when the
      property is absent or falsy; any array, even an empty one, is `Some`. */
  datatype Options = Options(urls: Option<seq<Host>>)

  /** What one tick produces. `Emit` carries the batch passed to the progress
      callback; an element is `None` where the tick read past the end of the
      list and got `undefined`. `Finished` stands for the finished callback. */
  datatype Tick = Emit(batch: seq<Option<Host>>) | Finished

  /** The tick a step produces and the state it leaves behind. */
  datatype Outcome = Outcome(tick: Tick, next: State)

  /** The cursor never runs past the end of the list. */
  predicate Inv(s: State) {
    s.cursor <= |s.list|
  }

  /** The state at module load: the default list, with the cursor at its
      start, so the first tick finishes only on an empty list and otherwise
      begins with the first default host. */
  function Init(defaults: seq<Host>): (s: State)
    ensures Inv(s) && s.list == defaults && s.cursor == 0
    ensures Step(s).tick.Finished? <==> defaults == []
    ensures Step(s).tick.Emit? ==> Step(s).tick.batch[0] == Some(defaults[0])
  {
    State(defaults, 0)
  }

  /** Indexing a JavaScript array: the element, or `undefined` past the end. */
  function Read(list: seq<Host>, i: nat): Option<Host> {
    if i < |list| then Some(list[i]) else None
  }

  /** A run of hosts as the values a batch holds, every one of them a
      hostname and none `undefined`. */
  function AsValues(hosts: seq<Host>): seq<Option<Host>> {
    seq(|hosts|, j requires 0 <= j < |hosts| => Some(hosts[j]))
  }

  /** Turning hosts into batch values commutes with concatenation. */
  lemma AsValuesAppend(a: seq<Host>, b: seq<Host>)
    ensures AsValues(a + b) == AsValues(a) + AsValues(b)
  {
  }

  /** `configure(opts)`: replace the list when `opts.urls` is given. */
  function Configure(s: State, opts: Options): (r: State)
    ensures r.cursor == s.cursor
    ensures opts.urls.Some? ==> r.list == opts.urls.value
    ensures opts.urls.None? ==> r == s
  {
    if opts.urls.Some? then s.(list := opts.urls.value) else s
  }

  /** The cursor bound survives `configure` exactly when the new list (if
      any) is at least as long as the cursor. */
  lemma ConfigureKeepsInvariant(s: State, opts: Options)
    ensures Inv(Configure(s, opts)) <==>
              (if opts.urls.Some? then s.cursor <= |opts.urls.value| else Inv(s))
  {
  }

  /** Configuring before any tick, with any options, leaves the cursor
      within the list. */
  lemma ConfigureFromStartKeepsInvariant(s: State, opts: Options)
    requires s.cursor == 0
    ensures Inv(Configure(s, opts))
  {
  }

  /** `actuallyPopulate`: one tick of the timer. */
  function Step(s: State): (o: Outcome)
    ensures o.tick.Finished? <==> s.cursor == |s.list|
    ensures o.tick.Finished? ==> o.next == s
    ensures o.tick.Emit? ==> 1 <= |o.tick.batch| <= 2
    ensures o.tick.Emit? ==>
              o.next.list == s.list && o.next.cursor == s.cursor + |o.tick.batch|
    ensures o.tick.Emit? ==>
              forall j :: 0 <= j < |o.tick.batch| ==> o.tick.batch[j] == Read(s.list, s.cursor + j)
    ensures o.tick.Emit? && |o.tick.batch| == 1 ==> o.next.cursor == |s.list|
  {
    if s.cursor == |s.list| then
      Outcome(Finished, s)
    else
      var first := Read(s.list, s.cursor);
      var c := s.cursor + 1;
      if c == |s.list| then
        Outcome(Emit([first]), s.(cursor := c))
      else
        Outcome(Emit([first, Read(s.list, c)]), s.(cursor := c + 1))
  }

  /** From a state inside the bound, a tick keeps the cursor inside the bound
      and hands out exactly the hosts between the old and the new cursor. */
  lemma StepKeepsInvariant(s: State)
    requires Inv(s)
    ensures Inv(Step(s).next)
    ensures Step(s).tick.Emit? ==>
              s.cursor < Step(s).next.cursor
              && Step(s).tick.batch == AsValues(s.list[s.cursor..Step(s).next.cursor])
  {
  }

  /** Once a tick reports `Finished`, every later tick reports it again and
      changes nothing. */
  lemma FinishedIsStable(s: State)
    requires Step(s).tick.Finished?
    ensures Step(Step(s).next) == Outcome(Finished, s)
  {
  }

  /** An empty list is finished on the very first tick. */
  lemma EmptyListFinishesAtOnce(opts: Options)
    requires opts.urls == Some([])
    ensures forall defaults :: Step(Configure(Init(defaults), opts)).tick == Finished
  {
  }
}
