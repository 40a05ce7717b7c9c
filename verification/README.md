# Static job-population backend

This project models the static job-population backend of the PWA/HTTPS site
crawler. The backend holds a list of hostnames and a cursor (`currentIndex`)
into it. `configure` may replace the list. `populate` starts a timer. Each
firing of the timer (`actuallyPopulate`) does one of two things: it hands the
next one or two hostnames to the progress callback and advances the cursor,
or, once the cursor is at the end of the list, it clears the timer and calls
the finished callback.

The model is functional:

- `StaticBackend.State(list, cursor)` is the module-level state.
- `StaticBackend.Step` is one firing. It returns `Emit(batch)` or `Finished`
  in place of calling a callback, together with the next state.
- `StaticPopulate.Run` models a number of timer firings. It stops after the
  first `Finished`, because that firing clears the interval.
- `StaticPopulate.Populate` is the complete run from a state to `Finished`.

JavaScript reads past the end of an array as `undefined`. The model keeps
that behaviour: a batch element is an `Option<Host>`, and `None` stands for
`undefined`. List elements are modelled as strings, so under the invariant
`cursor <= |list|` no element is ever `None` (arrays with holes are left out).

Files:

- `wrappers.dfy`: the `Option` datatype.
- `static_backend.dfy`: the state, `configure` and the single step.
- `static_populate.dfy`: repeated steps, full coverage, and the end-check
  finding.

## Model

| member | source | states |
|---|---|---|
| StaticBackend.Init | crawler/urlJobPopulatorBackends/static.js:25 | the initial state holds the default list with the cursor at 0; its first tick finishes if and only if the default list is empty, and otherwise starts with the first default host |
| StaticBackend.Configure | crawler/urlJobPopulatorBackends/static.js:28-33 | the list is replaced by `opts.urls` exactly when it is given; otherwise the state is unchanged; the cursor is never touched |
| StaticBackend.ConfigureKeepsInvariant | crawler/urlJobPopulatorBackends/static.js:28-33 | after `configure` the cursor is within the list if and only if the new list (or the old one, when none is given) is at least as long as the cursor |
| StaticBackend.ConfigureFromStartKeepsInvariant | crawler/urlJobPopulatorBackends/static.js:25-33 | configuring before any tick, with any options, leaves the cursor within the list |
| StaticBackend.Step | crawler/urlJobPopulatorBackends/static.js:35-48 | a tick finishes if and only if the cursor equals the list length, and then changes nothing; otherwise it emits 1 or 2 values, the ones at the cursor in order, and advances the cursor by the batch length; a batch of one is emitted only when it takes the last element |
| StaticBackend.StepKeepsInvariant | crawler/urlJobPopulatorBackends/static.js:37-47 | from a cursor within the list, a tick leaves the cursor within the list, and an emitted batch is exactly the hosts between the old and the new cursor, all defined |
| StaticBackend.FinishedIsStable | crawler/urlJobPopulatorBackends/static.js:37-40 | after a finishing tick, a further tick finishes again and leaves the state unchanged |
| StaticBackend.EmptyListFinishesAtOnce | crawler/urlJobPopulatorBackends/static.js:28-40 | after configuring an empty list, the first tick reports `Finished`, whatever the default list was |
| StaticPopulate.Run | crawler/urlJobPopulatorBackends/static.js:35-52 | a run of n firings uses at most n firings; a run that has not finished emitted on every firing |
| StaticPopulate.Populate | crawler/urlJobPopulatorBackends/static.js:35-52 | the batches of a full run hand out the rest of the list, every host once and in order, in ceil(remaining / 2) batches |
| StaticPopulate.PopulateBatchSizes | crawler/urlJobPopulatorBackends/static.js:41-47 | every batch of a full run holds 1 or 2 hosts, and every batch before the last holds exactly 2 |
| StaticPopulate.PopulateCoversList | crawler/urlJobPopulatorBackends/static.js:25-52 | from the state at module load the batches, concatenated, are exactly the default list, and there are ceil(\|list\| / 2) of them |
| StaticPopulate.RunMatchesPopulate | crawler/urlJobPopulatorBackends/static.js:35-52 | with more firings than batches, the timer run emits exactly the full run's batches, then finishes with the cursor at the end of the list |
| StaticPopulate.RunPrefixOfPopulate | crawler/urlJobPopulatorBackends/static.js:35-52 | with no more firings than the full run has batches, the timer run has not finished and emitted exactly the first that many batches of the full run, in order |
| StaticPopulate.OverrunNeverFinishes | crawler/urlJobPopulatorBackends/static.js:35-48 | once the cursor is past the end, every firing emits two `undefined` values and the run never finishes |
| StaticPopulate.ReconfigureMidRunOverruns | crawler/urlJobPopulatorBackends/static.js:28-45 | one tick over three hosts, then `configure` with one host, puts the cursor past the end; the next tick emits two `undefined` values |
| StaticPopulate.StepGuarded | crawler/urlJobPopulatorBackends/static.js:37-47 | the corrected tick finishes if and only if the cursor is at or past the end, and then changes nothing; otherwise it emits 1 or 2 defined hosts, the ones at the cursor in order, and advances the cursor by the batch length without passing the end |
| StaticPopulate.GuardedAgrees | crawler/urlJobPopulatorBackends/static.js:37 | when the cursor is within the list, the corrected tick is the tick as written |
| StaticPopulate.GuardedRunFinishes | crawler/urlJobPopulatorBackends/static.js:35-52 | with the corrected check, from any state, the run finishes within ceil(remaining / 2) + 1 firings |
| StaticPopulate.GuardedRunDefined | crawler/urlJobPopulatorBackends/static.js:41-45 | with the corrected check, no run from any state hands out `undefined` |

## Left out

- The timer is left out: `setInterval`, `clearInterval`, `intervalID` and the 100 ms period. A firing is one call of `Step`. Clearing the interval is modelled as `Run` stopping after `Finished`.
- Calling `populate` twice, which starts two intervals and overwrites `intervalID`, is not modelled.
- The callbacks are left out. `Step` returns what it would have passed to them.
- The `Promise` that `configure` returns is left out. When `configure` returns at all, the promise is already resolved and carries no value.
- StaticBackend.Configure: calling `configure()` or `configure(null)` throws a TypeError when it reads `opts.urls` (static.js line 29), before any promise exists. `Options` always has a value, so this error path is not modelled.
- StaticBackend.Configure: the elements of the configured array are taken to be strings. Holes and `undefined` or other non-string elements (`[, 'a.org']`, `[undefined]`) are not modelled; in the source they would be handed out as `undefined` even with the cursor inside the list.
- StaticBackend.Configure: the source keeps a reference to the caller's array, not a copy. Later changes the caller makes to that array are not modelled; the list is treated as an immutable value. Shrinking that array below the cursor would be a second way into the overrun described under Findings. Growing it would make the run longer.
- The default hostnames are left out as data. `Init` takes the default list as a parameter.
- JavaScript truthiness of `opts.urls` is reduced to an `Option`. Any array, even an empty one, is truthy and replaces the list. Any falsy value, or an absent property, leaves the list unchanged. A truthy value that is not an array is not modelled.
- StaticPopulate.Populate: it requires the cursor to be within the list, because the source as written never finishes from a cursor past the end (see Findings).
- The Redis client wrapper `db/redis-helper.js` is left out. It is network plumbing over a library.
- The probe engine (`crawler/urlJobProcessor.js`) and its tests in `test/jobProcessor.js` are left out. `crawler/urlJobProcessor.js` is not part of this model, and everything the tests drive is network or decompression I/O.

## Findings

| source | as written | input that shows it | evidently intended | confidence | as-written member | corrected member |
|---|---|---|---|---|---|---|
| crawler/urlJobPopulatorBackends/static.js:37 | the end check is `currentIndex === list.length`, so a cursor past the end is never seen as finished | list `[a.org, b.org, c.org]`, one tick (cursor 2), then `configure({urls: ['x.org']})`: each later tick emits `[undefined, undefined]` and the timer never stops | finish once `currentIndex >= list.length` | low: reachable only when the list becomes shorter than the cursor after population has started, by a later `configure` or by the caller shrinking the configured array; not executed | StaticPopulate.OverrunNeverFinishes | StaticPopulate.StepGuarded |

The overrun can also be reached without a second `configure`. The caller can
shrink the array it passed to `configure`, because the backend keeps a
reference to it. That case is not modelled (see "Left out").

The corrected step is `StaticPopulate.StepGuarded`. `StaticPopulate.GuardedAgrees`
shows that it equals the step as written whenever the cursor is within the
list. Every fact proved about `Step` under that invariant, including the
`Populate` coverage results, therefore holds of the corrected step too.
`StaticPopulate.GuardedRunFinishes` and `StaticPopulate.GuardedRunDefined`
prove the intended behaviour from every state.

