# Execution controls of the VictoriaMetrics web UI, modelled in Dafny

The execution controls are the query toolbar's refresh button and its
auto-refresh menu. The menu lists a fixed catalog of intervals (`delayOptions`:
"Off" with 0 seconds, then 1s up to 2h). Picking an entry sets the auto-refresh
flag and the selected interval. An effect then either arms one repeating timer
that sends a `RUN_QUERY` signal every interval, or, when auto-refresh is off,
resets the selection to "Off". The refresh button sends one `RUN_QUERY` signal.
The button group hides the refresh button at widths of 360 or less.

Files:

- `catalog.dfy` (module `DelayCatalog`): the interval catalog and its shape.
- `layout.dfy` (module `Layout`): the width rule and the "active" mark of each menu entry.
- `refresh.dfy` (module `AutoRefresh`): the observable state (`Controls`) and one
  function per transition: `Changed` (a pick), `Reconciled` (the effect),
  `Updated` (refresh button), `Ticked` (a timer period elapses), `OptionsToggled`,
  `OptionsClosed`. `Run` folds a history of events. The invariant `Coherent` is
  "auto-refresh is on iff the selection is a non-zero catalog interval, and a
  timer of that interval times 1000 ms is armed iff auto-refresh is on".
- `execution_controls.dfy` (module `Component`): class `ExecutionControls`.
  Its fields are the component's state cells, the set of armed interval timers
  (handle to period), the handle the last effect run armed, and the dependencies
  the effect last ran with. Each handler is a method. `Reconcile` is the effect.
  It runs only when its dependencies changed, and then it first clears the timer
  its previous run armed. Every handler and the effect are proved to follow the matching
  transition of `AutoRefresh` on the abstract state `Model()`.

Properties of note:

- The toggle rule of `handleChange` (flip only when the flag and "the pick is
  non-zero" disagree) always ends with the flag equal to "the pick is non-zero".
  Re-picking a non-zero interval while on keeps it on.
- With picks drawn from the catalog, `autoRefresh == (selectedDelay.seconds != 0)`
  holds in every state, not only after the effect (`ExecutionControls.Valid`).
  So the effect's reset to `delayOptions[0]` never changes anything in a
  reachable state (`AutoRefresh.CoherentIsSettled`).
- At most one interval timer is armed. A timer cleared by the effect's cleanup
  never fires again (`Tick` on a cleared handle sends nothing).

The refresh button is hidden at a width of exactly 360 as well, because it is
rendered only when `width > 360` (app/vmui/packages/vmui/src/components/Configurators/TimeRangeSettings/ExecutionControls/ExecutionControls.tsx:92). The timer period is
`seconds * 1000` milliseconds (app/vmui/packages/vmui/src/components/Configurators/TimeRangeSettings/ExecutionControls/ExecutionControls.tsx:59).

## Model

| member | source | states |
|---|---|---|
| DelayCatalog.CatalogShape | app/vmui/packages/vmui/src/components/Configurators/TimeRangeSettings/ExecutionControls/ExecutionControls.tsx:17-30 | The catalog has 12 entries, the first is ("Off", 0 s), every later one has positive seconds, and each has more seconds than the one before. |
| DelayCatalog.IncreasingIsSorted | app/vmui/packages/vmui/src/components/Configurators/TimeRangeSettings/ExecutionControls/ExecutionControls.tsx:17-30 | Seconds increasing between neighbours implies strictly increasing between any two entries. |
| DelayCatalog.CatalogSecondsDistinct | app/vmui/packages/vmui/src/components/Configurators/TimeRangeSettings/ExecutionControls/ExecutionControls.tsx:17-30 | The catalog's seconds are pairwise distinct, so they identify entries (they are the list key). |
| DelayCatalog.CatalogZeroIsOff | app/vmui/packages/vmui/src/components/Configurators/TimeRangeSettings/ExecutionControls/ExecutionControls.tsx:17-30 | Every catalog entry has non-negative seconds, and "Off" is the only one with 0 seconds. |
| Layout.ShortLayoutHidesRefresh | app/vmui/packages/vmui/src/components/Configurators/TimeRangeSettings/ExecutionControls/ExecutionControls.tsx:86-92 | The refresh button is shown iff width > 360, and the short class is set iff it is not shown. |
| Layout.ActiveMarks | app/vmui/packages/vmui/src/components/Configurators/TimeRangeSettings/ExecutionControls/ExecutionControls.tsx:133-139 | Entry i of the menu is marked active iff its seconds equal the selection's. |
| Layout.NoneActive | app/vmui/packages/vmui/src/components/Configurators/TimeRangeSettings/ExecutionControls/ExecutionControls.tsx:133-139 | When no entry has the selection's seconds, no entry is marked active. |
| Layout.AtMostOneActive | app/vmui/packages/vmui/src/components/Configurators/TimeRangeSettings/ExecutionControls/ExecutionControls.tsx:133-139 | With distinct seconds, exactly one entry is active if some entry has the selection's seconds, none otherwise. |
| Layout.ActiveEntryIsSelection | app/vmui/packages/vmui/src/components/Configurators/TimeRangeSettings/ExecutionControls/ExecutionControls.tsx:133-139 | When the selection is one of distinct-seconds entries, exactly one entry is active, and it is the selection. |
| Layout.CatalogActiveEntry | app/vmui/packages/vmui/src/components/Configurators/TimeRangeSettings/ExecutionControls/ExecutionControls.tsx:133-139 | In the real menu, for a selected catalog entry, exactly that entry is marked active. |
| AutoRefresh.InitialIsCoherent | app/vmui/packages/vmui/src/components/Configurators/TimeRangeSettings/ExecutionControls/ExecutionControls.tsx:37-39 | On mount auto-refresh is off, "Off" is selected, the menu is closed, and the state satisfies the invariant. |
| AutoRefresh.ChangeFlipsOnDisagreement | app/vmui/packages/vmui/src/components/Configurators/TimeRangeSettings/ExecutionControls/ExecutionControls.tsx:41-47 | A pick flips the flag iff the flag and "the pick is non-zero" disagree; afterwards the flag equals "the pick is non-zero", the pick is selected, the menu is closed, timer and signals are untouched. |
| AutoRefresh.ReselectWhileOn | app/vmui/packages/vmui/src/components/Configurators/TimeRangeSettings/ExecutionControls/ExecutionControls.tsx:42-45 | Picking a non-zero interval (the same one included) while on keeps it on; only the selection and the menu change. |
| AutoRefresh.ReconcileArmsOrResets | app/vmui/packages/vmui/src/components/Configurators/TimeRangeSettings/ExecutionControls/ExecutionControls.tsx:53-66 | The effect when off: no timer, "Off" selected. When on: a timer of seconds*1000 ms and nothing else changes. The effect is idempotent. |
| AutoRefresh.SelectThenReconcileIsCoherent | app/vmui/packages/vmui/src/components/Configurators/TimeRangeSettings/ExecutionControls/ExecutionControls.tsx:41-66 | After any catalog pick and its effect, auto-refresh is on iff the selection's seconds are positive, and a timer of seconds*1000 ms is armed iff auto-refresh is on. |
| AutoRefresh.CoherentIsSettled | app/vmui/packages/vmui/src/components/Configurators/TimeRangeSettings/ExecutionControls/ExecutionControls.tsx:53-62 | In a state satisfying the invariant the effect changes nothing. |
| AutoRefresh.UpdateSendsOne | app/vmui/packages/vmui/src/components/Configurators/TimeRangeSettings/ExecutionControls/ExecutionControls.tsx:49-51 | The refresh button adds exactly one RUN_QUERY signal and changes nothing else. |
| AutoRefresh.TickSendsOneWhileOn | app/vmui/packages/vmui/src/components/Configurators/TimeRangeSettings/ExecutionControls/ExecutionControls.tsx:57-59 | In a coherent state (after the effect has run), a timer period adds one RUN_QUERY signal while auto-refresh is on and none while it is off; nothing else changes. |
| AutoRefresh.MenuActions | app/vmui/packages/vmui/src/components/Configurators/TimeRangeSettings/ExecutionControls/ExecutionControls.tsx:71-77 | Toggling the menu negates it and twice restores it; closing sets it false and is idempotent; neither touches anything else. |
| AutoRefresh.StepKeepsCoherent | app/vmui/packages/vmui/src/components/Configurators/TimeRangeSettings/ExecutionControls/ExecutionControls.tsx:41-77 | Every single event (catalog pick with its effect, refresh, tick, menu toggle, menu close) keeps the invariant. |
| AutoRefresh.RunKeepsCoherent | app/vmui/packages/vmui/src/components/Configurators/TimeRangeSettings/ExecutionControls/ExecutionControls.tsx:37-77 | Every history of such events keeps the invariant. |
| AutoRefresh.RunNeverRetractsSignals | app/vmui/packages/vmui/src/components/Configurators/TimeRangeSettings/ExecutionControls/ExecutionControls.tsx:49-59 | Over any history the number of RUN_QUERY signals never decreases. |
| AutoRefresh.SelectionScenario | app/vmui/packages/vmui/src/components/Configurators/TimeRangeSettings/ExecutionControls/ExecutionControls.tsx:41-66 | Off, then "1s", then "5m", then "Off": on with a 1000 ms timer, still on with a 300000 ms timer, then off with no timer and "Off" selected. |
| Component.ExecutionControls.constructor | app/vmui/packages/vmui/src/components/Configurators/TimeRangeSettings/ExecutionControls/ExecutionControls.tsx:37-39 | Mount: the abstract state is the initial one, no timer is armed, the effect has not run. |
| Component.ExecutionControls.HandleChange | app/vmui/packages/vmui/src/components/Configurators/TimeRangeSettings/ExecutionControls/ExecutionControls.tsx:41-47 | Follows `Changed`: flag equals "the pick is non-zero", the pick is selected, the menu is closed; timers and effect dependencies are untouched. |
| Component.ExecutionControls.HandleUpdate | app/vmui/packages/vmui/src/components/Configurators/TimeRangeSettings/ExecutionControls/ExecutionControls.tsx:49-51 | Follows `Updated`: one more RUN_QUERY signal, every other field unchanged. |
| Component.ExecutionControls.Reconcile | app/vmui/packages/vmui/src/components/Configurators/TimeRangeSettings/ExecutionControls/ExecutionControls.tsx:53-66 | Follows `Reconciled` and ends in a state satisfying the controller invariant. With unchanged dependencies the running timer is kept; otherwise the previous timer is cleared first and then exactly one timer of seconds*1000 ms is armed when on, none when off; at most one timer is ever armed. |
| Component.ExecutionControls.Tick | app/vmui/packages/vmui/src/components/Configurators/TimeRangeSettings/ExecutionControls/ExecutionControls.tsx:57-59 | Firing an armed timer adds one RUN_QUERY signal; a cleared handle adds none, also after unmounting; nothing else changes. |
| Component.ExecutionControls.ToggleOpenOptions | app/vmui/packages/vmui/src/components/Configurators/TimeRangeSettings/ExecutionControls/ExecutionControls.tsx:71-73 | Follows `OptionsToggled`: the menu flag is negated, everything else unchanged. |
| Component.ExecutionControls.HandleCloseOptions | app/vmui/packages/vmui/src/components/Configurators/TimeRangeSettings/ExecutionControls/ExecutionControls.tsx:75-77 | Follows `OptionsClosed`: the menu flag is false, everything else unchanged. |
| Component.ExecutionControls.Unmount | app/vmui/packages/vmui/src/components/Configurators/TimeRangeSettings/ExecutionControls/ExecutionControls.tsx:63-65 | The cleanup on unmount leaves no interval timer armed and changes no other state cell. |
| Component.RunStaleTickScenario | app/vmui/packages/vmui/src/components/Configurators/TimeRangeSettings/ExecutionControls/ExecutionControls.tsx:41-66 | After picking "Off", the "1s" timer still sends one RUN_QUERY until the effect run that follows clears it; after that run, and after unmounting, it sends none. |
| Component.RunSelectionScenario | app/vmui/packages/vmui/src/components/Configurators/TimeRangeSettings/ExecutionControls/ExecutionControls.tsx:41-66 | On the class itself, Off then "1s", "5m", "Off" arms 1000 ms, then 300000 ms, then no timer, and the cleared 1 s timer sends nothing when fired. |

## Left out

- Rendering (JSX, `Button`, `Tooltip`, icons, the title text): presentation only.
- `Popper` positioning and outside-click detection: a foreign component. Only the fact that it calls `handleCloseOptions` is modelled.
- `useResize` and `document.body`: the width is a parameter of the layout rules.
- `getAppModeEnable`: it only adds a CSS class.
- Wall-clock timing of `setInterval`: a timer period elapsing is the explicit `Tick` call, and the phase of a running timer is not modelled.
- Preact's hook scheduling and batching: the effect is the explicit `Reconcile` call. One call is one effect run, so the re-render that the effect's own `setSelectedDelay` would cause is a second `Reconcile` call.
- `useTimeDispatch` and what `RUN_QUERY` does: the dispatch target is external; signals are a counter.
- AutoRefresh.Step: fuses a pick with the effect run that follows it, so a history built with `Run` never contains a tick between the two. In the component the previous timer can still fire in that window; the class models it (`Tick` may be called between `HandleChange` and `Reconcile`, see `Component.RunStaleTickScenario`).
- Component.ExecutionControls.HandleChange: requires the pick to be a catalog entry, because the only caller (`createHandlerChange` in the menu) passes catalog entries.
- Component.ExecutionControls.Unmount: does not re-establish the object invariant, because the component is discarded after unmounting.
