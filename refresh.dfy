/**
 * The observable state machine of the execution controls: the auto-refresh
 * flag, the selected interval, the menu flag, the period of the armed
 * repeating timer and the number of RUN_QUERY signals sent so far.
 * The class in execution_controls.dfy is proved to follow these transitions.
 */
module AutoRefresh {
  import opened DelayCatalog

  datatype Controls = Controls(
    autoRefresh: bool,
    selected: AutoRefreshOption,
    openOptions: bool,
    timer: Option<int>,   // period in milliseconds of the armed repeating timer
    dispatched: nat)      // RUN_QUERY signals sent so far

  /** Mounted component: auto-refresh off, "Off" selected, menu closed, no timer. */
  function Initial(): Controls
  {
    Controls(false, Off(), false, None, 0)
  }

  /** The period the effect arms for an interval: the interval in milliseconds. */
  function PeriodOf(d: AutoRefreshOption): int
  {
    d.seconds * 1000
  }

  /** The condition under which picking `d` toggles the flag: on with a zero pick, or off with a non-zero one. */
  predicate Flips(autoRefresh: bool, d: AutoRefreshOption)
  {
    (autoRefresh && d.seconds == 0) || (!autoRefresh && d.seconds != 0)
  }

  /** Picking a menu entry: maybe toggle the flag, select the entry, close the menu. */
  function Changed(s: Controls, d: AutoRefreshOption): (s': Controls)
  {
    s.(autoRefresh := if Flips(s.autoRefresh, d) then !s.autoRefresh else s.autoRefresh,
       selected := d,
       openOptions := false)
  }

  /** The effect: arm a timer for the selection when on, otherwise no timer and "Off" selected. */
  function Reconciled(s: Controls): (s': Controls)
  {
    if s.autoRefresh then s.(timer := Some(PeriodOf(s.selected)))
    else s.(selected := Off(), timer := None)
  }

  /** The refresh button: one RUN_QUERY signal. */
  function Updated(s: Controls): Controls
  {
    s.(dispatched := s.dispatched + 1)
  }

  /** One period of the armed timer elapses: one RUN_QUERY signal if a timer is armed. */
  function Ticked(s: Controls): Controls
  {
    if s.timer.Some? then s.(dispatched := s.dispatched + 1) else s
  }

  function OptionsToggled(s: Controls): Controls
  {
    s.(openOptions := !s.openOptions)
  }

  function OptionsClosed(s: Controls): Controls
  {
    s.(openOptions := false)
  }

  /** What a user (or the clock) can do to the control. */
  datatype Event = Select(d: AutoRefreshOption) | Refresh | Tick | ToggleMenu | CloseMenu

  /** Picks come from the menu, which lists the catalog. */
  predicate FromMenu(e: Event)
  {
    e.Select? ==> e.d in DelayOptions()
  }

  /** One event followed by the effect it triggers (only a pick changes the effect's dependencies). */
  function Step(s: Controls, e: Event): (s': Controls)
  {
    match e
    case Select(d) => Reconciled(Changed(s, d))
    case Refresh => Updated(s)
    case Tick => Ticked(s)
    case ToggleMenu => OptionsToggled(s)
    case CloseMenu => OptionsClosed(s)
  }

  function Run(s: Controls, events: seq<Event>): (s': Controls)
    decreases |events|
  {
    if events == [] then s else Run(Step(s, events[0]), events[1..])
  }

  /**
   * The controller invariant: auto-refresh is on exactly when the selection is
   * a non-zero catalog interval, and a timer with that interval's period is
   * armed exactly when auto-refresh is on.
   */
  ghost predicate Coherent(s: Controls)
  {
    s.selected in DelayOptions() &&
    (s.autoRefresh <==> s.selected.seconds > 0) &&
    s.timer == (if s.autoRefresh then Some(PeriodOf(s.selected)) else None)
  }

  /** The flag flips exactly when its value and "the pick is non-zero" disagree; afterwards they agree. */
  lemma ChangeFlipsOnDisagreement(s: Controls, d: AutoRefreshOption)
    ensures Changed(s, d).autoRefresh != s.autoRefresh <==> s.autoRefresh != (d.seconds != 0)
    ensures Changed(s, d).autoRefresh == (d.seconds != 0)
    ensures Changed(s, d).selected == d && !Changed(s, d).openOptions
    ensures Changed(s, d).timer == s.timer && Changed(s, d).dispatched == s.dispatched
  {
  }

  /** Re-picking a non-zero interval (the same one included) while on keeps it on; only the selection changes. */
  lemma ReselectWhileOn(s: Controls, d: AutoRefreshOption)
    requires s.autoRefresh && d.seconds != 0
    ensures Changed(s, d) == s.(selected := d, openOptions := false)
  {
  }

  /** The key invariant: after any pick from the menu and the effect it triggers, the state is coherent. */
  lemma SelectThenReconcileIsCoherent(s: Controls, d: AutoRefreshOption)
    requires d in DelayOptions()
    ensures Coherent(Reconciled(Changed(s, d)))
    ensures Reconciled(Changed(s, d)).selected == (if d.seconds != 0 then d else Off())
  {
    CatalogZeroIsOff(d);
    CatalogZeroIsOff(Off());
  }

  /** The effect when off: no timer and "Off" selected; when on: the selection's period, nothing else changes. */
  lemma ReconcileArmsOrResets(s: Controls)
    ensures !s.autoRefresh ==> Reconciled(s) == s.(selected := Off(), timer := None)
    ensures s.autoRefresh ==> Reconciled(s) == s.(timer := Some(s.selected.seconds * 1000))
    ensures Reconciled(s).autoRefresh == s.autoRefresh && Reconciled(s).dispatched == s.dispatched
    ensures Reconciled(Reconciled(s)) == Reconciled(s)
  {
  }

  /** In a coherent state the effect's reset to "Off" changes nothing: the state is already settled. */
  lemma CoherentIsSettled(s: Controls)
    requires Coherent(s)
    ensures Reconciled(s) == s
  {
    CatalogZeroIsOff(s.selected);
  }

  lemma InitialIsCoherent()
    ensures Coherent(Initial())
    ensures !Initial().autoRefresh && Initial().selected == AutoRefreshOption(0, "Off") && !Initial().openOptions
  {
    CatalogShape();
  }

  /** The refresh button sends exactly one signal and changes nothing else. */
  lemma UpdateSendsOne(s: Controls)
    ensures Updated(s).dispatched == s.dispatched + 1
    ensures Updated(s).(dispatched := s.dispatched) == s
  {
  }

  /**
   * In a coherent state (after the effect has run) a tick sends one signal
   * exactly when auto-refresh is on; while off no signal is sent.
   */
  lemma TickSendsOneWhileOn(s: Controls)
    requires Coherent(s)
    ensures Ticked(s).dispatched == if s.autoRefresh then s.dispatched + 1 else s.dispatched
    ensures Ticked(s).(dispatched := s.dispatched) == s
  {
  }

  /** The menu actions: toggling twice restores, closing is idempotent, neither touches auto-refresh. */
  lemma MenuActions(s: Controls)
    ensures OptionsToggled(OptionsToggled(s)) == s
    ensures OptionsToggled(s).openOptions == !s.openOptions
    ensures OptionsClosed(OptionsClosed(s)) == OptionsClosed(s) && !OptionsClosed(s).openOptions
    ensures OptionsToggled(s).(openOptions := s.openOptions) == s
    ensures OptionsClosed(s).(openOptions := s.openOptions) == s
  {
  }

  lemma StepKeepsCoherent(s: Controls, e: Event)
    requires Coherent(s) && FromMenu(e)
    ensures Coherent(Step(s, e))
  {
    if e.Select? {
      SelectThenReconcileIsCoherent(s, e.d);
    }
  }

  /** Every history of menu picks, refreshes, ticks and menu actions from mount keeps the invariant. */
  lemma {:induction false} RunKeepsCoherent(s: Controls, events: seq<Event>)
    requires Coherent(s)
    requires forall i :: 0 <= i < |events| ==> FromMenu(events[i])
    ensures Coherent(Run(s, events))
    decreases |events|
  {
    if events != [] {
      StepKeepsCoherent(s, events[0]);
      RunKeepsCoherent(Step(s, events[0]), events[1..]);
    }
  }

  /** Signals are only ever added: the count after a history is at least the count before it. */
  lemma {:induction false} RunNeverRetractsSignals(s: Controls, events: seq<Event>)
    ensures Run(s, events).dispatched >= s.dispatched
    decreases |events|
  {
    if events != [] {
      RunNeverRetractsSignals(Step(s, events[0]), events[1..]);
    }
  }

  /** Off -> "1s" -> "5m" -> "Off": on with a 1 s timer, still on with a 5 min timer, then off with no timer. */
  lemma SelectionScenario()
    ensures var one := Step(Initial(), Select(DelayOptions()[1]));
            var five := Step(one, Select(DelayOptions()[7]));
            var off := Step(five, Select(Off()));
            one.autoRefresh && one.selected.title == "1s" && one.timer == Some(1000) &&
            five.autoRefresh && five.selected.title == "5m" && five.timer == Some(300000) &&
            !off.autoRefresh && off.selected.title == "Off" && off.timer == None
  {
  }
}
