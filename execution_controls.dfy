/**
 * The execution controls as the component runs them: state cells updated in
 * place by the handlers, and an effect that runs after a render whenever its
 * dependencies (the auto-refresh flag and the selected interval) changed,
 * first clearing the interval timer its previous run armed.
 *
 * Interval timers are identified by handles, as the host's timer API does:
 * `intervals` holds every timer currently armed, `timer` the handle the last
 * effect run armed (what its cleanup clears).
 */
module Component {
  import opened DelayCatalog
  import opened AutoRefresh

  /** The timer an effect run leaves armed for the dependencies it saw. */
  function EffectTimer(deps: (bool, AutoRefreshOption)): Option<int>
  {
    if deps.0 then Some(PeriodOf(deps.1)) else None
  }

  class ExecutionControls {
    var autoRefresh: bool
    var selectedDelay: AutoRefreshOption
    var openOptions: bool
    var dispatched: nat                                  // RUN_QUERY signals sent
    var intervals: map<nat, int>                         // armed interval timers: handle -> period in ms
    var timer: Option<nat>                               // handle armed by the last effect run
    var nextHandle: nat                                  // handle the host gives the next timer
    var effectDeps: Option<(bool, AutoRefreshOption)>    // dependencies the effect last ran with

    /** Period of the timer the last effect run armed, if it is still armed. */
    function ArmedPeriod(): Option<int>
      reads this
    {
      if timer.Some? && timer.value in intervals then Some(intervals[timer.value]) else None
    }

    /** The observable state. */
    ghost function Model(): Controls
      reads this
    {
      Controls(autoRefresh, selectedDelay, openOptions, ArmedPeriod(), dispatched)
    }

    ghost predicate Valid()
      reads this
    {
      // handles are positive and never reused
      0 < nextHandle && (forall h :: h in intervals ==> 0 < h < nextHandle) &&
      // the only armed timer is the one the last effect run armed
      intervals.Keys == (if timer.Some? then {timer.value} else {}) &&
      (effectDeps.None? ==> timer.None?) &&
      // the timer is what the last effect run arranged for its dependencies
      (effectDeps.Some? ==> ArmedPeriod() == EffectTimer(effectDeps.value)) &&
      selectedDelay in DelayOptions() &&
      selectedDelay.seconds >= 0 && (selectedDelay.seconds == 0 ==> selectedDelay == Off()) &&
      autoRefresh == (selectedDelay.seconds != 0)
    }

    /** Mount: auto-refresh off, "Off" selected, menu closed, the effect not yet run. */
    constructor ()
      ensures Valid() && Model() == Initial()
      ensures intervals == map[] && effectDeps.None?
    {
      autoRefresh := false;
      selectedDelay := Off();
      openOptions := false;
      dispatched := 0;
      intervals := map[];
      timer := None;
      nextHandle := 1;
      effectDeps := None;
      new;
      CatalogShape();
    }

    /** A click on a menu entry. */
    method HandleChange(d: AutoRefreshOption)
      requires Valid() && d in DelayOptions()
      modifies this
      ensures Valid() && Model() == Changed(old(Model()), d)
      ensures autoRefresh == (d.seconds != 0) && selectedDelay == d && !openOptions
      ensures intervals == old(intervals) && timer == old(timer)
      ensures nextHandle == old(nextHandle) && effectDeps == old(effectDeps)
    {
      CatalogZeroIsOff(d);
      if (autoRefresh && d.seconds == 0) || (!autoRefresh && d.seconds != 0) {
        autoRefresh := !autoRefresh;
      }
      selectedDelay := d;
      openOptions := false;
    }

    /** The refresh button. */
    method HandleUpdate()
      requires Valid()
      modifies this
      ensures Valid() && Model() == Updated(old(Model()))
      ensures dispatched == old(dispatched) + 1
      ensures autoRefresh == old(autoRefresh) && selectedDelay == old(selectedDelay)
      ensures openOptions == old(openOptions) && intervals == old(intervals) && timer == old(timer)
      ensures nextHandle == old(nextHandle) && effectDeps == old(effectDeps)
    {
      dispatched := dispatched + 1;
    }

    /**
     * The effect after a render. It runs only when its dependencies changed;
     * then the cleanup of its previous run clears that run's timer before
     * anything new is armed.
     */
    method Reconcile()
      requires Valid()
      modifies this
      ensures Valid() && Model() == Reconciled(old(Model()))
      // the controller invariant holds after every effect run
      ensures Coherent(Model())
      ensures effectDeps == Some((old(autoRefresh), old(selectedDelay)))
      // dependencies unchanged: the running timer is kept, not restarted
      ensures old(effectDeps) == effectDeps ==> intervals == old(intervals) && timer == old(timer)
      // dependencies changed: the old timer is gone, and at most the new one is armed
      ensures old(effectDeps) != effectDeps ==>
        (old(timer).Some? ==> old(timer).value !in intervals) &&
        intervals == (if autoRefresh then map[old(nextHandle) := PeriodOf(selectedDelay)] else map[])
      ensures |intervals| <= 1
      ensures openOptions == old(openOptions) && dispatched == old(dispatched)
    {
      var deps := (autoRefresh, selectedDelay);
      if effectDeps != Some(deps) {
        // cleanup of the previous run
        if timer.Some? {
          intervals := intervals - {timer.value};
        }
        timer := None;
        assert intervals == map[];
        if autoRefresh {
          var h := nextHandle;
          intervals := intervals[h := selectedDelay.seconds * 1000];
          nextHandle := nextHandle + 1;
          timer := Some(h);
        } else {
          selectedDelay := Off();   // delayOptions[0], by CatalogShape
        }
        effectDeps := Some(deps);
      }
    }

    /**
     * The host fires interval timer `h`; a cleared timer never fires. This can
     * happen at any time, also between a handler and the effect run after it,
     * and after unmounting.
     */
    method Tick(h: nat)
      modifies this
      ensures old(Valid()) ==> Valid()
      ensures old(Valid()) ==> Model() == if h in old(intervals) then Ticked(old(Model())) else old(Model())
      ensures dispatched == old(dispatched) + (if h in old(intervals) then 1 else 0)
      ensures autoRefresh == old(autoRefresh) && selectedDelay == old(selectedDelay)
      ensures openOptions == old(openOptions) && intervals == old(intervals) && timer == old(timer)
      ensures nextHandle == old(nextHandle) && effectDeps == old(effectDeps)
    {
      if h in intervals {
        dispatched := dispatched + 1;
      }
    }

    method ToggleOpenOptions()
      requires Valid()
      modifies this
      ensures Valid() && Model() == OptionsToggled(old(Model()))
      ensures openOptions == !old(openOptions)
      ensures autoRefresh == old(autoRefresh) && selectedDelay == old(selectedDelay)
      ensures dispatched == old(dispatched) && intervals == old(intervals) && timer == old(timer)
      ensures nextHandle == old(nextHandle) && effectDeps == old(effectDeps)
    {
      openOptions := !openOptions;
    }

    /** Also what the popup calls on a click outside it. */
    method HandleCloseOptions()
      requires Valid()
      modifies this
      ensures Valid() && Model() == OptionsClosed(old(Model()))
      ensures !openOptions
      ensures autoRefresh == old(autoRefresh) && selectedDelay == old(selectedDelay)
      ensures dispatched == old(dispatched) && intervals == old(intervals) && timer == old(timer)
      ensures nextHandle == old(nextHandle) && effectDeps == old(effectDeps)
    {
      openOptions := false;
    }

    /** Unmount: the cleanup of the last effect run clears its timer; no timer is left armed. */
    method Unmount()
      requires Valid()
      modifies this
      ensures intervals == map[] && timer.None?
      ensures autoRefresh == old(autoRefresh) && selectedDelay == old(selectedDelay)
      ensures openOptions == old(openOptions) && dispatched == old(dispatched)
    {
      if timer.Some? {
        intervals := intervals - {timer.value};
      }
      timer := None;
    }
  }

  /**
   * Off -> "1s" -> "5m" -> "Off" on the component itself, each pick followed
   * by its effect: the periods armed, and that the "1s" timer no longer
   * fires once "5m" is picked.
   */
  method RunSelectionScenario() returns (periods: seq<Option<int>>, staleTickSent: bool, on: seq<bool>)
    ensures periods == [Some(1000), Some(300000), None]
    ensures !staleTickSent
    ensures on == [true, true, false]
  {
    var catalog := DelayOptions();
    var oneSecond, fiveMinutes, off := catalog[1], catalog[7], catalog[0];
    assert oneSecond in catalog && fiveMinutes in catalog && off in catalog;
    assert oneSecond.seconds == 1 && fiveMinutes.seconds == 300 && off.seconds == 0;
    var c := new ExecutionControls();
    c.Reconcile();
    c.HandleChange(oneSecond);
    c.Reconcile();
    var first := c.timer;
    var p1, on1 := c.ArmedPeriod(), c.autoRefresh;
    assert p1 == Some(1000) && on1;
    c.HandleChange(fiveMinutes);
    c.Reconcile();
    var p2, on2 := c.ArmedPeriod(), c.autoRefresh;
    assert p2 == Some(300000) && on2;
    var before := c.dispatched;
    c.Tick(first.value);
    staleTickSent := c.dispatched != before;
    c.HandleChange(off);
    c.Reconcile();
    var p3, on3 := c.ArmedPeriod(), c.autoRefresh;
    periods := [p1, p2, p3];
    on := [on1, on2, on3];
  }

  /**
   * A timer armed for "1s" still fires after "Off" is picked and before the
   * effect run that follows the pick clears it; after that run it sends
   * nothing, and neither does a timer that fires after unmounting.
   */
  method RunStaleTickScenario() returns (onAfterOff: bool, beforeEffect: nat, afterEffect: nat, afterUnmount: nat)
    ensures !onAfterOff
    ensures beforeEffect == 1 && afterEffect == 0 && afterUnmount == 0
  {
    var catalog := DelayOptions();
    var oneSecond, off := catalog[1], catalog[0];
    assert oneSecond in catalog && off in catalog;
    assert oneSecond.seconds == 1 && off.seconds == 0;
    var c := new ExecutionControls();
    c.Reconcile();
    c.HandleChange(oneSecond);
    c.Reconcile();
    assert c.timer.Some?;
    var armed := c.timer.value;
    c.HandleChange(off);
    onAfterOff := c.autoRefresh;
    var sent := c.dispatched;
    c.Tick(armed);
    beforeEffect := c.dispatched - sent;
    c.Reconcile();
    sent := c.dispatched;
    c.Tick(armed);
    afterEffect := c.dispatched - sent;
    c.HandleChange(oneSecond);
    c.Reconcile();
    assert c.timer.Some?;
    armed := c.timer.value;
    c.Unmount();
    sent := c.dispatched;
    c.Tick(armed);
    afterUnmount := c.dispatched - sent;
  }
}
