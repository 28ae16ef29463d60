/**
 * The auto-refresh interval catalog of the execution controls: a fixed,
 * ordered table of (seconds, title) pairs whose first entry switches
 * auto-refresh off.
 */
module DelayCatalog {

  datatype Option<T> = None | Some(value: T)

  /** One entry of the interval menu. A zero `seconds` means "auto-refresh off". */
  datatype AutoRefreshOption = AutoRefreshOption(seconds: int, title: string)

  /** The interval menu, in display order. */
  function DelayOptions(): seq<AutoRefreshOption>
  {
    [ AutoRefreshOption(0, "Off"),
      AutoRefreshOption(1, "1s"),
      AutoRefreshOption(2, "2s"),
      AutoRefreshOption(5, "5s"),
      AutoRefreshOption(10, "10s"),
      AutoRefreshOption(30, "30s"),
      AutoRefreshOption(60, "1m"),
      AutoRefreshOption(300, "5m"),
      AutoRefreshOption(900, "15m"),
      AutoRefreshOption(1800, "30m"),
      AutoRefreshOption(3600, "1h"),
      AutoRefreshOption(7200, "2h") ]
  }

  /** The "Off" entry the component starts with and falls back to; `CatalogShape` shows it is entry 0. */
  function Off(): AutoRefreshOption
  {
    AutoRefreshOption(0, "Off")
  }

  /** Each entry has more seconds than the one before it. */
  ghost predicate IncreasingSeconds(opts: seq<AutoRefreshOption>)
  {
    forall i :: 0 < i < |opts| ==> opts[i - 1].seconds < opts[i].seconds
  }

  /** No two entries share their `seconds`, which the menu uses as the list key. */
  ghost predicate DistinctSeconds(opts: seq<AutoRefreshOption>)
  {
    forall i, j :: 0 <= i < j < |opts| ==> opts[i].seconds != opts[j].seconds
  }

  /** Shape of the catalog: "Off" with 0 seconds first, then positive, strictly increasing intervals. */
  lemma CatalogShape()
    ensures |DelayOptions()| == 12
    ensures DelayOptions()[0] == Off()
    ensures forall i :: 0 < i < |DelayOptions()| ==> DelayOptions()[i].seconds > 0
    ensures IncreasingSeconds(DelayOptions())
  {
  }

  /** Increasing neighbours make the whole sequence strictly increasing. */
  lemma {:induction false} IncreasingIsSorted(opts: seq<AutoRefreshOption>)
    requires IncreasingSeconds(opts)
    ensures forall i, j :: 0 <= i < j < |opts| ==> opts[i].seconds < opts[j].seconds
  {
    if |opts| > 1 {
      var init := opts[..|opts| - 1];
      assert IncreasingSeconds(init) by {
        forall i | 0 < i < |init| ensures init[i - 1].seconds < init[i].seconds {
          assert init[i - 1] == opts[i - 1] && init[i] == opts[i];
        }
      }
      IncreasingIsSorted(init);
      forall i, j | 0 <= i < j < |opts| ensures opts[i].seconds < opts[j].seconds {
        if j < |opts| - 1 {
          assert init[i] == opts[i] && init[j] == opts[j];
        } else if i < j - 1 {
          assert init[i] == opts[i] && init[j - 1] == opts[j - 1];
        }
      }
    }
  }

  /** The catalog's seconds are pairwise distinct, so they identify the entries. */
  lemma CatalogSecondsDistinct()
    ensures DistinctSeconds(DelayOptions())
    ensures forall d, e :: d in DelayOptions() && e in DelayOptions() && d.seconds == e.seconds ==> d == e
  {
    CatalogShape();
    IncreasingIsSorted(DelayOptions());
  }

  /** Every catalog entry is non-negative, and "Off" is the only one with zero seconds. */
  lemma CatalogZeroIsOff(d: AutoRefreshOption)
    requires d in DelayOptions()
    ensures d.seconds >= 0
    ensures d.seconds == 0 <==> d == Off()
  {
    CatalogShape();
  }
}
