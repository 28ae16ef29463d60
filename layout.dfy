/**
 * The render rules of the execution controls that carry behaviour: the
 * responsive width threshold and which menu entry is marked active.
 */
module Layout {
  import opened DelayCatalog

  /** Widths at or below this many layout units get the short layout. */
  const ShortWidth: int := 360

  /** The immediate-refresh button is rendered. */
  predicate RefreshButtonShown(width: int)
  {
    width > ShortWidth
  }

  /** The "short" class is put on the button group. */
  predicate ShortLayout(width: int)
  {
    width <= ShortWidth
  }

  /** For every width exactly one of the two holds: the short layout is the one without the refresh button. */
  lemma ShortLayoutHidesRefresh(width: int)
    ensures RefreshButtonShown(width) <==> !ShortLayout(width)
    ensures RefreshButtonShown(width) <==> width > 360
  {
  }

  /** The "active" mark of each menu entry, in menu order: its seconds equal the selection's. */
  function ActiveMarks(opts: seq<AutoRefreshOption>, selected: AutoRefreshOption): (marks: seq<bool>)
    ensures |marks| == |opts|
    ensures forall i :: 0 <= i < |opts| ==> (marks[i] <==> opts[i].seconds == selected.seconds)
  {
    if opts == [] then []
    else [opts[0].seconds == selected.seconds] + ActiveMarks(opts[1..], selected)
  }

  /** The number of marks that are set. */
  function CountSet(marks: seq<bool>): (n: nat)
  {
    if marks == [] then 0
    else (if marks[0] then 1 else 0) + CountSet(marks[1..])
  }

  /** Some entry has the selection's seconds. */
  ghost predicate HasMatch(opts: seq<AutoRefreshOption>, selected: AutoRefreshOption)
  {
    exists i :: 0 <= i < |opts| && opts[i].seconds == selected.seconds
  }

  lemma DistinctTail(opts: seq<AutoRefreshOption>)
    requires opts != [] && DistinctSeconds(opts)
    ensures DistinctSeconds(opts[1..])
    ensures forall i :: 0 <= i < |opts[1..]| ==> opts[1..][i].seconds != opts[0].seconds
  {
    var rest := opts[1..];
    forall i | 0 <= i < |rest| ensures rest[i] == opts[i + 1] {
    }
  }

  /** With no entry having the selection's seconds, no entry is active. */
  lemma {:induction false} NoneActive(opts: seq<AutoRefreshOption>, selected: AutoRefreshOption)
    requires !HasMatch(opts, selected)
    ensures CountSet(ActiveMarks(opts, selected)) == 0
  {
    if opts != [] {
      var rest := opts[1..];
      assert !HasMatch(rest, selected) by {
        forall i | 0 <= i < |rest| ensures rest[i].seconds != selected.seconds {
          assert rest[i] == opts[i + 1];
        }
      }
      NoneActive(rest, selected);
      assert ActiveMarks(opts, selected)[1..] == ActiveMarks(rest, selected);
    }
  }

  /**
   * With distinct seconds, exactly one entry is active when some entry has the
   * selection's seconds, and none otherwise.
   */
  lemma {:induction false} AtMostOneActive(opts: seq<AutoRefreshOption>, selected: AutoRefreshOption)
    requires DistinctSeconds(opts)
    ensures CountSet(ActiveMarks(opts, selected)) == if HasMatch(opts, selected) then 1 else 0
  {
    if opts != [] {
      var rest := opts[1..];
      DistinctTail(opts);
      assert ActiveMarks(opts, selected)[1..] == ActiveMarks(rest, selected);
      if opts[0].seconds == selected.seconds {
        assert !HasMatch(rest, selected);
        NoneActive(rest, selected);
        assert HasMatch(opts, selected) by { assert opts[0].seconds == selected.seconds; }
      } else {
        AtMostOneActive(rest, selected);
        if HasMatch(opts, selected) {
          var i :| 0 <= i < |opts| && opts[i].seconds == selected.seconds;
          assert rest[i - 1] == opts[i];
        }
        if HasMatch(rest, selected) {
          var i :| 0 <= i < |rest| && rest[i].seconds == selected.seconds;
          assert opts[i + 1] == rest[i];
        }
      }
    }
  }

  /** When the selection is one of the entries, the entry marked active is exactly that one. */
  lemma ActiveEntryIsSelection(opts: seq<AutoRefreshOption>, selected: AutoRefreshOption)
    requires DistinctSeconds(opts)
    requires selected in opts
    ensures CountSet(ActiveMarks(opts, selected)) == 1
    ensures forall i :: 0 <= i < |opts| ==> (ActiveMarks(opts, selected)[i] <==> opts[i] == selected)
  {
    var k :| 0 <= k < |opts| && opts[k] == selected;
    assert HasMatch(opts, selected) by { assert opts[k].seconds == selected.seconds; }
    AtMostOneActive(opts, selected);
  }

  /** In the real menu exactly one entry, the selected one, is marked active. */
  lemma CatalogActiveEntry(selected: AutoRefreshOption)
    requires selected in DelayOptions()
    ensures CountSet(ActiveMarks(DelayOptions(), selected)) == 1
    ensures forall i :: 0 <= i < |DelayOptions()| ==>
      (ActiveMarks(DelayOptions(), selected)[i] <==> DelayOptions()[i] == selected)
  {
    CatalogSecondsDistinct();
    ActiveEntryIsSelection(DelayOptions(), selected);
  }
}
