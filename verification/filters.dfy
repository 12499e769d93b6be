/** The sidebar: the client selector's options, the default power bounds, and the filter that
    narrows the joined table by client and by power range. */
module Filters {
  import opened Wrappers
  import opened Sites
  import opened Collections

  function ClientNames(views: seq<SiteView>): seq<string>
  {
    seq(|views|, i requires 0 <= i < |views| => views[i].clientName)
  }

  /** `["Tous"] + sorted(unique(client_name))`. */
  function ClientOptions(views: seq<SiteView>): seq<string>
  {
    [AllClients] + SortedDistinct(ClientNames(views))
  }

  /** The selector starts with "Tous", then lists every client name of the table exactly once,
      in ascending order. */
  lemma ClientOptionsSpec(views: seq<SiteView>)
    ensures |ClientOptions(views)| >= 1 && ClientOptions(views)[0] == AllClients
    ensures StrictlySorted(ClientOptions(views)[1..])
    ensures forall n :: n in ClientOptions(views)[1..] <==> exists i :: 0 <= i < |views| && views[i].clientName == n
    ensures forall i, j :: 1 <= i < j < |ClientOptions(views)| ==> ClientOptions(views)[i] != ClientOptions(views)[j]
  {
    var names := ClientNames(views);
    var tail := ClientOptions(views)[1..];
    assert tail == SortedDistinct(names);
    SortedDistinctSpec(names);
    forall n ensures n in tail <==> exists i :: 0 <= i < |views| && views[i].clientName == n {
      if n in names {
        var i :| 0 <= i < |names| && names[i] == n;
        assert views[i].clientName == n;
      }
      if exists i :: 0 <= i < |views| && views[i].clientName == n {
        var i :| 0 <= i < |views| && views[i].clientName == n;
        assert names[i] == n;
      }
    }
    forall i, j | 1 <= i < j < |ClientOptions(views)| ensures ClientOptions(views)[i] != ClientOptions(views)[j] {
      StrictlySortedDistinct(tail, i - 1, j - 1);
    }
  }

  /** `m` is the largest power present in the table. */
  ghost predicate IsMaxPower(views: seq<SiteView>, m: int)
  {
    && (exists i :: 0 <= i < |views| && views[i].site.nominalPower == Some(m))
    && (forall i :: 0 <= i < |views| && views[i].site.nominalPower.Some? ==> views[i].site.nominalPower.value <= m)
  }

  /** `max()` of the power column, skipping missing values. */
  function MaxPresentPower(views: seq<SiteView>): (r: Option<int>)
    ensures r.None? <==> forall i :: 0 <= i < |views| ==> views[i].site.nominalPower.None?
    ensures r.Some? ==> IsMaxPower(views, r.value)
  {
    if views == [] then None
    else
      var front := views[..|views| - 1];
      var last := views[|views| - 1].site.nominalPower;
      assert forall i :: 0 <= i < |front| ==> front[i] == views[i];
      match (MaxPresentPower(front), last)
      case (None, _) => last
      case (Some(m), None) => Some(m)
      case (Some(m), Some(p)) => Some(if p > m then p else m)
  }

  /** Upper bound used when the power column's maximum is 0. */
  const PowerCapFallback: int := 10000

  /** The initial upper power bound: `max() or 10000`. */
  function DefaultMaxPower(views: seq<SiteView>): (r: int)
    requires exists i :: 0 <= i < |views| && views[i].site.nominalPower.Some?
    ensures IsMaxPower(views, 0) ==> r == PowerCapFallback
    ensures !IsMaxPower(views, 0) ==> IsMaxPower(views, r)
  {
    var m := MaxPresentPower(views).value;
    if m == 0 then PowerCapFallback else m
  }

  predicate ClientMatches(v: SiteView, selector: string)
  {
    selector == AllClients || v.clientName == selector
  }

  predicate PowerInRange(v: SiteView, lo: int, hi: int)
  {
    lo <= EffectivePower(v.site.nominalPower) <= hi
  }

  /** The two sidebar conditions, combined with AND. */
  predicate Selected(v: SiteView, selector: string, lo: int, hi: int)
  {
    ClientMatches(v, selector) && PowerInRange(v, lo, hi)
  }

  /** The rows that satisfy both conditions, in table order. */
  function Filtered(views: seq<SiteView>, selector: string, lo: int, hi: int): seq<SiteView>
  {
    if views == [] then []
    else
      var last := views[|views| - 1];
      Filtered(views[..|views| - 1], selector, lo, hi) + (if Selected(last, selector, lo, hi) then [last] else [])
  }

  /** The positions of the rows `Filtered` keeps, in increasing order. */
  function KeptIndices(views: seq<SiteView>, selector: string, lo: int, hi: int): seq<int>
  {
    if views == [] then []
    else
      var n := |views| - 1;
      KeptIndices(views[..n], selector, lo, hi) + (if Selected(views[n], selector, lo, hi) then [n] else [])
  }

  /** The filtered table is the input restricted to the positions of the selected rows: same
      rows, same relative order, no row added and every selected row kept. */
  lemma {:induction false} FilteredIsSelection(views: seq<SiteView>, selector: string, lo: int, hi: int)
    ensures |KeptIndices(views, selector, lo, hi)| == |Filtered(views, selector, lo, hi)|
    ensures forall k :: 0 <= k < |KeptIndices(views, selector, lo, hi)| ==>
      0 <= KeptIndices(views, selector, lo, hi)[k] < |views| &&
      Filtered(views, selector, lo, hi)[k] == views[KeptIndices(views, selector, lo, hi)[k]]
    ensures forall k, l :: 0 <= k < l < |KeptIndices(views, selector, lo, hi)| ==>
      KeptIndices(views, selector, lo, hi)[k] < KeptIndices(views, selector, lo, hi)[l]
    ensures forall i :: 0 <= i < |views| ==> (i in KeptIndices(views, selector, lo, hi) <==> Selected(views[i], selector, lo, hi))
  {
    if views != [] {
      var n := |views| - 1;
      var front := views[..n];
      FilteredIsSelection(front, selector, lo, hi);
      assert forall i :: 0 <= i < n ==> front[i] == views[i];
    }
  }

  /** A row appears in the filtered table iff it is a row of the table and satisfies both the
      client condition and the power range. */
  lemma {:induction false} FilteredMembership(views: seq<SiteView>, selector: string, lo: int, hi: int, v: SiteView)
    ensures v in Filtered(views, selector, lo, hi) <==>
      v in views && (selector == AllClients || v.clientName == selector) &&
      lo <= EffectivePower(v.site.nominalPower) <= hi
  {
    if views != [] {
      var front := views[..|views| - 1];
      FilteredMembership(front, selector, lo, hi, v);
      assert views == front + [views[|views| - 1]];
    }
  }

  /** An inverted power range selects nothing. */
  lemma {:induction false} FilteredEmptyRange(views: seq<SiteView>, selector: string, lo: int, hi: int)
    requires lo > hi
    ensures Filtered(views, selector, lo, hi) == []
  {
    if views != [] {
      FilteredEmptyRange(views[..|views| - 1], selector, lo, hi);
    }
  }

  /** A site without power is kept exactly when 0 lies in the range and its client matches. */
  lemma FilteredMissingPower(views: seq<SiteView>, selector: string, lo: int, hi: int, i: int)
    requires 0 <= i < |views| && views[i].site.nominalPower.None?
    ensures i in KeptIndices(views, selector, lo, hi) <==>
      lo <= 0 <= hi && (selector == AllClients || views[i].clientName == selector)
  {
    FilteredIsSelection(views, selector, lo, hi);
  }

  /** When every row satisfies both conditions the filter returns the whole table. */
  lemma {:induction false} FilteredAll(views: seq<SiteView>, selector: string, lo: int, hi: int)
    requires forall i :: 0 <= i < |views| ==> Selected(views[i], selector, lo, hi)
    ensures Filtered(views, selector, lo, hi) == views
  {
    if views != [] {
      var front := views[..|views| - 1];
      assert forall i :: 0 <= i < |front| ==> front[i] == views[i];
      FilteredAll(front, selector, lo, hi);
    }
  }

  /** With the initial sidebar values ("Tous", 0 and the default maximum), every site with a
      present, non-negative power is shown, whatever the other sites' powers are. */
  lemma DefaultFiltersKeepSite(views: seq<SiteView>, i: int)
    requires exists j :: 0 <= j < |views| && views[j].site.nominalPower.Some?
    requires 0 <= i < |views| && views[i].site.nominalPower.Some? && views[i].site.nominalPower.value >= 0
    ensures Selected(views[i], AllClients, 0, DefaultMaxPower(views))
    ensures i in KeptIndices(views, AllClients, 0, DefaultMaxPower(views))
    ensures views[i] in Filtered(views, AllClients, 0, DefaultMaxPower(views))
  {
    var hi := DefaultMaxPower(views);
    var v := views[i];
    assert Selected(v, AllClients, 0, hi) by {
      if !IsMaxPower(views, 0) {
        assert IsMaxPower(views, hi);
      }
    }
    assert i in KeptIndices(views, AllClients, 0, hi) by {
      FilteredIsSelection(views, AllClients, 0, hi);
    }
    assert v in Filtered(views, AllClients, 0, hi) by {
      assert v in views;
      FilteredMembership(views, AllClients, 0, hi, v);
    }
  }

  /** With the initial sidebar values and no negative power, the whole table is shown. */
  lemma DefaultFiltersKeepAll(views: seq<SiteView>)
    requires exists i :: 0 <= i < |views| && views[i].site.nominalPower.Some?
    requires forall i :: 0 <= i < |views| && views[i].site.nominalPower.Some? ==> views[i].site.nominalPower.value >= 0
    ensures Filtered(views, AllClients, 0, DefaultMaxPower(views)) == views
  {
    var hi := DefaultMaxPower(views);
    forall i | 0 <= i < |views| ensures Selected(views[i], AllClients, 0, hi) {
      if views[i].site.nominalPower.Some? {
        DefaultFiltersKeepSite(views, i);
      } else if !IsMaxPower(views, 0) {
        var j :| 0 <= j < |views| && views[j].site.nominalPower.Some?;
        assert IsMaxPower(views, hi);
      }
    }
    FilteredAll(views, AllClients, 0, hi);
  }

  /** First step of the sidebar filter: rows of the chosen client. */
  function ByClient(views: seq<SiteView>, selector: string): seq<SiteView>
  {
    if views == [] then []
    else
      var last := views[|views| - 1];
      ByClient(views[..|views| - 1], selector) + (if last.clientName == selector then [last] else [])
  }

  /** Second step of the sidebar filter: rows whose power, 0 when missing, is in range. */
  function ByPower(views: seq<SiteView>, lo: int, hi: int): seq<SiteView>
  {
    if views == [] then []
    else
      var last := views[|views| - 1];
      ByPower(views[..|views| - 1], lo, hi) + (if PowerInRange(last, lo, hi) then [last] else [])
  }

  lemma {:induction false} ByPowerAppend(a: seq<SiteView>, b: seq<SiteView>, lo: int, hi: int)
    ensures ByPower(a + b, lo, hi) == ByPower(a, lo, hi) + ByPower(b, lo, hi)
  {
    if b != [] {
      var front := b[..|b| - 1];
      ByPowerAppend(a, front, lo, hi);
      assert (a + b)[..|a + b| - 1] == a + front;
    } else {
      assert a + b == a;
    }
  }

  /** With "Tous" only the power step runs, and it is the AND-filter. */
  lemma {:induction false} PowerStepAlone(views: seq<SiteView>, lo: int, hi: int)
    ensures ByPower(views, lo, hi) == Filtered(views, AllClients, lo, hi)
  {
    if views != [] {
      PowerStepAlone(views[..|views| - 1], lo, hi);
    }
  }

  /** Otherwise the client step then the power step is the AND-filter. */
  lemma {:induction false} ClientThenPowerStep(views: seq<SiteView>, selector: string, lo: int, hi: int)
    requires selector != AllClients
    ensures ByPower(ByClient(views, selector), lo, hi) == Filtered(views, selector, lo, hi)
  {
    if views != [] {
      var front := views[..|views| - 1];
      var last := views[|views| - 1];
      ClientThenPowerStep(front, selector, lo, hi);
      var tail := if last.clientName == selector then [last] else [];
      assert ByClient(views, selector) == ByClient(front, selector) + tail;
      ByPowerAppend(ByClient(front, selector), tail, lo, hi);
      assert ByPower(tail, lo, hi) == (if Selected(last, selector, lo, hi) then [last] else []) by {
        assert [last][..0] == [];
      }
    }
  }

  /** Running the two steps one after the other, the client step skipped for "Tous", is the
      single AND-filter. */
  lemma TwoStepFilter(views: seq<SiteView>, selector: string, lo: int, hi: int)
    ensures ByPower(if selector == AllClients then views else ByClient(views, selector), lo, hi)
      == Filtered(views, selector, lo, hi)
  {
    if selector == AllClients {
      PowerStepAlone(views, lo, hi);
    } else {
      ClientThenPowerStep(views, selector, lo, hi);
    }
  }

  /** The sidebar filter as the page runs it: a copy of the table, narrowed to the chosen
      client unless "Tous" is selected, then narrowed to the power range. */
  method FilterSites(views: seq<SiteView>, selector: string, lo: int, hi: int) returns (shown: seq<SiteView>)
    ensures shown == Filtered(views, selector, lo, hi)
  {
    var current := views;
    if selector != AllClients {
      var kept: seq<SiteView> := [];
      for i := 0 to |views|
        invariant kept == ByClient(views[..i], selector)
      {
        assert views[..i + 1][..i] == views[..i];
        if views[i].clientName == selector {
          kept := kept + [views[i]];
        }
      }
      assert views[..|views|] == views;
      current := kept;
    }
    shown := [];
    for i := 0 to |current|
      invariant shown == ByPower(current[..i], lo, hi)
    {
      assert current[..i + 1][..i] == current[..i];
      if PowerInRange(current[i], lo, hi) {
        shown := shown + [current[i]];
      }
    }
    assert current[..|current|] == current;
    TwoStepFilter(views, selector, lo, hi);
  }
}
