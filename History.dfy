/**
 * The filter history of the navigation bar: a most-recent-first list of
 * the filter sets the user has applied, at most eight long, without
 * repeats, shown in a menu from which a past set can be applied again.
 *
 * Two filter records, or two filter sets, are the same entry when their
 * JSON serialisations are the same string. For these records (fixed keys
 * in a fixed order, string values, a name that may be absent) the
 * serialisation is injective, so the model compares the values themselves.
 */
module History {
  import opened Wrappers
  import opened Seqs

  /** A filter as the alert store holds it. `name` is absent for fuzzy filters. */
  datatype Filter = Filter(
    raw: string,
    name: Option<string>,
    matcher: string,
    value: string,
    applied: bool,
    isValid: bool)

  /** The part of a filter that is kept in the history. */
  datatype ReducedFilter = ReducedFilter(
    raw: string,
    name: Option<string>,
    matcher: string,
    value: string)

  /** All filters applied at one moment. */
  type FilterSet = seq<ReducedFilter>

  /** The most entries the history keeps. */
  const MaxHistory: nat := 8

  /** The most entries the menu shows: four on a mobile device, eight otherwise. */
  function MaxItems(isMobile: bool): nat {
    if isMobile then 4 else 8
  }

  function ReduceFilter(f: Filter): ReducedFilter {
    ReducedFilter(f.raw, f.name, f.matcher, f.value)
  }

  /**
   * Two filters reduce to the same record exactly when they agree on
   * `raw`, `name`, `matcher` and `value`: the reduction keeps those four
   * unchanged and forgets everything else.
   */
  lemma ReduceFilterKeepsStoredFields(f: Filter, g: Filter)
    ensures ReduceFilter(f) == ReduceFilter(g) <==>
      f.raw == g.raw && f.name == g.name && f.matcher == g.matcher && f.value == g.value
    ensures ReduceFilter(f).raw == f.raw && ReduceFilter(f).name == f.name
    ensures ReduceFilter(f).matcher == f.matcher && ReduceFilter(f).value == f.value
  {
  }

  /** Only applied, valid filters with a non-empty value are recorded. */
  predicate Storable(f: Filter) {
    f.applied && f.isValid && f.value != ""
  }

  /** The filter set offered to the history when the applied filters change. */
  function Candidate(values: seq<Filter>): FilterSet {
    MapSeq(Keep(values, Storable), ReduceFilter)
  }

  /**
   * The candidate holds the reductions of exactly the storable filters,
   * each in its original position order.
   */
  lemma CandidateExact(values: seq<Filter>) returns (idx: seq<nat>)
    ensures |idx| == |Candidate(values)|
    ensures forall k :: 0 <= k < |idx| ==>
      idx[k] < |values| && Candidate(values)[k] == ReduceFilter(values[idx[k]])
    ensures forall k, l :: 0 <= k < l < |idx| ==> idx[k] < idx[l]
    ensures forall j :: 0 <= j < |values| ==> (j in idx <==> Storable(values[j]))
  {
    idx := KeepPositions(values, Storable);
  }

  /** The candidate is empty exactly when no filter is storable. */
  lemma CandidateEmpty(values: seq<Filter>)
    ensures Candidate(values) == [] <==> forall j :: 0 <= j < |values| ==> !Storable(values[j])
  {
    var kept := Keep(values, Storable);
    KeepMembers(values, Storable);
    if Candidate(values) != [] {
      assert kept[0] in values && Storable(kept[0]);
      var j :| 0 <= j < |values| && values[j] == kept[0];
    }
  }

  function Differs(c: FilterSet): FilterSet -> bool {
    e => e != c
  }

  /**
   * The history after recording the non-empty candidate `c` into `h`:
   * `c` first, then every older entry other than `c`, cut at eight.
   */
  function NewHistory(c: FilterSet, h: seq<FilterSet>): (r: seq<FilterSet>)
    ensures 1 <= |r| <= MaxHistory
    ensures r[0] == c
    ensures c !in r[1..]
    ensures forall e :: e in r ==> e == c || e in h
  {
    KeepMembers(h, Differs(c));
    var r := Take([c] + Keep(h, Differs(c)), MaxHistory);
    assert forall i :: 1 <= i < |r| ==> r[i] == Keep(h, Differs(c))[i - 1];
    r
  }

  /** The invariant the history keeps from the empty start. */
  ghost predicate WellFormed(h: seq<FilterSet>) {
    |h| <= MaxHistory && NoDup(h) && forall i :: 0 <= i < |h| ==> h[i] != []
  }

  /** Recording a non-empty candidate preserves the invariant. */
  lemma RecordPreservesWellFormed(c: FilterSet, h: seq<FilterSet>)
    requires c != [] && WellFormed(h)
    ensures WellFormed(NewHistory(c, h))
  {
    var k := Keep(h, Differs(c));
    KeepNoDup(h, Differs(c));
    var full := [c] + k;
    assert NoDup(full) by {
      forall i, j | 0 <= i < j < |full| ensures full[i] != full[j] {
        if i == 0 {
          assert full[j] == k[j - 1];
        } else {
          assert full[i] == k[i - 1] && full[j] == k[j - 1];
        }
      }
    }
    var r := NewHistory(c, h);
    assert r == Take(full, MaxHistory);
    assert r <= full;
    forall i | 0 <= i < |r| ensures r[i] != [] {
      if i > 0 {
        assert r[i] in h;
        var j :| 0 <= j < |h| && h[j] == r[i];
      }
    }
  }

  /**
   * Move to front: when the candidate already sits at position `k` of a
   * repeat-free history, it is taken out there and put first; every other
   * entry keeps its place relative to the rest.
   */
  lemma MoveToFront(c: FilterSet, h: seq<FilterSet>, k: nat)
    requires NoDup(h) && k < |h| && h[k] == c
    ensures NewHistory(c, h) == Take([c] + h[..k] + h[k + 1..], MaxHistory)
  {
    var rest := h[..k] + h[k + 1..];
    KeepRemovesOnly(c, h, k);
    assert NewHistory(c, h) == Take([c] + rest, MaxHistory);
    assert [c] + h[..k] + h[k + 1..] == [c] + rest;
  }

  /** In a repeat-free history, filtering out `c` removes just its one position. */
  lemma KeepRemovesOnly(c: FilterSet, h: seq<FilterSet>, k: nat)
    requires NoDup(h) && k < |h| && h[k] == c
    ensures Keep(h, Differs(c)) == h[..k] + h[k + 1..]
  {
    assert forall j :: 0 <= j < |h| && j != k ==> Differs(c)(h[j]);
    KeepDropsOne(h, k, Differs(c));
  }

  /** A candidate not yet in the history is pushed on top; the oldest entry falls off at nine. */
  lemma InsertFresh(c: FilterSet, h: seq<FilterSet>)
    requires c !in h
    ensures NewHistory(c, h) == Take([c] + h, MaxHistory)
    ensures |h| == MaxHistory ==> NewHistory(c, h) == [c] + h[..MaxHistory - 1]
  {
    assert forall i :: 0 <= i < |h| ==> Differs(c)(h[i]);
    KeepAll(h, Differs(c));
  }

  /**
   * In general (repeats allowed) the older entries that survive are the
   * entries other than `c`, in their old order; an entry other than `c`
   * is lost only when the new history is full, and then only if it comes
   * after every survivor.
   */
  lemma Survivors(c: FilterSet, h: seq<FilterSet>) returns (idx: seq<nat>)
    ensures |idx| == |NewHistory(c, h)| - 1
    ensures forall k :: 0 <= k < |idx| ==>
      idx[k] < |h| && NewHistory(c, h)[k + 1] == h[idx[k]] && h[idx[k]] != c
    ensures forall k, l :: 0 <= k < l < |idx| ==> idx[k] < idx[l]
    ensures forall j :: 0 <= j < |h| && h[j] != c && j !in idx ==>
      |NewHistory(c, h)| == MaxHistory && forall k :: 0 <= k < |idx| ==> idx[k] < j
  {
    var all := KeepPositions(h, Differs(c));
    idx := SurvivorsOf(c, h, all, Keep(h, Differs(c)), NewHistory(c, h));
  }

  /** `Survivors`, for any list of positions that `Keep` is proved to select. */
  lemma SurvivorsOf(c: FilterSet, h: seq<FilterSet>, all: seq<nat>, kept: seq<FilterSet>, r: seq<FilterSet>)
    returns (idx: seq<nat>)
    requires Picks(all, kept, h, Differs(c))
    requires r == Take([c] + kept, MaxHistory)
    ensures |idx| == |r| - 1
    ensures forall k :: 0 <= k < |idx| ==> idx[k] < |h| && r[k + 1] == h[idx[k]] && h[idx[k]] != c
    ensures forall k, l :: 0 <= k < l < |idx| ==> idx[k] < idx[l]
    ensures forall j :: 0 <= j < |h| && h[j] != c && j !in idx ==>
      |r| == MaxHistory && forall k :: 0 <= k < |idx| ==> idx[k] < j
  {
    var n := |r| - 1;
    assert n <= |kept|;
    assert forall k :: 0 <= k < n ==> r[k + 1] == kept[k];
    idx := all[..n];
    PrefixIncreasing(all, n);
    forall k | 0 <= k < n
      ensures idx[k] < |h| && r[k + 1] == h[idx[k]] && h[idx[k]] != c
    {
      assert all[k] in all;
      assert Differs(c)(h[all[k]]);
    }
    forall j | 0 <= j < |h| && h[j] != c && j !in idx
      ensures |r| == MaxHistory && forall k :: 0 <= k < n ==> idx[k] < j
    {
      assert Differs(c)(h[j]);
      var m :| 0 <= m < |all| && all[m] == j;
      assert m >= n;
    }
  }

  /**
   * Recording the set that already heads a history of at most eight
   * entries, with no other copy of it, gives the same history back: the
   * store is not written.
   */
  lemma RecordAtHead(c: FilterSet, h: seq<FilterSet>)
    requires |h| <= MaxHistory && h != [] && h[0] == c && c !in h[1..]
    ensures NewHistory(c, h) == h
  {
    assert h == [c] + h[1..];
    KeepAppend([c], h[1..], Differs(c));
    assert Keep([c], Differs(c)) == [];
    assert forall i :: 0 <= i < |h[1..]| ==> Differs(c)(h[1..][i]);
    KeepAll(h[1..], Differs(c));
  }

  /** Recording the same candidate twice in a row is the same as recording it once. */
  lemma RecordIdempotent(c: FilterSet, h: seq<FilterSet>)
    ensures NewHistory(c, NewHistory(c, h)) == NewHistory(c, h)
  {
    RecordAtHead(c, NewHistory(c, h));
  }

  /**
   * The history store. Its one field is the list persisted under the
   * `filters` key of local storage.
   */
  class HistoryStorage {
    var filters: seq<FilterSet>

    /** A store that starts empty, as on first use. */
    constructor ()
      ensures filters == []
    {
      filters := [];
    }

    method SetFilters(newFilters: seq<FilterSet>)
      modifies this
      ensures filters == newFilters
    {
      filters := newFilters;
    }

    /**
     * Reacts to a change of the applied filters `values`. An empty
     * candidate changes nothing. Otherwise the new history is computed and
     * stored, but only if it differs from the stored one; `written` says
     * whether the store was written.
     */
    method Record(values: seq<Filter>) returns (written: bool)
      modifies this
      ensures Candidate(values) == [] ==> filters == old(filters)
      ensures Candidate(values) != [] ==> filters == NewHistory(Candidate(values), old(filters))
      ensures written <==> filters != old(filters)
      ensures Candidate(values) != [] ==> |filters| <= MaxHistory && filters[0] == Candidate(values)
      ensures WellFormed(old(filters)) ==> WellFormed(filters)
    {
      var validAppliedFilters := Candidate(values);
      if |validAppliedFilters| == 0 {
        return false;
      }
      var newHistory := NewHistory(validAppliedFilters, filters);
      if WellFormed(filters) {
        RecordPreservesWellFormed(validAppliedFilters, filters);
      }
      written := newHistory != filters;
      if written {
        SetFilters(newHistory);
      }
    }

    /** "Clear history": the store becomes empty whatever it held. */
    method Clear()
      modifies this
      ensures filters == []
      ensures WellFormed(filters)
    {
      SetFilters([]);
    }

    /** The entries the menu lists: the first four (mobile) or eight. */
    function Displayed(isMobile: bool): (r: seq<FilterSet>)
      reads this
      ensures r <= filters
      ensures |r| == MaxItems(isMobile) || r == filters
      ensures |r| <= MaxItems(isMobile)
      ensures r == [] <==> filters == []
    {
      Take(filters, MaxItems(isMobile))
    }

    /**
     * Choosing the listed entry `index` hands the raw text of each of its
     * filters, in order, back to the filter input, which parses them again.
     */
    method Reapply(isMobile: bool, index: nat) returns (raws: seq<string>)
      requires index < |Displayed(isMobile)|
      ensures |raws| == |filters[index]|
      ensures forall i :: 0 <= i < |raws| ==> raws[i] == filters[index][i].raw
    {
      var historyFilters := Displayed(isMobile)[index];
      raws := MapSeq(historyFilters, (f: ReducedFilter) => f.raw);
    }
  }

  /**
   * Applying a=1, then b=2, then a=1 again leaves a=1 on top and b=2
   * below it.
   */
  lemma ScenarioReuse()
    ensures var a := [ReducedFilter("a=1", Some("a"), "=", "1")];
            var b := [ReducedFilter("b=2", Some("b"), "=", "2")];
            NewHistory(a, NewHistory(b, NewHistory(a, []))) == [a, b]
  {
    var a := [ReducedFilter("a=1", Some("a"), "=", "1")];
    var b := [ReducedFilter("b=2", Some("b"), "=", "2")];
    InsertFresh(a, []);
    assert a != b;
    InsertFresh(b, [a]);
    MoveToFront(a, [b, a], 1);
  }
}
