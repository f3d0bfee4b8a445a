/**
 * filter_df: the rows of the loaded table that start on or after the start
 * date, end on or before the end date and belong to the selected area or
 * equipment unit, in their original order.
 */
module Filter {
  import opened Wrappers
  import opened Calendar
  import opened Sequences
  import opened WorkOrders
  import opened Scope

  /** The selector's column exists; pandas raises KeyError on a missing one. */
  predicate ScopeColumnPresent(t: Table, s: Selector)
  {
    match s
    case WholePlant => true
    case InArea(_) => HasArea(t)
    case OfEquipment(_) => HasEquipment(t)
  }

  /** The reference definition: a row is kept when it meets every active constraint. */
  predicate Keep(r: WorkOrder, startDate: Option<Date>, endDate: Option<Date>, s: Selector)
  {
    && (startDate.Some? ==> !DateBefore(r.start.date, startDate.value))
    && (endDate.Some? ==> !DateBefore(endDate.value, r.end.date))
    && match s
       case WholePlant => true
       case InArea(a) => r.area == Some(a)
       case OfEquipment(e) => r.equipment == Some(e)
  }

  function Kept(startDate: Option<Date>, endDate: Option<Date>, s: Selector): WorkOrder -> bool
  {
    (r: WorkOrder) => Keep(r, startDate, endDate, s)
  }

  /** The mask `start_datetime.dt.date >= start_date`, or no mask without a start date. */
  function StartBound(startDate: Option<Date>): WorkOrder -> bool
  {
    (r: WorkOrder) => startDate.None? || !DateBefore(r.start.date, startDate.value)
  }

  /** The mask `end_datetime.dt.date <= end_date`, or no mask without an end date. */
  function EndBound(endDate: Option<Date>): WorkOrder -> bool
  {
    (r: WorkOrder) => endDate.None? || !DateBefore(endDate.value, r.end.date)
  }

  /** The mask `area == name` or `equipment == id`, or no mask for the whole plant. */
  function ScopeBound(s: Selector): WorkOrder -> bool
  {
    (r: WorkOrder) => match s
         case WholePlant => true
         case InArea(a) => r.area == Some(a)
         case OfEquipment(e) => r.equipment == Some(e)
  }

  /** One optional step of the chain: the mask is applied only when its control is set. */
  function Step(t: Table, active: bool, mask: WorkOrder -> bool): (r: Table)
    requires !active ==> forall x :: mask(x)
    ensures r == Where(t, mask)
  {
    if active then Where(t, mask)
    else
      WhereKeepsAll(t, mask);
      t
  }

  /** Three masks applied one after another select what the single conjunction selects. */
  lemma ChainIsConjunction(t: Table, startDate: Option<Date>, endDate: Option<Date>, s: Selector)
    ensures Where(Where(Where(t, StartBound(startDate)), EndBound(endDate)), ScopeBound(s))
         == Where(t, Kept(startDate, endDate, s))
  {
    var dates := (r: WorkOrder) => StartBound(startDate)(r) && EndBound(endDate)(r);
    WhereThenWhere(t, StartBound(startDate), EndBound(endDate), dates);
    WhereThenWhere(t, dates, ScopeBound(s), Kept(startDate, endDate, s));
  }

  function FilterDf(dff: Option<Table>, startDate: Option<Date>, endDate: Option<Date>, scopeValue: Option<string>): (r: Table)
    requires dff.Some? ==> ScopeColumnPresent(dff.value, Decode(scopeValue))
    ensures dff.None? || dff.value == [] ==> r == []
    ensures dff.Some? ==> r == Where(dff.value, Kept(startDate, endDate, Decode(scopeValue)))
    ensures dff.Some? ==> IsSubsequence(r, dff.value)
    ensures dff.Some? ==> forall x :: x in r <==> x in dff.value && Keep(x, startDate, endDate, Decode(scopeValue))
  {
    if dff.None? || dff.value == [] then []
    else
      var t := dff.value;
      var scope := Decode(scopeValue);
      var byStart := Step(t, startDate.Some?, StartBound(startDate));
      var byEnd := Step(byStart, endDate.Some?, EndBound(endDate));
      var byScope := Step(byEnd, !scope.WholePlant?, ScopeBound(scope));
      ChainIsConjunction(t, startDate, endDate, scope);
      WhereIsSubsequence(t, Kept(startDate, endDate, scope));
      byScope
  }

  /** The filter keeps every row that passes as many times as it occurs, and drops the others. */
  lemma FilterKeepsRepeats(t: Table, startDate: Option<Date>, endDate: Option<Date>, scopeValue: Option<string>)
    requires ScopeColumnPresent(t, Decode(scopeValue))
    ensures forall x :: multiset(FilterDf(Some(t), startDate, endDate, scopeValue))[x] ==
                        if Keep(x, startDate, endDate, Decode(scopeValue)) then multiset(t)[x] else 0
  {
    WhereCounts(t, Kept(startDate, endDate, Decode(scopeValue)));
  }

  /** Rows selected from a table with a column still have that column. */
  lemma {:induction false} SelectionKeepsScopeColumn(t: Table, r: Table, s: Selector)
    requires ScopeColumnPresent(t, s)
    requires forall x :: x in r ==> x in t
    ensures ScopeColumnPresent(r, s)
  {
    forall i | 0 <= i < |r| ensures r[i] in t {
    }
  }

  /** Filtering the filtered table again with the same controls changes nothing. */
  lemma {:induction false} FilterIsIdempotent(t: Table, startDate: Option<Date>, endDate: Option<Date>, scopeValue: Option<string>)
    requires ScopeColumnPresent(t, Decode(scopeValue))
    ensures ScopeColumnPresent(FilterDf(Some(t), startDate, endDate, scopeValue), Decode(scopeValue))
    ensures FilterDf(Some(FilterDf(Some(t), startDate, endDate, scopeValue)), startDate, endDate, scopeValue)
         == FilterDf(Some(t), startDate, endDate, scopeValue)
  {
    var r := FilterDf(Some(t), startDate, endDate, scopeValue);
    SelectionKeepsScopeColumn(t, r, Decode(scopeValue));
    WhereIdempotent(t, Kept(startDate, endDate, Decode(scopeValue)));
  }

  /** Selecting the scope first and the dates afterwards gives the same rows as the combined filter. */
  lemma {:induction false} ScopeThenDates(t: Table, startDate: Option<Date>, endDate: Option<Date>, scopeValue: Option<string>)
    requires ScopeColumnPresent(t, Decode(scopeValue))
    ensures FilterDf(Some(FilterDf(Some(t), None, None, scopeValue)), startDate, endDate, None)
         == FilterDf(Some(t), startDate, endDate, scopeValue)
  {
    var s := Decode(scopeValue);
    WhereThenWhere(t, Kept(None, None, s), Kept(startDate, endDate, WholePlant), Kept(startDate, endDate, s));
  }

  /** Two successive optional mask steps can be swapped, so the masks may be applied in any order. */
  lemma StepsCommute(t: Table, a: bool, p: WorkOrder -> bool, b: bool, q: WorkOrder -> bool)
    requires !a ==> forall x :: p(x)
    requires !b ==> forall x :: q(x)
    ensures Step(Step(t, a, p), b, q) == Step(Step(t, b, q), a, p)
  {
    WhereCommutes(t, p, q);
  }

  /** Without date bounds, a whole-plant value ("ALL", empty, missing or unprefixed) keeps every row. */
  lemma {:induction false} WholePlantKeepsEverything(t: Table, scopeValue: Option<string>)
    requires Decode(scopeValue).WholePlant?
    ensures FilterDf(Some(t), None, None, scopeValue) == t
  {
    WhereKeepsAll(t, Kept(None, None, WholePlant));
  }
}
