/** The dashboard component's state and the events that change it: the
    parser's completion and error callbacks, the supplier menu, and the
    summary effect that runs whenever the data or the selection changes. */
module Dashboard {
  import opened Wrappers
  import opened JsValues
  import opened RowValidator
  import opened SupplierList
  import opened RfmAnalysis

  /** The four pieces of component state, with the host built-ins they are
      computed with. */
  class App {
    const host: Host
    var data: seq<Row>
    var loading: bool
    var selectedSupplier: Value
    var rfmAnalysis: Option<Summary>
    /** The clock reading the summary effect last ran with. */
    ghost var clock: int

    /** The data holds only validated rows, there is none while loading, and
        the summary is the summary effect's result for the current data and
        selection. */
    ghost predicate Valid()
      reads this
    {
      && AllKept(host, data)
      && (loading ==> data == [])
      && rfmAnalysis == Calculate(host, data, selectedSupplier, clock)
    }

    /** The initial state: no data, loading, every supplier selected, no summary. */
    constructor (host: Host)
      ensures Valid()
      ensures this.host == host && data == [] && loading
      ensures selectedSupplier == AllSuppliers && rfmAnalysis == None
    {
      this.host := host;
      data := [];
      loading := true;
      selectedSupplier := AllSuppliers;
      rfmAnalysis := None;
      clock := 0;
    }

    /** The summary effect: `calculateRFM` with the clock reading `now`. */
    method Recalculate(now: int)
      requires AllKept(host, data) && (loading ==> data == [])
      modifies this`rfmAnalysis, this`clock
      ensures Valid()
      ensures rfmAnalysis == Calculate(host, data, selectedSupplier, now) && clock == now
    {
      rfmAnalysis := Calculate(host, data, selectedSupplier, now);
      clock := now;
    }

    /** The parser's `complete` callback with the parsed rows, followed by the
        summary effect the new data triggers. */
    method Complete(rows: seq<Row>, now: int)
      requires Valid()
      modifies this
      ensures Valid()
      ensures data == Validate(host, rows) && !loading
      ensures selectedSupplier == old(selectedSupplier)
      ensures rfmAnalysis == Calculate(host, data, selectedSupplier, now)
    {
      data := Validate(host, rows);
      loading := false;
      Recalculate(now);
    }

    /** The parser's `error` callback, and the `catch` around the fetch: loading
        stops and nothing else changes. */
    method Fail()
      requires Valid()
      modifies this`loading
      ensures Valid() && !loading
    {
      loading := false;
    }

    /** The menu's `onChange`. A different value re-runs the summary effect;
        the value already selected changes nothing, as React skips the update. */
    method Select(supplier: Value, now: int)
      requires Valid()
      modifies this
      ensures Valid()
      ensures data == old(data) && loading == old(loading) && selectedSupplier == supplier
      ensures supplier == old(selectedSupplier) ==>
        rfmAnalysis == old(rfmAnalysis) && clock == old(clock)
      ensures supplier != old(selectedSupplier) ==>
        rfmAnalysis == Calculate(host, data, supplier, now)
    {
      if supplier != selectedSupplier {
        selectedSupplier := supplier;
        Recalculate(now);
      }
    }

    /** The `suppliers` memo over the current data. */
    function Menu(): (menu: seq<Value>)
      reads this
      requires Valid()
      ensures |menu| >= 1 && menu[0] == AllSuppliers
    {
      Suppliers(host, data)
    }

    /** The summary cards are on screen: loading has finished, a supplier
        other than "all" is selected and a summary exists. The first two tests
        are implied by the third: there is no data while loading, and "all"
        never has a summary. */
    predicate ShowsSummary()
      reads this
      requires Valid()
      ensures ShowsSummary() <==> rfmAnalysis.Some?
    {
      !loading && selectedSupplier != AllSuppliers && rfmAnalysis.Some?
    }
  }

  /** Whenever a summary is held, the selection is one of the suppliers the
      menu lists after "all", and the summary counts at least one of its orders. */
  lemma SummaryIsForListedSupplier(app: App)
    requires app.Valid()
    ensures app.rfmAnalysis.Some? ==>
      && app.ShowsSummary()
      && app.selectedSupplier in app.Menu()[1..]
      && app.rfmAnalysis.value.orderCount >= 1
  {
    if app.rfmAnalysis.Some? {
      RfmAbsent(app.host, app.data, app.selectedSupplier, app.clock);
      var i :| 0 <= i < |app.data| && app.data[i].supplierName == app.selectedSupplier;
      SuppliersListed(app.host, app.data, app.selectedSupplier);
    }
  }
}
