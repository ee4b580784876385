/** The selector's state: the values of its input widgets and the rows its
    machine table displays, updated by the Submit button. */
module Selector {
  import opened Catalog
  import opened CatalogFilter

  class SelectorApp {
    /** The flow range slider, as (minimum, maximum). */
    var flowRange: (real, real)
    /** The Max Height, Max Depth and Max Length inputs; None when cleared. */
    var maxHeight: Option<real>
    var maxDepth: Option<real>
    var maxLength: Option<real>
    /** The rows the machine table displays. */
    var table: seq<Machine>
    /** The criteria of every submit so far, oldest first. */
    ghost var submitted: seq<Criteria>

    /** The criteria a submit reads off the widgets. */
    function Inputs(): Criteria
      reads this
    {
      Criteria(flowRange.0, flowRange.1, maxHeight, maxDepth, maxLength)
    }

    /** The table shows the whole catalog until the first submit, and from
        then on the catalog filtered by the latest submit's criteria alone. */
    ghost predicate Valid()
      reads this
    {
      table == if submitted == [] then Machines else Filter(Machines, submitted[|submitted| - 1])
    }

    /** The widgets start at their default values and the table at the
        whole catalog. */
    constructor ()
      ensures Valid() && submitted == []
      ensures table == Machines
      ensures Inputs() == Default
    {
      flowRange := (Default.flowMin, Default.flowMax);
      maxHeight := Default.maxHeight;
      maxDepth := Default.maxDepth;
      maxLength := Default.maxLength;
      table := Machines;
      submitted := [];
    }

    /** The user moves the slider or edits the inputs; the table does not
        change until the next submit. */
    method SetInputs(range: (real, real), height: Option<real>, depth: Option<real>, length: Option<real>)
      requires Valid()
      modifies this`flowRange, this`maxHeight, this`maxDepth, this`maxLength
      ensures Valid()
      ensures Inputs() == Criteria(range.0, range.1, height, depth, length)
      ensures table == old(table) && submitted == old(submitted)
    {
      flowRange := range;
      maxHeight, maxDepth, maxLength := height, depth, length;
    }

    /** Filter the whole catalog, never the displayed table, by the current
        widget values, and display the result. */
    method Submit()
      requires Valid()
      modifies this`table, this`submitted
      ensures Valid()
      ensures submitted == old(submitted) + [Inputs()]
      ensures table == Filter(Machines, Inputs())
      ensures Inputs() == old(Inputs())
    {
      var (flowMin, flowMax) := flowRange;
      var k := Criteria(flowMin, flowMax, maxHeight, maxDepth, maxLength);
      table := Filter(Machines, k);
      submitted := submitted + [k];
    }
  }

  /** Whatever has been submitted, the table lists distinct catalog
      machines in order of increasing Flow. */
  lemma DisplayedTableOrdered(app: SelectorApp)
    requires app.Valid()
    ensures FlowIncreasing(app.table) && NamesDistinct(app.table)
    ensures forall m :: m in app.table ==> m in Machines
  {
    MachinesFlowIncreasing();
    MachinesNamesDistinct();
    if app.submitted != [] {
      var k := app.submitted[|app.submitted| - 1];
      FilterPreservesOrderAndDistinctness(Machines, k);
      forall m | m in app.table ensures m in Machines {
        FilterMembership(Machines, k, m);
      }
    }
  }
}
