/** What the selector displays for particular widget values, and a session
    of two submits. */
module Scenarios {
  import opened Catalog
  import opened CatalogFilter
  import opened Selector

  /** Criteria loose enough for every catalog row. */
  const Wide: Criteria := Criteria(0.0, 100.0, Some(100.0), Some(100.0), Some(100.0))

  /** With the default widget values only Unit 500 and Unit 1000 are shown. */
  lemma DefaultCriteriaShowTwoUnits()
    ensures Filter(Machines, Default) == [Machines[0], Machines[1]]
    ensures Machines[0].name == "Unit 500" && Machines[1].name == "Unit 1000"
  {
    FilterContiguous(Machines, Default, 0, 2);
  }

  /** Under the defaults Module 2000 fails on its Depth of 3.2 alone: its
      Flow is in range, its Height is below 3.0 and its Length equals the
      6.0 allowance, which the inclusive bound admits. */
  lemma Module2000ExcludedByDepthOnly()
    ensures Machines[2].name == "Module 2000"
    ensures !Matches(Machines[2], Default)
    ensures Default.flowMin <= Machines[2].flow <= Default.flowMax
    ensures Machines[2].height <= Default.maxHeight.value
    ensures Machines[2].length == Default.maxLength.value
    ensures Machines[2].depth > Default.maxDepth.value
  {
  }

  /** A flow range of exactly 5 with allowances of 10 shows Module 5000 only. */
  lemma ExactFlowShowsModule5000()
    ensures Filter(Machines, Criteria(5.0, 5.0, Some(10.0), Some(10.0), Some(10.0))) == [Machines[5]]
    ensures Machines[5].name == "Module 5000"
  {
    FilterContiguous(Machines, Criteria(5.0, 5.0, Some(10.0), Some(10.0), Some(10.0)), 5, 6);
  }

  /** No machine has a Flow in [0, 0.4], whatever the size allowances. */
  lemma LowFlowRangeShowsNothing(height: Option<real>, depth: Option<real>, length: Option<real>)
    ensures Filter(Machines, Criteria(0.0, 0.4, height, depth, length)) == []
  {
    FilterContiguous(Machines, Criteria(0.0, 0.4, height, depth, length), 0, 0);
  }

  /** Loose enough criteria show the whole catalog in its original order. */
  lemma WideCriteriaShowWholeCatalog()
    ensures Filter(Machines, Wide) == Machines
  {
    FilterKeepsAllIffAllMatch(Machines, Wide);
  }

  /** Re-filtering the displayed table instead of the catalog would give a
      different table: after a default submit, a wide submit must show all
      ten rows, but filtering the two displayed rows keeps only two. */
  lemma RefilteringTableWouldDiffer()
    ensures Filter(Filter(Machines, Default), Wide) != Filter(Machines, Wide)
  {
    DefaultCriteriaShowTwoUnits();
    WideCriteriaShowWholeCatalog();
    assert |Filter(Filter(Machines, Default), Wide)| <= 2;
  }

  /** Every table a submit can produce lists distinct machines in order of
      increasing Flow. */
  lemma EveryResultOrderedByFlow(k: Criteria)
    ensures FlowIncreasing(Filter(Machines, k))
    ensures NamesDistinct(Filter(Machines, k))
  {
    MachinesFlowIncreasing();
    MachinesNamesDistinct();
    FilterPreservesOrderAndDistinctness(Machines, k);
  }

  /** A session: the table starts as the whole catalog; a submit with the
      default widget values shows the two Units; widening the inputs and
      submitting again shows the whole catalog, not a narrowing of the two. */
  method Session() returns (initial: seq<Machine>, first: seq<Machine>, second: seq<Machine>)
    ensures initial == Machines
    ensures first == [Machines[0], Machines[1]]
    ensures second == Machines
  {
    var app := new SelectorApp();
    initial := app.table;
    app.Submit();
    first := app.table;
    DefaultCriteriaShowTwoUnits();
    app.SetInputs((Wide.flowMin, Wide.flowMax), Wide.maxHeight, Wide.maxDepth, Wide.maxLength);
    app.Submit();
    second := app.table;
    WideCriteriaShowWholeCatalog();
  }
}
