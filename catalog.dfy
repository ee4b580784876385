/** The static machine catalog the selector offers, and the filter criteria a
    user submits against it. */
module Catalog {

  /** One catalog row: the columns Name, Flow, Minimum flow, Maximum flow,
      Height, Depth and Length. The numbers are decimal literals in the
      catalog and are only ever compared, so they are modelled as reals. */
  datatype Machine = Machine(
    name: string,
    flow: real,
    minFlow: real,
    maxFlow: real,
    height: real,
    depth: real,
    length: real)

  /** A value that may be absent: a numeric input the user has cleared
      holds no number. */
  datatype Option<T> = None | Some(value: T)

  /** What one submit reads from the widgets: the two ends of the flow range
      slider and the three size allowances. The slider always holds two
      numbers; an allowance input is None when the user has cleared it. */
  datatype Criteria = Criteria(
    flowMin: real,
    flowMax: real,
    maxHeight: Option<real>,
    maxDepth: Option<real>,
    maxLength: Option<real>)

  /** The catalog, in the order the rows are listed. */
  const Machines: seq<Machine> := [
    Machine("Unit 500",     0.5,  0.1,  0.9, 1.850, 1.850,  2.995),
    Machine("Unit 1000",    1.0,  0.4,  1.8, 2.350, 1.800,  3.950),
    Machine("Module 2000",  2.0,  0.5,  4.0, 2.800, 3.200,  6.000),
    Machine("Module 3000",  3.0,  1.0,  6.0, 3.300, 3.600,  7.000),
    Machine("Module 4000",  4.0,  1.0,  8.0, 3.800, 4.000,  8.000),
    Machine("Module 5000",  5.0,  1.0, 10.0, 4.300, 4.400,  9.000),
    Machine("Module 7500",  7.5,  1.0, 15.0, 4.800, 4.900, 10.000),
    Machine("Module 10000", 10.0, 1.0, 20.0, 5.300, 5.400, 11.000),
    Machine("Module 15000", 15.0, 1.0, 30.0, 5.800, 5.900, 12.000),
    Machine("Module 20000", 20.0, 1.0, 40.0, 6.300, 6.400, 13.000)
  ]

  /** The values the widgets show before the user touches them: the flow
      range (0, 16), and allowances of 3.0 m height, 3.0 m depth, 6.0 m length. */
  const Default: Criteria := Criteria(0.0, 16.0, Some(3.0), Some(3.0), Some(6.0))

  /** Rows listed in strictly increasing order of Flow. */
  ghost predicate FlowIncreasing(rows: seq<Machine>)
  {
    forall i, j :: 0 <= i < j < |rows| ==> rows[i].flow < rows[j].flow
  }

  /** No two rows share a Name. */
  ghost predicate NamesDistinct(rows: seq<Machine>)
  {
    forall i, j :: 0 <= i < j < |rows| ==> rows[i].name != rows[j].name
  }

  /** Every row's Flow lies within its own Minimum flow .. Maximum flow. */
  ghost predicate FlowWithinOperatingRange(rows: seq<Machine>)
  {
    forall i :: 0 <= i < |rows| ==> rows[i].minFlow <= rows[i].flow <= rows[i].maxFlow
  }

  /** The catalog holds ten rows, ordered by strictly increasing Flow. */
  lemma MachinesFlowIncreasing()
    ensures |Machines| == 10
    ensures FlowIncreasing(Machines)
  {
  }

  /** No two catalog rows share a Name. */
  lemma MachinesNamesDistinct()
    ensures NamesDistinct(Machines)
  {
  }

  /** Every catalog row's Flow lies within its operating range. */
  lemma MachinesFlowWithinOperatingRange()
    ensures FlowWithinOperatingRange(Machines)
  {
  }
}
