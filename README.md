# Machine selector: catalog filter

A model of the filtering core of a small Panel web app. The app offers a fixed
catalog of ten machines, each with a Name, a Flow, a Minimum and Maximum flow,
and a Height, Depth and Length. The user sets a flow range and three size
allowances, presses Submit, and the machine table shows the catalog rows that
satisfy all four conditions:

- flow_min ≤ Flow ≤ flow_max
- Height ≤ max height
- Depth ≤ max depth
- Length ≤ max length

The model has four modules:

- `Catalog` (`catalog.dfy`): the `Machine` and `Criteria` records, the
  catalog `Machines` in its listed order, and the default widget values
  `Default`. Lemmas cover the shape of the catalog data.
- `CatalogFilter` (`filter.dfy`): the comparison `Matches`, the boolean mask
  `Mask`, boolean-mask row selection `Select`, and `Filter`, which is
  `Select` applied to `Mask`. Lemmas cover order, soundness, completeness,
  idempotence, composition and the other filter properties.
- `Selector` (`selector.dfy`): the class `SelectorApp`. Its fields hold the
  widget values and the displayed table. A ghost history of submitted
  criteria backs the invariant `Valid`: before any submit the table is the
  whole catalog, and after submits it is the catalog filtered by the latest
  criteria only.
- `Scenarios` (`scenarios.dfy`): what particular widget values display, and
  a two-submit session.

The catalog numbers are decimal literals that are only ever compared, so they
are modelled as `real`. A size allowance the user has cleared holds no number
(`None`); pandas compares a numeric column with a missing scalar as false for
every row, so a cleared allowance matches nothing and the table becomes empty
(`CatalogFilter.FilterEmptyWhenAllowanceCleared`).

Under the default values, Module 2000 is excluded by its Depth of 3.2 alone
(`Scenarios.Module2000ExcludedByDepthOnly`). Its Height of 2.8 is within 3.0,
and its Length of 6.0 equals the 6.0 allowance, which the inclusive comparison
admits.

## Model

| member | source | states |
|---|---|---|
| `Catalog.MachinesFlowIncreasing` | app.py:10-102 | the catalog has ten rows, listed in strictly increasing order of Flow |
| `Catalog.MachinesNamesDistinct` | app.py:10-102 | no two catalog rows share a Name |
| `Catalog.MachinesFlowWithinOperatingRange` | app.py:10-102 | every row's Flow lies between its Minimum flow and Maximum flow |
| `CatalogFilter.Matches` | app.py:165-168 | a row matches only when the flow range is not inverted and all three allowances hold a number |
| `CatalogFilter.Select` | app.py:164-169 | boolean-mask indexing returns at most as many rows as the frame, each taken from the frame |
| `CatalogFilter.Filter` | app.py:164-169 | `Filter` is `Select` applied to `Mask`, whose entry i is `Matches(rows[i], k)` (the four comparisons joined by `&`); the filtered frame has no more rows than the frame, and each of its rows comes from the frame and satisfies all four comparisons |
| `CatalogFilter.SelectAt` | app.py:164-169 | boolean-mask indexing returns the rows at the mask's true positions, at strictly increasing positions, so it neither reorders nor repeats rows |
| `CatalogFilter.FilterKeepsMatchingRowsInOrder` | app.py:164-169 | the result is an order-preserving subsequence of the frame, and position j is kept if and only if row j satisfies all four comparisons |
| `CatalogFilter.FilterMembership` | app.py:164-169 | a row is in the result if and only if it is in the frame and satisfies all four comparisons (soundness and completeness) |
| `CatalogFilter.FilterComposes` | app.py:164-169 | filtering a filtered frame equals one filter by the conjunction of both criteria |
| `CatalogFilter.FilterIdempotent` | app.py:164-169 | filtering the result again with the same criteria returns it unchanged |
| `CatalogFilter.FilterEmptyWhenRangeInverted` | app.py:165 | when flow_min > flow_max the result is empty, for any frame |
| `CatalogFilter.FilterEmptyWhenAllowanceCleared` | app.py:166-168 | when any of Max Height, Max Depth or Max Length is cleared, the result is empty, for any frame |
| `CatalogFilter.FilterKeepsAllIffAllMatch` | app.py:164-169 | the result is the whole frame if and only if every row matches |
| `CatalogFilter.BoundsInclusive` | app.py:165-168 | criteria equal to a row's own Flow (both ends), Height, Depth and Length keep that row |
| `CatalogFilter.FilterIgnoresOperatingRange` | app.py:164-169 | Minimum flow and Maximum flow never affect the result: frames differing only in those columns give results differing only in them |
| `CatalogFilter.FilterPreservesOrderAndDistinctness` | app.py:164-169 | a frame ordered by increasing Flow gives a result ordered by increasing Flow, and distinct names stay distinct |
| `Selector.SelectorApp.constructor` | app.py:110-131 | the widgets start at flow range (0, 16), height 3.0, depth 3.0, length 6.0; the table starts as the whole catalog and the invariant holds |
| `Selector.SelectorApp.SetInputs` | app.py:110-122 | changing the widget values changes only them; the table stays as it was until a submit |
| `Selector.SelectorApp.Submit` | app.py:158-171 | `Inputs()` reads the slider's two ends and the three allowance inputs (app.py:159-162); the table becomes the whole catalog filtered by those values, whatever it showed before; the invariant (table = catalog filtered by the last submitted criteria) is kept |
| `Selector.DisplayedTableOrdered` | app.py:164-171 | at any time the table lists distinct catalog machines in order of increasing Flow |
| `Scenarios.DefaultCriteriaShowTwoUnits` | app.py:115-122 | with the default widget values the result is exactly [Unit 500, Unit 1000] |
| `Scenarios.Module2000ExcludedByDepthOnly` | app.py:29-37 | under the defaults Module 2000 fails on Depth alone; its Length sits exactly on the inclusive 6.0 bound |
| `Scenarios.ExactFlowShowsModule5000` | app.py:56-64 | flow range [5, 5] with allowances of 10 gives exactly [Module 5000] |
| `Scenarios.LowFlowRangeShowsNothing` | app.py:10-102 | flow range [0, 0.4] gives an empty result, whatever the size allowances |
| `Scenarios.WideCriteriaShowWholeCatalog` | app.py:10-102 | flow range [0, 100] with allowances of 100 gives the whole catalog in its original order |
| `Scenarios.RefilteringTableWouldDiffer` | app.py:164-171 | filtering the displayed table rather than the catalog would give a different table, so filtering the catalog matters |
| `Scenarios.EveryResultOrderedByFlow` | app.py:10-102 | every result of filtering the catalog is ordered by increasing Flow and has distinct names |
| `Scenarios.Session` | app.py:130-171 | a default submit shows the two Units, and a later wide submit shows all ten rows: submits do not compound |

## Left out

- Widget construction, page layout, Markdown panes, the Bootstrap template and server start-up (app.py:2, 6-7, 109-153, 176-187) are presentation only. The model keeps the widget values as plain fields.
- Tabulator options such as pagination, page size, selectability and height (app.py:130-136) only affect display.
- The `print` of the filtered rows (app.py:172) is logging.
- The unused `threading` and `time` imports (app.py:1, 3) play no part; nothing runs concurrently.
- pandas DataFrame internals (app.py:4, 105): the frame is a sequence of `Machine` records and the mask a sequence of booleans. The index labels that pandas keeps on the filtered rows are not modelled.
- Button event dispatch (app.py:156) is not modelled: a click is a call to `Submit`.
- The widget-enforced input ranges (slider 0 to 20 in steps of 0.1, inputs starting at 0; app.py:110-122) are not preconditions. The filter is modelled for all real inputs.
- Floating point: the model compares exact reals. Python floats round the decimal literals, and slider steps of 0.1 can produce values such as 0.30000000000000004. The model does not capture how such rounding could move a value across a bound.
