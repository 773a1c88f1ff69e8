# Glycemic load dashboard — a Dafny model of its computation

The dashboard (`glycemic_load.py`, a Streamlit script) shows the glycemic index
(GI) and glycemic load (GL) of a fixed list of foods for a serving size the user
picks with a slider (50 g to 500 g in steps of 10 g) and for the food categories
the user selects. Apart from widget and chart calls, it does five things:

- it holds a hard-coded catalog of foods (name, GI, carbohydrate grams per
  100 g, category) and derives the sorted list of distinct categories from it;
- it keeps the catalog items whose category is selected, in catalog order;
- it adds two keys to each kept dictionary in place:
  `carbs_per_serving = carbs * serving / 100` and
  `gl = gi * carbs * serving / 10000`;
- when nothing is kept it shows a warning; otherwise it plots one point per
  kept food and shows a table sorted by ascending glycemic load;
- it sets the chart's x-axis to `[0, max(90, max carbs_per_serving + 10)]`.

The model, module by module:

- `Catalog` (catalog.dfy): the `Food` record, the catalog constant
  `Ingredients`, Python's string order (`StrLess`) and `Categories`, the
  distinct categories in strictly ascending order.
- `Selection` (selection.dfy): `Filter`, the category comprehension, on values.
- `Serving` (serving.dfy): the slider's range `ValidServing`, the two formulas
  `CarbsPerServing` and `GlycemicLoad` over exact reals, and the plotted `Point`.
- `Records` (records.dfy): the catalog as mutable dictionaries (`FoodRecord`),
  the comprehension over them (`FilterRecords`, which returns references into
  the catalog, as the Python list does) and the in-place update loop
  (`ApplyServing`).
- `Table` (table.dfy): the sort by glycemic load.
- `Chart` (chart.dfy): the x-axis upper bound.
- `Dashboard` (dashboard.dfy): one run of the script (`Run`, `Page`) proved
  equal to a value-level description of the page (`Render`), which is either the
  warning or the chart points, the sorted table and the axis bound.
- `Wrappers` (wrappers.dfy): the `Option` type used for the two added keys.

### Choices that follow the script

- The script updates the catalog dictionaries in place. The model keeps the
  mutation and proves which records change and which do not.
- The table is sorted with pandas' default sort, which is not stable. The model
  promises order by load and a permutation, not the order among ties.
- The script shows the same warning whether nothing is selected or the
  selection matches nothing. The model has one `Warning` outcome for both.
- The low/medium/high buckets appear only as explanatory text and are never
  computed. The model does not compute them either.

## Model

| member | source | states |
|---|---|---|
| Catalog.Ingredients | glycemic_load.py:18-47 | definition, no contract: the 21 catalog entries in source order; `CatalogCategories`, `LegumesOnly`, `WhiteBreadAtHundred` and `AppleAtTwoHundred` state facts about it |
| Catalog.StrLessIrreflexive | glycemic_load.py:50 | no string sorts before itself under Python's code-point order |
| Catalog.StrLessTransitive | glycemic_load.py:50 | Python's string order is transitive |
| Catalog.StrLessTotal | glycemic_load.py:50 | any two distinct strings are ordered one way or the other |
| Catalog.Categories | glycemic_load.py:50 | the category list is strictly ascending (sorted, no duplicates) and contains exactly the categories that occur in the items |
| Catalog.StrictlyAscendingUnique | glycemic_load.py:50 | two strictly ascending lists with the same elements are equal, so the list is the one `sorted(set(...))` yields |
| Catalog.CatalogCategories | glycemic_load.py:18-50 | for this catalog the options are Baked goods, Dairies, Fruits, Grains and pasta, Legumes, Sweets, Vegetables, in that order |
| Selection.Filter | glycemic_load.py:60 | an item is in the result exactly when it is in the catalog and its category is selected; the result is no longer than the catalog |
| Selection.FilterCount | glycemic_load.py:60 | each item occurs in the result as often as in the catalog if its category is selected, and not at all otherwise |
| Selection.FilterConcat | glycemic_load.py:60 | filtering a concatenation concatenates the filtered parts, so kept items keep their catalog order |
| Selection.FilterKeepsAll | glycemic_load.py:60 | when every item's category is selected the result is the catalog itself |
| Selection.FilterEmptyIff | glycemic_load.py:60 | the result is empty exactly when no item's category is selected; an empty selection gives an empty result |
| Selection.FilterEveryCategory | glycemic_load.py:50-60 | selecting every category option returns the whole catalog in order |
| Selection.FilterBlock | glycemic_load.py:60 | when the selected items form one contiguous block, the result is that block |
| Selection.LegumesOnly | glycemic_load.py:35-37 | selecting only "Legumes" yields Kidney beans, Lentils, Chickpeas in that order |
| Serving.PointFor | glycemic_load.py:112-118 | a plotted point's load is GI x its carbs per serving / 100 (the formula shown at line 77), neither figure is negative for a non-negative serving, and it keeps the food's name, category and GI |
| Serving.ValidServing | glycemic_load.py:15 | definition, no contract: the slider's values, 50 to 500 in steps of 10; the precondition of `ApplyServing`, `ChartContents` and `OneDecimalAtSlider` |
| Serving.CarbsPerServing | glycemic_load.py:93 | definition, no contract: `carbs * serving / 100` with true division; its properties are stated by `HundredGramServing`, `FiguresNonNegative`, `OneDecimalAtSlider`, and by `ApplyServing` through `HasServing` |
| Serving.GlycemicLoad | glycemic_load.py:94 | definition, no contract: `gi * carbs * serving / 10000` with true division; its properties are stated by `GlFromCarbsPerServing`, `GlProportionalToServing`, `GlMonotone`, `GlStrictlyIncreasing`, `FiguresNonNegative`, and by `ApplyServing` through `HasServing` |
| Serving.PointsFor | glycemic_load.py:112-118 | one point per kept food, in the same order, each with that food's figures |
| Serving.GlFromCarbsPerServing | glycemic_load.py:92-94 | the computed load equals GI x carbs per serving / 100, the formula shown to the user at line 77 |
| Serving.HundredGramServing | glycemic_load.py:93 | at a 100 g serving the carbs per serving equal the catalog's carbs per 100 g |
| Serving.GlProportionalToServing | glycemic_load.py:94 | the load is the 100 g load scaled by serving / 100 |
| Serving.GlMonotone | glycemic_load.py:94 | a larger serving never has a smaller load |
| Serving.GlStrictlyIncreasing | glycemic_load.py:94 | with positive GI and carbs, a larger serving has a strictly larger load |
| Serving.FiguresNonNegative | glycemic_load.py:92-94 | both figures are non-negative for a non-negative serving |
| Serving.OneDecimalAtSlider | glycemic_load.py:115 | at a slider serving the carbs per serving is a whole number of tenths, so the rounding to one decimal at line 115 changes nothing |
| Serving.WhiteBreadAtHundred | glycemic_load.py:92-94 | White bread at 100 g: 49 g carbs and load 36.75 |
| Serving.AppleAtTwoHundred | glycemic_load.py:92-94 | Apple at 200 g: 28 g carbs and load 10.08 |
| Records.FoodRecord.constructor | glycemic_load.py:18-47 | a new dictionary holds the catalog entry and neither added key |
| Records.NewCatalog | glycemic_load.py:18-47 | the catalog list holds one fresh dictionary per catalog entry, in order, without the added keys |
| Records.FilterRecords | glycemic_load.py:60 | the kept references are exactly the catalog's records whose category is selected, and their entries are what the value-level filter keeps |
| Records.ApplyServing | glycemic_load.py:92-94 | every kept record ends with both added keys equal to the formulas for the serving; its name, GI, carbs and category are unchanged; nothing outside the kept records is modified |
| Table.InsertByGl | glycemic_load.py:106 | inserting into a list sorted by load keeps it sorted and adds exactly that row |
| Table.SortByGl | glycemic_load.py:106 | the table rows are in non-decreasing load order and are a permutation of the plotted rows |
| Chart.MaxCarbs | glycemic_load.py:190 | the maximum is at least every point's carbs per serving and is attained by one of them |
| Chart.XAxisMax | glycemic_load.py:190 | the bound is at least 90, at least every point's carbs per serving + 10, and equals 90 or one of those |
| Chart.PointsInsideXAxis | glycemic_load.py:190 | every point with non-negative carbs lies inside [0, bound] |
| Dashboard.Present | glycemic_load.py:97-237 | definition, no contract: the warning for an empty selection, otherwise the points, the sorted table and the x-axis bound; `Show` is proved equal to it and `WarningIff`/`ChartContents` state its properties |
| Dashboard.Render | glycemic_load.py:60-237 | definition, no contract: `Present` of the filtered catalog; its properties are stated by `WarningIff`, `ChartContents` and `DefaultSelectionShowsCatalog`, and `Run`/`Page` are proved equal to it |
| Dashboard.WarningIff | glycemic_load.py:236-237 | the warning is shown exactly when no catalog item has a selected category (the test at line 97); an empty selection always shows it |
| Dashboard.ChartContents | glycemic_load.py:97-190 | when some item is kept the chart is drawn; its points are the kept foods' points in catalog order, the table is sorted by load and a permutation of them, and every point lies inside the x-axis range |
| Dashboard.DefaultSelectionShowsCatalog | glycemic_load.py:50-60 | with the default selection (every category) the chart plots the whole catalog |
| Dashboard.Snapshot | glycemic_load.py:112-118 | the plot data holds one point per updated record, read from that record, in order |
| Dashboard.SnapshotOfUpdated | glycemic_load.py:112-118 | reading back the updated records gives the points computed from their entries by the formulas |
| Dashboard.Show | glycemic_load.py:97-237 | over updated records, the page is the warning when none was kept and otherwise the chart, table and axis bound of the value-level page |
| Dashboard.Run | glycemic_load.py:60-237 | one run shows the value-level page for the catalog as it was; selected records gain the two figures; unselected records and all catalog keys are unchanged |
| Dashboard.Page | glycemic_load.py:18-237 | a whole run from a freshly built catalog shows the value-level page for the catalog constant |

## Left out

- Streamlit widgets, page layout, the explanatory text and the sidebar
  (glycemic_load.py:8-15, 53-57, 63-89, 240-244): calls into a UI library. The
  slider's range and step become the precondition `ValidServing`; the slider's
  default value and the selector's other behaviour are not modelled.
- Plotly figure construction, hover templates, text labels, the fixed y-axis
  range and the annotation's position (glycemic_load.py:121-143, 169-189,
  193-230): declarative calls into a plotting library.
- The shaded high-load region (glycemic_load.py:146-166): floating-point array
  numerics (a division that yields infinity at x = 0, finiteness filtering).
- Rounding to one decimal (glycemic_load.py:107-108, 115, 117): floating-point
  rounding. The model keeps the exact rational values. For carbs per serving
  this changes nothing at slider servings (`OneDecimalAtSlider`), so
  `Chart.XAxisMax` is the bound of line 190 exactly; the rounded glycemic
  load in the table and the plot is not modelled.
- Floating point in general: the figures are exact reals, not IEEE doubles.
- Table column selection and renaming (glycemic_load.py:98-105): cosmetic. The
  table rows are modelled as the plotted points, category included.
- Table.SortByGl: ties in glycemic load come out in one particular order; the
  script's sort does not promise any order among ties, so no lemma states one.
- The low/medium/high GI and GL buckets (glycemic_load.py:66-68, 79-81): text
  shown to the user, never computed by the script.
- Streamlit's re-execution of the script on every interaction: `Page` models a
  single run.
