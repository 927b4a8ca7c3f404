# Competency framework dashboard: the data-shaping builders

The dashboard loads six flat tables at start-up:
- the competency frameworks;
- the competency definitions;
- the rating scales;
- each position's required competency levels;
- each position's sub-items;
- the organisation chart.

Its page is built by a handful of functions in `app.py`. This project models them in Dafny and proves what each one computes:
- The organisation chart is built once from the whole organisation table.
- The taxonomy tree takes the rows of one framework, already filtered by its caller.
- The rating-scale table, the spider chart and the competency list take the value selected in a dropdown and work on a whole table (the rating-scale table reads its table as a global).
- The two assessment callbacks take only the selected value.

The builders are:

- **Organisation chart** (`create_organization_chart`). It produces one label, parent and colour per organisation row. The parent is found by a first-match lookup of the manager's name. The builder also changes the frame it is given: the manager column is filled with `""` and a label column is added. This is modelled as the class `OrgChart.OrganizationFrame`.
- **Taxonomy tree** (`create_taxonomy_tree`). The framework's rows are grouped by competency. Each group shows a heading, a definition line (first match, or a placeholder) and one coloured line per sub-item.
- **Rating-scale table** (`create_rating_scale_table`). It holds the rows of the selected scale as (level, description) pairs, in file order.
- **Spider chart** (`create_spider_chart`). It gives the competencies and levels of one position, with the first point repeated to close the polygon. It is an empty figure when the position has no rows.
- **Competency list** (`create_competency_list`). The position's sub-items are grouped by competency. There is one heading per group, and each line carries the sub-item's proficiency level.
- **Assessment callbacks** (`update_assessment_result`, `toggle_form`). They produce the confirmation message and the form's style, both decided by whether an assessment is selected.

Layout of the project:

| file | module | role |
|---|---|---|
| `tables.dfy` | `Tables` | one record type per table, `Option` for a cell that may be empty |
| `text.dfy` | `Text` | the string operations used: ASCII `lower`/`capitalize`, the substring test `in`, code-point order, `str` of an integer |
| `seqs.dfy` | `Seqs` | boolean-mask filtering (`Keep`), first-match lookup (`FindFirst`), per-row mapping (`Map`) |
| `grouping.dfy` | `Grouping` | `groupby` with pandas' defaults |
| `display.dfy` | `Display` | display blocks (heading, note, coloured entry) and the technical-ability colour split |
| `taxonomy.dfy`, `rating_scale.dfy`, `spider_chart.dfy`, `competency_list.dfy`, `org_chart.dfy`, `assessment.dfy` | one module each | the builders |

Each builder that loops and appends is a `method` with loop invariants. Each method is proved equal to a specification function, and lemmas state what that function means.

**Group order.** pandas `groupby` sorts its keys by default. The groups therefore come out in ascending key order, not in the order keys are first seen. String order is Python's code-point lexicographic order (`Text.Below`). Within a group, rows keep their input order.

**Empty manager.** An empty manager cell is looked up like any other name. It makes a root exactly when no row has the empty name. `OrgChart.RootIff` states both directions for any manager; `OrgChart.MissingManagerIsRoot` is the direction from a missing name to a root.

**Spider-chart length.** The spider chart does not de-duplicate. Its lists have one point per matching row plus the closing point, even when a competency is listed twice for a position.

## Model

| member | source | states |
|---|---|---|
| Grouping.GroupKeys | app.py:104 | the group keys are ascending, without repeats, include the key of every row, and include only keys some row has |
| Grouping.GroupKeysUnique | app.py:104 | any ascending, repeat-free list holding exactly the keys that occur equals the group keys, so the group order is the sorted order |
| Grouping.Group | app.py:104 | a group holds exactly the input rows with that key (in input order, by construction as a filter) |
| Grouping.GroupMultiplicity | app.py:104 | a group holds each row with its key exactly as many times as the input does, and no row with another key |
| Grouping.GroupKeysPartition | app.py:104 | the group sizes add up to the number of rows: every row lands in exactly one group |
| Display.TypeColour | app.py:119 | a sub-item line is never blue (only red or green) |
| Display.TypeColourIgnoresCase | app.py:116-119 | the colour test ignores case, also after the type was capitalised for display |
| Text.ContainsIff | app.py:86 | the substring test holds exactly when the substring occurs at some index |
| Taxonomy.DefinitionLookup | app.py:105-107 | the definition is the text of the first definitions row with that competency, or "No definition available." when no row has it |
| Taxonomy.DefinitionIsFirstMatch | app.py:105-107 | the definition lookup is the shared first-match idiom: the row `FindFirst` selects under the competency mask, or the placeholder when it selects none |
| Taxonomy.CreateTaxonomyTree | app.py:102-124 | the loop builds exactly the tree `TaxonomyTree`: per group in ascending order, heading, definition line, then the group's rows |
| Taxonomy.SectionAt | app.py:108-123 | a group's section is its heading, then "Definition: " and the definition, then one line per row of the group with bullet, capitalised type and sub-item, in input order |
| Taxonomy.SectionsLength | app.py:104-123 | the sections of any key list are two lines per key plus one per row of those groups |
| Taxonomy.TaxonomyTreeLength | app.py:104-123 | the tree has 2 × (number of distinct competencies) + (number of rows) lines |
| Taxonomy.TaxonomyTreeHeadings | app.py:104-110 | the tree's headings are the distinct competencies, each once, ascending, covering every row's competency and no other |
| Taxonomy.TaxonomyGroupAt | app.py:104-123 | the i-th group's section sits in the tree right after the sections of the groups before it |
| RatingScaleTable.CreateRatingScaleTable | app.py:127-141 | the loop builds the header "Level", "Description" and exactly the body `RatingScaleBody` |
| RatingScaleTable.RatingScaleBodySnoc | app.py:128-134 | one more input row adds its (level, score) pair at the end exactly when it is on the selected scale: the body is the matching rows in file order |
| RatingScaleTable.RatingScaleBodyRows | app.py:128-134 | one body row per matching input row, every matching row appears, and every body row comes from a matching row |
| RatingScaleTable.UnknownScaleEmptyBody | app.py:128-138 | a scale no row names yields an empty body |
| RatingScaleTable.TwoLevelExample | app.py:127-134 | "1-5 Scale" with levels (1, "Novice") and (2, "Intermediate") yields exactly those two rows in that order, even with another scale's row between them |
| SpiderChart.CreateSpiderChart | app.py:144-162 | the builder, extending both lists in place by their first element, returns `ChartFor` |
| SpiderChart.EmptyChartIff | app.py:145-148 | the figure is empty exactly when no row has the selected position |
| SpiderChart.PolygonShape | app.py:145-150 | a drawn polygon has both lists one longer than the matching rows, the last element equal to the first, and the matching rows' competencies and levels, aligned and in file order, before it |
| SpiderChart.PolygonPoints | app.py:145-150 | every point of the polygon is a requirement row of the selected position |
| CompetencyList.CreateCompetencyList | app.py:165-182 | the loop builds exactly `CompetencyList`: per group in ascending order, heading, then the group's rows |
| CompetencyList.ListSectionAt | app.py:169-181 | a group's section is its heading, then one line per row with bullet, sub-item and "(Proficiency Level: n)", in input order |
| CompetencyList.ListSectionsLength | app.py:168-181 | the sections of any key list are one heading per key plus one line per row of those groups |
| CompetencyList.CompetencyListLength | app.py:166-181 | the list has (number of distinct competencies of the position) + (number of its rows) lines |
| CompetencyList.CompetencyListHeadings | app.py:166-171 | the headings are the distinct competencies of the position's rows, each once, ascending, and no other |
| CompetencyList.PositionItemsIgnoreOthers | app.py:166 | the position filter drops rows of other positions, wherever they stand |
| CompetencyList.OtherPositionsIgnored | app.py:166-182 | adding rows of other positions before or after the input does not change the list |
| CompetencyList.CompetencyListGroupAt | app.py:168-181 | the i-th group's section sits in the list right after the sections of the groups before it |
| OrgChart.OrganizationFrame.CreateOrganizationChart | app.py:79-86 | the frame's manager column is filled with "", the label column is added and equals the chart's labels, and the chart is `OrganizationChart` of the frame as it was |
| OrgChart.ChartRows | app.py:81-86 | one label, parent and colour per row; label i is name i, " (", title i, ")" |
| OrgChart.ParentLookup | app.py:80-84 | parent i is the label of the first row named like row i's filled manager, or "" when no row has that name |
| OrgChart.ParentsResolve | app.py:84 | every parent is "" or one of the labels |
| OrgChart.SelfManagedIsOwnParent | app.py:84 | a row managed by its own name, with no earlier row of that name, gets its own label as parent |
| OrgChart.MissingManagerIsRoot | app.py:80-84 | a manager naming no row (an empty cell included, when no row has the empty name) gives the parent "" |
| OrgChart.RootIff | app.py:80-84 | a row's parent is "" exactly when its filled manager names no row; a manager naming some row always gives a non-empty label |
| OrgChart.ColourIff | app.py:86 | a node is green exactly when "Manager" occurs in its title (case-sensitive), otherwise blue |
| OrgChart.FillManagersIdempotent | app.py:80 | filling the manager column twice is the same as once |
| OrgChart.RebuildSameChart | app.py:79-86 | building again from the frame the builder changed gives the same chart |
| OrgChart.TwoNodeExample | app.py:79-86 | "A" (CEO, empty manager) and "B" (Sales Manager, manager "A") give labels "A (CEO)", "B (Sales Manager)", parents "", "A (CEO)", and colours blue, green |
| Assessment.UpdateAssessmentResult | app.py:367-370 | the message is empty exactly when no assessment is selected (None or "") |
| Assessment.MessageNamesSelection | app.py:368-369 | a selected assessment's name occurs in the message |
| Assessment.ToggleForm | app.py:377-380 | the style has width "50%", margin "0 auto", and display "block" when an assessment is selected and "none" otherwise |
| Assessment.FormShownIffMessage | app.py:367-380 | the form is shown exactly when the message is non-empty |

## Left out

- Loading the six CSV files, lower-casing the column names and stripping string cells (app.py:23-45). The tables are inputs already in that normalised form.
- The API-key check at start-up (app.py:5-12), `send_email` (app.py:57-76) and `submit_form` (app.py:382-416). These are network calls to SendGrid and console output.
- Plotly figure construction: the sunburst's `branchvalues`, the polar axis range, titles and layout margins (app.py:88-98, 152-160). Only the lists passed to the figures are modelled.
- Dash layout, widget styles and `app.run_server` (app.py:184-329, 419-420). Each display block keeps only the part that varies: its kind, text and colour.
- The callbacks `update_framework`, `update_rating_scale` and `update_visualizations` (app.py:331-361). They only forward the selection to the builders (the framework filter is the same mask as the position filter).
- Unicode case mapping: `str.lower` and `str.capitalize` are modelled on ASCII letters only.
- Cells that pandas reads as numbers or NaN. Levels are modelled as integers, so a float level such as `3.0` is not rendered. Non-string names and titles are not modelled.
- Rows whose group key is NaN. `groupby` drops them; the model has no missing competency.
- `SpiderChart.CreateSpiderChart`: proficiency levels are integers, not floats.
- The figure objects' identity, and the aliasing of the global organisation frame across calls. The frame is a field of `OrganizationFrame`, and its later readers are not modelled.
