/**
 * The data behind the spider chart of one position (app.py,
 * `create_spider_chart`): the position's competencies and required levels
 * in file order, with the first point repeated at the end to close the
 * polygon, or an empty figure when the position has no rows.
 */
module SpiderChart {
  import opened Tables
  import opened Seqs

  /** The figure reduced to what varies: nothing, or the polygon's axes and radii. */
  datatype Figure = EmptyFigure | Polygon(categories: seq<string>, values: seq<int>)

  /** The mask `position == selected`. */
  function AtPosition(selected: string): Requirement -> bool {
    (r: Requirement) => r.position == selected
  }

  function PositionRequirements(requirements: seq<Requirement>, selected: string): seq<Requirement> {
    Keep(requirements, AtPosition(selected))
  }

  function CompetencyOf(r: Requirement): string {
    r.competency
  }

  function LevelOf(r: Requirement): int {
    r.level
  }

  /** A list with its first element appended, closing the loop. */
  function Closed<T>(s: seq<T>): seq<T> {
    s + s[..if s == [] then 0 else 1]
  }

  /** The chart the builder draws for `selected`. */
  function ChartFor(requirements: seq<Requirement>, selected: string): Figure {
    var rows := PositionRequirements(requirements, selected);
    if rows == [] then EmptyFigure
    else Polygon(Closed(Map(rows, CompetencyOf)), Closed(Map(rows, LevelOf)))
  }

  /** The builder: two column lists, each extended in place by its own first element. */
  method CreateSpiderChart(requirements: seq<Requirement>, selected: string) returns (chart: Figure)
    ensures chart == ChartFor(requirements, selected)
  {
    var filtered := PositionRequirements(requirements, selected);
    var categories := Map(filtered, CompetencyOf);
    var values := Map(filtered, LevelOf);
    if categories != [] && values != [] {
      values := values + values[..1];
      categories := categories + categories[..1];
      chart := Polygon(categories, values);
    } else {
      chart := EmptyFigure;
    }
  }

  /** The figure is empty exactly when no row names the position. */
  lemma EmptyChartIff(requirements: seq<Requirement>, selected: string)
    ensures ChartFor(requirements, selected).EmptyFigure?
        <==> forall r :: r in requirements ==> r.position != selected
  {
    var rows := PositionRequirements(requirements, selected);
    if rows != [] {
      assert rows[0] in rows;
    }
  }

  /**
   * A drawn polygon has one point per matching row plus the closing point:
   * both lists are one longer than the matching rows, each ends with its
   * first element, and before that they are the matching rows' competencies
   * and levels, aligned and in file order.
   */
  lemma PolygonShape(requirements: seq<Requirement>, selected: string)
    requires ChartFor(requirements, selected).Polygon?
    ensures var rows := PositionRequirements(requirements, selected);
      var chart := ChartFor(requirements, selected);
      && |chart.categories| == |chart.values| == |rows| + 1
      && chart.categories[|rows|] == chart.categories[0]
      && chart.values[|rows|] == chart.values[0]
      && forall i :: 0 <= i < |rows| ==>
           chart.categories[i] == rows[i].competency && chart.values[i] == rows[i].level
  {
  }

  /** Every point of a drawn polygon is a requirement of the selected position. */
  lemma PolygonPoints(requirements: seq<Requirement>, selected: string, i: nat)
    requires ChartFor(requirements, selected).Polygon?
    requires i < |ChartFor(requirements, selected).categories|
    ensures Requirement(selected, ChartFor(requirements, selected).categories[i], ChartFor(requirements, selected).values[i])
         in requirements
  {
    var rows := PositionRequirements(requirements, selected);
    PolygonShape(requirements, selected);
    var k := if i < |rows| then i else 0;
    assert rows[k] in rows;
    assert rows[k] == Requirement(selected, rows[k].competency, rows[k].level);
  }
}
