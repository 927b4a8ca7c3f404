/**
 * The organisation chart (app.py, `create_organization_chart`): the lists
 * handed to the sunburst figure, one entry per row of the organisation
 * table.  The builder also writes to the frame it is given: it fills the
 * empty manager cells with "" and adds a `label` column.
 */
module OrgChart {
  import opened Tables
  import opened Text
  import opened Seqs
  import opened Display

  /** The three parallel lists passed to the sunburst. */
  datatype Sunburst = Sunburst(labels: seq<string>, parents: seq<string>, colours: seq<Colour>)

  /** `fillna('')` on one manager cell. */
  function ManagerName(manager: Option<string>): string {
    match manager
    case None => ""
    case Some(name) => name
  }

  function FillManager(node: OrgNode): OrgNode {
    node.(manager := Some(ManagerName(node.manager)))
  }

  /** The manager column after `fillna('')`. */
  function FillManagers(nodes: seq<OrgNode>): seq<OrgNode> {
    Map(nodes, FillManager)
  }

  /** The `label` column: name and title. */
  function Label(node: OrgNode): string {
    node.name + " (" + node.title + ")"
  }

  /** The mask `name == x`. */
  function NameIs(x: string): OrgNode -> bool {
    (node: OrgNode) => node.name == x
  }

  /** The label of the first row named `manager`, or "" when no row has that name. */
  function ParentLabel(nodes: seq<OrgNode>, manager: string): string {
    var i := FindFirst(nodes, NameIs(manager));
    if i < |nodes| then Label(nodes[i]) else ""
  }

  /** The per-row lookup applied to the manager column. */
  function ParentOf(nodes: seq<OrgNode>): OrgNode -> string {
    (node: OrgNode) => ParentLabel(nodes, ManagerName(node.manager))
  }

  /** Green for a title containing "Manager" (case-sensitive), blue otherwise. */
  function NodeColour(node: OrgNode): Colour {
    if Contains(node.title, "Manager") then Green else Blue
  }

  /** The chart of a table, computed on the frame after its manager column was filled. */
  function OrganizationChart(nodes: seq<OrgNode>): Sunburst {
    var filled := FillManagers(nodes);
    Sunburst(Map(filled, Label), Map(filled, ParentOf(filled)), Map(filled, NodeColour))
  }

  /** The organisation frame the builder is handed, which it changes in place. */
  class OrganizationFrame {
    var nodes: seq<OrgNode>
    /** The `label` column; absent until the builder adds it. */
    var labelColumn: Option<seq<string>>

    constructor(nodes: seq<OrgNode>)
      ensures this.nodes == nodes && labelColumn == None
    {
      this.nodes := nodes;
      labelColumn := None;
    }

    /**
     * Fills the manager column, adds the label column, then reads the chart's
     * lists off the changed frame.
     */
    method CreateOrganizationChart() returns (chart: Sunburst)
      modifies this
      ensures nodes == FillManagers(old(nodes))
      ensures labelColumn == Some(chart.labels)
      ensures chart == OrganizationChart(old(nodes))
    {
      nodes := FillManagers(nodes);
      labelColumn := Some(Map(nodes, Label));
      var labels := labelColumn.value;
      var parents := Map(nodes, ParentOf(nodes));
      var colours := Map(nodes, NodeColour);
      chart := Sunburst(labels, parents, colours);
    }
  }

  /**
   * One label, one parent and one colour per row, in row order; each label
   * is the row's name followed by its title in parentheses.
   */
  lemma ChartRows(nodes: seq<OrgNode>)
    ensures |OrganizationChart(nodes).labels| == |nodes|
    ensures |OrganizationChart(nodes).parents| == |nodes|
    ensures |OrganizationChart(nodes).colours| == |nodes|
    ensures forall i :: 0 <= i < |nodes| ==>
      OrganizationChart(nodes).labels[i] == nodes[i].name + " (" + nodes[i].title + ")"
  {
    var filled := FillManagers(nodes);
    assert forall i :: 0 <= i < |nodes| ==> filled[i].name == nodes[i].name && filled[i].title == nodes[i].title;
  }

  /**
   * The parent of row `i` is the label of the first row whose name is its
   * (filled) manager; when no row has that name, it is "".
   */
  lemma ParentLookup(nodes: seq<OrgNode>, i: nat)
    requires i < |nodes|
    ensures var m, p := ManagerName(nodes[i].manager), OrganizationChart(nodes).parents[i];
      && ((forall j :: 0 <= j < |nodes| ==> nodes[j].name != m) ==> p == "")
      && forall k :: 0 <= k < |nodes| && nodes[k].name == m ==>
           ((forall j :: 0 <= j < k ==> nodes[j].name != m) ==> p == Label(nodes[k]))
  {
    var m := ManagerName(nodes[i].manager);
    var filled := FillManagers(nodes);
    assert filled[i] == FillManager(nodes[i]);
    assert ManagerName(filled[i].manager) == m;
    var f := FindFirst(filled, NameIs(m));
    assert forall j :: 0 <= j < |nodes| ==> filled[j].name == nodes[j].name && Label(filled[j]) == Label(nodes[j]);
    forall k | 0 <= k < |nodes| && nodes[k].name == m && (forall j :: 0 <= j < k ==> nodes[j].name != m)
      ensures f == k
    {
      assert NameIs(m)(filled[k]);
    }
  }

  /** No dangling parent: every parent is "" or one of the produced labels. */
  lemma ParentsResolve(nodes: seq<OrgNode>)
    ensures forall p :: p in OrganizationChart(nodes).parents ==>
      p == "" || p in OrganizationChart(nodes).labels
  {
    var chart := OrganizationChart(nodes);
    var filled := FillManagers(nodes);
    forall p | p in chart.parents
      ensures p == "" || p in chart.labels
    {
      var i :| 0 <= i < |chart.parents| && chart.parents[i] == p;
      var f := FindFirst(filled, NameIs(ManagerName(filled[i].manager)));
      if f < |filled| {
        assert chart.labels[f] == p;
      }
    }
  }

  /** A row whose manager is its own name, and whose name no earlier row has, is its own parent. */
  lemma SelfManagedIsOwnParent(nodes: seq<OrgNode>, i: nat)
    requires i < |nodes| && nodes[i].manager == Some(nodes[i].name)
    requires forall j :: 0 <= j < i ==> nodes[j].name != nodes[i].name
    ensures OrganizationChart(nodes).parents[i] == OrganizationChart(nodes).labels[i]
  {
    ParentLookup(nodes, i);
    ChartRows(nodes);
  }

  /**
   * A manager that names no row makes a root; in particular an empty manager
   * cell does, as long as no row has the empty name.
   */
  lemma MissingManagerIsRoot(nodes: seq<OrgNode>, i: nat)
    requires i < |nodes|
    requires forall j :: 0 <= j < |nodes| ==> nodes[j].name != ManagerName(nodes[i].manager)
    ensures OrganizationChart(nodes).parents[i] == ""
  {
    ParentLookup(nodes, i);
  }

  /**
   * A row is a root (parent "") exactly when its filled manager names no row:
   * a manager that names some row always yields that row's label, which is
   * never empty.
   */
  lemma RootIff(nodes: seq<OrgNode>, i: nat)
    requires i < |nodes|
    ensures OrganizationChart(nodes).parents[i] == ""
        <==> forall j :: 0 <= j < |nodes| ==> nodes[j].name != ManagerName(nodes[i].manager)
  {
    var m := ManagerName(nodes[i].manager);
    ParentLookup(nodes, i);
    var f := FindFirst(nodes, NameIs(m));
    if f < |nodes| {
      assert NameIs(m)(nodes[f]);
      assert |Label(nodes[f])| >= 3;
    }
  }

  /** Green exactly when "Manager" occurs in the title, blue otherwise; never red. */
  lemma ColourIff(nodes: seq<OrgNode>, i: nat)
    requires i < |nodes|
    ensures OrganizationChart(nodes).colours[i] != Red
    ensures OrganizationChart(nodes).colours[i] == Green
        <==> exists k :: OccursAt(nodes[i].title, "Manager", k)
  {
    var filled := FillManagers(nodes);
    assert filled[i].title == nodes[i].title;
    ContainsIff(nodes[i].title, "Manager");
  }

  /** Filling the manager column a second time changes nothing. */
  lemma FillManagersIdempotent(nodes: seq<OrgNode>)
    ensures FillManagers(FillManagers(nodes)) == FillManagers(nodes)
  {
    var once := FillManagers(nodes);
    var twice := FillManagers(once);
    assert forall i :: 0 <= i < |nodes| ==> twice[i] == FillManager(once[i]) == once[i];
  }

  /**
   * The builder changes the frame it reads, but only in ways that do not
   * change its result: building again from the changed frame gives the
   * same chart.
   */
  lemma RebuildSameChart(nodes: seq<OrgNode>)
    ensures OrganizationChart(FillManagers(nodes)) == OrganizationChart(nodes)
  {
    FillManagersIdempotent(nodes);
  }

  /**
   * A chief executive "A" with an empty manager cell and a sales manager "B"
   * reporting to "A": labels "A (CEO)" and "B (Sales Manager)", parents ""
   * and "A (CEO)", "B" green and "A" blue.
   */
  lemma TwoNodeExample(rootManager: Option<string>)
    requires rootManager == None || rootManager == Some("")
    ensures OrganizationChart([OrgNode("A", "CEO", rootManager), OrgNode("B", "Sales Manager", Some("A"))])
         == Sunburst(["A (CEO)", "B (Sales Manager)"], ["", "A (CEO)"], [Blue, Green])
  {
    var nodes := [OrgNode("A", "CEO", rootManager), OrgNode("B", "Sales Manager", Some("A"))];
    ExampleLabels(nodes);
    ExampleParents(nodes);
    ExampleColours(nodes);
  }

  lemma ExampleLabels(nodes: seq<OrgNode>)
    requires |nodes| == 2 && nodes[0].name == "A" && nodes[0].title == "CEO"
    requires nodes[1].name == "B" && nodes[1].title == "Sales Manager"
    ensures OrganizationChart(nodes).labels == ["A (CEO)", "B (Sales Manager)"]
  {
    var labels := OrganizationChart(nodes).labels;
    ChartRows(nodes);
    LabelOf("A", "CEO");
    LabelOf("B", "Sales Manager");
    assert labels[0] == "A (CEO)";
    assert labels[1] == "B (Sales Manager)";
  }

  lemma LabelOf(name: string, title: string)
    requires (name == "A" && title == "CEO") || (name == "B" && title == "Sales Manager")
    ensures name + " (" + title + ")" == if name == "A" then "A (CEO)" else "B (Sales Manager)"
  {
  }

  lemma ExampleParents(nodes: seq<OrgNode>)
    requires |nodes| == 2 && nodes[0].name == "A" && nodes[0].title == "CEO"
    requires nodes[0].manager == None || nodes[0].manager == Some("")
    requires nodes[1].name == "B" && nodes[1].manager == Some("A")
    ensures OrganizationChart(nodes).parents == ["", "A (CEO)"]
  {
    ChartRows(nodes);
    MissingManagerIsRoot(nodes, 0);
    ParentLookup(nodes, 1);
    assert Label(nodes[0]) == "A" + " (" + "CEO" + ")" == "A (CEO)";
  }

  lemma ExampleColours(nodes: seq<OrgNode>)
    requires |nodes| == 2 && nodes[0].title == "CEO" && nodes[1].title == "Sales Manager"
    ensures OrganizationChart(nodes).colours == [Blue, Green]
  {
    ChartRows(nodes);
    ColourIff(nodes, 0);
    ColourIff(nodes, 1);
    SalesManagerTitle();
  }

  lemma SalesManagerTitle()
    ensures OccursAt("Sales Manager", "Manager", 6)
  {
    assert "Sales Manager"[6..13] == "Manager";
  }
}
