/**
 * The competency list of one position (app.py, `create_competency_list`):
 * the position's sub-item rows grouped by competency, each group shown as
 * its name followed by one line per sub-item with its proficiency level.
 */
module CompetencyList {
  import opened Tables
  import opened Text
  import opened Seqs
  import opened Grouping
  import opened Display

  /** The mask `position == selected`. */
  function AtPosition(selected: string): PositionSubItem -> bool {
    (r: PositionSubItem) => r.position == selected
  }

  function PositionItems(items: seq<PositionSubItem>, selected: string): seq<PositionSubItem> {
    Keep(items, AtPosition(selected))
  }

  function SubItemCompetency(item: PositionSubItem): string {
    item.competency
  }

  /** The line of one sub-item: its text and its level, coloured by type. */
  function ListEntry(item: PositionSubItem): Block {
    Entry(Bullet + item.subItem + " (Proficiency Level: " + Decimal(item.level) + ")", TypeColour(item.kind))
  }

  /** One group: the competency heading, then the group's rows in input order. */
  function ListSection(rows: seq<PositionSubItem>, competency: string): seq<Block> {
    [Heading(competency)] + Map(Group(rows, SubItemCompetency, competency), ListEntry)
  }

  /** The sections of the competencies in `keys`, one after the other. */
  function ListSections(rows: seq<PositionSubItem>, keys: seq<string>): seq<Block> {
    ConcatMap(keys, ListSectionOf(rows))
  }

  function ListSectionOf(rows: seq<PositionSubItem>): string -> seq<Block> {
    (competency: string) => ListSection(rows, competency)
  }

  /** The list for `selected`: one section per competency of its rows, ascending. */
  function CompetencyList(items: seq<PositionSubItem>, selected: string): seq<Block> {
    var rows := PositionItems(items, selected);
    ListSections(rows, GroupKeys(rows, SubItemCompetency))
  }

  /** The builder's loop: for each group, append the heading, then each row. */
  method CreateCompetencyList(items: seq<PositionSubItem>, selected: string) returns (list: seq<Block>)
    ensures list == CompetencyList(items, selected)
  {
    var filtered := PositionItems(items, selected);
    var keys := GroupKeys(filtered, SubItemCompetency);
    list := [];
    var i := 0;
    while i < |keys|
      invariant 0 <= i <= |keys|
      invariant list == ListSections(filtered, keys[..i])
    {
      var competency := keys[i];
      var groupData := Group(filtered, SubItemCompetency, competency);
      ghost var before := list;
      ghost var section := ListSection(filtered, competency);
      ListSectionAt(filtered, competency);
      list := list + [Heading(competency)];
      var j := 0;
      while j < |groupData|
        invariant 0 <= j <= |groupData|
        invariant list == before + section[..1 + j]
      {
        assert section[1 + j] == section[1..][j];
        PrefixSnoc(section, 1 + j);
        ConcatAssociative(before, section[..1 + j], [section[1 + j]]);
        list := list + [ListEntry(groupData[j])];
        j := j + 1;
      }
      assert section[..1 + j] == section;
      ConcatMapSnoc(keys, ListSectionOf(filtered), i);
      i := i + 1;
    }
    assert keys[..i] == keys;
  }

  /** The layout of one section: the heading, then one line per row of the group. */
  lemma ListSectionAt(rows: seq<PositionSubItem>, competency: string)
    ensures |ListSection(rows, competency)| == 1 + |Group(rows, SubItemCompetency, competency)|
    ensures ListSection(rows, competency)[0] == Heading(competency)
    ensures ListSection(rows, competency)[1..] == Map(Group(rows, SubItemCompetency, competency), ListEntry)
  {
    var lines := Map(Group(rows, SubItemCompetency, competency), ListEntry);
    assert ([Heading(competency)] + lines)[1..] == lines;
  }

  /** The sections of any competency list: one heading per competency plus one line per row of its group. */
  lemma {:induction false} ListSectionsLength(rows: seq<PositionSubItem>, keys: seq<string>)
    ensures |ListSections(rows, keys)| == |keys| + GroupSizes(rows, SubItemCompetency, keys)
  {
    if keys != [] {
      var init, k := keys[..|keys| - 1], keys[|keys| - 1];
      ListSectionsLength(rows, init);
      ListSectionAt(rows, k);
      assert ListSections(rows, keys) == ListSections(rows, init) + ListSection(rows, k);
    }
  }

  /** One heading per group plus one line per row of the selected position. */
  lemma CompetencyListLength(items: seq<PositionSubItem>, selected: string)
    ensures var rows := PositionItems(items, selected);
      |CompetencyList(items, selected)| == |GroupKeys(rows, SubItemCompetency)| + |rows|
  {
    var rows := PositionItems(items, selected);
    ListSectionsLength(rows, GroupKeys(rows, SubItemCompetency));
    GroupKeysPartition(rows, SubItemCompetency);
  }

  /**
   * The headings are the distinct competencies of the selected position's
   * rows, each once, in ascending order, and no other competency.
   */
  lemma CompetencyListHeadings(items: seq<PositionSubItem>, selected: string)
    ensures Headings(CompetencyList(items, selected)) == GroupKeys(PositionItems(items, selected), SubItemCompetency)
    ensures StrictlySorted(Headings(CompetencyList(items, selected)))
    ensures forall item :: item in items && item.position == selected ==>
      item.competency in Headings(CompetencyList(items, selected))
    ensures forall c :: c in Headings(CompetencyList(items, selected)) ==>
      exists item :: item in items && item.position == selected && item.competency == c
  {
    var rows := PositionItems(items, selected);
    var keys := GroupKeys(rows, SubItemCompetency);
    forall i | 0 <= i < |keys|
      ensures Headings(ListSectionOf(rows)(keys[i])) == [keys[i]]
    {
      HeadingsOfList(keys[i], Map(Group(rows, SubItemCompetency, keys[i]), ListEntry));
    }
    HeadingsOfConcatMap(keys, ListSectionOf(rows));
  }

  /** Rows of other positions, wherever they appear, do not change the list. */
  lemma OtherPositionsIgnored(items: seq<PositionSubItem>, others: seq<PositionSubItem>, selected: string)
    requires forall r :: r in others ==> r.position != selected
    ensures CompetencyList(items + others, selected) == CompetencyList(items, selected)
    ensures CompetencyList(others + items, selected) == CompetencyList(items, selected)
  {
    PositionItemsIgnoreOthers(items, others, selected);
  }

  lemma PositionItemsIgnoreOthers(items: seq<PositionSubItem>, others: seq<PositionSubItem>, selected: string)
    requires forall r :: r in others ==> r.position != selected
    ensures PositionItems(items + others, selected) == PositionItems(items, selected)
    ensures PositionItems(others + items, selected) == PositionItems(items, selected)
  {
    KeepAppend(items, others, AtPosition(selected));
    KeepAppend(others, items, AtPosition(selected));
    KeepNone(others, AtPosition(selected));
    assert PositionItems(items, selected) + [] == PositionItems(items, selected);
  }

  /**
   * Where group `i` sits in the list: right after the sections of the groups
   * before it (one heading per group plus one line per row, see
   * ListSectionsLength), the list holds exactly the group's section: its
   * heading and its rows in input order (see ListSectionAt).
   */
  lemma CompetencyListGroupAt(items: seq<PositionSubItem>, selected: string, keys: seq<string>, i: nat)
    requires keys == GroupKeys(PositionItems(items, selected), SubItemCompetency) && i < |keys|
    ensures var rows := PositionItems(items, selected);
      |ListSections(rows, keys[..i])| + |ListSection(rows, keys[i])| <= |CompetencyList(items, selected)|
    ensures var rows := PositionItems(items, selected);
      CompetencyList(items, selected)[|ListSections(rows, keys[..i])| .. |ListSections(rows, keys[..i])| + |ListSection(rows, keys[i])|]
        == ListSection(rows, keys[i])
  {
    ListSectionsAt(PositionItems(items, selected), keys, i);
  }

  lemma ListSectionsAt(rows: seq<PositionSubItem>, keys: seq<string>, i: nat)
    requires i < |keys|
    ensures |ListSections(rows, keys[..i])| + |ListSection(rows, keys[i])| <= |ListSections(rows, keys)|
    ensures ListSections(rows, keys)[|ListSections(rows, keys[..i])| .. |ListSections(rows, keys[..i])| + |ListSection(rows, keys[i])|]
         == ListSection(rows, keys[i])
  {
    ConcatMapAt(keys, ListSectionOf(rows), i, ListSection(rows, keys[i]));
  }
}
