/**
 * The taxonomy tree of one framework (app.py, `create_taxonomy_tree`): the
 * framework's rows grouped by competency, each group shown as its name, its
 * definition and one line per sub-item.
 */
module Taxonomy {
  import opened Tables
  import opened Text
  import opened Seqs
  import opened Grouping
  import opened Display

  const NoDefinition: string := "No definition available."

  function Competency(item: FrameworkItem): string {
    item.competency
  }

  /** The first definition listed for `competency`, or the placeholder when none is. */
  function DefinitionFor(definitions: seq<Definition>, competency: string): string {
    if definitions == [] then NoDefinition
    else if definitions[0].competency == competency then definitions[0].definition
    else DefinitionFor(definitions[1..], competency)
  }

  /**
   * The lookup takes the text of the first matching definition row and falls
   * back to the placeholder only when no row matches.
   */
  lemma {:induction false} DefinitionLookup(definitions: seq<Definition>, competency: string)
    ensures
      || (exists i :: 0 <= i < |definitions| && definitions[i].competency == competency
            && DefinitionFor(definitions, competency) == definitions[i].definition
            && forall j :: 0 <= j < i ==> definitions[j].competency != competency)
      || ((forall i :: 0 <= i < |definitions| ==> definitions[i].competency != competency)
            && DefinitionFor(definitions, competency) == NoDefinition)
  {
    if definitions != [] && definitions[0].competency != competency {
      var rest := definitions[1..];
      DefinitionLookup(rest, competency);
      if i :| (&& 0 <= i < |rest| && rest[i].competency == competency
               && DefinitionFor(rest, competency) == rest[i].definition
               && (forall j :: 0 <= j < i ==> rest[j].competency != competency)) {
        assert definitions[i + 1] == rest[i];
        forall j | 0 <= j < i + 1
          ensures definitions[j].competency != competency
        {
          if j > 0 { assert definitions[j] == rest[j - 1]; }
        }
      } else {
        forall j | 0 <= j < |definitions|
          ensures definitions[j].competency != competency
        {
          if j > 0 { assert definitions[j] == rest[j - 1]; }
        }
      }
    }
  }

  /** The mask `competency == c` on the definitions table. */
  function DefinesCompetency(competency: string): Definition -> bool {
    (d: Definition) => d.competency == competency
  }

  /**
   * The lookup is the shared first-match idiom: the row `FindFirst` picks
   * under the mask, or the placeholder when it picks none.
   */
  lemma DefinitionIsFirstMatch(definitions: seq<Definition>, competency: string)
    ensures var i := FindFirst(definitions, DefinesCompetency(competency));
      DefinitionFor(definitions, competency) == if i < |definitions| then definitions[i].definition else NoDefinition
  {
    DefinitionLookup(definitions, competency);
    var i := FindFirst(definitions, DefinesCompetency(competency));
    if i < |definitions| {
      assert DefinesCompetency(competency)(definitions[i]);
    }
  }

  /** The line of one sub-item: its capitalised type and its text, coloured by type. */
  function ItemLine(item: FrameworkItem): Block {
    Entry(Bullet + Capitalize(item.kind) + ": " + item.subItem, TypeColour(item.kind))
  }

  /** One group: heading, definition, then the group's rows in input order. */
  function Section(rows: seq<FrameworkItem>, definitions: seq<Definition>, competency: string): seq<Block> {
    [Heading(competency), Note("Definition: " + DefinitionFor(definitions, competency))]
      + Map(Group(rows, Competency, competency), ItemLine)
  }

  /** The sections of the competencies in `keys`, one after the other. */
  function Sections(rows: seq<FrameworkItem>, definitions: seq<Definition>, keys: seq<string>): seq<Block> {
    ConcatMap(keys, SectionOf(rows, definitions))
  }

  function SectionOf(rows: seq<FrameworkItem>, definitions: seq<Definition>): string -> seq<Block> {
    (competency: string) => Section(rows, definitions, competency)
  }

  /** The whole tree: one section per competency, in ascending competency order. */
  function TaxonomyTree(rows: seq<FrameworkItem>, definitions: seq<Definition>): seq<Block> {
    Sections(rows, definitions, GroupKeys(rows, Competency))
  }

  /** The builder's loop: for each group, append heading and definition, then each row. */
  method CreateTaxonomyTree(rows: seq<FrameworkItem>, definitions: seq<Definition>) returns (tree: seq<Block>)
    ensures tree == TaxonomyTree(rows, definitions)
  {
    var keys := GroupKeys(rows, Competency);
    tree := [];
    var i := 0;
    while i < |keys|
      invariant 0 <= i <= |keys|
      invariant tree == Sections(rows, definitions, keys[..i])
    {
      var competency := keys[i];
      var groupData := Group(rows, Competency, competency);
      var definition := DefinitionFor(definitions, competency);
      ghost var before := tree;
      ghost var section := Section(rows, definitions, competency);
      SectionAt(rows, definitions, competency);
      tree := tree + [Heading(competency)];
      tree := tree + [Note("Definition: " + definition)];
      assert section[..2] == [Heading(competency), Note("Definition: " + definition)];
      ConcatAssociative(before, [Heading(competency)], [Note("Definition: " + definition)]);
      var j := 0;
      while j < |groupData|
        invariant 0 <= j <= |groupData|
        invariant tree == before + section[..2 + j]
      {
        assert section[2 + j] == section[2..][j];
        PrefixSnoc(section, 2 + j);
        ConcatAssociative(before, section[..2 + j], [section[2 + j]]);
        tree := tree + [ItemLine(groupData[j])];
        j := j + 1;
      }
      assert section[..2 + j] == section;
      ConcatMapSnoc(keys, SectionOf(rows, definitions), i);
      i := i + 1;
    }
    assert keys[..i] == keys;
  }

  /** The layout of one section: heading and definition line, then one line per row of the group. */
  lemma SectionAt(rows: seq<FrameworkItem>, definitions: seq<Definition>, competency: string)
    ensures |Section(rows, definitions, competency)| == 2 + |Group(rows, Competency, competency)|
    ensures Section(rows, definitions, competency)[..2]
         == [Heading(competency), Note("Definition: " + DefinitionFor(definitions, competency))]
    ensures Section(rows, definitions, competency)[2..] == Map(Group(rows, Competency, competency), ItemLine)
  {
    var top := [Heading(competency), Note("Definition: " + DefinitionFor(definitions, competency))];
    var lines := Map(Group(rows, Competency, competency), ItemLine);
    assert (top + lines)[..2] == top;
    assert (top + lines)[2..] == lines;
  }

  /** The sections of any competency list: two lines per competency plus one per row of its group. */
  lemma {:induction false} SectionsLength(rows: seq<FrameworkItem>, definitions: seq<Definition>, keys: seq<string>)
    ensures |Sections(rows, definitions, keys)| == 2 * |keys| + GroupSizes(rows, Competency, keys)
  {
    if keys != [] {
      var init, k := keys[..|keys| - 1], keys[|keys| - 1];
      SectionsLength(rows, definitions, init);
      SectionAt(rows, definitions, k);
      assert Sections(rows, definitions, keys) == Sections(rows, definitions, init) + Section(rows, definitions, k);
    }
  }

  /** Two lines per group plus one line per row. */
  lemma TaxonomyTreeLength(rows: seq<FrameworkItem>, definitions: seq<Definition>)
    ensures |TaxonomyTree(rows, definitions)| == 2 * |GroupKeys(rows, Competency)| + |rows|
  {
    SectionsLength(rows, definitions, GroupKeys(rows, Competency));
    GroupKeysPartition(rows, Competency);
  }

  lemma SectionHeadings(rows: seq<FrameworkItem>, definitions: seq<Definition>, competency: string)
    ensures Headings(Section(rows, definitions, competency)) == [competency]
  {
    var lines := Map(Group(rows, Competency, competency), ItemLine);
    HeadingsOfGroup(competency, Note("Definition: " + DefinitionFor(definitions, competency)), lines);
  }

  /**
   * The headings of the tree are exactly the distinct competencies, each once,
   * in ascending order.
   */
  lemma TaxonomyTreeHeadings(rows: seq<FrameworkItem>, definitions: seq<Definition>)
    ensures Headings(TaxonomyTree(rows, definitions)) == GroupKeys(rows, Competency)
    ensures StrictlySorted(Headings(TaxonomyTree(rows, definitions)))
    ensures forall item :: item in rows ==> item.competency in Headings(TaxonomyTree(rows, definitions))
    ensures forall c :: c in Headings(TaxonomyTree(rows, definitions)) ==>
      exists item :: item in rows && item.competency == c
  {
    var keys := GroupKeys(rows, Competency);
    forall i | 0 <= i < |keys|
      ensures Headings(SectionOf(rows, definitions)(keys[i])) == [keys[i]]
    {
      SectionHeadings(rows, definitions, keys[i]);
    }
    HeadingsOfConcatMap(keys, SectionOf(rows, definitions));
  }

  /**
   * Where group `i` sits in the tree: right after the sections of the groups
   * before it (whose length SectionsLength gives as two lines per group plus
   * one per row), the tree holds exactly the group's section: its heading,
   * its definition line and its rows in input order (see SectionAt).
   */
  lemma TaxonomyGroupAt(rows: seq<FrameworkItem>, definitions: seq<Definition>, keys: seq<string>, i: nat)
    requires keys == GroupKeys(rows, Competency) && i < |keys|
    ensures |Sections(rows, definitions, keys[..i])| + |Section(rows, definitions, keys[i])|
         <= |TaxonomyTree(rows, definitions)|
    ensures TaxonomyTree(rows, definitions)[|Sections(rows, definitions, keys[..i])|
                                            .. |Sections(rows, definitions, keys[..i])| + |Section(rows, definitions, keys[i])|]
         == Section(rows, definitions, keys[i])
  {
    SectionsAt(rows, definitions, keys, i);
  }

  lemma SectionsAt(rows: seq<FrameworkItem>, definitions: seq<Definition>, keys: seq<string>, i: nat)
    requires i < |keys|
    ensures |Sections(rows, definitions, keys[..i])| + |Section(rows, definitions, keys[i])|
         <= |Sections(rows, definitions, keys)|
    ensures Sections(rows, definitions, keys)[|Sections(rows, definitions, keys[..i])|
                                              .. |Sections(rows, definitions, keys[..i])| + |Section(rows, definitions, keys[i])|]
         == Section(rows, definitions, keys[i])
  {
    ConcatMapAt(keys, SectionOf(rows, definitions), i, Section(rows, definitions, keys[i]));
  }
}
