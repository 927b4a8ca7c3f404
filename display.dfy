/**
 * What the list-shaped builders hand to the page, with the widget and its
 * style dictionary reduced to the parts that vary: a bold blue competency
 * heading, a grey italic note line, or a bullet entry in a category colour.
 */
module Display {
  import opened Text
  import opened Seqs

  datatype Colour = Blue | Green | Red

  datatype Block =
    | Heading(text: string)
    | Note(text: string)
    | Entry(text: string, colour: Colour)

  /** The bullet that starts every entry line. */
  const Bullet: string := "\U{25C9} "

  /** Entry colour by type: red for a technical ability, green for anything else. */
  function TypeColour(kind: string): (c: Colour)
    ensures c != Blue
  {
    if Lower(kind) == "technical ability" then Red else Green
  }

  /** The category test ignores case, also after the type was capitalised for display. */
  lemma TypeColourIgnoresCase(kind: string)
    ensures TypeColour(Lower(kind)) == TypeColour(kind)
    ensures TypeColour(Capitalize(kind)) == TypeColour(kind)
  {
    LowerIdempotent(kind);
    LowerOfCapitalize(kind);
  }

  /** The heading texts of a block list, in order. */
  function Headings(blocks: seq<Block>): seq<string> {
    if blocks == [] then []
    else HeadingOf(blocks[0]) + Headings(blocks[1..])
  }

  /** The heading text of one block, if it is a heading. */
  function HeadingOf(block: Block): seq<string> {
    if block.Heading? then [block.text] else []
  }

  lemma {:induction false} HeadingsAppend(a: seq<Block>, b: seq<Block>)
    ensures Headings(a + b) == Headings(a) + Headings(b)
  {
    if a == [] {
      assert a + b == b;
    } else {
      assert (a + b)[1..] == a[1..] + b;
      HeadingsAppend(a[1..], b);
      ConcatAssociative(HeadingOf(a[0]), Headings(a[1..]), Headings(b));
    }
  }

  /** Parts that each contribute their own key as sole heading contribute the keys, in order. */
  lemma {:induction false} HeadingsOfConcatMap(keys: seq<string>, part: string -> seq<Block>)
    requires forall i :: 0 <= i < |keys| ==> Headings(part(keys[i])) == [keys[i]]
    ensures Headings(ConcatMap(keys, part)) == keys
  {
    if keys != [] {
      var init, k := keys[..|keys| - 1], keys[|keys| - 1];
      HeadingsOfConcatMap(init, part);
      HeadingsAppend(ConcatMap(init, part), part(k));
      assert keys == init + [k];
    }
  }

  /** A heading, a note and entry lines contribute exactly one heading. */
  lemma HeadingsOfGroup(heading: string, note: Block, lines: seq<Block>)
    requires note.Note?
    requires forall i :: 0 <= i < |lines| ==> lines[i].Entry?
    ensures Headings([Heading(heading), note] + lines) == [heading]
  {
    HeadingsOfEntries(lines);
    assert ([Heading(heading), note] + lines)[1..] == [note] + lines;
    assert ([note] + lines)[1..] == lines;
  }

  /** A heading followed by entry lines contributes exactly one heading. */
  lemma HeadingsOfList(heading: string, lines: seq<Block>)
    requires forall i :: 0 <= i < |lines| ==> lines[i].Entry?
    ensures Headings([Heading(heading)] + lines) == [heading]
  {
    HeadingsOfEntries(lines);
    assert ([Heading(heading)] + lines)[1..] == lines;
  }

  lemma {:induction false} HeadingsOfEntries(blocks: seq<Block>)
    requires forall i :: 0 <= i < |blocks| ==> blocks[i].Entry?
    ensures Headings(blocks) == []
  {
    if blocks != [] {
      HeadingsOfEntries(blocks[1..]);
    }
  }
}
