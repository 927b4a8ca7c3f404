/**
 * The rating-scale table (app.py, `create_rating_scale_table`): the rows of
 * the selected scale, one table row (level, description) each, in file order.
 */
module RatingScaleTable {
  import opened Tables
  import opened Seqs

  /** One body row of the table: the level cell and the description cell. */
  datatype TableRow = TableRow(level: int, description: string)

  /** The table: its fixed header cells and its body rows. */
  datatype Table = Table(header: seq<string>, body: seq<TableRow>)

  const Header: seq<string> := ["Level", "Description"]

  /** The mask `rating scales == selected`. */
  function OnScale(selected: string): RatingScale -> bool {
    (r: RatingScale) => r.scale == selected
  }

  /** The mask applied to the frame. */
  function ScaleRows(scales: seq<RatingScale>, selected: string): seq<RatingScale> {
    Keep(scales, OnScale(selected))
  }

  function LevelScore(r: RatingScale): TableRow {
    TableRow(r.level, r.ratingScore)
  }

  /** The body the builder produces: the selected scale's rows, mapped one to one. */
  function RatingScaleBody(scales: seq<RatingScale>, selected: string): seq<TableRow> {
    Map(ScaleRows(scales, selected), LevelScore)
  }

  /** The builder's loop: one `Tr` appended per filtered row. */
  method CreateRatingScaleTable(scales: seq<RatingScale>, selected: string) returns (table: Table)
    ensures table.header == ["Level", "Description"]
    ensures table.body == RatingScaleBody(scales, selected)
  {
    var filtered := ScaleRows(scales, selected);
    var rows: seq<TableRow> := [];
    var i := 0;
    while i < |filtered|
      invariant 0 <= i <= |filtered|
      invariant rows == Map(filtered[..i], LevelScore)
    {
      MapSnoc(filtered, i, LevelScore);
      rows := rows + [TableRow(filtered[i].level, filtered[i].ratingScore)];
      i := i + 1;
    }
    assert filtered[..i] == filtered;
    table := Table(Header, rows);
  }

  /**
   * Reading the rating-scale table one more row: the body grows by that
   * row's (level, score) pair exactly when the row is on the selected scale,
   * and otherwise stays as it was, so the body is the matching rows in file
   * order, none dropped, none repeated, none reordered.
   */
  lemma RatingScaleBodySnoc(scales: seq<RatingScale>, r: RatingScale, selected: string)
    ensures RatingScaleBody(scales + [r], selected)
         == RatingScaleBody(scales, selected) + (if r.scale == selected then [TableRow(r.level, r.ratingScore)] else [])
  {
    var p := OnScale(selected);
    KeepAppend(scales, [r], p);
    assert [r][1..] == [];
    MapAppend(Keep(scales, p), Keep([r], p), LevelScore);
  }

  /** The body has one row per matching input row and nothing else. */
  lemma RatingScaleBodyRows(scales: seq<RatingScale>, selected: string)
    ensures |RatingScaleBody(scales, selected)| == |ScaleRows(scales, selected)|
    ensures forall r :: r in scales && r.scale == selected ==> TableRow(r.level, r.ratingScore) in RatingScaleBody(scales, selected)
    ensures forall t :: t in RatingScaleBody(scales, selected) ==>
      exists r :: r in scales && r.scale == selected && t == TableRow(r.level, r.ratingScore)
  {
    var rows := ScaleRows(scales, selected);
    var body := RatingScaleBody(scales, selected);
    forall r | r in scales && r.scale == selected
      ensures TableRow(r.level, r.ratingScore) in body
    {
      var i :| 0 <= i < |rows| && rows[i] == r;
      assert body[i] == LevelScore(r);
    }
    forall t | t in body
      ensures exists r :: r in scales && r.scale == selected && t == TableRow(r.level, r.ratingScore)
    {
      var i :| 0 <= i < |body| && body[i] == t;
      assert rows[i] in rows;
    }
  }

  /** A scale that no row names gives an empty body (the header is still shown). */
  lemma UnknownScaleEmptyBody(scales: seq<RatingScale>, selected: string)
    requires forall r :: r in scales ==> r.scale != selected
    ensures RatingScaleBody(scales, selected) == []
  {
    KeepNone(scales, OnScale(selected));
  }

  /**
   * Selecting "1-5 Scale" from a table holding its two levels gives exactly
   * those two rows, in file order, whatever other scales the table holds.
   */
  lemma TwoLevelExample(other: RatingScale)
    requires other.scale != "1-5 Scale"
    ensures RatingScaleBody([RatingScale("1-5 Scale", 1, "Novice"), other, RatingScale("1-5 Scale", 2, "Intermediate")], "1-5 Scale")
         == [TableRow(1, "Novice"), TableRow(2, "Intermediate")]
  {
    var a, b := RatingScale("1-5 Scale", 1, "Novice"), RatingScale("1-5 Scale", 2, "Intermediate");
    RatingScaleBodySnoc([], a, "1-5 Scale");
    assert [a] + [other] == [a, other];
    RatingScaleBodySnoc([a], other, "1-5 Scale");
    assert [a, other] + [b] == [a, other, b];
    RatingScaleBodySnoc([a, other], b, "1-5 Scale");
    UnknownScaleEmptyBody([], "1-5 Scale");
  }
}
