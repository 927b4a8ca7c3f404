/**
 * Rows of the six flat tables the dashboard loads at start-up, after the
 * column names were lower-cased and string cells were stripped.  Every table
 * is a `seq` of one of these records, kept in file order.
 */
module Tables {

  /** A cell that may be empty in the file (pandas reads it as NaN). */
  datatype Option<T> = None | Some(value: T)

  /** A row of the framework table: one sub-item of a competency. */
  datatype FrameworkItem = FrameworkItem(framework: string, competency: string, kind: string, subItem: string)

  /** A row of the definitions table. */
  datatype Definition = Definition(competency: string, definition: string)

  /** A row of the rating-scales table: a level of a named scale and its description. */
  datatype RatingScale = RatingScale(scale: string, level: int, ratingScore: string)

  /** A row of the spider-chart table: the level a position requires in a competency. */
  datatype Requirement = Requirement(position: string, competency: string, level: int)

  /** A row of the position sub-items table. */
  datatype PositionSubItem = PositionSubItem(position: string, competency: string, kind: string, subItem: string, level: int)

  /** A row of the organisation table; the manager cell may be empty. */
  datatype OrgNode = OrgNode(name: string, title: string, manager: Option<string>)
}
