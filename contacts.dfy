/**
 * The contact table as the scheduler sees it once the spreadsheet has been
 * read: one row per contact with the five columns email, company, location,
 * initial_mail_sent and followup_mail_sent. A cell is either missing (the
 * spreadsheet returned a short row) or holds text.
 */
module Contacts {

  datatype Cell = Missing | Text(value: string)

  datatype Row = Row(email: Cell, company: Cell, location: Cell,
                     initialSent: Cell, followupSent: Cell)

  /** The placeholder the sheet uses for "no value". */
  const SENTINEL: string := "NA"

  /** The text of a cell; a missing cell reads as empty (and is falsy, like None). */
  function Str(c: Cell): string {
    match c
    case Missing => ""
    case Text(v) => v
  }

  predicate CellNormalized(c: Cell) {
    c.Text? && c.value != SENTINEL
  }

  predicate RowNormalized(r: Row) {
    && CellNormalized(r.email) && CellNormalized(r.company) && CellNormalized(r.location)
    && CellNormalized(r.initialSent) && CellNormalized(r.followupSent)
  }

  predicate Normalized(rows: seq<Row>) {
    forall j :: 0 <= j < |rows| ==> RowNormalized(rows[j])
  }

  /** Cell d is what cleaning c must give: c itself if it already holds text other than "NA", else "". */
  predicate Cleaned(c: Cell, d: Cell) {
    (CellNormalized(c) ==> d == c) && (!CellNormalized(c) ==> d == Text(""))
  }

  /** Row n is row r cleaned cell by cell. */
  predicate RowCleaned(r: Row, n: Row) {
    && Cleaned(r.email, n.email) && Cleaned(r.company, n.company)
    && Cleaned(r.location, n.location) && Cleaned(r.initialSent, n.initialSent)
    && Cleaned(r.followupSent, n.followupSent)
  }

  /** fillna("") followed by replace("NA", ""), applied to one cell. */
  function NormalizeCell(c: Cell): (r: Cell)
    ensures CellNormalized(r)
    ensures CellNormalized(c) ==> r == c
    ensures !CellNormalized(c) ==> r == Text("")
    ensures Str(r) == (if Str(c) == SENTINEL then "" else Str(c))
  {
    match c
    case Missing => Text("")
    case Text(v) => if v == SENTINEL then Text("") else c
  }

  function NormalizeRow(r: Row): (n: Row)
    ensures RowNormalized(n)
    ensures RowCleaned(r, n)
    ensures RowNormalized(r) ==> n == r
  {
    Row(NormalizeCell(r.email), NormalizeCell(r.company), NormalizeCell(r.location),
        NormalizeCell(r.initialSent), NormalizeCell(r.followupSent))
  }

  function NormalizeTable(rows: seq<Row>): (r: seq<Row>)
    ensures |r| == |rows| && Normalized(r)
    ensures forall j :: 0 <= j < |rows| ==> RowCleaned(rows[j], r[j])
    ensures Normalized(rows) ==> r == rows
  {
    seq(|rows|, j requires 0 <= j < |rows| => NormalizeRow(rows[j]))
  }

  /** Normalise every cell of the table in place. */
  method Normalize(a: array<Row>)
    modifies a
    ensures a[..] == NormalizeTable(old(a[..]))
  {
    for i := 0 to a.Length
      invariant forall j :: 0 <= j < i ==> a[j] == NormalizeRow(old(a[j]))
      invariant forall j :: i <= j < a.Length ==> a[j] == old(a[j])
    {
      a[i] := NormalizeRow(a[i]);
    }
  }

  /** Normalising twice changes nothing more than normalising once. */
  lemma NormalizeIdempotent(r: Row)
    ensures NormalizeRow(NormalizeRow(r)) == NormalizeRow(r)
  {
  }
}
