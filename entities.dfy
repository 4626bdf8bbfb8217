/** The records the remote API returns, and the rows the CSV writer receives. */
module Entities {
  import opened Common

  /** One lock-trigger audit record, with the fields the exports select.
      Every field is optional: the handlers read them with `entry.get(...)`
      or with `entry[...]` on keys the `$select` always returns, and JSON
      `null` reads as `None`. */
  datatype LogEntry = LogEntry(
    id: Option<string>,
    entryNo: Option<int>,
    lockTimestamp: Option<string>,
    receivedAt: Option<string>,
    boundLockId: Option<string>,
    boundCardId: Option<string>,
    contactId: Option<string>)

  /** A contact; the whole-account export selects `identifier`, the per-lock export `email`. */
  datatype Contact = Contact(id: string, identifier: Option<string>, email: Option<string>)

  /** An NFC transponder bound to the account. */
  datatype BoundCard = BoundCard(id: string, title: Option<string>)

  /** A lock bound to the account; `physicalLockId` is base64 text. */
  datatype BoundLock = BoundLock(id: string, title: Option<string>, physicalLockId: string)

  /** The id each collection is joined on. */
  function ContactKey(c: Contact): string { c.id }
  function CardKey(c: BoundCard): string { c.id }
  function LockKey(l: BoundLock): string { l.id }

  /** A non-null CSV field: text, or a JSON number (which the writer leaves unquoted). */
  datatype Value = Str(s: string) | Num(n: int)

  /** A CSV field; `None` is Python's `None`. */
  type Cell = Option<Value>

  type Row = seq<Cell>

  /** The field a JSON string (or null) becomes. */
  function Text(o: Option<string>): Cell
  {
    match o
    case None => None
    case Some(s) => Some(Str(s))
  }

  /** The field a JSON number (or null) becomes. */
  function Number(o: Option<int>): Cell
  {
    match o
    case None => None
    case Some(n) => Some(Num(n))
  }

  /** A header row: every name is a text field. */
  function Names(names: seq<string>): Row
  {
    seq(|names|, i requires 0 <= i < |names| => Some(Str(names[i])))
  }

  /** The `csv.writer` over an `io.StringIO` buffer: the rows written so far, in order. */
  class CsvWriter {
    var rows: seq<Row>

    constructor ()
      ensures rows == []
    {
      rows := [];
    }

    /** `writer.writerow(row)`: appends one row and changes nothing else. */
    method WriteRow(row: Row)
      modifies this
      ensures rows == old(rows) + [row]
    {
      rows := rows + [row];
    }
  }
}
