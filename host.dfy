/** What the tables use of the host query engine: the key-column qualifiers of a
    "get" query and the row stream a "list" function writes to. */
module Host {

  /** A qualifier's value; only string values matter to these tables. */
  datatype QualValue = StringValue(s: string) | OtherValue

  /** `d.KeyColumnQuals[column].GetStringValue()`: a missing qualifier, or one
      whose value is not a string, reads as the empty string. */
  function QualString(quals: map<string, QualValue>, column: string): (s: string)
    ensures column in quals && quals[column].StringValue? ==> s == quals[column].s
    ensures (column !in quals || quals[column].OtherValue?) ==> s == ""
  {
    if column in quals && quals[column].StringValue? then quals[column].s else ""
  }

  /** The rows a list function has handed to the host with `d.StreamListItem`,
      in the order it handed them. */
  class RowStream<T> {
    var rows: seq<T>

    constructor ()
      ensures rows == []
    {
      rows := [];
    }

    method StreamListItem(item: T)
      modifies this
      ensures rows == old(rows) + [item]
    {
      rows := rows + [item];
    }
  }
}
