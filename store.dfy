/**
 * What reading one of the server's JSON files can give. The server reads a
 * file, treats blank content as empty and parses the rest; a missing or
 * unreadable file and a parse failure are caught by the handlers.
 */
module Store {
  import opened Json

  datatype Stored =
    | Absent              // the file is missing or cannot be read
    | Blank               // the content is empty once trimmed
    | Malformed           // `JSON.parse` throws
    | Parsed(value: Value) // `JSON.parse` succeeds

  /** What a successful `fs.writeFile(file, JSON.stringify(list))` leaves behind. */
  function Written(list: seq<Value>): (s: Stored)
    ensures AsList(s) == Some(list)
  {
    Parsed(Arr(list))
  }

  /**
   * The list a journal or ledger handler works on: a missing, blank or
   * malformed file counts as `[]`. When the file parses to something other
   * than an array, `unshift`/`push` on it throws, which is `None` here.
   */
  function AsList(s: Stored): (r: Option<seq<Value>>)
    ensures r == None <==> s.Parsed? && !s.value.Arr?
    ensures s.Parsed? && s.value.Arr? ==> r == Some(s.value.items)
    ensures !s.Parsed? ==> r == Some([])
  {
    match s
    case Absent => Some([])
    case Blank => Some([])
    case Malformed => Some([])
    case Parsed(v) => if v.Arr? then Some(v.items) else None
  }
}
