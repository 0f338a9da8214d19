/**
 * The TinyDB database the logger writes to, seen as what this program uses
 * of it: an insertion-ordered list of documents that only grows.
 */
module Store {
  import opened DeviceReader

  class RecordStore {
    /** The stored documents, oldest first. */
    var records: seq<Uevent>

    /** Opens a database that already holds `initial`. */
    constructor (initial: seq<Uevent>)
      ensures records == initial
    {
      records := initial;
    }

    /** `db.insert(uevent)`: appends one document and changes nothing else. */
    method Insert(u: Uevent)
      modifies this
      ensures records == old(records) + [u]
    {
      records := records + [u];
    }
  }
}
