/**
 * The browser's `localStorage` entry `jd-requests`: the whole collection,
 * read and written as one blob. Serialisation is the identity here.
 */
module Storage {
  import opened Wrappers
  import opened RequestModel

  class LocalStorage {
    /** The stored collection; `None` while the key is absent. */
    var blob: Option<seq<Request>>

    constructor ()
      ensures blob == None
    {
      blob := None;
    }

    /** `JSON.parse(localStorage.getItem("jd-requests") || "[]")`. */
    function Stored(): seq<Request>
      reads this
    {
      blob.GetOr([])
    }

    /** `localStorage.setItem("jd-requests", JSON.stringify(rs))`. */
    method SetRequests(rs: seq<Request>)
      modifies this
      ensures blob == Some(rs)
      ensures Stored() == rs
    {
      blob := Some(rs);
    }
  }
}
