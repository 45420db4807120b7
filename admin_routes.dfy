/**
 * The admin routes on `db.data.forms`: `GET /forms` answers the list,
 * `DELETE /forms` empties it and writes the store.
 */
module AdminRoutes {
  import opened SeqUtil
  import opened FormEntry
  import opened FormStore

  /** The JSON answer of `DELETE /forms`: `{ success: true }`, or status 500. */
  datatype DeleteReply = Deleted | DeleteFailed

  /**
   * `GET /forms`: initialises `db.data` and `forms` when missing and answers
   * the records as they were, in order; the file is not written.
   */
  method GetForms(db: FormDb) returns (forms: seq<Entry>)
    modifies db`data
    ensures forms == FormsOf(old(db.data))
    ensures db.data == Some(Initialized(old(db.data)))
    ensures FormsOf(db.data) == forms && OthersOf(db.data) == OthersOf(old(db.data))
  {
    db.EnsureForms();
    InitializedKeepsContents(old(db.data));
    forms := db.data.value.forms.value;
  }

  /**
   * `DELETE /forms`: `forms` becomes empty in memory before the write, and
   * stays empty when the write fails and the answer is 500; the other keys
   * of `db.data` are kept.
   */
  method DeleteForms(db: FormDb, writeFails: bool) returns (reply: DeleteReply)
    modifies db
    ensures db.data == Some(Root(Some([]), OthersOf(old(db.data))))
    ensures db.file == FileAfterWrite(db.adapterData, old(db.file), writeFails)
    ensures reply == if writeFails then DeleteFailed else Deleted
  {
    if db.data.None? {
      db.data := Some(Root(None, map[]));
    }
    db.data := Some(db.data.value.(forms := Some([])));
    var ok := db.Write(writeFails);
    if !ok {
      return DeleteFailed;
    }
    return Deleted;
  }
}
