/**
 * The form server's lowdb instance as the routes use it: `db.data` in
 * memory, the adapter's own copy of the data, and what the data file holds.
 * `db.write()` hands `db.data` to the adapter, whose `write()` ignores it
 * and stores the adapter's copy, read once at start-up.  The encryption of
 * the file is not part of this model.
 */
module FormStore {
  import opened SeqUtil
  import opened JsValue
  import opened FormEntry

  /**
   * `db.data` when it is an object: its `forms` list (`None` when the key
   * is missing or falsy) and every other key.
   */
  datatype Root = Root(forms: Option<seq<Entry>>, others: map<string, Value>)

  /** The records of `db.data`, none when `db.data` or its `forms` is missing. */
  function FormsOf(d: Option<Root>): seq<Entry> {
    if d.Some? && d.value.forms.Some? then d.value.forms.value else []
  }

  /** The keys of `db.data` other than `forms`. */
  function OthersOf(d: Option<Root>): map<string, Value> {
    if d.Some? then d.value.others else map[]
  }

  /** `db.data` after `db.data ||= {}; db.data.forms ||= [];`. */
  function Initialized(d: Option<Root>): (r: Root)
    ensures r.forms.Some?
  {
    Root(Some(FormsOf(d)), OthersOf(d))
  }

  /**
   * Initialising keeps the records and the other keys, and initialising
   * twice is initialising once.
   */
  lemma InitializedKeepsContents(d: Option<Root>)
    ensures FormsOf(Some(Initialized(d))) == FormsOf(d)
    ensures OthersOf(Some(Initialized(d))) == OthersOf(d)
    ensures Initialized(Some(Initialized(d))) == Initialized(d)
    ensures d.Some? && d.value.forms.Some? ==> Initialized(d) == d.value
  {
  }

  /** What the file holds after `db.write()`: the adapter's copy, or the old contents when the write throws. */
  function FileAfterWrite(adapterData: Root, file: Option<Root>, fails: bool): Option<Root> {
    if fails then file else Some(adapterData)
  }

  /** What the file would hold after a write that stores `db.data`. */
  function FileAfterIntendedWrite(data: Option<Root>, file: Option<Root>, fails: bool): Option<Root> {
    if fails then file else data
  }

  class FormDb {
    /** `db.data`; `None` when it is `null` or `undefined`. */
    var data: Option<Root>
    /** The adapter's `this.data`: set by `adapter.read()` at start-up and never assigned again. */
    const adapterData: Root
    /** What the data file holds. */
    var file: Option<Root>

    /**
     * The module-level setup: the adapter holds `stored`, what its start-up
     * read produced, and `db.data` starts as lowdb's default `{ forms: [] }`,
     * not the file's contents.
     */
    constructor (stored: Root, file: Option<Root>)
      ensures data == Some(Root(Some([]), map[]))
      ensures adapterData == stored && this.file == file
    {
      data := Some(Root(Some([]), map[]));
      adapterData := stored;
      this.file := file;
    }

    /** `db.data ||= {}; db.data.forms ||= [];` */
    method EnsureForms()
      modifies this`data
      ensures data == Some(Initialized(old(data)))
    {
      if data.None? {
        data := Some(Root(None, map[]));
      }
      if data.value.forms.None? {
        data := Some(data.value.(forms := Some([])));
      }
    }

    /**
     * `await db.write()`: the adapter stores its own copy, not `db.data`;
     * `ok` is false when it throws, and the file is then unchanged.
     */
    method Write(fails: bool) returns (ok: bool)
      modifies this`file
      ensures ok == !fails
      ensures file == FileAfterWrite(adapterData, old(file), fails)
    {
      if fails {
        return false;
      }
      file := Some(adapterData);
      return true;
    }

    /** The write the routes evidently intend: it stores `db.data`. */
    method WriteData(fails: bool) returns (ok: bool)
      modifies this`file
      ensures ok == !fails
      ensures file == FileAfterIntendedWrite(data, old(file), fails)
    {
      if fails {
        return false;
      }
      file := data;
      return true;
    }
  }
}
