/**
 * The form routes' list logic: `POST /submit` sanitises the body, builds a
 * record under a fresh four-digit code and appends it to `db.data.forms`;
 * `GET /lookup/:code` returns the first record whose `id` is the
 * normalised code.  The random draws of `nanoid` and `Date.now()` are
 * parameters, and so is whether `db.write()` throws.
 */
module FormRoutes {
  import opened SeqUtil
  import opened JsValue
  import opened Sanitizer
  import opened DataSanitizer
  import opened FormEntry
  import opened FormStore

  const CODE_ALPHABET: string := "0123456789"
  const CODE_LENGTH: nat := 4

  /** A code `nanoidNumbers()` can return. */
  predicate IsCode(c: string) {
    |c| == CODE_LENGTH && forall j :: 0 <= j < |c| ==> c[j] in CODE_ALPHABET
  }

  /** `customAlphabet("0123456789", 4)()`, one alphabet position drawn per character. */
  function NanoidNumbers(draws: seq<nat>): (code: string)
    requires |draws| == CODE_LENGTH
    ensures IsCode(code)
  {
    seq(CODE_LENGTH, i requires 0 <= i < CODE_LENGTH => CODE_ALPHABET[draws[i] % |CODE_ALPHABET|])
  }

  /** Every four-digit code is drawn by some draws. */
  lemma EveryCodeDrawable(c: string)
    requires IsCode(c)
    ensures exists draws: seq<nat> :: |draws| == CODE_LENGTH && NanoidNumbers(draws) == c
  {
    var draws := seq(CODE_LENGTH, i requires 0 <= i < CODE_LENGTH => (c[i] as int - '0' as int) as nat);
    assert forall i :: 0 <= i < CODE_LENGTH ==> c[i] in CODE_ALPHABET;
    assert forall i :: 0 <= i < CODE_LENGTH ==> CODE_ALPHABET[draws[i] % |CODE_ALPHABET|] == c[i];
    assert NanoidNumbers(draws) == c;
  }

  /** The JSON answer of `/submit`: `{ success: true, code }`, or status 500. */
  datatype SubmitReply = Submitted(code: string) | SubmitFailed

  /** The JSON answer of `/lookup/:code`: the record, or status 404. */
  datatype LookupReply = Found(entry: Entry) | NotFound

  /** The record `/submit` stores for a body. */
  function SubmittedEntry(body: Value, code: string, now: int): Entry {
    CreateFormEntry(SanitizedData(body), code, now).entry
  }

  /**
   * `POST /submit`: the new record goes at the end of `forms`, after
   * initialising `db.data` and `forms` when they are missing; nothing else
   * in `db.data` changes.  A failing write answers 500 and keeps the new
   * record in memory; a successful one leaves the adapter's copy in the file.
   */
  method Submit(db: FormDb, body: Value, draws: seq<nat>, now: int, writeFails: bool) returns (reply: SubmitReply)
    requires |draws| == CODE_LENGTH
    modifies db
    ensures var code := NanoidNumbers(draws);
      db.data == Some(Root(Some(FormsOf(old(db.data)) + [SubmittedEntry(body, code, now)]), OthersOf(old(db.data))))
    ensures db.file == FileAfterWrite(db.adapterData, old(db.file), writeFails)
    ensures reply == if writeFails then SubmitFailed else Submitted(NanoidNumbers(draws))
  {
    var safeData := SanitizeData(body);
    var code := NanoidNumbers(draws);
    var built := CreateFormEntry(safeData, code, now);
    var entry := built.entry;
    db.EnsureForms();
    var root := db.data.value;
    db.data := Some(root.(forms := Some(root.forms.value + [entry])));
    var ok := db.Write(writeFails);
    if !ok {
      return SubmitFailed;
    }
    return Submitted(code);
  }

  /** The record `/submit` stores carries the code it answers with, at its time stamp, built from the sanitised body. */
  lemma SubmittedEntryIsSanitized(body: Value, code: string, now: int)
    ensures SubmittedEntry(body, code, now).id == code
    ensures SubmittedEntry(body, code, now).createdAt == now
    ensures CreateFormEntry(SanitizedData(body), code, now) == Built(SubmittedEntry(body, code, now))
  {
  }

  /** `toUpperCase()` on ASCII letters; every other character is kept. */
  function ToUpperAscii(s: string): (r: string)
    ensures |r| == |s|
    ensures forall j :: 0 <= j < |s| ==> r[j] == if 'a' <= s[j] <= 'z' then (s[j] as int - 32) as char else s[j]
  {
    seq(|s|, j requires 0 <= j < |s| => if 'a' <= s[j] <= 'z' then (s[j] as int - 32) as char else s[j])
  }

  /** The id `/lookup/:code` searches for. */
  function LookupKey(raw: string): string {
    Sanitize(ToUpperAscii(raw))
  }

  /** `forms.find(f => f.id === key)` as a position. */
  function FirstWithId(forms: seq<Entry>, key: string): (r: Option<nat>)
    ensures r.Some? ==> r.value < |forms| && forms[r.value].id == key
    ensures r.Some? ==> forall j :: 0 <= j < r.value ==> forms[j].id != key
    ensures r.None? ==> forall j :: 0 <= j < |forms| ==> forms[j].id != key
  {
    if forms == [] then None
    else if forms[0].id == key then Some(0)
    else
      var r := FirstWithId(forms[1..], key);
      if r.Some? then Some(r.value + 1) else None
  }

  /**
   * `GET /lookup/:code`: initialises `db.data` and `forms` when missing,
   * then answers the first record whose `id` is the sanitised upper-case
   * code, or 404.
   */
  method Lookup(db: FormDb, code: string) returns (reply: LookupReply)
    modifies db`data
    ensures db.data == Some(Initialized(old(db.data)))
    ensures var forms := FormsOf(old(db.data));
      match FirstWithId(forms, LookupKey(code))
      case Some(i) => reply == Found(forms[i])
      case None => reply == NotFound
  {
    db.EnsureForms();
    var key := Sanitize(ToUpperAscii(code));
    var forms := db.data.value.forms.value;
    var found := FirstWithId(forms, key);
    if found.None? {
      return NotFound;
    }
    return Found(forms[found.value]);
  }

  /** Upper-casing a string gives a code of digits only when the string is that code. */
  lemma UpperOfCode(c: string, raw: string)
    requires IsCode(c)
    ensures ToUpperAscii(raw) == c <==> raw == c
  {
    var t := ToUpperAscii(raw);
    if t == c {
      assert forall j :: 0 <= j < |raw| ==> raw[j] == t[j];
    }
    if raw == c {
      assert forall j :: 0 <= j < |c| ==> t[j] == c[j];
    }
  }

  lemma CodeIsPlain(c: string)
    requires IsCode(c)
    ensures forall j :: 0 <= j < |c| ==> c[j] != '&' && c[j] !in SPECIALS
  {
  }

  /** A code of digits is its own lookup key, and it is the lookup key of no other string. */
  lemma LookupKeyOfCode(c: string, raw: string)
    requires IsCode(c)
    ensures LookupKey(c) == c
    ensures LookupKey(raw) == c <==> raw == c
  {
    CodeIsPlain(c);
    UpperOfCode(c, c);
    UpperOfCode(c, raw);
    SanitizeFixesPlain(c);
    var t := ToUpperAscii(raw);
    if Sanitize(t) == c {
      SanitizeWithoutAmpersand(t);
    }
  }

  /**
   * Looking up the code of a record just appended finds that record,
   * unless an earlier record already has the same code; then it finds the
   * earliest of those.
   */
  lemma {:induction false} LookupAfterSubmit(forms: seq<Entry>, e: Entry)
    ensures FirstWithId(forms + [e], e.id) ==
      if FirstWithId(forms, e.id).Some? then FirstWithId(forms, e.id) else Some(|forms|)
  {
    if forms == [] {
      assert forms + [e] == [e];
    } else {
      assert (forms + [e])[0] == forms[0];
      if forms[0].id != e.id {
        assert (forms + [e])[1..] == forms[1..] + [e];
        LookupAfterSubmit(forms[1..], e);
      }
    }
  }

  /**
   * As written, a submission never reaches the file: after a start-up that
   * found no readable file (the adapter holds `{ forms: [] }`), the record
   * is found in memory, but not among the records a successful write leaves
   * in the file.
   */
  lemma SubmitLostOnDisk(d: Option<Root>, body: Value, draws: seq<nat>, now: int, file: Option<Root>)
    requires |draws| == CODE_LENGTH
    ensures var code := NanoidNumbers(draws);
      var after := Some(Root(Some(FormsOf(d) + [SubmittedEntry(body, code, now)]), OthersOf(d)));
      && FirstWithId(FormsOf(after), code).Some?
      && FirstWithId(FormsOf(FileAfterWrite(Root(Some([]), map[]), file, false)), code).None?
  {
    var code := NanoidNumbers(draws);
    var e := SubmittedEntry(body, code, now);
    SubmittedEntryIsSanitized(body, code, now);
    LookupAfterSubmit(FormsOf(d), e);
  }

  /**
   * With a write that stores `db.data`, the file holds the records in
   * memory after the submission, and a lookup of the answered code in them
   * finds a record with that code.
   */
  lemma SubmitKeptOnDisk(d: Option<Root>, body: Value, draws: seq<nat>, now: int, file: Option<Root>)
    requires |draws| == CODE_LENGTH
    ensures var code := NanoidNumbers(draws);
      var after := Some(Root(Some(FormsOf(d) + [SubmittedEntry(body, code, now)]), OthersOf(d)));
      var stored := FormsOf(FileAfterIntendedWrite(after, file, false));
      && stored == FormsOf(d) + [SubmittedEntry(body, code, now)]
      && FirstWithId(stored, code).Some?
      && stored[FirstWithId(stored, code).value].id == code
  {
    var code := NanoidNumbers(draws);
    var e := SubmittedEntry(body, code, now);
    SubmittedEntryIsSanitized(body, code, now);
    LookupAfterSubmit(FormsOf(d), e);
  }
}
