/**
 * The stored form record and the server's `createFormEntry(data, code)`,
 * which reads twelve properties of a flat body.  `Date.now()` is the
 * parameter `now`.
 */
module FormEntry {
  import opened JsValue

  datatype PersonInfo = PersonInfo(
    address: Value, passport: Value, FamilyName: Value,
    SureName: Value, name: Value, phoneNumber: Value)

  datatype ReceiverInfo = ReceiverInfo(
    address2: Value, passport2: Value, receiverFamilyName: Value,
    receiverSureName: Value, receiverName: Value, receiverPhoneNumber: Value)

  datatype Entry = Entry(id: string, createdAt: int, personInfo: PersonInfo, receiverInfo: ReceiverInfo)

  /** The outcome of building a record: the record, or the `TypeError` of a property read on `null` or `undefined`. */
  datatype Built = Built(entry: Entry) | TypeError

  /** The properties of the body the server reads, in the order it reads them. */
  const FLAT_KEYS: seq<string> := [
    "address", "passport", "FamilyName", "Surname", "name", "phoneNumber",
    "address2", "passport2", "receiverFamilyName", "receiverSurename", "receiverName", "receiverPhoneNumber"
  ]

  /** `createFormEntry(data, code)` of the server. */
  function CreateFormEntry(data: Value, code: string, now: int): (r: Built)
    ensures r.TypeError? <==> Nullish(data)
    ensures r.Built? ==> r.entry.id == code && r.entry.createdAt == now
  {
    if Nullish(data) then TypeError
    else Built(Entry(code, now,
      PersonInfo(Prop(data, "address"), Prop(data, "passport"), Prop(data, "FamilyName"),
                 Prop(data, "Surname"), Prop(data, "name"), Prop(data, "phoneNumber")),
      ReceiverInfo(Prop(data, "address2"), Prop(data, "passport2"), Prop(data, "receiverFamilyName"),
                   Prop(data, "receiverSurename"), Prop(data, "receiverName"), Prop(data, "receiverPhoneNumber"))))
  }

  /** Two bodies that agree on the twelve properties read give the same record: every other field is dropped. */
  lemma OnlyReadFieldsMatter(d1: Value, d2: Value, code: string, now: int)
    requires !Nullish(d1) && !Nullish(d2)
    requires forall i :: 0 <= i < |FLAT_KEYS| ==> Prop(d1, FLAT_KEYS[i]) == Prop(d2, FLAT_KEYS[i])
    ensures CreateFormEntry(d1, code, now) == CreateFormEntry(d2, code, now)
  {
    assert Prop(d1, FLAT_KEYS[0]) == Prop(d2, FLAT_KEYS[0]);
    assert Prop(d1, FLAT_KEYS[1]) == Prop(d2, FLAT_KEYS[1]);
    assert Prop(d1, FLAT_KEYS[2]) == Prop(d2, FLAT_KEYS[2]);
    assert Prop(d1, FLAT_KEYS[3]) == Prop(d2, FLAT_KEYS[3]);
    assert Prop(d1, FLAT_KEYS[4]) == Prop(d2, FLAT_KEYS[4]);
    assert Prop(d1, FLAT_KEYS[5]) == Prop(d2, FLAT_KEYS[5]);
    assert Prop(d1, FLAT_KEYS[6]) == Prop(d2, FLAT_KEYS[6]);
    assert Prop(d1, FLAT_KEYS[7]) == Prop(d2, FLAT_KEYS[7]);
    assert Prop(d1, FLAT_KEYS[8]) == Prop(d2, FLAT_KEYS[8]);
    assert Prop(d1, FLAT_KEYS[9]) == Prop(d2, FLAT_KEYS[9]);
    assert Prop(d1, FLAT_KEYS[10]) == Prop(d2, FLAT_KEYS[10]);
    assert Prop(d1, FLAT_KEYS[11]) == Prop(d2, FLAT_KEYS[11]);
  }

  /**
   * On an object body, `SureName` comes from the key `Surname` and
   * `receiverSureName` from `receiverSurename`; the ten other fields come
   * from the key of their own name; a missing key gives `undefined`.
   */
  lemma FlatFieldSources(m: map<string, Value>, code: string, now: int)
    ensures var e := CreateFormEntry(Obj(m), code, now).entry;
      var get := (k: string) => if k in m then m[k] else Undefined;
      && e.personInfo == PersonInfo(get("address"), get("passport"), get("FamilyName"),
                                    get("Surname"), get("name"), get("phoneNumber"))
      && e.receiverInfo == ReceiverInfo(get("address2"), get("passport2"), get("receiverFamilyName"),
                                        get("receiverSurename"), get("receiverName"), get("receiverPhoneNumber"))
  {
  }

  /**
   * A body in the shape of a stored record (the groups nested under
   * `personInfo` and `receiverInfo`) has none of the flat keys, so every
   * field of the record it gives is `undefined`.
   */
  lemma NestedBodyGivesUndefined(m: map<string, Value>, code: string, now: int)
    requires forall i :: 0 <= i < |FLAT_KEYS| ==> FLAT_KEYS[i] !in m
    ensures var e := CreateFormEntry(Obj(m), code, now).entry;
      && e.personInfo == PersonInfo(Undefined, Undefined, Undefined, Undefined, Undefined, Undefined)
      && e.receiverInfo == ReceiverInfo(Undefined, Undefined, Undefined, Undefined, Undefined, Undefined)
  {
    assert FLAT_KEYS[0] !in m && FLAT_KEYS[1] !in m && FLAT_KEYS[2] !in m && FLAT_KEYS[3] !in m;
    assert FLAT_KEYS[4] !in m && FLAT_KEYS[5] !in m && FLAT_KEYS[6] !in m && FLAT_KEYS[7] !in m;
    assert FLAT_KEYS[8] !in m && FLAT_KEYS[9] !in m && FLAT_KEYS[10] !in m && FLAT_KEYS[11] !in m;
  }
}
