/**
 * The browser's `createFormEntry(data, code)`: the same record as the
 * server's, read from a body whose fields are already grouped under
 * `personInfo` and `receiverInfo`.
 */
module ClientForm {
  import opened JsValue
  import opened FormEntry

  /** `personInfo: {...}`, read from `data.personInfo`. */
  function PersonOf(p: Value): PersonInfo
    requires !Nullish(p)
  {
    PersonInfo(Prop(p, "address"), Prop(p, "passport"), Prop(p, "FamilyName"),
               Prop(p, "SureName"), Prop(p, "name"), Prop(p, "phoneNumber"))
  }

  /** `receiverInfo: {...}`, read from `data.receiverInfo`. */
  function ReceiverOf(q: Value): ReceiverInfo
    requires !Nullish(q)
  {
    ReceiverInfo(Prop(q, "address2"), Prop(q, "passport2"), Prop(q, "receiverFamilyName"),
                 Prop(q, "receiverSureName"), Prop(q, "receiverName"), Prop(q, "receiverPhoneNumber"))
  }

  /**
   * `createFormEntry(data, code)` of the client; reading a group of a
   * `null` or `undefined` body, or a field of a missing group, throws.
   */
  function CreateClientEntry(data: Value, code: string, now: int): (r: Built)
    ensures r.Built? ==> r.entry.id == code && r.entry.createdAt == now
  {
    if Nullish(data) then TypeError
    else
      var p := Prop(data, "personInfo");
      if Nullish(p) then TypeError
      else
        var q := Prop(data, "receiverInfo");
        if Nullish(q) then TypeError
        else Built(Entry(code, now, PersonOf(p), ReceiverOf(q)))
  }

  /** The client throws exactly when the body or one of its two groups is `null` or `undefined`. */
  lemma ClientThrowsIff(data: Value, code: string, now: int)
    ensures CreateClientEntry(data, code, now).TypeError? <==>
      Nullish(data) || Nullish(Prop(data, "personInfo")) || Nullish(Prop(data, "receiverInfo"))
  {
  }

  /** The properties of each group the client reads. */
  const PERSON_KEYS: seq<string> := ["address", "passport", "FamilyName", "SureName", "name", "phoneNumber"]
  const RECEIVER_KEYS: seq<string> := [
    "address2", "passport2", "receiverFamilyName", "receiverSureName", "receiverName", "receiverPhoneNumber"
  ]

  /**
   * Two bodies whose groups agree on the six properties read give the same
   * record: everything else in the body and in the groups is dropped.
   */
  lemma ClientOnlyReadFieldsMatter(d1: Value, d2: Value, code: string, now: int)
    requires !Nullish(d1) && !Nullish(d2)
    requires !Nullish(Prop(d1, "personInfo")) && !Nullish(Prop(d2, "personInfo"))
    requires !Nullish(Prop(d1, "receiverInfo")) && !Nullish(Prop(d2, "receiverInfo"))
    requires forall i :: 0 <= i < |PERSON_KEYS| ==>
      Prop(Prop(d1, "personInfo"), PERSON_KEYS[i]) == Prop(Prop(d2, "personInfo"), PERSON_KEYS[i])
    requires forall i :: 0 <= i < |RECEIVER_KEYS| ==>
      Prop(Prop(d1, "receiverInfo"), RECEIVER_KEYS[i]) == Prop(Prop(d2, "receiverInfo"), RECEIVER_KEYS[i])
    ensures CreateClientEntry(d1, code, now) == CreateClientEntry(d2, code, now)
  {
    var p1, p2 := Prop(d1, "personInfo"), Prop(d2, "personInfo");
    var q1, q2 := Prop(d1, "receiverInfo"), Prop(d2, "receiverInfo");
    assert Prop(p1, PERSON_KEYS[0]) == Prop(p2, PERSON_KEYS[0]);
    assert Prop(p1, PERSON_KEYS[1]) == Prop(p2, PERSON_KEYS[1]);
    assert Prop(p1, PERSON_KEYS[2]) == Prop(p2, PERSON_KEYS[2]);
    assert Prop(p1, PERSON_KEYS[3]) == Prop(p2, PERSON_KEYS[3]);
    assert Prop(p1, PERSON_KEYS[4]) == Prop(p2, PERSON_KEYS[4]);
    assert Prop(p1, PERSON_KEYS[5]) == Prop(p2, PERSON_KEYS[5]);
    assert Prop(q1, RECEIVER_KEYS[0]) == Prop(q2, RECEIVER_KEYS[0]);
    assert Prop(q1, RECEIVER_KEYS[1]) == Prop(q2, RECEIVER_KEYS[1]);
    assert Prop(q1, RECEIVER_KEYS[2]) == Prop(q2, RECEIVER_KEYS[2]);
    assert Prop(q1, RECEIVER_KEYS[3]) == Prop(q2, RECEIVER_KEYS[3]);
    assert Prop(q1, RECEIVER_KEYS[4]) == Prop(q2, RECEIVER_KEYS[4]);
    assert Prop(q1, RECEIVER_KEYS[5]) == Prop(q2, RECEIVER_KEYS[5]);
  }

  /** A `personInfo` group holding six values under the names the client reads. */
  function PersonGroup(address: Value, passport: Value, familyName: Value,
                       sureName: Value, name: Value, phoneNumber: Value): Value
  {
    Obj(map["address" := address, "passport" := passport, "FamilyName" := familyName,
            "SureName" := sureName, "name" := name, "phoneNumber" := phoneNumber])
  }

  /** A `receiverInfo` group holding six values under the names the client reads. */
  function ReceiverGroup(address2: Value, passport2: Value, familyName: Value,
                         sureName: Value, name: Value, phoneNumber: Value): Value
  {
    Obj(map["address2" := address2, "passport2" := passport2, "receiverFamilyName" := familyName,
            "receiverSureName" := sureName, "receiverName" := name, "receiverPhoneNumber" := phoneNumber])
  }

  /** The nested body that holds the flat body's twelve values under the client's names. */
  function Grouped(data: Value): Value
    requires !Nullish(data)
  {
    Obj(map[
      "personInfo" := PersonGroup(Prop(data, "address"), Prop(data, "passport"), Prop(data, "FamilyName"),
                                  Prop(data, "Surname"), Prop(data, "name"), Prop(data, "phoneNumber")),
      "receiverInfo" := ReceiverGroup(Prop(data, "address2"), Prop(data, "passport2"),
                                      Prop(data, "receiverFamilyName"), Prop(data, "receiverSurename"),
                                      Prop(data, "receiverName"), Prop(data, "receiverPhoneNumber"))])
  }

  /** The client reads back each value of a group under the name it was stored. */
  lemma PersonOfGroup(address: Value, passport: Value, familyName: Value,
                      sureName: Value, name: Value, phoneNumber: Value)
    ensures PersonOf(PersonGroup(address, passport, familyName, sureName, name, phoneNumber))
         == PersonInfo(address, passport, familyName, sureName, name, phoneNumber)
  {
    var m := PersonGroup(address, passport, familyName, sureName, name, phoneNumber).fields;
    assert m["address"] == address && m["passport"] == passport && m["FamilyName"] == familyName;
    assert m["SureName"] == sureName && m["name"] == name && m["phoneNumber"] == phoneNumber;
  }

  lemma ReceiverOfGroup(address2: Value, passport2: Value, familyName: Value,
                        sureName: Value, name: Value, phoneNumber: Value)
    ensures ReceiverOf(ReceiverGroup(address2, passport2, familyName, sureName, name, phoneNumber))
         == ReceiverInfo(address2, passport2, familyName, sureName, name, phoneNumber)
  {
    var m := ReceiverGroup(address2, passport2, familyName, sureName, name, phoneNumber).fields;
    assert m["address2"] == address2 && m["passport2"] == passport2 && m["receiverFamilyName"] == familyName;
    assert m["receiverSureName"] == sureName && m["receiverName"] == name && m["receiverPhoneNumber"] == phoneNumber;
  }

  /**
   * The two builders agree: the server's record of a flat body is the
   * client's record of the same values grouped, with `Surname` and
   * `receiverSurename` moved to `SureName` and `receiverSureName`.
   */
  lemma ServerIsClientOfGrouped(data: Value, code: string, now: int)
    requires !Nullish(data)
    ensures CreateClientEntry(Grouped(data), code, now) == CreateFormEntry(data, code, now)
  {
    var g := Grouped(data);
    assert Prop(g, "personInfo") == g.fields["personInfo"];
    assert Prop(g, "receiverInfo") == g.fields["receiverInfo"];
    PersonOfGroup(Prop(data, "address"), Prop(data, "passport"), Prop(data, "FamilyName"),
                  Prop(data, "Surname"), Prop(data, "name"), Prop(data, "phoneNumber"));
    ReceiverOfGroup(Prop(data, "address2"), Prop(data, "passport2"), Prop(data, "receiverFamilyName"),
                    Prop(data, "receiverSurename"), Prop(data, "receiverName"), Prop(data, "receiverPhoneNumber"));
  }
}
