/** model.User and its JSON encoding, fixed entirely by the struct's field tags. */
module Model {
  import opened Wrappers

  /** The user record: every field a Go string, the zero value being "". */
  datatype User = User(id: string, name: string, email: string, ip: string, country: string, passwordHash: string)

  /** The zero value of model.User. */
  const Blank := User("", "", "", "", "", "")

  /** A `*model.User`: the cell a handler's local user lives in, which the service updates in place. */
  class UserRef {
    var val: User

    constructor (u: User)
      ensures val == u
    {
      val := u;
    }
  }

  /** A JSON value, as far as encoding/json produces or consumes one here. */
  datatype Json = Null | Str(text: string) | Arr(items: seq<Json>) | Obj(members: seq<(string, Json)>)

  /** The JSON keys of the fields that carry a `json:"..."` name; PasswordHash has the tag "-" and no key. */
  const UserKeys: set<string> := {"id", "name", "email", "ip", "country"}

  /** The keys of an object's members, in order. */
  function KeysOf(members: seq<(string, Json)>): seq<string>
  {
    seq(|members|, i requires 0 <= i < |members| => members[i].0)
  }

  /** The member `key: Str(value)`, or nothing when an `omitempty` field is empty. */
  function OmitEmpty(key: string, value: string): seq<(string, Json)>
  {
    if value == "" then [] else [(key, Str(value))]
  }

  /**
   * What encoding/json emits for a User: fields in declaration order, "id" and "country"
   * left out when empty, PasswordHash never.
   */
  function EncodeUser(u: User): (j: Json)
    ensures j.Obj? && |j.members| == 3 + |OmitEmpty("id", u.id)| + |OmitEmpty("country", u.country)|
  {
    Obj(OmitEmpty("id", u.id)
        + [("name", Str(u.name)), ("email", Str(u.email)), ("ip", Str(u.ip))]
        + OmitEmpty("country", u.country))
  }

  /** The keys an encoded user carries: "id" and "country" exactly when non-empty, the other three always, nothing else, none twice. */
  lemma EncodedKeys(u: User)
    ensures var ks := KeysOf(EncodeUser(u).members);
      && ("id" in ks <==> u.id != "")
      && ("country" in ks <==> u.country != "")
      && "name" in ks && "email" in ks && "ip" in ks
      && (forall k :: k in ks ==> k in UserKeys)
      && (forall i, k :: 0 <= i < k < |ks| ==> ks[i] != ks[k])
  {
    var ks := KeysOf(EncodeUser(u).members);
    var named := ["name", "email", "ip"];
    if u.id == "" && u.country == "" {
      assert ks == named;
    } else if u.id == "" {
      assert ks == named + ["country"];
    } else if u.country == "" {
      assert ks == ["id"] + named;
    } else {
      assert ks == ["id"] + named + ["country"];
    }
  }

  /** A slice of users; both repositories hand back a nil slice when there is no user, which encodes as null. */
  function EncodeUsers(users: seq<User>): (j: Json)
    ensures users == [] ==> j == Null
    ensures users != [] ==> j.Arr? && |j.items| == |users|
    ensures users != [] ==> forall i :: 0 <= i < |users| ==> j.items[i] == EncodeUser(users[i])
  {
    if users == [] then Null else Arr(seq(|users|, i requires 0 <= i < |users| => EncodeUser(users[i])))
  }

  /**
   * json.Unmarshal of one member into a User: null and unknown keys change nothing,
   * a known key needs a string.
   */
  function SetField(u: User, key: string, v: Json): Option<User>
  {
    if v.Null? || key !in UserKeys then Some(u)
    else if !v.Str? then None
    else if key == "id" then Some(u.(id := v.text))
    else if key == "name" then Some(u.(name := v.text))
    else if key == "email" then Some(u.(email := v.text))
    else if key == "ip" then Some(u.(ip := v.text))
    else Some(u.(country := v.text))
  }

  /** The members applied in order, so the last of two equal keys wins. */
  function DecodeMembers(u: User, members: seq<(string, Json)>): (r: Option<User>)
    ensures r.Some? ==> r.value.passwordHash == u.passwordHash
    decreases |members|
  {
    if members == [] then Some(u)
    else match SetField(u, members[0].0, members[0].1)
      case None => None
      case Some(u') => DecodeMembers(u', members[1..])
  }

  /** json.Unmarshal into a zero User; the password hash can never be read back. */
  function DecodeUser(j: Json): (r: Option<User>)
    ensures r.Some? ==> r.value.passwordHash == ""
    ensures j.Null? ==> r == Some(Blank)
    ensures !j.Obj? && !j.Null? ==> r.None?
  {
    match j
    case Null => Some(Blank)
    case Obj(members) => DecodeMembers(Blank, members)
    case _ => None
  }

  /** The encoding does not depend on the password hash at all. */
  lemma EncodeIgnoresHash(u: User, hash: string)
    ensures EncodeUser(u.(passwordHash := hash)) == EncodeUser(u)
  {
  }

  /** Decoding an encoded user gives it back, except for the hash, which comes back empty. */
  lemma {:induction false} RoundTrip(u: User)
    ensures DecodeUser(EncodeUser(u)) == Some(u.(passwordHash := ""))
  {
    var named := [("name", Str(u.name)), ("email", Str(u.email)), ("ip", Str(u.ip))];
    var start := Blank.(id := u.id);
    assert DecodeMembers(Blank, OmitEmpty("id", u.id) + named + OmitEmpty("country", u.country))
        == DecodeMembers(start, named + OmitEmpty("country", u.country)) by {
      if u.id != "" {
        var ms := OmitEmpty("id", u.id) + named + OmitEmpty("country", u.country);
        assert ms[1..] == named + OmitEmpty("country", u.country);
      } else {
        assert OmitEmpty("id", u.id) + named + OmitEmpty("country", u.country) == named + OmitEmpty("country", u.country);
      }
    }
    var rest := OmitEmpty("country", u.country);
    var full := named + rest;
    var s1 := start.(name := u.name);
    var s2 := s1.(email := u.email);
    var s3 := s2.(ip := u.ip);
    assert full[1..] == named[1..] + rest;
    assert full[1..][1..] == named[2..] + rest;
    assert full[1..][1..][1..] == rest;
    calc {
      DecodeMembers(start, full);
      DecodeMembers(s1, full[1..]);
      DecodeMembers(s2, full[1..][1..]);
      DecodeMembers(s3, rest);
    }
    if u.country != "" {
      assert rest[1..] == [];
      assert DecodeMembers(s3, rest) == DecodeMembers(s3.(country := u.country), []);
    }
  }
}
