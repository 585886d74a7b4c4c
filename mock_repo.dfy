/** mockRepo of the router tests: the in-memory store the service runs against. */
module MockRepository {
  import opened Wrappers
  import opened Model

  /**
   * A user repository over a map keyed by email. Its storage is mockRepo's; the constant
   * saveFault says, from the users already stored and the user to save, which saves a
   * real store would refuse (a lost connection, an email already taken), and the mock
   * itself refuses none. The ghost log records every Save call.
   */
  class UserRepository {
    var users: map<string, User>
    ghost var saveCalls: seq<User>
    const saveFault: (map<string, User>, User) -> Option<string>

    /** Every user is stored under its own email. */
    ghost predicate Valid()
      reads this
    {
      forall e :: e in users ==> users[e].email == e
    }

    /** newMockRepo: an empty store whose every operation succeeds. */
    constructor NewMockRepo()
      ensures Valid() && users == map[] && saveCalls == []
      ensures forall stored, u :: saveFault(stored, u) == None
    {
      users := map[];
      saveCalls := [];
      saveFault := (_, _) => None;
    }

    /** An empty store whose saves fail as saveFault says of the current contents and the user. */
    constructor WithSaveFaults(saveFault: (map<string, User>, User) -> Option<string>)
      ensures Valid() && users == map[] && saveCalls == []
      ensures this.saveFault == saveFault
    {
      users := map[];
      saveCalls := [];
      this.saveFault := saveFault;
    }

    /** Save keys the user by its email, replacing any user stored under that email. */
    method Save(u: User) returns (err: Option<string>)
      requires Valid()
      modifies this
      ensures Valid()
      ensures saveCalls == old(saveCalls) + [u]
      ensures err == saveFault(old(users), u)
      ensures err.None? ==> users == old(users)[u.email := u]
      ensures err.None? ==> u.email in users && users[u.email] == u
      ensures err.None? ==> forall e :: e in old(users) && e != u.email ==> e in users && users[e] == old(users)[e]
      ensures err.Some? ==> users == old(users)
    {
      saveCalls := saveCalls + [u];
      err := saveFault(users, u);
      if err.None? {
        users := users[u.email := u];
      }
    }

    /** The user stored under the email, or nil; never an error. */
    method GetByEmail(email: string) returns (found: Option<User>, err: Option<string>)
      requires Valid()
      ensures err == None
      ensures found.Some? <==> email in users
      ensures found.Some? ==> found.value == users[email] && found.value.email == email
    {
      found := if email in users then Some(users[email]) else None;
      err := None;
    }

    /** Some stored user with the id (map order decides which), or nil when none has it; never an error. */
    method GetByID(id: string) returns (found: Option<User>, err: Option<string>)
      ensures err == None
      ensures found.Some? ==> found.value.id == id && found.value in users.Values
      ensures found.None? <==> forall e :: e in users ==> users[e].id != id
    {
      var rest := users.Keys;
      while rest != {}
        invariant rest <= users.Keys
        invariant forall e :: e in users.Keys - rest ==> users[e].id != id
        decreases rest
      {
        var e :| e in rest;
        if users[e].id == id {
          return Some(users[e]), None;
        }
        rest := rest - {e};
      }
      return None, None;
    }

    /** Every stored user exactly once, in map order; never an error. */
    method GetAll() returns (out: seq<User>, err: Option<string>)
      requires Valid()
      ensures err == None
      ensures |out| == |users|
      ensures forall e :: e in users ==> users[e] in out
      ensures forall i :: 0 <= i < |out| ==> out[i].email in users && users[out[i].email] == out[i]
      ensures forall i, k :: 0 <= i < k < |out| ==> out[i] != out[k]
    {
      out := [];
      var rest := users.Keys;
      while rest != {}
        invariant rest <= users.Keys
        invariant |out| + |rest| == |users.Keys|
        invariant forall i :: 0 <= i < |out| ==> out[i].email in users.Keys - rest && users[out[i].email] == out[i]
        invariant forall e :: e in users.Keys - rest ==> users[e] in out
        invariant forall i, k :: 0 <= i < k < |out| ==> out[i] != out[k]
        decreases rest
      {
        var e :| e in rest;
        out := out + [users[e]];
        rest := rest - {e};
      }
      err := None;
    }
  }
}
