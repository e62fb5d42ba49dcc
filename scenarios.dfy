/** Callers of the metadata store: sequences of calls whose combined outcome
    follows from the contracts of the single operations. Each starts from a
    freshly opened store over the given database contents. */
module Scenarios {
  import opened Store

  /** A successful Put is found by a following Get with the same credential. */
  method PutThenGet(authenticate: string -> bool, codec: LawfulCodec,
                    objects: Option<Bucket<seq<byte>>>, v: RequestVars)
    returns (put: Result<MetaObject>, got: Result<MetaObject>)
    requires NoEmptyKey(objects)
    ensures put.Ok? && !put.value.existing ==> got == Ok(MetaObject(v.oid, v.size, false))
    ensures put.Ok? ==> got.Ok? && got.value.oid == put.value.oid && got.value.size == put.value.size
    ensures !authenticate(v.authorization) ==> put == Err(AuthError) && got == Err(AuthError)
  {
    var s := new MetaStore(authenticate, codec, None, objects, true);
    put := s.Put(v);
    got := s.Get(v);
  }

  /** On a fresh database the first Put writes and the second, with another
      size, finds the first record and leaves it as it was. */
  method PutTwiceOnEmpty(authenticate: string -> bool, codec: LawfulCodec, first: RequestVars, second: RequestVars)
    returns (r1: Result<MetaObject>, r2: Result<MetaObject>, got: Result<MetaObject>)
    requires first.oid == second.oid && first.oid != ""
    requires first.authorization == second.authorization
    ensures authenticate(first.authorization) && codec.encode(MetaObject(first.oid, first.size, false)).Some? ==>
      && r1 == Ok(MetaObject(first.oid, first.size, false))
      && r2 == Ok(MetaObject(first.oid, first.size, true))
      && got == Ok(MetaObject(first.oid, first.size, false))
    ensures codec.encode(MetaObject(first.oid, first.size, false)).None? ==> r1.Err?
  {
    var s := new MetaStore(authenticate, codec, None, None, true);
    r1 := s.Put(first);
    r2 := s.Put(second);
    got := s.Get(second);
  }

  /** A second Put of the same oid, on any database, returns the first
      result marked existing. */
  method PutTwice(authenticate: string -> bool, codec: LawfulCodec,
                  objects: Option<Bucket<seq<byte>>>, first: RequestVars, second: RequestVars)
    returns (r1: Result<MetaObject>, r2: Result<MetaObject>)
    requires NoEmptyKey(objects)
    requires first.oid == second.oid && first.authorization == second.authorization
    ensures r1.Ok? ==> r2 == Ok(r1.value.(existing := true))
  {
    var s := new MetaStore(authenticate, codec, None, objects, true);
    r1 := s.Put(first);
    r2 := s.Put(second);
  }

  /** A user that is added is listed; once deleted it is not. */
  method AddListDeleteList(authenticate: string -> bool, codec: LawfulCodec)
    returns (before: Result<seq<MetaUser>>, after: Result<seq<MetaUser>>)
    ensures before == Ok([MetaUser("bob")])
    ensures after == Ok([])
  {
    var s := new MetaStore(authenticate, codec, None, None, true);
    var added := s.AddUser("bob", "secret");
    assert s.users.value.Keys == {"bob"};
    assert |s.users.value| == |{"bob"}| == 1;
    before := s.Users();
    assert MetaUser("bob") in before.value && |before.value| == 1;
    assert before.value == [before.value[0]];
    var deleted := s.DeleteUser("bob");
    after := s.Users();
  }

  /** The last password stored for a user wins. */
  method AddUserTwice(authenticate: string -> bool, codec: LawfulCodec, users: Bucket<string>)
    returns (stored: Option<string>)
    requires "" !in users
    ensures stored == Some("p2")
  {
    var s := new MetaStore(authenticate, codec, Some(users), None, true);
    var e1 := s.AddUser("alice", "p1");
    var e2 := s.AddUser("alice", "p2");
    stored := if s.users.Some? && "alice" in s.users.value then Some(s.users.value["alice"]) else None;
  }

  /** Deleting a name succeeds whether or not it is there, and the name is
      not listed afterwards. */
  method DeleteThenList(authenticate: string -> bool, codec: LawfulCodec, users: Bucket<string>, name: string)
    returns (err: Option<Error>, listed: Result<seq<MetaUser>>)
    requires "" !in users
    ensures err == None
    ensures listed.Ok? && |listed.value| == |users - {name}|
    ensures listed.Ok? && forall u :: MetaUser(u) in listed.value <==> u in users && u != name
  {
    var s := new MetaStore(authenticate, codec, Some(users), None, true);
    err := s.DeleteUser(name);
    listed := s.Users();
  }

  /** Listing an empty database gives empty lists, not errors. */
  method EmptyListings(authenticate: string -> bool, codec: LawfulCodec)
    returns (users: Result<seq<MetaUser>>, objects: Result<seq<MetaObject>>)
    ensures users == Ok([]) && objects == Ok([])
  {
    var s := new MetaStore(authenticate, codec, None, None, true);
    users := s.Users();
    objects := s.Objects();
  }
}
