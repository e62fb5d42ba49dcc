/** The metadata store of the LFS server: object records (oid and size) and
    user credentials kept in two buckets of a bolt database. The database is
    the pair of buckets held by the store; each operation is one atomic step. */
module Store {
  import opened KeyOrder

  newtype byte = b: int | 0 <= b < 0x100

  datatype Option<T> = None | Some(value: T)

  /** The errors the store hands back to its callers. */
  datatype Error =
    | AuthError       // the credential was refused by the authenticator
    | NoBucket        // errNoBucket: the bucket the operation needs is missing
    | ObjectNotFound  // errObjectNotFound: no stored value under the oid
    | DecodeError     // a stored value is not a valid encoded record
    | EncodeError     // the record could not be encoded
    | KeyRequired     // bolt refuses to store a value under the empty key

  datatype Result<T> = Ok(value: T) | Err(error: Error)

  /** Meta information for one large object. `existing` is set only on the
      record a `Put` returns when the oid was already stored. */
  datatype MetaObject = MetaObject(oid: string, size: int, existing: bool)

  datatype MetaUser = MetaUser(name: string)

  /** The parts of a request the store looks at. */
  datatype RequestVars = RequestVars(authorization: string, oid: string, size: int)

  /** A bolt bucket: keys and values, no nested buckets. */
  type Bucket<V> = map<string, V>

  /** The record serializer (gob). Its wire format is not modelled; what the
      store relies on is that encoding may fail, decoding may fail, a value
      that was encoded decodes back to itself, and an encoding is never empty
      (so that decoding the empty value fails, as gob reports end of input). */
  datatype Codec = Codec(encode: MetaObject -> Option<seq<byte>>, decode: seq<byte> -> Option<MetaObject>)

  ghost predicate Lawful(c: Codec)
  {
    && c.decode([]).None?
    && forall m :: c.encode(m).Some? ==> |c.encode(m).value| > 0 && c.decode(c.encode(m).value) == Some(m)
  }

  type LawfulCodec = c: Codec | Lawful(c) witness Codec(_ => None, _ => None)

  /** bolt never holds a value under the empty key. */
  ghost predicate NoEmptyKey<V>(b: Option<Bucket<V>>)
  {
    b.Some? ==> "" !in b.value
  }

  /** Every value of the objects bucket is a record that `Put` could have
      written: it decodes, to a record for its own key, with `existing` unset. */
  ghost predicate WrittenByPut(codec: Codec, b: Bucket<seq<byte>>)
  {
    forall k :: k in b ==>
      codec.decode(b[k]).Some? && codec.decode(b[k]).value.oid == k && !codec.decode(b[k]).value.existing
  }

  /** What a walk over `keys` of bucket `b` collects when each value is decoded
      in turn and the walk stops at the first value that does not decode: the
      longest prefix of decodable values. */
  function DecodePrefix(codec: Codec, b: Bucket<seq<byte>>, keys: seq<string>): (r: seq<MetaObject>)
    requires forall k :: k in keys ==> k in b
    ensures |r| <= |keys|
    ensures forall i :: 0 <= i < |r| ==> codec.decode(b[keys[i]]) == Some(r[i])
    ensures |r| < |keys| ==> codec.decode(b[keys[|r|]]).None?
  {
    if keys == [] then []
    else match codec.decode(b[keys[0]])
      case None => []
      case Some(m) => [m] + DecodePrefix(codec, b, keys[1..])
  }

  /** A list that names the keys of `s` in cursor order names each key exactly
      once, in increasing order. */
  lemma UserListing(s: set<string>, list: seq<MetaUser>)
    requires |list| == |SortedKeys(s)|
    requires forall i :: 0 <= i < |list| ==> list[i].name == SortedKeys(s)[i]
    ensures forall name :: MetaUser(name) in list <==> name in s
    ensures forall i, j :: 0 <= i < j < |list| ==> Less(list[i].name, list[j].name)
  {
    var order := SortedKeys(s);
    SortedKeysMembers(s);
    SortedKeysIncreasing(s);
    forall name
      ensures MetaUser(name) in list <==> name in s
    {
      if MetaUser(name) in list {
        var i :| 0 <= i < |list| && list[i] == MetaUser(name);
        assert order[i] in s;
      }
      if name in s {
        var i :| 0 <= i < |order| && order[i] == name;
        assert list[i] == MetaUser(name);
      }
    }
  }

  /** When every stored value is one that `Put` writes, the walk decodes all of
      them, and the i-th record carries the i-th key. */
  lemma CompleteListing(codec: Codec, b: Bucket<seq<byte>>)
    requires WrittenByPut(codec, b)
    ensures |DecodePrefix(codec, b, SortedKeys(b.Keys))| == |b|
    ensures forall i :: 0 <= i < |b| ==>
      var meta := DecodePrefix(codec, b, SortedKeys(b.Keys))[i];
      meta.oid == SortedKeys(b.Keys)[i] && !meta.existing
  {
  }

  lemma AppendAssoc<T>(a: seq<T>, b: seq<T>, c: seq<T>)
    ensures (a + b) + c == a + (b + c)
  {
  }

  class MetaStore {
    /** The external authenticator; only its verdict is used. */
    const authenticate: string -> bool
    const codec: LawfulCodec
    /** The two buckets of the database; `None` when the bucket is missing. */
    var users: Option<Bucket<string>>
    var objects: Option<Bucket<seq<byte>>>

    /** Holds in every state the operations can reach: bolt never stores
        the empty key, so neither bucket holds it. */
    ghost predicate Valid()
      reads this
    {
      NoEmptyKey(users) && NoEmptyKey(objects)
    }

    /** Every stored object record is one that `Put` writes. */
    ghost predicate ObjectsWellFormed()
      reads this
    {
      objects.Some? ==> WrittenByPut(codec, objects.value)
    }

    /** NewMetaStore after the database file is open: one write transaction
        creates each bucket that is missing. If that transaction does not
        commit, its error is ignored and the buckets stay as they were. */
    constructor (authenticate: string -> bool, codec: LawfulCodec,
                 users: Option<Bucket<string>>, objects: Option<Bucket<seq<byte>>>,
                 committed: bool)
      requires NoEmptyKey(users) && NoEmptyKey(objects)
      ensures Valid()
      ensures this.authenticate == authenticate && this.codec == codec
      ensures committed ==> this.users.Some? && this.objects.Some?
      ensures committed && users.Some? ==> this.users == users
      ensures committed && users.None? ==> this.users == Some(map[])
      ensures committed && objects.Some? ==> this.objects == objects
      ensures committed && objects.None? ==> this.objects == Some(map[])
      ensures !committed ==> this.users == users && this.objects == objects
    {
      this.authenticate := authenticate;
      this.codec := codec;
      if committed {
        this.users := if users.None? then Some(map[]) else users;
        this.objects := if objects.None? then Some(map[]) else objects;
      } else {
        this.users := users;
        this.objects := objects;
      }
    }

    /** Get looks up the record for `v.oid`. It reads the state and never
        changes it. */
    function Get(v: RequestVars): (r: Result<MetaObject>)
      reads this
      ensures !authenticate(v.authorization) ==> r == Err(AuthError)
      ensures authenticate(v.authorization) && objects.None? ==> r == Err(NoBucket)
      ensures authenticate(v.authorization) && objects.Some? && v.oid !in objects.value ==> r == Err(ObjectNotFound)
      ensures authenticate(v.authorization) && objects.Some? && v.oid in objects.value && objects.value[v.oid] == [] ==>
        r == Err(ObjectNotFound)
      ensures authenticate(v.authorization) && objects.Some? && v.oid in objects.value &&
              objects.value[v.oid] != [] && codec.decode(objects.value[v.oid]).None? ==>
                r == Err(DecodeError)
      ensures r.Ok? <==>
        authenticate(v.authorization) && objects.Some? && v.oid in objects.value
        && codec.decode(objects.value[v.oid]).Some?
      ensures r.Ok? ==> Some(r.value) == codec.decode(objects.value[v.oid])
      ensures r.Err? ==> r.error in {AuthError, NoBucket, ObjectNotFound, DecodeError}
      ensures r.Ok? && ObjectsWellFormed() ==> r.value.oid == v.oid && !r.value.existing
      // bolt refuses to store the empty key, so in a reachable state it is never found
      ensures Valid() && authenticate(v.authorization) && objects.Some? && v.oid == "" ==> r == Err(ObjectNotFound)
    {
      if !authenticate(v.authorization) then Err(AuthError)
      else if objects.None? then Err(NoBucket)
      else if v.oid !in objects.value || |objects.value[v.oid]| == 0 then Err(ObjectNotFound)
      else match codec.decode(objects.value[v.oid])
        case None => Err(DecodeError)
        case Some(meta) => Ok(meta)
    }

    /** Put stores a record for `v.oid` unless `Get` already finds one. */
    method Put(v: RequestVars) returns (r: Result<MetaObject>)
      requires Valid()
      modifies this
      ensures Valid() && users == old(users)
      ensures !authenticate(v.authorization) ==> r == Err(AuthError) && objects == old(objects)
      // found: the stored record is returned, marked existing, and nothing is written
      ensures old(Get(v)).Ok? ==> r == Ok(old(Get(v)).value.(existing := true)) && objects == old(objects)
      // not found, for whatever reason: a fresh record is encoded and written
      ensures authenticate(v.authorization) && old(Get(v)).Err? ==>
        var meta := MetaObject(v.oid, v.size, false);
        if codec.encode(meta).None? then r == Err(EncodeError) && objects == old(objects)
        else if old(objects).None? then r == Err(NoBucket) && objects == old(objects)
        else if v.oid == "" then r == Err(KeyRequired) && objects == old(objects)
        else r == Ok(meta) && objects == Some(old(objects).value[v.oid := codec.encode(meta).value])
      ensures r.Ok? ==> (r.value.existing <==> old(Get(v)).Ok?)
      // the record just written is what Get now finds
      ensures r.Ok? && !r.value.existing ==>
        r.value == MetaObject(v.oid, v.size, false) && Get(v) == Ok(r.value)
      ensures r.Ok? && old(ObjectsWellFormed()) ==> Get(v) == Ok(MetaObject(v.oid, r.value.size, false))
      ensures old(ObjectsWellFormed()) ==> ObjectsWellFormed()
    {
      if !authenticate(v.authorization) {
        return Err(AuthError);
      }
      var found := Get(v);
      if found.Ok? {
        return Ok(found.value.(existing := true));
      }
      var meta := MetaObject(v.oid, v.size, false);
      var encoded := codec.encode(meta);
      if encoded.None? {
        return Err(EncodeError);
      }
      if objects.None? {
        return Err(NoBucket);
      }
      if v.oid == "" {
        return Err(KeyRequired);
      }
      objects := Some(objects.value[v.oid := encoded.value]);
      r := Ok(meta);
    }

    /** AddUser stores `pass` for `user`, replacing any earlier password. */
    method AddUser(user: string, pass: string) returns (err: Option<Error>)
      requires Valid()
      modifies this
      ensures Valid() && objects == old(objects)
      ensures old(users).None? ==> err == Some(NoBucket) && users == old(users)
      ensures old(users).Some? && user == "" ==> err == Some(KeyRequired) && users == old(users)
      ensures old(users).Some? && user != "" ==> err == None && users == Some(old(users).value[user := pass])
    {
      if users.None? {
        return Some(NoBucket);
      }
      if user == "" {
        return Some(KeyRequired);
      }
      users := Some(users.value[user := pass]);
      err := None;
    }

    /** DeleteUser removes `user`; removing a user that is not there succeeds. */
    method DeleteUser(user: string) returns (err: Option<Error>)
      requires Valid()
      modifies this
      ensures Valid() && objects == old(objects)
      ensures old(users).None? ==> err == Some(NoBucket) && users == old(users)
      ensures old(users).Some? ==> err == None && users == Some(old(users).value - {user})
    {
      if users.None? {
        return Some(NoBucket);
      }
      users := Some(users.value - {user});
      err := None;
    }

    /** Users lists one MetaUser per key of the users bucket, in key order. */
    method Users() returns (r: Result<seq<MetaUser>>)
      ensures users.None? ==> r == Err(NoBucket)
      ensures users.Some? ==> r.Ok? && |r.value| == |users.value|
      ensures users.Some? ==> forall i :: 0 <= i < |r.value| ==> r.value[i].name == SortedKeys(users.value.Keys)[i]
      ensures users.Some? ==> forall name :: MetaUser(name) in r.value <==> name in users.value
      ensures r.Ok? ==> forall i, j :: 0 <= i < j < |r.value| ==> Less(r.value[i].name, r.value[j].name)
    {
      if users.None? {
        return Err(NoBucket);
      }
      var bucket := users.value;
      var remaining := bucket.Keys;
      var list: seq<MetaUser> := [];
      ghost var walked: seq<string> := [];
      while remaining != {}
        invariant remaining <= bucket.Keys
        invariant walked + SortedKeys(remaining) == SortedKeys(bucket.Keys)
        invariant |list| == |walked|
        invariant forall i :: 0 <= i < |list| ==> list[i].name == walked[i]
        decreases remaining
      {
        var k := NextKey(remaining);
        var rest := remaining - {k};
        AppendAssoc(walked, [k], SortedKeys(rest));
        list := list + [MetaUser(k)];
        walked := walked + [k];
        remaining := rest;
      }
      assert walked == SortedKeys(bucket.Keys);
      UserListing(bucket.Keys, list);
      r := Ok(list);
    }

    /** Objects decodes the values of the objects bucket in key order. The
        walk stops at the first value that does not decode, and what was
        collected so far is returned without an error. */
    method Objects() returns (r: Result<seq<MetaObject>>)
      ensures objects.None? ==> r == Err(NoBucket)
      ensures objects.Some? ==> r == Ok(DecodePrefix(codec, objects.value, SortedKeys(objects.value.Keys)))
    {
      if objects.None? {
        return Err(NoBucket);
      }
      var bucket := objects.value;
      var remaining := bucket.Keys;
      var list: seq<MetaObject> := [];
      ghost var todo := SortedKeys(remaining);
      ghost var full := DecodePrefix(codec, bucket, todo);
      while remaining != {}
        invariant remaining <= bucket.Keys && todo == SortedKeys(remaining)
        invariant full == list + DecodePrefix(codec, bucket, todo)
        decreases remaining
      {
        var k := NextKey(remaining);
        var decoded := codec.decode(bucket[k]);
        if decoded.None? {
          // the callback's error ends the walk; the caller never sees it
          assert DecodePrefix(codec, bucket, todo) == [];
          break;
        }
        ghost var tail := DecodePrefix(codec, bucket, todo[1..]);
        AppendAssoc(list, [decoded.value], tail);
        list := list + [decoded.value];
        remaining := remaining - {k};
        todo := todo[1..];
      }
      assert full == list + [] == list;
      r := Ok(list);
    }
  }
}
