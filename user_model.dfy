/** The User entity and its collection: the record stored per account, the
    public projection sent to clients, and the queries the handlers issue. */
module UserModel {
  import opened Wrappers
  import opened Js

  type UserId = nat

  /** A stored account. `password` holds the hash, never the plaintext. */
  datatype User = User(id: UserId, username: string, password: string, admin: bool)

  /** What a client is shown of a user: the record without its password. */
  datatype UserInfo = UserInfo(username: string, admin: bool)

  function Info(u: User): (info: UserInfo)
    ensures info.username == u.username && info.admin == u.admin
  {
    UserInfo(u.username, u.admin)
  }

  /** A query filter after the object-document mapper has cast it:
      `Any` is the empty filter `{}`, `NoMatch` a filter no stored user can
      satisfy (a required field compared with `null`). */
  datatype Filter = Any | NoMatch | ByUsername(name: string) | ById(id: UserId)

  predicate Matches(f: Filter, u: User) {
    match f
    case Any => true
    case NoMatch => false
    case ByUsername(name) => u.username == name
    case ById(id) => u.id == id
  }

  /** `findOne({ username })`. A missing value for the key is dropped from
      the filter, so the query becomes `findOne({})`; `null` matches no
      user because the username is a required field. */
  function UsernameFilter(v: JsValue<string>): (f: Filter)
    ensures v.Undefined? <==> f == Any
    ensures v.Null? <==> f == NoMatch
    ensures v.Defined? ==> f == ByUsername(v.value)
  {
    match v
    case Undefined => Any
    case Null => NoMatch
    case Defined(name) => ByUsername(name)
  }

  /** `findOne({ _id })`: same treatment of a missing value as above. */
  function IdFilter(v: JsValue<UserId>): (f: Filter)
    ensures v.Undefined? <==> f == Any
    ensures v.Null? <==> f == NoMatch
    ensures v.Defined? ==> f == ById(v.value)
  {
    match v
    case Undefined => Any
    case Null => NoMatch
    case Defined(id) => ById(id)
  }

  /** `findById(id)`: unlike `findOne`, a missing id is translated into
      `{ _id: null }`, which matches nothing. */
  function FindByIdFilter(v: JsValue<UserId>): (f: Filter)
    ensures v.Defined? ==> f == ById(v.value)
    ensures !v.Defined? <==> f == NoMatch
  {
    if v.Defined? then ById(v.value) else NoMatch
  }

  /** The first user, in insertion order, that the filter matches. */
  function FindOne(rows: seq<User>, f: Filter): (r: Option<User>)
    ensures r.None? <==> forall i :: 0 <= i < |rows| ==> !Matches(f, rows[i])
    ensures r.Some? ==> exists i :: 0 <= i < |rows| && rows[i] == r.value && Matches(f, rows[i])
                                    && forall j :: 0 <= j < i ==> !Matches(f, rows[j])
  {
    if rows == [] then None
    else if Matches(f, rows[0]) then Some(rows[0])
    else
      var r := FindOne(rows[1..], f);
      assert forall j :: 1 <= j < |rows| ==> rows[j] == rows[1..][j - 1];
      r
  }

  /** The empty filter returns the first stored user. */
  lemma FindOneAnyIsFirst(rows: seq<User>)
    ensures FindOne(rows, Any) == if rows == [] then None else Some(rows[0])
  {
  }

  /** The collection invariant: ids are positions in insertion order, and
      usernames are unique (the schema's unique index). */
  ghost predicate WellFormed(rows: seq<User>) {
    && (forall i :: 0 <= i < |rows| ==> rows[i].id == i)
    && (forall i, j :: 0 <= i < j < |rows| ==> rows[i].username != rows[j].username)
  }

  /** In a well-formed collection a username or id query finds the one
      user carrying it. */
  lemma FindOneIsUnique(rows: seq<User>, k: nat)
    requires WellFormed(rows) && k < |rows|
    ensures FindOne(rows, ByUsername(rows[k].username)) == Some(rows[k])
    ensures FindOne(rows, ById(k)) == Some(rows[k])
  {
  }

  /** Appending a user leaves earlier answers alone and only adds a new
      answer to queries nothing matched before. */
  lemma {:induction false} FindOneAppend(rows: seq<User>, u: User, f: Filter)
    ensures FindOne(rows + [u], f) ==
            if FindOne(rows, f).Some? then FindOne(rows, f)
            else if Matches(f, u) then Some(u) else None
  {
    if rows == [] {
      assert rows + [u] == [u];
    } else {
      assert (rows + [u])[1..] == rows[1..] + [u];
      FindOneAppend(rows[1..], u, f);
    }
  }

  /** The users collection. */
  class UserCollection {
    var rows: seq<User>

    ghost predicate Valid()
      reads this
    {
      WellFormed(rows)
    }

    constructor ()
      ensures Valid() && rows == []
    {
      rows := [];
    }

    /** The id a new document receives. */
    function NextId(): (id: UserId)
      reads this
      requires Valid()
      ensures id == |rows|
      ensures forall i :: 0 <= i < |rows| ==> rows[i].id != id
    {
      |rows|
    }

    /** `newUser.save()`: the document is inserted after all others. The
        unique index on usernames would refuse a duplicate, so callers hand
        over a user whose username is not stored yet. */
    method Save(u: User)
      requires Valid()
      requires u.id == |rows|
      requires forall i :: 0 <= i < |rows| ==> rows[i].username != u.username
      modifies this
      ensures Valid()
      ensures rows == old(rows) + [u]
    {
      rows := rows + [u];
    }
  }
}
