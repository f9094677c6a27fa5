/**
 The collaborators of the user module whose code is not part of this model,
 reduced to the state they keep and the behaviour the module relies on:
 - the user repository (a document store keyed by user id, with a unique
   index on the id and on the e-mail address),
 - the cart service (creates one empty cart per call),
 - the file system that holds uploaded documents (a set of stored paths;
   removing a path that is not there fails, as `unlinkSync` does),
 - the in-memory user object that a lookup hands back and the service mutates.
 */
module Collaborators {
  import opened JsValues

  datatype Option<T> = None | Some(value: T)

  type UserId = string
  type CartId = nat

  datatype Role = User | Premium | Admin

  /** An entry of a user's document list: its kind and the path of its file. */
  datatype Document = Document(name: string, reference: string)

  /** The fields of a user that the core reads or stores but never changes. */
  datatype Profile = Profile(
    firstName: JsValue,
    lastName: JsValue,
    age: JsValue,
    email: JsValue,
    passwordHash: string,
    cart: CartId,
    lastConnection: int)

  /** A user as the repository stores it. */
  datatype UserData = UserData(profile: Profile, role: Role, documents: seq<Document>)

  /** The public-safe view of a user: never the password hash. */
  datatype PublicUser = PublicUser(
    id: UserId,
    name: JsValue,
    lastname: JsValue,
    email: JsValue,
    age: JsValue,
    role: Role)

  function ToPublic(id: UserId, u: UserData): (p: PublicUser)
    ensures p.id == id && p.email == u.profile.email && p.role == u.role
    ensures p.name == u.profile.firstName && p.lastname == u.profile.lastName
  {
    PublicUser(id, u.profile.firstName, u.profile.lastName, u.profile.email, u.profile.age, u.role)
  }

  /** An error thrown by the repository; `code` 11000 is a unique-index violation. */
  datatype DbError = DbError(code: int, message: string)

  const DuplicateKeyCode: int := 11000

  /** The in-memory user object returned by a lookup. */
  class UserRecord {
    const id: UserId
    var profile: Profile
    var role: Role
    var documents: seq<Document>

    constructor (id: UserId, data: UserData)
      ensures this.id == id && Snapshot() == data
    {
      this.id := id;
      profile := data.profile;
      role := data.role;
      documents := data.documents;
    }

    /** The value the repository would store for this object. */
    function Snapshot(): UserData
      reads this
    {
      UserData(profile, role, documents)
    }
  }

  /** The user repository, as a map from id to stored user. */
  class UserStore {
    var users: map<UserId, UserData>

    constructor ()
      ensures users == map[]
    {
      users := map[];
    }

    predicate EmailTaken(email: JsValue)
      reads this
    {
      exists id :: id in users && users[id].profile.email == email
    }

    method FindById(id: UserId) returns (u: UserRecord?)
      ensures u == null <==> id !in users
      ensures u != null ==> fresh(u) && u.id == id && u.Snapshot() == users[id]
    {
      if id in users {
        u := new UserRecord(id, users[id]);
      } else {
        u := null;
      }
    }

    method FindByEmail(email: JsValue) returns (r: Option<UserId>)
      ensures r.None? <==> !EmailTaken(email)
      ensures r.Some? ==> r.value in users && users[r.value].profile.email == email
    {
      if exists id :: id in users && users[id].profile.email == email {
        var id :| id in users && users[id].profile.email == email;
        r := Some(id);
      } else {
        r := None;
      }
    }

    /** Inserts a new user; the unique indexes on id and e-mail reject duplicates. */
    method Register(id: UserId, data: UserData) returns (err: Option<DbError>)
      modifies this
      ensures err.Some? <==> id in old(users) || old(EmailTaken(data.profile.email))
      ensures err.Some? ==> err.value.code == DuplicateKeyCode && users == old(users)
      ensures err.None? ==> users == old(users)[id := data]
    {
      if id in users || EmailTaken(data.profile.email) {
        err := Some(DbError(DuplicateKeyCode, "E11000 duplicate key error"));
      } else {
        users := users[id := data];
        err := None;
      }
    }

    /** Replaces the stored user; an id that matches no user changes nothing. */
    method Update(id: UserId, data: UserData)
      modifies this
      ensures users == if id in old(users) then old(users)[id := data] else old(users)
    {
      if id in users {
        users := users[id := data];
      }
    }

    method Delete(id: UserId)
      modifies this
      ensures users == old(users) - {id}
    {
      users := users - {id};
    }
  }

  /** The cart service: each call creates one new, empty cart. */
  class CartService {
    var count: nat

    constructor ()
      ensures count == 0
    {
      count := 0;
    }

    method AddCart() returns (id: CartId)
      modifies this
      ensures id == old(count) && count == old(count) + 1
    {
      id := count;
      count := count + 1;
    }
  }

  /** The stored document files, and a log of every path removed so far. */
  class Disk {
    var files: set<string>
    ghost var unlinked: seq<string>

    constructor (files: set<string>)
      ensures this.files == files && unlinked == []
    {
      this.files := files;
      unlinked := [];
    }

    /** Writes one file; an existing file at the path is overwritten. */
    method Store(path: string)
      modifies this
      ensures files == old(files) + {path} && unlinked == old(unlinked)
    {
      files := files + {path};
    }

    /** Removes one file; fails (the source throws) when the path is not there. */
    method Unlink(path: string) returns (ok: bool)
      modifies this
      ensures ok <==> path in old(files)
      ensures files == old(files) - {path}
      ensures unlinked == if ok then old(unlinked) + [path] else old(unlinked)
    {
      ok := path in files;
      if ok {
        files := files - {path};
        unlinked := unlinked + [path];
      }
    }
  }

  predicate Distinct(paths: seq<string>) {
    forall i, j :: 0 <= i < j < |paths| ==> paths[i] != paths[j]
  }

  /** The effect of removing `paths` one after another: the files left, or
      None when one of the removals fails. */
  function UnlinkAll(files: set<string>, paths: seq<string>): (r: Option<set<string>>)
    ensures r.Some? ==> r.value <= files
    decreases |paths|
  {
    if paths == [] then Some(files)
    else if paths[0] in files then UnlinkAll(files - {paths[0]}, paths[1..])
    else None
  }

  /** Removing a sequence of paths succeeds exactly when the paths are distinct
      and all present, and then removes exactly those paths. */
  lemma {:induction false} UnlinkAllSucceedsIff(files: set<string>, paths: seq<string>)
    ensures UnlinkAll(files, paths).Some? <==> Distinct(paths) && (forall p :: p in paths ==> p in files)
    ensures UnlinkAll(files, paths).Some? ==>
      UnlinkAll(files, paths).value == files - (set p | p in paths)
    decreases |paths|
  {
    if paths != [] {
      var rest := paths[1..];
      UnlinkAllSucceedsIff(files - {paths[0]}, rest);
      if paths[0] in files {
        if Distinct(paths) && (forall p :: p in paths ==> p in files) {
          assert Distinct(rest);
          forall p | p in rest ensures p in files - {paths[0]} {
            var k :| 0 <= k < |rest| && rest[k] == p;
            assert paths[k + 1] == p;
          }
          assert (set p | p in paths) == {paths[0]} + (set p | p in rest);
        }
        if UnlinkAll(files, paths).Some? {
          forall i, j | 0 <= i < j < |paths| ensures paths[i] != paths[j] {
            if i == 0 {
              assert paths[j] == rest[j - 1];
            } else {
              assert paths[i] == rest[i - 1] && paths[j] == rest[j - 1];
            }
          }
          forall p | p in paths ensures p in files {
            if p != paths[0] {
              var k :| 0 <= k < |paths| && paths[k] == p;
              assert rest[k - 1] == p && rest[k - 1] in rest;
            }
          }
        }
      }
    }
  }

  /** Removing `a + b` is removing `a`, then `b` from what is left. */
  lemma {:induction false} UnlinkAllAppend(files: set<string>, a: seq<string>, b: seq<string>)
    ensures UnlinkAll(files, a + b) ==
      match UnlinkAll(files, a)
      case None => None
      case Some(left) => UnlinkAll(left, b)
    decreases |a|
  {
    if a == [] {
      assert a + b == b;
    } else {
      assert (a + b)[0] == a[0];
      assert (a + b)[1..] == a[1..] + b;
      if a[0] in files {
        UnlinkAllAppend(files - {a[0]}, a[1..], b);
      }
    }
  }

  /** After a prefix of removals has succeeded, the next removal decides:
      a missing path fails the whole sequence, a present one extends the prefix. */
  lemma UnlinkNext(files: set<string>, done: seq<string>, left: set<string>, p: string, rest: seq<string>)
    requires UnlinkAll(files, done) == Some(left)
    ensures p !in left ==> UnlinkAll(files, done + [p] + rest) == None
    ensures p in left ==> UnlinkAll(files, done + [p]) == Some(left - {p})
  {
    UnlinkAllAppend(files, done, [p]);
    UnlinkAllAppend(files, done + [p], rest);
  }
}
