/**
 The user service: registration, update, documentation upload and deletion,
 run against the repository, the cart service and the document files.
 Lookups yield an absent result rather than throwing; errors from the
 repository are returned as values (`Failure`) instead of being thrown.
 */
module UserService {
  import opened JsValues
  import opened Collaborators
  import opened DocumentList

  datatype Result<T> = Success(value: T) | Failure(error: DbError)

  /** The fields a registration request carries, as the request body gave them. */
  datatype NewUserInfo = NewUserInfo(
    firstName: JsValue,
    lastName: JsValue,
    age: JsValue,
    email: JsValue,
    password: JsValue)

  /** What registration answers when it does not throw. */
  datatype Registration =
    | EmailInUse
    | Registered(payload: PublicUser)

  /** What deletion answers. */
  datatype Deletion =
    | NotFound
    | Deleted

  /** The user registration stores: the new cart, the hashed password and the
      registration time; a fresh user has role `user` and no documents (the
      repository's defaults), so their document list starts consistent: at
      most one entry per kind, no shared file and no missing file. */
  function NewUserData(info: NewUserInfo, passwordHash: string, cart: CartId, now: int): (u: UserData)
    ensures u.role == User && u.profile.cart == cart && u.profile.passwordHash == passwordHash
    ensures u.profile.email == info.email && u.profile.lastConnection == now
    ensures NamesUnique(u.documents) && ReferencesUnique(u.documents)
    ensures forall files :: FilesPresent(u.documents, files)
  {
    UserData(Profile(info.firstName, info.lastName, info.age, info.email, passwordHash, cart, now), User, [])
  }

  /** Registration. An e-mail already on record is refused before any cart is
      created; otherwise exactly one cart is created, and the new user, who
      refers to it, is stored under `newId` (the id the repository assigns),
      unless the repository's unique indexes throw. */
  method RegisterUser(store: UserStore, carts: CartService, info: NewUserInfo,
                      hash: JsValue -> string, now: int, newId: UserId)
    returns (r: Result<Registration>)
    modifies store, carts
    ensures old(store.EmailTaken(info.email)) ==>
      r == Success(EmailInUse) && store.users == old(store.users) && carts.count == old(carts.count)
    ensures !old(store.EmailTaken(info.email)) ==>
      var data := NewUserData(info, hash(info.password), old(carts.count), now);
      && carts.count == old(carts.count) + 1
      && (newId in old(store.users) ==>
            r.Failure? && r.error.code == DuplicateKeyCode && store.users == old(store.users))
      && (newId !in old(store.users) ==>
            r == Success(Registered(ToPublic(newId, data))) && store.users == old(store.users)[newId := data])
  {
    var existing := store.FindByEmail(info.email);
    if existing.Some? {
      return Success(EmailInUse);
    }
    var cart := carts.AddCart();
    var data := NewUserData(info, hash(info.password), cart, now);
    var err := store.Register(newId, data);
    if err.Some? {
      return Failure(err.value);
    }
    r := Success(Registered(ToPublic(newId, data)));
  }

  /** Writes the in-memory user back and answers with its public view. */
  method UpdateUser(store: UserStore, id: UserId, user: UserRecord) returns (payload: PublicUser)
    modifies store
    ensures store.users == if id in old(store.users) then old(store.users)[id := user.Snapshot()] else old(store.users)
    ensures payload == ToPublic(id, user.Snapshot())
  {
    store.Update(id, user.Snapshot());
    payload := ToPublic(id, user.Snapshot());
  }

  /** One `if (file) { ... }` block of the upload, in place on the user's list:
      walk the list by index, splice out each entry of `name` and remove its
      file, then append the new entry. The index advances after a splice too.
      Fails (the source throws) at the first file that cannot be removed. */
  method ReplaceKindInPlace(user: UserRecord, disk: Disk, name: string, file: Option<UploadedFile>,
                            dirname: string) returns (ok: bool)
    modifies user`documents, disk
    ensures var spec := ReplaceKind(Storage(old(user.documents), old(disk.files), old(disk.unlinked)),
                                    name, file, dirname);
      && ok == spec.Some?
      && (ok ==> Storage(user.documents, disk.files, disk.unlinked) == spec.value)
  {
    if file.None? {
      return true;
    }
    ghost var orig := user.documents;
    ghost var kept: seq<Document> := [];
    ghost var removed: seq<Document> := [];
    ghost var j := 0;
    WalkStart(orig, name, disk.files, disk.unlinked);
    var i := 0;
    while i < |user.documents|
      invariant Walk(orig, name, old(disk.files), old(disk.unlinked), j, kept, removed,
                     user.documents, disk.files, disk.unlinked)
      invariant i == |kept| || (i == |kept| + 1 && j == |orig|)
      decreases |user.documents| - i
    {
      var obj := user.documents[i];
      if obj.name == name {
        WalkSplice(orig, name, old(disk.files), old(disk.unlinked), j, kept, removed,
                   user.documents, disk.files, disk.unlinked);
        user.documents := user.documents[..i] + user.documents[i + 1..];
        var unlinked := disk.Unlink(obj.reference);
        if !unlinked {
          return false;
        }
        if j + 1 < |orig| {
          kept := kept + [orig[j + 1]];
          j := j + 2;
        } else {
          j := j + 1;
        }
        removed := removed + [obj];
      } else {
        WalkPass(orig, name, old(disk.files), old(disk.unlinked), j, kept, removed,
                 user.documents, disk.files, disk.unlinked);
        kept := kept + [obj];
        j := j + 1;
      }
      i := i + 1;
    }
    WalkDone(orig, name, old(disk.files), old(disk.unlinked), kept, removed,
             user.documents, disk.files, disk.unlinked);
    user.documents := user.documents + [Document(name, StoredPath(dirname, file.value.filename))];
    ok := true;
  }

  /** The documentation upload: the three blocks in their fixed order, then
      the user is written back. A failed file removal stops the upload before
      anything is written back. */
  method UploadUserDocumentation(store: UserStore, disk: Disk, user: UserRecord,
                                 idFile: Option<UploadedFile>, addressFile: Option<UploadedFile>,
                                 accountFile: Option<UploadedFile>, dirname: string)
    returns (ok: bool)
    modifies store, disk, user`documents
    ensures var spec := Upload(Storage(old(user.documents), old(disk.files), old(disk.unlinked)),
                               idFile, addressFile, accountFile, dirname);
      && ok == spec.Some?
      && (ok ==> Storage(user.documents, disk.files, disk.unlinked) == spec.value)
      && (ok ==> store.users == if user.id in old(store.users)
                                then old(store.users)[user.id := user.Snapshot()]
                                else old(store.users))
      && (!ok ==> store.users == old(store.users))
  {
    ok := ReplaceKindInPlace(user, disk, Identification, idFile, dirname);
    if !ok {
      return;
    }
    ok := ReplaceKindInPlace(user, disk, ProofOfAddress, addressFile, dirname);
    if !ok {
      return;
    }
    ok := ReplaceKindInPlace(user, disk, BankStatement, accountFile, dirname);
    if !ok {
      return;
    }
    var _ := UpdateUser(store, user.id, user);
  }

  /** Deletion: an id with no user answers "not found" and deletes nothing. */
  method DeleteUser(store: UserStore, id: UserId) returns (r: Deletion)
    modifies store
    ensures id !in old(store.users) <==> r == NotFound
    ensures store.users == old(store.users) - {id}
  {
    var user := store.FindById(id);
    if user == null {
      return NotFound;
    }
    store.Delete(id);
    r := Deleted;
  }
}
