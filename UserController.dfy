/**
 The HTTP-facing side of the user module: request validation, the mapping
 of service outcomes to status codes, and the premium toggle. Routing,
 authorisation policies and logging are not part of this model; each handler
 is a method that takes the request's parameters and answers a status code
 and, where the route sends one, a user payload.
 */
module UserController {
  import opened JsValues
  import opened Collaborators
  import opened DocumentList
  import opened UserService

  datatype Response = Response(status: int, payload: Option<PublicUser>)

  // ---------------------------------------------------------------------
  // Registration: POST /

  function RequiredFields(body: NewUserInfo): seq<JsValue> {
    [body.firstName, body.lastName, body.age, body.email, body.password]
  }

  /** The registration guard: a required field is missing when it is falsy,
      so the guard rejects a body exactly when one of its five fields is one
      of JavaScript's falsy values, an empty string and an age of 0 among them. */
  predicate MissingRequiredField(body: NewUserInfo): (missing: bool)
    ensures missing <==> exists v :: v in RequiredFields(body) && v in FalsyValues
  {
    FalsyIff(body.firstName);
    FalsyIff(body.lastName);
    FalsyIff(body.age);
    FalsyIff(body.email);
    FalsyIff(body.password);
    !Truthy(body.firstName) || !Truthy(body.lastName) || !Truthy(body.age)
    || !Truthy(body.email) || !Truthy(body.password)
  }

  /** The status code registration answers with: 400 for an e-mail already on
      record, 201 with the new user, and for a thrown error 400 when it is a
      unique-index violation and 500 otherwise. */
  function RegistrationStatus(r: Result<Registration>): (status: int)
    ensures status == 201 <==> r.Success? && r.value.Registered?
    ensures status == 500 <==> r.Failure? && r.error.code != DuplicateKeyCode
    ensures status == 400 <==> r == Success(EmailInUse) || (r.Failure? && r.error.code == DuplicateKeyCode)
  {
    match r
    case Success(EmailInUse) => 400
    case Success(Registered(_)) => 201
    case Failure(e) => if e.code == DuplicateKeyCode then 400 else 500
  }

  /** POST /: validate, register, answer. An invalid body or an e-mail already
      on record is a client error (400) and changes nothing. */
  method PostUser(store: UserStore, carts: CartService, body: NewUserInfo,
                  hash: JsValue -> string, now: int, newId: UserId)
    returns (resp: Response)
    modifies store, carts
    ensures MissingRequiredField(body) ==>
      resp == Response(400, None) && store.users == old(store.users) && carts.count == old(carts.count)
    ensures !MissingRequiredField(body) && old(store.EmailTaken(body.email)) ==>
      resp == Response(400, None) && store.users == old(store.users) && carts.count == old(carts.count)
    ensures !MissingRequiredField(body) && !old(store.EmailTaken(body.email)) ==>
      var data := NewUserData(body, hash(body.password), old(carts.count), now);
      && carts.count == old(carts.count) + 1
      && (newId !in old(store.users) ==>
            resp == Response(201, Some(ToPublic(newId, data))) && store.users == old(store.users)[newId := data])
      && (newId in old(store.users) ==> resp == Response(400, None) && store.users == old(store.users))
  {
    if MissingRequiredField(body) {
      return Response(400, None);
    }
    var r := RegisterUser(store, carts, body, hash, now, newId);
    var status := RegistrationStatus(r);
    if status == 201 {
      resp := Response(201, Some(r.value.payload));
    } else {
      resp := Response(status, None);
    }
  }

  // ---------------------------------------------------------------------
  // Document upload: POST /:uid/documents

  /** The first file the upload middleware stored under a form field, if any. */
  function FirstFile(files: map<string, seq<UploadedFile>>, field: string): (r: Option<UploadedFile>)
    ensures r.Some? <==> field in files && |files[field]| > 0
    ensures r.Some? ==> r.value == files[field][0]
  {
    if field in files && |files[field]| > 0 then Some(files[field][0]) else None
  }

  /** The form fields the upload middleware accepts, one file each. */
  const UploadFields: seq<string> := ["identity", "address", "account"]

  /** The upload is refused when none of the three fields carries a file. */
  predicate NoFilesSelected(files: map<string, seq<UploadedFile>>) {
    FirstFile(files, "identity").None? && FirstFile(files, "address").None? && FirstFile(files, "account").None?
  }

  /** No file is selected exactly when every accepted field is absent or
      empty; then the middleware stores nothing and the upload has nothing
      to do. */
  lemma NoFilesSelectedIff(files: map<string, seq<UploadedFile>>, st: Storage, dirname: string)
    ensures NoFilesSelected(files) <==> forall f :: f in UploadFields ==> f !in files || files[f] == []
    ensures NoFilesSelected(files) <==>
      UploadedPaths(FirstFile(files, "identity"), FirstFile(files, "address"), FirstFile(files, "account"), dirname) == {}
    ensures NoFilesSelected(files) ==>
      Upload(st, FirstFile(files, "identity"), FirstFile(files, "address"), FirstFile(files, "account"), dirname) == Some(st)
  {
    if !NoFilesSelected(files) {
      var f := if FirstFile(files, "identity").Some? then FirstFile(files, "identity")
               else if FirstFile(files, "address").Some? then FirstFile(files, "address")
               else FirstFile(files, "account");
      assert StoredPath(dirname, f.value.filename) in PathOf(f, dirname);
    }
  }

  /** The upload middleware: before the handler runs, it stores the file of
      each accepted field under the documents directory. */
  method Uploader(disk: Disk, files: map<string, seq<UploadedFile>>, dirname: string)
    modifies disk
    ensures disk.files == old(disk.files)
      + UploadedPaths(FirstFile(files, "identity"), FirstFile(files, "address"), FirstFile(files, "account"), dirname)
    ensures disk.unlinked == old(disk.unlinked)
  {
    var idFile := FirstFile(files, "identity");
    if idFile.Some? {
      disk.Store(StoredPath(dirname, idFile.value.filename));
    }
    var addressFile := FirstFile(files, "address");
    if addressFile.Some? {
      disk.Store(StoredPath(dirname, addressFile.value.filename));
    }
    var accountFile := FirstFile(files, "account");
    if accountFile.Some? {
      disk.Store(StoredPath(dirname, accountFile.value.filename));
    }
  }

  /** POST /:uid/documents. The upload middleware stores the sent files
      first, whatever the handler answers. The handler then refuses (400) a
      missing id, a request with no file and an unknown user; otherwise it
      runs the upload on the disk as the middleware left it, answering 200
      and writing the user back when every replaced file could be removed,
      and 500 with nothing written back when one could not. */
  method PostDocuments(store: UserStore, disk: Disk, uid: UserId,
                       files: map<string, seq<UploadedFile>>, dirname: string)
    returns (status: int)
    modifies store, disk
    ensures var idFile := FirstFile(files, "identity");
      var addressFile := FirstFile(files, "address");
      var accountFile := FirstFile(files, "account");
      var stored := old(disk.files) + UploadedPaths(idFile, addressFile, accountFile, dirname);
      var spec := Upload(Storage(if uid in old(store.users) then old(store.users)[uid].documents else [],
                                 stored, old(disk.unlinked)),
                         idFile, addressFile, accountFile, dirname);
      && (status == 400 <==> uid == "" || NoFilesSelected(files) || uid !in old(store.users))
      && (status == 200 <==> uid != "" && !NoFilesSelected(files) && uid in old(store.users) && spec.Some?)
      && (status == 500 <==> uid != "" && !NoFilesSelected(files) && uid in old(store.users) && spec.None?)
      && (status == 400 ==> disk.files == stored && disk.unlinked == old(disk.unlinked))
      && (status == 200 ==>
            store.users == old(store.users)[uid := old(store.users)[uid].(documents := spec.value.documents)]
            && disk.files == spec.value.files && disk.unlinked == spec.value.unlinked)
      && (status != 200 ==> store.users == old(store.users))
  {
    Uploader(disk, files, dirname);
    if uid == "" {
      return 400;
    }
    var idFile := FirstFile(files, "identity");
    var addressFile := FirstFile(files, "address");
    var accountFile := FirstFile(files, "account");
    if idFile.None? && addressFile.None? && accountFile.None? {
      return 400;
    }
    var user := store.FindById(uid);
    if user == null {
      return 400;
    }
    var ok := UploadUserDocumentation(store, disk, user, idFile, addressFile, accountFile, dirname);
    status := if ok then 200 else 500;
  }

  /** A user whose documents are consistent (at most one entry of each kind,
      every entry's file on disk, no two entries sharing a file), sending
      files that the middleware stores at new, pairwise different paths: the
      upload on the disk the middleware leaves succeeds, and the user's
      documents stay consistent, so the next upload, which replaces these
      files, succeeds as well. */
  lemma UploadAfterMiddleware(docs: seq<Document>, disk: set<string>, log: seq<string>,
                              files: map<string, seq<UploadedFile>>, dirname: string)
    requires Count(docs, Identification) <= 1 && Count(docs, ProofOfAddress) <= 1 && Count(docs, BankStatement) <= 1
    requires FilesPresent(docs, disk) && ReferencesUnique(docs)
    requires UploadedPaths(FirstFile(files, "identity"), FirstFile(files, "address"), FirstFile(files, "account"), dirname) !! disk
    requires DistinctUploads(FirstFile(files, "identity"), FirstFile(files, "address"), FirstFile(files, "account"), dirname)
    ensures var idFile := FirstFile(files, "identity");
      var addressFile := FirstFile(files, "address");
      var accountFile := FirstFile(files, "account");
      var st := Storage(docs, disk + UploadedPaths(idFile, addressFile, accountFile, dirname), log);
      && Upload(st, idFile, addressFile, accountFile, dirname).Some?
      && FilesPresent(Upload(st, idFile, addressFile, accountFile, dirname).value.documents,
                      Upload(st, idFile, addressFile, accountFile, dirname).value.files)
      && ReferencesUnique(Upload(st, idFile, addressFile, accountFile, dirname).value.documents)
  {
    var idFile := FirstFile(files, "identity");
    var addressFile := FirstFile(files, "address");
    var accountFile := FirstFile(files, "account");
    var paths := UploadedPaths(idFile, addressFile, accountFile, dirname);
    var st := Storage(docs, disk + paths, log);
    forall p | p in paths ensures FreshPath(st, p) {
      assert p !in disk;
    }
    UploadKeepsConsistent(st, idFile, addressFile, accountFile, dirname);
  }

  // ---------------------------------------------------------------------
  // Premium toggle: GET /premium/:uid

  /** The operand of the `includes` test: the `&&` chain over the three kinds,
      which JavaScript evaluates to its last operand. */
  const PremiumRequirement: JsValue := And(And(Str(Identification), Str(ProofOfAddress)), Str(BankStatement))

  /** `names.includes(v)` for a list of strings. */
  predicate Includes(names: seq<string>, v: JsValue) {
    v.Str? && v.s in names
  }

  /** The `includes` test of the premium toggle holds exactly when a
      `bankStatement` entry is among the names, whatever else is. */
  lemma PremiumTestIsBankStatement(names: seq<string>)
    ensures Includes(names, PremiumRequirement) <==> BankStatement in names
  {
    AndChainOfStrings(Identification, ProofOfAddress, BankStatement);
  }

  function Names(docs: seq<Document>): (names: seq<string>)
    ensures |names| == |docs|
    ensures forall i :: 0 <= i < |docs| ==> names[i] == docs[i].name
  {
    seq(|docs|, i requires 0 <= i < |docs| => docs[i].name)
  }

  /** The role switch as written: `premium` always becomes `user`; `user`
      becomes `premium` when a bank statement is on file, whatever else is,
      and is refused (None) otherwise; any other role is left as it is. */
  function NextRole(role: Role, names: seq<string>): (r: Option<Role>)
    ensures role == Premium ==> r == Some(User)
    ensures role == Admin ==> r == Some(Admin)
    ensures role == User ==> (r == Some(Premium) <==> BankStatement in names)
    ensures role == User ==> (r.None? <==> BankStatement !in names)
  {
    PremiumTestIsBankStatement(names);
    match role
    case User => if Includes(names, PremiumRequirement) then Some(Premium) else None
    case Premium => Some(User)
    case Admin => Some(Admin)
  }

  /** The kinds of document a premium account is meant to need. */
  const RequiredKinds: seq<string> := [Identification, ProofOfAddress, BankStatement]

  /** The role switch with the evidently intended test: `user` becomes
      `premium` only when every required kind is on file. */
  function IntendedNextRole(role: Role, names: seq<string>): (r: Option<Role>)
    ensures role == User ==>
      (r == Some(Premium) <==> Identification in names && ProofOfAddress in names && BankStatement in names)
    ensures role == User ==> (r.None? <==> exists k :: k in RequiredKinds && k !in names)
    ensures role != User ==> r == NextRole(role, names)
  {
    match role
    case User =>
      if forall k :: k in RequiredKinds ==> k in names then Some(Premium) else None
    case Premium => Some(User)
    case Admin => Some(Admin)
  }

  /** The test as written lets a user with only a bank statement become premium. */
  lemma BankStatementAloneUpgrades(reference: string)
    ensures NextRole(User, Names([Document(BankStatement, reference)])) == Some(Premium)
    ensures IntendedNextRole(User, Names([Document(BankStatement, reference)])) == None
  {
    var names := Names([Document(BankStatement, reference)]);
    assert names == [BankStatement];
    assert Identification !in names;
  }

  /** The switch as written and the intended one differ exactly for a user
      who has a bank statement on file but lacks one of the other kinds. */
  lemma AsWrittenVersusIntended(role: Role, names: seq<string>)
    ensures NextRole(role, names) != IntendedNextRole(role, names) <==>
      role == User && BankStatement in names && (Identification !in names || ProofOfAddress !in names)
  {
  }

  /** The names of the user's documents, collected one by one in list order. */
  method DocumentNames(docs: seq<Document>) returns (names: seq<string>)
    ensures |names| == |docs|
    ensures forall i :: 0 <= i < |docs| ==> names[i] == docs[i].name
  {
    names := [];
    var i := 0;
    while i < |docs|
      invariant 0 <= i <= |docs|
      invariant |names| == i
      invariant forall k :: 0 <= k < i ==> names[k] == docs[k].name
    {
      names := names + [docs[i].name];
      i := i + 1;
    }
  }

  /** GET /premium/:uid. A missing id or user, or a `user` whose documents do
      not pass the test, is refused with 400 and nothing is written; otherwise
      the new role is written back and the updated user answered with 200. */
  method GetPremium(store: UserStore, uid: UserId) returns (resp: Response)
    modifies store
    ensures uid == "" || uid !in old(store.users) ==>
      resp == Response(400, None) && store.users == old(store.users)
    ensures uid != "" && uid in old(store.users) ==>
      var u := old(store.users)[uid];
      match NextRole(u.role, Names(u.documents))
      case None => resp == Response(400, None) && store.users == old(store.users)
      case Some(role) =>
        && resp == Response(200, Some(ToPublic(uid, u.(role := role))))
        && store.users == old(store.users)[uid := u.(role := role)]
  {
    if uid == "" {
      return Response(400, None);
    }
    var user := store.FindById(uid);
    if user == null {
      return Response(400, None);
    }
    match user.role {
      case User =>
        var names := DocumentNames(user.documents);
        assert names == Names(user.documents);
        if Includes(names, PremiumRequirement) {
          user.role := Premium;
        } else {
          return Response(400, None);
        }
      case Premium =>
        user.role := User;
      case Admin =>
    }
    var payload := UpdateUser(store, uid, user);
    resp := Response(200, Some(payload));
  }
}
