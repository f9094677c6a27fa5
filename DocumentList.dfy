/**
 The document list of a user and what one documentation upload does to it,
 as functions on values.

 For each supplied file, the upload walks the list with an index, removes
 (splices out) every entry of that kind it meets and removes its file, then
 appends a new entry. Because the index still advances after a removal, the
 entry that slid into the removed one's place is never examined: `Scan`
 models that walk exactly, skip included. When the list holds at most one
 entry of the kind, the skip never matters (`ScanAtMostOne`), and an upload
 keeps every list at one entry per kind (`UploadKeepsNamesUnique`).
 */
module DocumentList {
  import opened Collaborators

  const Identification: string := "identification"
  const ProofOfAddress: string := "proofOfAddress"
  const BankStatement: string := "bankStatement"

  /** A file as the upload middleware hands it over, reduced to its stored name. */
  datatype UploadedFile = UploadedFile(filename: string)

  /** The path recorded for a stored file: the module directory, `/documents/`, the file name. */
  function StoredPath(dirname: string, filename: string): (p: string)
    ensures |p| == |dirname| + 11 + |filename|
    ensures p[..|dirname|] == dirname && p[|dirname| + 11..] == filename
    ensures p[|dirname|..|dirname| + 11] == "/documents/"
  {
    dirname + "/documents/" + filename
  }

  /** The entries named `name`, in list order. */
  function Only(s: seq<Document>, name: string): seq<Document>
  {
    if s == [] then []
    else (if s[0].name == name then [s[0]] else []) + Only(s[1..], name)
  }

  /** The entries not named `name`, in list order. */
  function Without(s: seq<Document>, name: string): seq<Document>
  {
    if s == [] then []
    else (if s[0].name == name then [] else [s[0]]) + Without(s[1..], name)
  }

  function Count(s: seq<Document>, name: string): nat {
    |Only(s, name)|
  }

  /** At most one entry of every name. */
  ghost predicate NamesUnique(s: seq<Document>) {
    forall n :: Count(s, n) <= 1
  }

  /** No two entries point at the same file. */
  predicate ReferencesUnique(s: seq<Document>) {
    forall i, j :: 0 <= i < j < |s| ==> s[i].reference != s[j].reference
  }

  function References(s: seq<Document>): (r: seq<string>)
    ensures |r| == |s|
    ensures forall i :: 0 <= i < |s| ==> r[i] == s[i].reference
  {
    seq(|s|, i requires 0 <= i < |s| => s[i].reference)
  }

  /** The list a scan leaves behind and the entries it splices out, in order. */
  datatype Split = Split(kept: seq<Document>, removed: seq<Document>)

  /** The index walk over the list that splices out entries named `name`:
      after a removal, the following entry is kept without being examined.
      Whatever the list, every entry is either kept or removed. */
  function Scan(s: seq<Document>, name: string): (r: Split)
    ensures |r.kept| + |r.removed| == |s|
    decreases |s|
  {
    if s == [] then Split([], [])
    else if s[0].name == name then
      if |s| == 1 then Split([], [s[0]])
      else
        var rest := Scan(s[2..], name);
        Split([s[1]] + rest.kept, [s[0]] + rest.removed)
    else
      var rest := Scan(s[1..], name);
      Split([s[0]] + rest.kept, rest.removed)
  }

  lemma OnlyCons(d: Document, s: seq<Document>, name: string)
    ensures Only([d] + s, name) == (if d.name == name then [d] else []) + Only(s, name)
    ensures Without([d] + s, name) == (if d.name == name then [] else [d]) + Without(s, name)
  {
    assert ([d] + s)[1..] == s;
  }

  lemma {:induction false} OnlyAppend(a: seq<Document>, b: seq<Document>, name: string)
    ensures Only(a + b, name) == Only(a, name) + Only(b, name)
    ensures Without(a + b, name) == Without(a, name) + Without(b, name)
    decreases |a|
  {
    if a == [] {
      assert a + b == b;
    } else {
      assert a + b == [a[0]] + (a[1..] + b);
      OnlyCons(a[0], a[1..] + b, name);
      OnlyAppend(a[1..], b, name);
      assert a == [a[0]] + a[1..];
      OnlyCons(a[0], a[1..], name);
    }
  }

  /** Every entry of `Only` carries the name; every entry of `Without` is in the list and does not. */
  lemma {:induction false} OnlyMembers(s: seq<Document>, name: string)
    ensures forall d :: d in Only(s, name) ==> d in s && d.name == name
    ensures forall d :: d in Without(s, name) ==> d in s && d.name != name
    ensures |Only(s, name)| + |Without(s, name)| == |s|
    decreases |s|
  {
    if s != [] {
      OnlyMembers(s[1..], name);
    }
  }

  /** A name no entry carries: the list is its own `Without`. */
  lemma {:induction false} WithoutAbsent(s: seq<Document>, name: string)
    requires Count(s, name) == 0
    ensures Without(s, name) == s
    decreases |s|
  {
    if s != [] {
      WithoutAbsent(s[1..], name);
    }
  }

  /** Whatever the list, a scan removes only entries of the scanned name. */
  lemma {:induction false} ScanRemovesOnlyName(s: seq<Document>, name: string)
    ensures forall d :: d in Scan(s, name).removed ==> d.name == name
    decreases |s|
  {
    if s == [] {
    } else if s[0].name == name && |s| > 1 {
      ScanRemovesOnlyName(s[2..], name);
    } else if s[0].name != name {
      ScanRemovesOnlyName(s[1..], name);
    }
  }

  /** Multiset bookkeeping for a step that keeps the head of a list. */
  lemma MultisetKeepHead<T>(s: seq<T>, kept: seq<T>, removed: seq<T>)
    requires |s| >= 1 && multiset(kept) + multiset(removed) == multiset(s[1..])
    ensures multiset([s[0]] + kept) + multiset(removed) == multiset(s)
  {
    assert s == [s[0]] + s[1..];
  }

  /** Multiset bookkeeping for a step that removes the head and keeps the next entry. */
  lemma MultisetSplitPair<T>(s: seq<T>, kept: seq<T>, removed: seq<T>)
    requires |s| >= 2 && multiset(kept) + multiset(removed) == multiset(s[2..])
    ensures multiset([s[1]] + kept) + multiset([s[0]] + removed) == multiset(s)
  {
    assert s == [s[0]] + ([s[1]] + s[2..]);
  }

  /** Whatever the list, a scan loses and invents nothing: kept and removed
      entries together are the list's entries. */
  lemma {:induction false} ScanPermutes(s: seq<Document>, name: string)
    ensures multiset(Scan(s, name).kept) + multiset(Scan(s, name).removed) == multiset(s)
    decreases |s|
  {
    if s == [] {
    } else if s[0].name == name && |s| > 1 {
      var rest := Scan(s[2..], name);
      ScanPermutes(s[2..], name);
      MultisetSplitPair(s, rest.kept, rest.removed);
    } else if s[0].name != name {
      var rest := Scan(s[1..], name);
      ScanPermutes(s[1..], name);
      MultisetKeepHead(s, rest.kept, rest.removed);
    }
  }

  /** Whatever the list, a scan keeps the entries of every other name, in order. */
  lemma {:induction false} ScanOtherNames(s: seq<Document>, name: string, n: string)
    requires n != name
    ensures Only(Scan(s, name).kept, n) == Only(s, n)
    decreases |s|
  {
    if s == [] {
    } else if s[0].name == name {
      if |s| == 1 {
      } else {
        var rest := Scan(s[2..], name);
        ScanOtherNames(s[2..], name, n);
        assert s == [s[0]] + ([s[1]] + s[2..]);
        OnlyCons(s[1], rest.kept, n);
        OnlyCons(s[1], s[2..], n);
        OnlyCons(s[0], [s[1]] + s[2..], n);
      }
    } else {
      var rest := Scan(s[1..], name);
      ScanOtherNames(s[1..], name, n);
      assert s == [s[0]] + s[1..];
      OnlyCons(s[0], rest.kept, n);
      OnlyCons(s[0], s[1..], n);
    }
  }

  /** A scan over a list without the name changes nothing. */
  lemma {:induction false} ScanNoMatch(s: seq<Document>, name: string)
    requires Count(s, name) == 0
    ensures Scan(s, name) == Split(s, [])
    decreases |s|
  {
    if s != [] {
      ScanNoMatch(s[1..], name);
    }
  }

  /** With at most one entry of the name, the skip never matters: the scan
      removes exactly the entries of that name and keeps the rest in order. */
  lemma {:induction false} ScanAtMostOne(s: seq<Document>, name: string)
    requires Count(s, name) <= 1
    ensures Scan(s, name) == Split(Without(s, name), Only(s, name))
    decreases |s|
  {
    if s == [] {
    } else if s[0].name == name {
      assert Count(s[1..], name) == 0;
      ScanNoMatch(s[1..], name);
      WithoutAbsent(s[1..], name);
      if |s| > 1 {
        assert s[1..] == [s[1]] + s[2..];
        OnlyCons(s[1], s[2..], name);
        ScanNoMatch(s[2..], name);
      }
    } else {
      ScanAtMostOne(s[1..], name);
    }
  }

  /** The skip itself: of two adjacent entries of the scanned name, the second
      survives the scan. */
  lemma ScanSkipsNextEntry(a: Document, b: Document, t: seq<Document>)
    requires a.name == b.name
    ensures Scan([a, b] + t, a.name).kept == [b] + Scan(t, a.name).kept
    ensures b in Scan([a, b] + t, a.name).kept
  {
    assert ([a, b] + t)[2..] == t;
  }

  /** One step of the scan from position `j`: what it does with the entry there. */
  lemma ScanAt(s: seq<Document>, j: nat, name: string)
    requires j < |s|
    ensures s[j].name == name && j + 1 < |s| ==>
      Scan(s[j..], name) == Split([s[j + 1]] + Scan(s[j + 2..], name).kept, [s[j]] + Scan(s[j + 2..], name).removed)
    ensures s[j].name == name && j + 1 == |s| ==> Scan(s[j..], name) == Split([], [s[j]])
    ensures s[j].name != name ==>
      Scan(s[j..], name) == Split([s[j]] + Scan(s[j + 1..], name).kept, Scan(s[j + 1..], name).removed)
  {
    assert s[j..][0] == s[j];
    if j + 1 < |s| {
      assert s[j..][1] == s[j + 1];
      assert s[j..][2..] == s[j + 2..];
    }
    assert s[j..][1..] == s[j + 1..];
  }

  lemma ReferencesAppend(a: seq<Document>, b: seq<Document>)
    ensures References(a + b) == References(a) + References(b)
  {
  }

  /** The scan of `orig`, stopped before position `j`: `kept` is what the
      list holds before that position and `removed` what was spliced out. */
  predicate ScanSoFar(orig: seq<Document>, j: nat, kept: seq<Document>, removed: seq<Document>, name: string) {
    j <= |orig| &&
    Scan(orig, name) == Split(kept + Scan(orig[j..], name).kept, removed + Scan(orig[j..], name).removed)
  }

  /** The scan passes an entry of another name: it stays. */
  lemma ScanPassOver(orig: seq<Document>, j: nat, kept: seq<Document>, removed: seq<Document>, name: string)
    requires ScanSoFar(orig, j, kept, removed, name) && j < |orig| && orig[j].name != name
    ensures ScanSoFar(orig, j + 1, kept + [orig[j]], removed, name)
    ensures kept + orig[j..] == (kept + [orig[j]]) + orig[j + 1..]
  {
    ScanAt(orig, j, name);
    assert orig[j..] == [orig[j]] + orig[j + 1..];
  }

  /** Splicing out the entry at the seam of `kept + rest`. */
  lemma SpliceAtSeam<T>(kept: seq<T>, rest: seq<T>)
    requires |rest| > 0
    ensures var docs := kept + rest; docs[..|kept|] + docs[|kept| + 1..] == kept + rest[1..]
  {
    var docs := kept + rest;
    assert docs[..|kept|] == kept;
    assert docs[|kept| + 1..] == rest[1..];
  }

  /** The scan splices out an entry of its name: the next entry slides into
      its place and is passed over unexamined. */
  lemma ScanSpliceOut(orig: seq<Document>, j: nat, kept: seq<Document>, removed: seq<Document>, name: string)
    requires ScanSoFar(orig, j, kept, removed, name) && j < |orig| && orig[j].name == name
    ensures var docs := kept + orig[j..];
      docs[..|kept|] + docs[|kept| + 1..] == kept + orig[j + 1..]
    ensures j + 1 < |orig| ==>
      && ScanSoFar(orig, j + 2, kept + [orig[j + 1]], removed + [orig[j]], name)
      && kept + orig[j + 1..] == (kept + [orig[j + 1]]) + orig[j + 2..]
    ensures j + 1 == |orig| ==>
      ScanSoFar(orig, j + 1, kept, removed + [orig[j]], name) && kept + orig[j + 1..] == kept
  {
    SpliceAtSeam(kept, orig[j..]);
    assert orig[j..][1..] == orig[j + 1..];
    ScanAt(orig, j, name);
    if j + 1 < |orig| {
      assert orig[j + 1..] == [orig[j + 1]] + orig[j + 2..];
    } else {
      assert orig[j + 1..] == [];
    }
  }

  /** What the scan removes after splicing out the entry at `j`. */
  function LaterRemoved(orig: seq<Document>, j: nat, name: string): seq<Document>
    requires j < |orig|
  {
    if j + 1 < |orig| then Scan(orig[j + 2..], name).removed else []
  }

  /** The files of `done + [d] + later`, split around `d`. */
  lemma ReferencesAround(done: seq<Document>, d: Document, later: seq<Document>)
    ensures References(done + ([d] + later)) == References(done) + [d.reference] + References(later)
    ensures References(done + [d]) == References(done) + [d.reference]
  {
    ReferencesAppend(done, [d] + later);
    ReferencesAppend([d], later);
    ReferencesAppend(done, [d]);
    assert References([d]) == [d.reference];
  }

  /** The files of a scan's removals, split at the removal of the entry at `j`. */
  lemma ScanRemovedRefs(orig: seq<Document>, j: nat, removed: seq<Document>, name: string)
    requires j < |orig| && orig[j].name == name
    requires Scan(orig, name).removed == removed + Scan(orig[j..], name).removed
    ensures References(Scan(orig, name).removed)
      == References(removed) + [orig[j].reference] + References(LaterRemoved(orig, j, name))
    ensures References(removed + [orig[j]]) == References(removed) + [orig[j].reference]
  {
    ScanAt(orig, j, name);
    assert Scan(orig[j..], name).removed == [orig[j]] + LaterRemoved(orig, j, name);
    ReferencesAround(removed, orig[j], LaterRemoved(orig, j, name));
  }

  /** A scan part-way through: its removals so far have succeeded, leaving
      `left`, and the entry at `j` is to be removed next. If its file is gone,
      the whole block fails; otherwise the removals so far grow by it. */
  lemma ScanRemovalStep(files: set<string>, left: set<string>, orig: seq<Document>, j: nat,
                        kept: seq<Document>, removed: seq<Document>, name: string)
    requires j < |orig| && orig[j].name == name
    requires Scan(orig, name) == Split(kept + Scan(orig[j..], name).kept, removed + Scan(orig[j..], name).removed)
    requires UnlinkAll(files, References(removed)) == Some(left)
    ensures orig[j].reference !in left ==> UnlinkAll(files, References(Scan(orig, name).removed)) == None
    ensures orig[j].reference in left ==>
      UnlinkAll(files, References(removed + [orig[j]])) == Some(left - {orig[j].reference})
    ensures References(removed + [orig[j]]) == References(removed) + [orig[j].reference]
  {
    ScanRemovedRefs(orig, j, removed, name);
    UnlinkNext(files, References(removed), left, orig[j].reference, References(LaterRemoved(orig, j, name)));
  }

  /** The state of the in-place walk before position `j` of the original
      list `orig`: the list holds the kept entries followed by the rest of
      `orig`, and the files of the removed entries have been removed from
      `files0` and appended to the log `log0`, in order. */
  ghost predicate Walk(orig: seq<Document>, name: string, files0: set<string>, log0: seq<string>,
                       j: nat, kept: seq<Document>, removed: seq<Document>,
                       docs: seq<Document>, files: set<string>, log: seq<string>)
  {
    && j <= |orig|
    && docs == kept + orig[j..]
    && ScanSoFar(orig, j, kept, removed, name)
    && UnlinkAll(files0, References(removed)) == Some(files)
    && log == log0 + References(removed)
  }

  lemma WalkStart(orig: seq<Document>, name: string, files: set<string>, log: seq<string>)
    ensures Walk(orig, name, files, log, 0, [], [], orig, files, log)
  {
    assert orig[0..] == orig;
    assert [] + orig == orig;
    assert References([]) == [];
    assert log + [] == log;
  }

  /** The walk passes an entry of another name. */
  lemma WalkPass(orig: seq<Document>, name: string, files0: set<string>, log0: seq<string>,
                 j: nat, kept: seq<Document>, removed: seq<Document>,
                 docs: seq<Document>, files: set<string>, log: seq<string>)
    requires Walk(orig, name, files0, log0, j, kept, removed, docs, files, log)
    requires j < |orig| && orig[j].name != name
    ensures docs[|kept|] == orig[j]
    ensures Walk(orig, name, files0, log0, j + 1, kept + [orig[j]], removed, docs, files, log)
  {
    ScanPassOver(orig, j, kept, removed, name);
  }

  /** The walk splices out the entry at the index, an entry of its name, and
      removes its file: if the file is gone the whole block fails, otherwise
      the next entry slides into place and is passed over unexamined. */
  lemma WalkSplice(orig: seq<Document>, name: string, files0: set<string>, log0: seq<string>,
                   j: nat, kept: seq<Document>, removed: seq<Document>,
                   docs: seq<Document>, files: set<string>, log: seq<string>)
    requires Walk(orig, name, files0, log0, j, kept, removed, docs, files, log)
    requires j < |orig| && orig[j].name == name
    ensures docs[|kept|] == orig[j]
    ensures orig[j].reference !in files ==> UnlinkAll(files0, References(Scan(orig, name).removed)) == None
    ensures orig[j].reference in files ==>
      var docs' := docs[..|kept|] + docs[|kept| + 1..];
      var files' := files - {orig[j].reference};
      var log' := log + [orig[j].reference];
      if j + 1 < |orig| then
        Walk(orig, name, files0, log0, j + 2, kept + [orig[j + 1]], removed + [orig[j]], docs', files', log')
      else
        Walk(orig, name, files0, log0, j + 1, kept, removed + [orig[j]], docs', files', log')
  {
    ScanSpliceOut(orig, j, kept, removed, name);
    ScanRemovalStep(files0, files, orig, j, kept, removed, name);
  }

  /** A walk that has reached the end of the list has performed the whole scan. */
  lemma WalkDone(orig: seq<Document>, name: string, files0: set<string>, log0: seq<string>,
                 kept: seq<Document>, removed: seq<Document>,
                 docs: seq<Document>, files: set<string>, log: seq<string>)
    requires Walk(orig, name, files0, log0, |orig|, kept, removed, docs, files, log)
    ensures Scan(orig, name) == Split(kept, removed) && docs == kept
    ensures UnlinkAll(files0, References(Scan(orig, name).removed)) == Some(files)
    ensures log == log0 + References(Scan(orig, name).removed)
  {
    assert orig[|orig|..] == [];
    assert kept + [] == kept && removed + [] == removed;
  }

  /** The stored documents, the files on disk and the log of removed files. */
  datatype Storage = Storage(documents: seq<Document>, files: set<string>, unlinked: seq<string>)

  /** One `if (file) { ... }` block of the upload: scan out the entries of
      `name`, remove their files in the order met, append the new entry.
      None when a file removal fails. A block without a file does nothing; a
      block that succeeds only removes files, only appends to the log, and
      leaves the new entry last. */
  function ReplaceKind(st: Storage, name: string, file: Option<UploadedFile>, dirname: string): (r: Option<Storage>)
    ensures file.None? ==> r == Some(st)
    ensures r.Some? ==> r.value.files <= st.files && st.unlinked <= r.value.unlinked
    ensures r.Some? && file.Some? ==>
      |r.value.documents| > 0
      && r.value.documents[|r.value.documents| - 1] == Document(name, StoredPath(dirname, file.value.filename))
  {
    match file
    case None => Some(st)
    case Some(f) =>
      var sp := Scan(st.documents, name);
      match UnlinkAll(st.files, References(sp.removed))
      case None => None
      case Some(left) =>
        Some(Storage(sp.kept + [Document(name, StoredPath(dirname, f.filename))],
                     left, st.unlinked + References(sp.removed)))
  }

  /** The three blocks of the upload, in their fixed order. With no file it
      does nothing; when it succeeds it only removes files and only appends
      to the log. */
  function Upload(st: Storage, idFile: Option<UploadedFile>, addressFile: Option<UploadedFile>,
                  accountFile: Option<UploadedFile>, dirname: string): (r: Option<Storage>)
    ensures idFile.None? && addressFile.None? && accountFile.None? ==> r == Some(st)
    ensures r.Some? ==> r.value.files <= st.files && st.unlinked <= r.value.unlinked
  {
    match ReplaceKind(st, Identification, idFile, dirname)
    case None => None
    case Some(st1) =>
      match ReplaceKind(st1, ProofOfAddress, addressFile, dirname)
      case None => None
      case Some(st2) => ReplaceKind(st2, BankStatement, accountFile, dirname)
  }

  /** The entry an upload appends for one kind, if its file was supplied. */
  function NewEntry(name: string, file: Option<UploadedFile>, dirname: string): seq<Document>
  {
    match file
    case None => []
    case Some(f) => [Document(name, StoredPath(dirname, f.filename))]
  }

  /** The list with the entries of `name` taken out, if its file was supplied. */
  function Strip(s: seq<Document>, name: string, file: Option<UploadedFile>): seq<Document>
  {
    if file.Some? then Without(s, name) else s
  }

  function Supplied(file: Option<UploadedFile>): nat {
    if file.Some? then 1 else 0
  }

  /** One block, when the list holds at most one entry of its kind: the block
      succeeds iff that entry's file (if any) is on disk; the entries of other
      kinds stay in order and the new entry comes last; the old entry's file,
      and only it, is removed. */
  lemma ReplaceKindAtMostOne(st: Storage, name: string, file: Option<UploadedFile>, dirname: string)
    requires Count(st.documents, name) <= 1
    ensures ReplaceKind(st, name, file, dirname).Some? <==>
      (file.Some? ==> forall d :: d in Only(st.documents, name) ==> d.reference in st.files)
    ensures ReplaceKind(st, name, file, dirname).Some? ==>
      var st' := ReplaceKind(st, name, file, dirname).value;
      && st'.documents == Strip(st.documents, name, file) + NewEntry(name, file, dirname)
      && st'.unlinked == st.unlinked + (if file.Some? then References(Only(st.documents, name)) else [])
      && st'.files == st.files - (set d | d in Only(st.documents, name) && file.Some? :: d.reference)
  {
    if file.Some? {
      ScanAtMostOne(st.documents, name);
      var refs := References(Only(st.documents, name));
      UnlinkAllSucceedsIff(st.files, refs);
      assert forall d :: d in Only(st.documents, name) ==> d.reference in refs;
      assert (set p | p in refs) == (set d | d in Only(st.documents, name) && file.Some? :: d.reference);
    }
  }

  /** One block leaves the entries of every other kind as they were, whatever the list. */
  lemma ReplaceKindOtherKinds(st: Storage, name: string, file: Option<UploadedFile>, dirname: string, n: string)
    requires n != name
    requires ReplaceKind(st, name, file, dirname).Some?
    ensures Only(ReplaceKind(st, name, file, dirname).value.documents, n) == Only(st.documents, n)
  {
    if file.Some? {
      var sp := Scan(st.documents, name);
      ScanOtherNames(st.documents, name, n);
      OnlyAppend(sp.kept, NewEntry(name, file, dirname), n);
      OnlyCons(Document(name, StoredPath(dirname, file.value.filename)), [], n);
    }
  }

  /** One block, whatever the list: the list loses exactly the entries whose
      files were removed and gains one entry per supplied file; each removed
      file is logged once. */
  lemma ReplaceKindCounts(st: Storage, name: string, file: Option<UploadedFile>, dirname: string)
    requires ReplaceKind(st, name, file, dirname).Some?
    ensures var st' := ReplaceKind(st, name, file, dirname).value;
      && |st'.documents| + (|st'.unlinked| - |st.unlinked|) == |st.documents| + Supplied(file)
      && st'.unlinked[..|st.unlinked|] == st.unlinked
      && Distinct(st'.unlinked[|st.unlinked|..])
      && (forall p :: p in st'.unlinked[|st.unlinked|..] ==> p in st.files && p !in st'.files)
  {
    if file.Some? {
      var sp := Scan(st.documents, name);
      var refs := References(sp.removed);
      UnlinkAllSucceedsIff(st.files, refs);
      var st' := ReplaceKind(st, name, file, dirname).value;
      assert st'.unlinked[|st.unlinked|..] == refs;
    }
  }

  /** One block with at most one entry of its kind and no two entries sharing
      a file: no surviving entry loses its file. */
  lemma ReplaceKindSparesSurvivors(st: Storage, name: string, file: Option<UploadedFile>, dirname: string)
    requires Count(st.documents, name) <= 1 && ReferencesUnique(st.documents)
    requires ReplaceKind(st, name, file, dirname).Some?
    ensures var st' := ReplaceKind(st, name, file, dirname).value;
      forall d :: d in Strip(st.documents, name, file) ==> d.reference !in st'.unlinked[|st.unlinked|..]
  {
    ReplaceKindAtMostOne(st, name, file, dirname);
    if file.Some? {
      var st' := ReplaceKind(st, name, file, dirname).value;
      var gone := Only(st.documents, name);
      OnlyMembers(st.documents, name);
      assert st'.unlinked[|st.unlinked|..] == References(gone);
      ReferencesApart(st.documents, name);
    }
  }

  /** With no two entries sharing a file, the entries of a name and the
      others never share one either. */
  lemma {:induction false} ReferencesApart(s: seq<Document>, name: string)
    requires ReferencesUnique(s)
    ensures forall d, e :: d in Without(s, name) && e in Only(s, name) ==> d.reference != e.reference
    decreases |s|
  {
    if s != [] {
      var t := s[1..];
      assert ReferencesUnique(t) by {
        forall i, j | 0 <= i < j < |t| ensures t[i].reference != t[j].reference {
          assert t[i] == s[i + 1] && t[j] == s[j + 1];
        }
      }
      ReferencesApart(t, name);
      OnlyMembers(t, name);
      forall d | d in t ensures d.reference != s[0].reference {
        var k :| 0 <= k < |t| && t[k] == d;
        assert s[k + 1] == d;
      }
    }
  }

  /** A supplied kind ends with exactly the new entry. */
  lemma ReplaceKindInstalls(st: Storage, name: string, f: UploadedFile, dirname: string)
    requires Count(st.documents, name) <= 1
    requires ReplaceKind(st, name, Some(f), dirname).Some?
    ensures Only(ReplaceKind(st, name, Some(f), dirname).value.documents, name)
      == [Document(name, StoredPath(dirname, f.filename))]
  {
    ReplaceKindAtMostOne(st, name, Some(f), dirname);
    var nd := Document(name, StoredPath(dirname, f.filename));
    OnlyAppend(Without(st.documents, name), [nd], name);
    OnlyMembers(st.documents, name);
    OnlyNone(Without(st.documents, name), name);
    OnlyCons(nd, [], name);
  }

  lemma {:induction false} OnlyNone(s: seq<Document>, name: string)
    requires forall d :: d in s ==> d.name != name
    ensures Only(s, name) == []
    decreases |s|
  {
    if s != [] {
      OnlyNone(s[1..], name);
    }
  }

  /** One block keeps "at most one entry per name". */
  lemma ReplaceKindKeepsNamesUnique(st: Storage, name: string, file: Option<UploadedFile>, dirname: string)
    requires NamesUnique(st.documents)
    requires ReplaceKind(st, name, file, dirname).Some?
    ensures NamesUnique(ReplaceKind(st, name, file, dirname).value.documents)
  {
    var st' := ReplaceKind(st, name, file, dirname).value;
    forall n ensures Count(st'.documents, n) <= 1 {
      assert Count(st.documents, n) <= 1;
      if n != name {
        ReplaceKindOtherKinds(st, name, file, dirname, n);
      } else if file.Some? {
        assert Count(st.documents, name) <= 1;
        ReplaceKindInstalls(st, name, file.value, dirname);
      }
    }
  }

  /** An upload keeps "at most one entry per name"; so a list that starts
      with none (as a newly registered user's does) never meets the skip. */
  lemma UploadKeepsNamesUnique(st: Storage, idFile: Option<UploadedFile>, addressFile: Option<UploadedFile>,
                               accountFile: Option<UploadedFile>, dirname: string)
    requires NamesUnique(st.documents)
    requires Upload(st, idFile, addressFile, accountFile, dirname).Some?
    ensures NamesUnique(Upload(st, idFile, addressFile, accountFile, dirname).value.documents)
  {
    var st1 := ReplaceKind(st, Identification, idFile, dirname).value;
    ReplaceKindKeepsNamesUnique(st, Identification, idFile, dirname);
    var st2 := ReplaceKind(st1, ProofOfAddress, addressFile, dirname).value;
    ReplaceKindKeepsNamesUnique(st1, ProofOfAddress, addressFile, dirname);
    ReplaceKindKeepsNamesUnique(st2, BankStatement, accountFile, dirname);
  }

  /** One block applied to a list that ends in entries of other kinds. */
  lemma ReplaceKindAfter(st: Storage, pre: seq<Document>, e: seq<Document>,
                         name: string, file: Option<UploadedFile>, dirname: string)
    requires st.documents == pre + e && Count(st.documents, name) <= 1
    requires forall d :: d in e ==> d.name != name
    requires ReplaceKind(st, name, file, dirname).Some?
    ensures ReplaceKind(st, name, file, dirname).value.documents
      == Strip(pre, name, file) + (e + NewEntry(name, file, dirname))
  {
    ReplaceKindAtMostOne(st, name, file, dirname);
    StripAppendOther(pre, e, name, file);
    var n := NewEntry(name, file, dirname);
    assert Strip(pre, name, file) + e + n == Strip(pre, name, file) + (e + n);
  }

  /** A successful upload is its three blocks, each of which succeeded. */
  lemma UploadBlocks(st: Storage, idFile: Option<UploadedFile>, addressFile: Option<UploadedFile>,
                     accountFile: Option<UploadedFile>, dirname: string)
    requires Upload(st, idFile, addressFile, accountFile, dirname).Some?
    ensures ReplaceKind(st, Identification, idFile, dirname).Some?
    ensures ReplaceKind(ReplaceKind(st, Identification, idFile, dirname).value, ProofOfAddress, addressFile, dirname).Some?
    ensures Upload(st, idFile, addressFile, accountFile, dirname)
      == ReplaceKind(ReplaceKind(ReplaceKind(st, Identification, idFile, dirname).value,
                                 ProofOfAddress, addressFile, dirname).value,
                     BankStatement, accountFile, dirname)
  {
  }

  /** The first two blocks of an upload on a list with at most one entry of
      each of the three kinds: the stripped list, then the new entries in
      order; the bank statements are still as they were. */
  lemma FirstTwoBlocks(st: Storage, idFile: Option<UploadedFile>, addressFile: Option<UploadedFile>,
                       dirname: string)
    requires Count(st.documents, Identification) <= 1
    requires Count(st.documents, ProofOfAddress) <= 1
    requires ReplaceKind(st, Identification, idFile, dirname).Some?
    requires ReplaceKind(ReplaceKind(st, Identification, idFile, dirname).value, ProofOfAddress, addressFile, dirname).Some?
    ensures var st2 := ReplaceKind(ReplaceKind(st, Identification, idFile, dirname).value,
                                   ProofOfAddress, addressFile, dirname).value;
      && st2.documents == Strip(Strip(st.documents, Identification, idFile), ProofOfAddress, addressFile)
                          + (NewEntry(Identification, idFile, dirname) + NewEntry(ProofOfAddress, addressFile, dirname))
      && Only(st2.documents, BankStatement) == Only(st.documents, BankStatement)
  {
    var e1 := NewEntry(Identification, idFile, dirname);
    var s1 := Strip(st.documents, Identification, idFile);
    var st1 := ReplaceKind(st, Identification, idFile, dirname).value;
    assert st.documents == st.documents + [];
    ReplaceKindAfter(st, st.documents, [], Identification, idFile, dirname);
    assert [] + e1 == e1;
    assert st1.documents == s1 + e1;
    ReplaceKindOtherKinds(st, Identification, idFile, dirname, ProofOfAddress);
    ReplaceKindOtherKinds(st, Identification, idFile, dirname, BankStatement);
    ReplaceKindAfter(st1, s1, e1, ProofOfAddress, addressFile, dirname);
    ReplaceKindOtherKinds(st1, ProofOfAddress, addressFile, dirname, BankStatement);
  }

  /** An upload on a list with at most one entry of each of the three kinds:
      every entry not replaced keeps its relative order, and the new entries
      follow in the order identification, proof of address, bank statement. */
  lemma UploadOrder(st: Storage, idFile: Option<UploadedFile>, addressFile: Option<UploadedFile>,
                    accountFile: Option<UploadedFile>, dirname: string)
    requires Count(st.documents, Identification) <= 1
    requires Count(st.documents, ProofOfAddress) <= 1
    requires Count(st.documents, BankStatement) <= 1
    requires Upload(st, idFile, addressFile, accountFile, dirname).Some?
    ensures Upload(st, idFile, addressFile, accountFile, dirname).value.documents
      == Strip(Strip(Strip(st.documents, Identification, idFile), ProofOfAddress, addressFile), BankStatement, accountFile)
         + (NewEntry(Identification, idFile, dirname)
         + NewEntry(ProofOfAddress, addressFile, dirname)
         + NewEntry(BankStatement, accountFile, dirname))
  {
    UploadBlocks(st, idFile, addressFile, accountFile, dirname);
    var st2 := ReplaceKind(ReplaceKind(st, Identification, idFile, dirname).value,
                           ProofOfAddress, addressFile, dirname).value;
    FirstTwoBlocks(st, idFile, addressFile, dirname);
    var s2 := Strip(Strip(st.documents, Identification, idFile), ProofOfAddress, addressFile);
    var e12 := NewEntry(Identification, idFile, dirname) + NewEntry(ProofOfAddress, addressFile, dirname);
    ReplaceKindAfter(st2, s2, e12, BankStatement, accountFile, dirname);
  }

  /** The file an upload was given for a name: one of the three kinds, or none. */
  function FileFor(n: string, idFile: Option<UploadedFile>, addressFile: Option<UploadedFile>,
                   accountFile: Option<UploadedFile>): Option<UploadedFile>
  {
    if n == Identification then idFile
    else if n == ProofOfAddress then addressFile
    else if n == BankStatement then accountFile
    else None
  }

  /** One block on the entries of a name `n`: untouched when the block is for
      another name or has no file, replaced by the new entry otherwise. */
  lemma ReplaceKindOnName(st: Storage, name: string, file: Option<UploadedFile>, dirname: string, n: string)
    requires ReplaceKind(st, name, file, dirname).Some?
    requires n == name && file.Some? ==> Count(st.documents, n) <= 1
    ensures Only(ReplaceKind(st, name, file, dirname).value.documents, n)
      == if n == name && file.Some? then [Document(n, StoredPath(dirname, file.value.filename))]
         else Only(st.documents, n)
  {
    if n != name {
      ReplaceKindOtherKinds(st, name, file, dirname, n);
    } else if file.Some? {
      ReplaceKindInstalls(st, name, file.value, dirname);
    }
  }

  /** What an upload does to the entries of any one name: a supplied kind that
      held at most one entry now holds exactly the new one, pointing at the
      stored file; an unsupplied kind, and every other name, is untouched. */
  lemma UploadOnName(st: Storage, idFile: Option<UploadedFile>, addressFile: Option<UploadedFile>,
                     accountFile: Option<UploadedFile>, dirname: string, n: string)
    requires Upload(st, idFile, addressFile, accountFile, dirname).Some?
    requires FileFor(n, idFile, addressFile, accountFile).Some? ==> Count(st.documents, n) <= 1
    ensures var file := FileFor(n, idFile, addressFile, accountFile);
      Only(Upload(st, idFile, addressFile, accountFile, dirname).value.documents, n)
      == if file.Some? then [Document(n, StoredPath(dirname, file.value.filename))] else Only(st.documents, n)
  {
    var st1 := ReplaceKind(st, Identification, idFile, dirname).value;
    ReplaceKindOnName(st, Identification, idFile, dirname, n);
    var st2 := ReplaceKind(st1, ProofOfAddress, addressFile, dirname).value;
    ReplaceKindOnName(st1, ProofOfAddress, addressFile, dirname, n);
    ReplaceKindOnName(st2, BankStatement, accountFile, dirname, n);
  }

  /** Whatever the list, a successful upload's size: it loses exactly as many
      entries as files it removed and gains one per supplied file; the log of
      removed files only grows, by distinct paths that were on disk and are
      gone now. */
  lemma UploadCounts(st: Storage, idFile: Option<UploadedFile>, addressFile: Option<UploadedFile>,
                     accountFile: Option<UploadedFile>, dirname: string)
    requires Upload(st, idFile, addressFile, accountFile, dirname).Some?
    ensures var st' := Upload(st, idFile, addressFile, accountFile, dirname).value;
      && |st'.documents| + (|st'.unlinked| - |st.unlinked|)
         == |st.documents| + Supplied(idFile) + Supplied(addressFile) + Supplied(accountFile)
      && st'.unlinked[..|st.unlinked|] == st.unlinked
  {
    var st1 := ReplaceKind(st, Identification, idFile, dirname).value;
    ReplaceKindCounts(st, Identification, idFile, dirname);
    var st2 := ReplaceKind(st1, ProofOfAddress, addressFile, dirname).value;
    ReplaceKindCounts(st1, ProofOfAddress, addressFile, dirname);
    var st3 := ReplaceKind(st2, BankStatement, accountFile, dirname).value;
    ReplaceKindCounts(st2, BankStatement, accountFile, dirname);
    assert st3.unlinked[..|st.unlinked|] == st2.unlinked[..|st1.unlinked|][..|st.unlinked|];
  }

  /** Every entry's file is on disk. */
  predicate FilesPresent(s: seq<Document>, files: set<string>) {
    forall d :: d in s ==> d.reference in files
  }

  /** A path on disk that no entry points at, as a file the upload middleware
      has just stored under a new name. */
  predicate FreshPath(st: Storage, p: string) {
    p in st.files && forall d :: d in st.documents ==> d.reference != p
  }

  /** The path the upload middleware stores a supplied file at. */
  function PathOf(file: Option<UploadedFile>, dirname: string): set<string> {
    if file.Some? then {StoredPath(dirname, file.value.filename)} else {}
  }

  function UploadedPaths(idFile: Option<UploadedFile>, addressFile: Option<UploadedFile>,
                         accountFile: Option<UploadedFile>, dirname: string): set<string>
  {
    PathOf(idFile, dirname) + PathOf(addressFile, dirname) + PathOf(accountFile, dirname)
  }

  /** The supplied files are stored at pairwise different paths. */
  predicate DistinctUploads(idFile: Option<UploadedFile>, addressFile: Option<UploadedFile>,
                            accountFile: Option<UploadedFile>, dirname: string)
  {
    && PathOf(idFile, dirname) !! PathOf(addressFile, dirname)
    && PathOf(idFile, dirname) !! PathOf(accountFile, dirname)
    && PathOf(addressFile, dirname) !! PathOf(accountFile, dirname)
  }

  /** The tail of a list without shared files has none either, and shares none with the head. */
  lemma ReferencesUniqueTail(s: seq<Document>)
    requires |s| > 0 && ReferencesUnique(s)
    ensures ReferencesUnique(s[1..])
    ensures forall d :: d in s[1..] ==> d.reference != s[0].reference
  {
    var t := s[1..];
    forall i, j | 0 <= i < j < |t| ensures t[i].reference != t[j].reference {
      assert t[i] == s[i + 1] && t[j] == s[j + 1];
    }
    forall d | d in t ensures d.reference != s[0].reference {
      var k :| 0 <= k < |t| && t[k] == d;
      assert s[k + 1] == d;
    }
  }

  /** Putting an entry in front of a list without shared files, when it shares no file with it. */
  lemma PrependFreshReference(d: Document, w: seq<Document>)
    requires ReferencesUnique(w) && forall e :: e in w ==> e.reference != d.reference
    ensures ReferencesUnique([d] + w)
  {
    forall i, j | 0 <= i < j < |[d] + w| ensures ([d] + w)[i].reference != ([d] + w)[j].reference {
      if i == 0 {
        assert ([d] + w)[j] == w[j - 1] && w[j - 1] in w;
      } else {
        assert ([d] + w)[i] == w[i - 1] && ([d] + w)[j] == w[j - 1];
      }
    }
  }

  /** Taking out the entries of a name keeps references apart. */
  lemma {:induction false} WithoutReferencesUnique(s: seq<Document>, name: string)
    requires ReferencesUnique(s)
    ensures ReferencesUnique(Without(s, name))
    decreases |s|
  {
    if s != [] {
      ReferencesUniqueTail(s);
      WithoutReferencesUnique(s[1..], name);
      if s[0].name != name {
        OnlyMembers(s[1..], name);
        PrependFreshReference(s[0], Without(s[1..], name));
      }
    }
  }

  /** Appending an entry whose file no entry shares keeps references apart. */
  lemma AppendFreshReference(s: seq<Document>, d: Document)
    requires ReferencesUnique(s) && forall e :: e in s ==> e.reference != d.reference
    ensures ReferencesUnique(s + [d])
  {
    forall i, j | 0 <= i < j < |s + [d]| ensures (s + [d])[i].reference != (s + [d])[j].reference {
      assert (s + [d])[i] == s[i] && s[i] in s;
      if j < |s| {
        assert (s + [d])[j] == s[j];
      }
    }
  }

  /** One block on a consistent list (at most one entry of its kind, every
      entry's file on disk, no two entries sharing a file) whose new file is
      stored at a fresh path: the block succeeds and the list stays consistent. */
  lemma ReplaceKindKeepsConsistent(st: Storage, name: string, file: Option<UploadedFile>, dirname: string)
    requires Count(st.documents, name) <= 1
    requires FilesPresent(st.documents, st.files) && ReferencesUnique(st.documents)
    requires file.Some? ==> FreshPath(st, StoredPath(dirname, file.value.filename))
    ensures ReplaceKind(st, name, file, dirname).Some?
    ensures var st' := ReplaceKind(st, name, file, dirname).value;
      FilesPresent(st'.documents, st'.files) && ReferencesUnique(st'.documents)
  {
    OnlyMembers(st.documents, name);
    ReplaceKindAtMostOne(st, name, file, dirname);
    if file.Some? {
      var st' := ReplaceKind(st, name, file, dirname).value;
      var w := Without(st.documents, name);
      var p := StoredPath(dirname, file.value.filename);
      ReferencesApart(st.documents, name);
      assert st'.documents == w + [Document(name, p)];
      forall d | d in st'.documents ensures d.reference in st'.files {
        if d in w {
          assert d in st.documents;
        }
      }
      WithoutReferencesUnique(st.documents, name);
      AppendFreshReference(w, Document(name, p));
    }
  }

  /** A path that stays fresh through one block: the block neither removes
      it nor points a new entry at it. */
  lemma ReplaceKindKeepsFresh(st: Storage, name: string, file: Option<UploadedFile>, dirname: string, q: string)
    requires Count(st.documents, name) <= 1
    requires ReplaceKind(st, name, file, dirname).Some?
    requires FreshPath(st, q)
    requires file.Some? ==> StoredPath(dirname, file.value.filename) != q
    ensures FreshPath(ReplaceKind(st, name, file, dirname).value, q)
  {
    OnlyMembers(st.documents, name);
    ReplaceKindAtMostOne(st, name, file, dirname);
  }

  /** An upload on a consistent list (at most one entry of each kind, every
      entry's file on disk, no two entries sharing a file), with every
      supplied file stored at its own fresh path, always succeeds and leaves
      the list consistent: so does the next upload, replacing what this one
      stored. */
  lemma UploadKeepsConsistent(st: Storage, idFile: Option<UploadedFile>, addressFile: Option<UploadedFile>,
                              accountFile: Option<UploadedFile>, dirname: string)
    requires Count(st.documents, Identification) <= 1
    requires Count(st.documents, ProofOfAddress) <= 1
    requires Count(st.documents, BankStatement) <= 1
    requires FilesPresent(st.documents, st.files) && ReferencesUnique(st.documents)
    requires forall p :: p in UploadedPaths(idFile, addressFile, accountFile, dirname) ==> FreshPath(st, p)
    requires DistinctUploads(idFile, addressFile, accountFile, dirname)
    ensures Upload(st, idFile, addressFile, accountFile, dirname).Some?
    ensures var st' := Upload(st, idFile, addressFile, accountFile, dirname).value;
      FilesPresent(st'.documents, st'.files) && ReferencesUnique(st'.documents)
  {
    ReplaceKindKeepsConsistent(st, Identification, idFile, dirname);
    var st1 := ReplaceKind(st, Identification, idFile, dirname).value;
    ReplaceKindOtherKinds(st, Identification, idFile, dirname, ProofOfAddress);
    ReplaceKindOtherKinds(st, Identification, idFile, dirname, BankStatement);
    if addressFile.Some? {
      ReplaceKindKeepsFresh(st, Identification, idFile, dirname, StoredPath(dirname, addressFile.value.filename));
    }
    if accountFile.Some? {
      ReplaceKindKeepsFresh(st, Identification, idFile, dirname, StoredPath(dirname, accountFile.value.filename));
    }
    ReplaceKindKeepsConsistent(st1, ProofOfAddress, addressFile, dirname);
    var st2 := ReplaceKind(st1, ProofOfAddress, addressFile, dirname).value;
    ReplaceKindOtherKinds(st1, ProofOfAddress, addressFile, dirname, BankStatement);
    if accountFile.Some? {
      ReplaceKindKeepsFresh(st1, ProofOfAddress, addressFile, dirname, StoredPath(dirname, accountFile.value.filename));
    }
    ReplaceKindKeepsConsistent(st2, BankStatement, accountFile, dirname);
  }

  /** Stripping a name from a list followed by entries of other names. */
  lemma StripAppendOther(s: seq<Document>, e: seq<Document>, name: string, file: Option<UploadedFile>)
    requires forall d :: d in e ==> d.name != name
    ensures Strip(s + e, name, file) == Strip(s, name, file) + e
  {
    if file.Some? {
      OnlyAppend(s, e, name);
      OnlyNone(e, name);
      OnlyMembers(e, name);
      WithoutAbsent(e, name);
    }
  }
}
