/** The consistency check of a published tree, and what a publish leaves for it to find. */
module CheckRepo {
  import opened Basics
  import opened PackageNames
  import opened Repository
  import opened RepositorySafety
  import opened RepositoryRuns

  /** What the check reads of one database entry; either field may be missing. */
  datatype Fields = Fields(filename: Option<string>, csize: Option<nat>)

  /** What the check sees of a tree: the size of every object but the databases, which of
      the two archives are signed, and the two databases, if they are there. */
  datatype View = View(
    present: map<string, nat>,
    dbSigned: bool,
    filesSigned: bool,
    entries: Option<map<string, Fields>>,
    files: Option<set<string>>)

  datatype Problem =
    | NoDatabase
    | UnsignedDatabase
    | UnsignedFiles
    | NoFilename(entry: string)
    | MissingFile(entry: string)
    | WrongSize(entry: string)
    | NoSignature(entry: string)
    | Unlisted(file: string)
    | NoFiles
    | AbsentFromFiles(entry: string)
    | ExtraInFiles(entry: string)

  /** A tree with no object at all. */
  predicate IsBare(v: View)
  {
    v.present == map[] && !v.dbSigned && !v.filesSigned && v.entries.None? && v.files.None?
  }

  /** Python's "not filename": missing or empty. */
  predicate NamesNothing(f: Fields)
  {
    f.filename.None? || f.filename.value == ""
  }

  predicate IsThere(v: View, f: Fields)
  {
    !NamesNothing(f) && f.filename.value in v.present
  }

  predicate SizeDiffers(v: View, f: Fields)
  {
    IsThere(v, f) && f.csize.Some? && f.csize.value != v.present[f.filename.value]
  }

  predicate Unsigned(v: View, f: Fields)
  {
    IsThere(v, f) && f.filename.value + SIG !in v.present
  }

  predicate ListsFile(entries: map<string, Fields>, file: string)
  {
    exists n :: n in entries && entries[n].filename == Some(file)
  }

  /** The problems of single entries. */
  predicate EntryProblem(v: View, entries: map<string, Fields>, p: Problem)
  {
    match p
    case NoFilename(n) => n in entries && NamesNothing(entries[n])
    case MissingFile(n) => n in entries && !NamesNothing(entries[n]) && entries[n].filename.value !in v.present
    case WrongSize(n) => n in entries && SizeDiffers(v, entries[n])
    case NoSignature(n) => n in entries && Unsigned(v, entries[n])
    case _ => false
  }

  predicate FilesProblem(v: View, entries: map<string, Fields>, p: Problem)
  {
    match p
    case NoFiles => v.files.None?
    case AbsentFromFiles(n) => v.files.Some? && n in entries && n !in v.files.value
    case ExtraInFiles(n) => v.files.Some? && n in v.files.value && n !in entries
    case _ => false
  }

  /** When each problem is one. */
  predicate Holds(v: View, p: Problem)
  {
    if IsBare(v) then false
    else if v.entries.None? then p.NoDatabase?
    else
      match p
      case UnsignedDatabase => !v.dbSigned
      case UnsignedFiles => !v.filesSigned
      case Unlisted(f) => f in v.present && IsPackage(f) && !ListsFile(v.entries.value, f)
      case _ => EntryProblem(v, v.entries.value, p) || FilesProblem(v, v.entries.value, p)
  }

  // ----- the check itself -----

  method CheckEntry(v: View, entries: map<string, Fields>, name: string) returns (problems: seq<Problem>)
    requires name in entries
    ensures forall p :: p in problems <==> EntryProblem(v, entries, p) && p.entry == name
  {
    var fields := entries[name];
    problems := [];
    if fields.filename.None? || fields.filename.value == "" {
      return [NoFilename(name)];
    }
    var filename := fields.filename.value;
    if filename !in v.present {
      return [MissingFile(name)];
    }
    if fields.csize.Some? && fields.csize.value != v.present[filename] {
      problems := problems + [WrongSize(name)];
    }
    if filename + SIG !in v.present {
      problems := problems + [NoSignature(name)];
    }
  }

  method CheckEntries(v: View, entries: map<string, Fields>) returns (problems: seq<Problem>)
    ensures forall p :: p in problems <==> EntryProblem(v, entries, p)
  {
    problems := [];
    var todo := entries.Keys;
    while todo != {}
      invariant todo <= entries.Keys
      invariant forall p :: p in problems <==> EntryProblem(v, entries, p) && p.entry !in todo
    {
      var name :| name in todo;
      var found := CheckEntry(v, entries, name);
      problems := problems + found;
      todo := todo - {name};
    }
  }

  method CheckUnlisted(v: View, entries: map<string, Fields>) returns (problems: seq<Problem>)
    ensures forall p :: p in problems <==>
      (p.Unlisted? && p.file in v.present && IsPackage(p.file) && !ListsFile(entries, p.file))
  {
    problems := [];
    var todo := v.present.Keys;
    hide IsPackage;
    while todo != {}
      invariant todo <= v.present.Keys
      invariant forall p :: p in problems <==>
        (p.Unlisted? && p.file in v.present && p.file !in todo && IsPackage(p.file) && !ListsFile(entries, p.file))
    {
      var name :| name in todo;
      if IsPackage(name) && !ListsFile(entries, name) {
        problems := problems + [Unlisted(name)];
      }
      todo := todo - {name};
    }
  }

  method CheckFiles(v: View, entries: map<string, Fields>) returns (problems: seq<Problem>)
    ensures forall p :: p in problems <==> FilesProblem(v, entries, p)
  {
    if v.files.None? {
      return [NoFiles];
    }
    var files := v.files.value;
    problems := [];
    var missing := entries.Keys - files;
    while missing != {}
      invariant missing <= entries.Keys - files
      invariant forall p :: p in problems <==> p.AbsentFromFiles? && p.entry in entries.Keys - files - missing
    {
      var n :| n in missing;
      problems := problems + [AbsentFromFiles(n)];
      missing := missing - {n};
    }
    var extra := files - entries.Keys;
    while extra != {}
      invariant extra <= files - entries.Keys
      invariant forall p :: p in problems <==>
        ((p.AbsentFromFiles? && p.entry in entries.Keys - files)
         || (p.ExtraInFiles? && p.entry in files - entries.Keys - extra))
    {
      var n :| n in extra;
      problems := problems + [ExtraInFiles(n)];
      extra := extra - {n};
    }
  }

  /** Every inconsistency of one architecture's tree, and nothing else. */
  method CheckArch(v: View) returns (problems: seq<Problem>)
    ensures forall p :: p in problems <==> Holds(v, p)
  {
    hide EntryProblem, FilesProblem, ListsFile, IsPackage;
    if IsBare(v) {
      return [];
    }
    if v.entries.None? {
      return [NoDatabase];
    }
    var entries := v.entries.value;
    var ofEntries := CheckEntries(v, entries);
    var ofPresent := CheckUnlisted(v, entries);
    var ofFiles := CheckFiles(v, entries);
    problems := (if v.dbSigned then [] else [UnsignedDatabase])
      + (if v.filesSigned then [] else [UnsignedFiles]) + ofEntries + ofPresent + ofFiles;
    KindsApart(v, entries);
  }

  lemma KindsApart(v: View, entries: map<string, Fields>)
    ensures forall p :: EntryProblem(v, entries, p) || FilesProblem(v, entries, p) ==>
      (!p.UnsignedDatabase? && !p.UnsignedFiles? && !p.Unlisted?)
  {
  }

  // ----- what the check means -----

  /** The entry names a file that is there, of the size recorded if one is, and signed. */
  predicate EntryHolds(v: View, f: Fields)
  {
    match f.filename
    case None => false
    case Some(name) =>
      && name != "" && name in v.present && (f.csize.Some? ==> v.present[name] == f.csize.value)
      && name + ".sig" in v.present
  }

  predicate EntriesHold(v: View, entries: map<string, Fields>)
  {
    forall n :: n in entries ==> EntryHolds(v, entries[n])
  }

  /** The invariants a client depends on. */
  predicate Consistent(v: View)
  {
    && v.entries.Some? && v.dbSigned && v.filesSigned
    && EntriesHold(v, v.entries.value)
    && (forall f :: f in v.present && IsPackage(f) ==>
          exists n :: n in v.entries.value && v.entries.value[n].filename == Some(f))
    && v.files == Some(v.entries.value.Keys)
  }

  ghost predicate Clean(v: View)
  {
    forall p :: !Holds(v, p)
  }

  /** Nothing is reported exactly when the tree is bare or every invariant holds. */
  lemma CleanMeansConsistent(v: View)
    ensures Clean(v) <==> IsBare(v) || Consistent(v)
  {
    if Clean(v) && !IsBare(v) {
      FewestProblems(v);
    }
    if Consistent(v) {
      hide IsPackage;
      forall p ensures !Holds(v, p) {
      }
    }
  }

  lemma FewestProblems(v: View)
    requires Clean(v) && !IsBare(v)
    ensures Consistent(v)
  {
    hide IsPackage;
    assert !Holds(v, NoDatabase);
    var entries := v.entries.value;
    assert !Holds(v, UnsignedDatabase) && !Holds(v, UnsignedFiles) && !Holds(v, NoFiles);
    forall n | n in entries
      ensures EntryHolds(v, entries[n])
    {
      assert !Holds(v, NoFilename(n)) && !Holds(v, MissingFile(n));
      assert !Holds(v, WrongSize(n)) && !Holds(v, NoSignature(n));
    }
    forall f | f in v.present && IsPackage(f)
      ensures exists n :: n in entries && entries[n].filename == Some(f)
    {
      assert !Holds(v, Unlisted(f));
    }
    forall n ensures n in v.files.value <==> n in entries {
      assert !Holds(v, AbsentFromFiles(n)) && !Holds(v, ExtraInFiles(n));
    }
    assert v.files.value == entries.Keys;
  }

  // ----- the trees publishing makes -----

  function SizeOf(blob: Blob): nat
  {
    match blob
    case Package(bytes) => |bytes|
    case Signature(_, salt) => salt
  }

  /** A tree as the check sees it: repo-add writes both databases with the same entries,
      and records each file's name and size. */
  function ViewOf(t: Tree): View
  {
    View(map n | n in t.objects :: SizeOf(t.objects[n]),
         t.db.Some? && t.db.value.isSigned,
         t.db.Some? && t.db.value.isSigned,
         if t.db.Some?
         then Some(map p | p in Entries(t) :: Fields(Some(Entries(t)[p].filename), Some(|Entries(t)[p].bytes|)))
         else None,
         if t.db.Some? then Some(Entries(t).Keys) else None)
  }

  predicate Signed(t: Tree)
  {
    t.db.Some? && t.db.value.isSigned
  }

  /** A signed tree that serves its readers has no missing, wrong-sized or unsigned file
      and no disagreement: at worst a published package it does not list yet. */
  lemma ServedShowsOnlyUnlisted(t: Tree, p: Problem)
    requires Served(true, t) && Signed(t) && Holds(ViewOf(t), p)
    ensures p.Unlisted?
  {
    var v := ViewOf(t);
    hide ListsFile, IsPackage, PkgnameOf;
    forall n | n in Entries(t)
      ensures n in v.entries.value && IsThere(v, v.entries.value[n]) && !SizeDiffers(v, v.entries.value[n])
           && !Unsigned(v, v.entries.value[n])
    {
      assert EntrySound(t, n, Entries(t)[n]) && EntrySigned(t, Entries(t)[n]);
      PackageIsNamed(Entries(t)[n].filename);
    }
    hide ViewOf;
  }

  lemma PackageIsNamed(name: string)
    ensures IsPackage(name) ==> name != ""
  {
  }

  lemma {:induction false} StaysSigned(t: Tree, writes: seq<Write>, k: nat)
    requires Signed(t) && k <= |writes|
    requires forall w :: w in writes && w.PutDatabase? ==> w.published.isSigned
    ensures Signed(DoAll(t, writes[..k]))
    decreases k
  {
    if k > 0 {
      assert writes[0] in writes;
      assert writes[..k][0] == writes[0] && writes[..k][1..] == writes[1..][..k - 1];
      StaysSigned(Do(t, writes[0]), writes[1..], k - 1);
    }
  }

  lemma {:induction false} PrunesOnlyDelete(build: seq<Built>, listing: seq<string>)
    ensures forall w :: w in Prunes(build, listing) ==> w.Delete?
    decreases |listing|
  {
    hide Superseded;
    if listing != [] {
      PrunesOnlyDelete(build, listing[1..]);
    }
  }

  /** While a signed build is published into a signed tree, the check can only ever report
      packages published and not listed yet. */
  lemma PublishShowsOnlyUnlisted(t: Tree, build: seq<Built>, listing: seq<string>, k: nat, p: Problem)
    requires Served(true, t) && Signed(t) && WellBuilt(build) && forall b :: b in build ==> b.signature.Some?
    requires k <= |PublishWrites(t, build, true, listing)|
    requires Holds(ViewOf(DoAll(t, PublishWrites(t, build, true, listing)[..k])), p)
    ensures p.Unlisted?
  {
    var ws := PublishWrites(t, build, true, listing);
    PublishServes(true, t, build, true, listing);
    UploadsOnlyPut(Live(t), t, build);
    PrunesOnlyDelete(build, listing);
    hide Served, Uploads, Prunes, WellBuilt, Accepted, Holds;
    StaysSigned(t, ws, k);
    hide PublishWrites, Signed;
    ThroughoutMeansEveryPrefix(true, t, ws, k);
    ServedShowsOnlyUnlisted(DoAll(t, ws[..k]), p);
  }

  /** Without a database there is one problem at most. */
  lemma NoDatabaseShowsOnlyThat(t: Tree, p: Problem)
    requires t.db.None? && Holds(ViewOf(t), p)
    ensures p.NoDatabase?
  {
  }

  /** While a publish uploads packages the database is what it was. */
  lemma UploadsKeepDatabase(t: Tree, build: seq<Built>, k: nat)
    requires k <= |Uploads(Live(t), t, build)|
    ensures DoAll(t, Uploads(Live(t), t, build)[..k]).db == t.db
  {
    hide Uploads;
    UploadsOnlyPut(Live(t), t, build);
    PutsDo(t, Uploads(Live(t), t, build)[..k]);
  }

  /** And from its own on it is signed. */
  lemma SignedOnceUp(t: Tree, build: seq<Built>, listing: seq<string>, k: nat)
    requires |Uploads(Live(t), t, build)| < k <= |PublishWrites(t, build, true, listing)|
    ensures Signed(DoAll(t, PublishWrites(t, build, true, listing)[..k]))
  {
    var ups, prunes := Uploads(Live(t), t, build), Prunes(build, listing);
    var ws := PublishWrites(t, build, true, listing);
    hide Uploads, Prunes, Accepted, AddAll;
    var db := NewDatabase(t, build, true);
    var j := k - |ups| - 1;
    assert ws[..k] == ups + ([PutDatabase(db)] + prunes[..j]);
    DoAllAppend(t, ups, [PutDatabase(db)] + prunes[..j]);
    DoAllAppend(DoAll(t, ups), [PutDatabase(db)], prunes[..j]);
    OnePut(DoAll(t, ups), db);
    var u := Do(DoAll(t, ups), PutDatabase(db));
    PrunesOnlyDelete(build, listing);
    hide DoAll;
    StaysSigned(u, prunes, j);
  }

  /** While a signed build is published into any clean tree, a first publish into an empty
      one among them, the check can only report packages not listed yet; or, until the
      first database goes up, only that there is none. */
  lemma PublishFromCleanShows(t: Tree, build: seq<Built>, listing: seq<string>, k: nat, p: Problem)
    requires Served(true, t) && Clean(ViewOf(t)) && WellBuilt(build) && forall b :: b in build ==> b.signature.Some?
    requires k <= |PublishWrites(t, build, true, listing)|
    requires Holds(ViewOf(DoAll(t, PublishWrites(t, build, true, listing)[..k])), p)
    ensures if t.db.None? && k <= |Uploads(Live(t), t, build)| then p.NoDatabase? else p.Unlisted?
  {
    var ws := PublishWrites(t, build, true, listing);
    CleanMeansConsistent(ViewOf(t));
    CleanIsBareOrSigned(t);
    hide *;
    if t.db.Some? {
      PublishShowsOnlyUnlisted(t, build, listing, k, p);
    } else if k <= |Uploads(Live(t), t, build)| {
      UploadsComeFirst(t, build, listing, k);
      UploadsKeepDatabase(t, build, k);
      NoDatabaseShowsOnlyThat(DoAll(t, ws[..k]), p);
    } else {
      SignedOnceUp(t, build, listing, k);
      PublishServes(true, t, build, true, listing);
      ThroughoutMeansEveryPrefix(true, t, ws, k);
      ServedShowsOnlyUnlisted(DoAll(t, ws[..k]), p);
    }
  }

  lemma CleanIsBareOrSigned(t: Tree)
    requires IsBare(ViewOf(t)) || Consistent(ViewOf(t))
    ensures t.db.Some? ==> Signed(t)
  {
    hide EntriesHold, ListsFile, IsPackage;
  }

  lemma UploadsComeFirst(t: Tree, build: seq<Built>, listing: seq<string>, k: nat)
    requires k <= |Uploads(Live(t), t, build)|
    ensures k <= |PublishWrites(t, build, true, listing)|
    ensures PublishWrites(t, build, true, listing)[..k] == Uploads(Live(t), t, build)[..k]
  {
    hide Uploads, Prunes, Accepted, NewDatabase;
  }

  predicate OnePerName(build: seq<Built>)
  {
    forall b, c :: b in build && c in build && b.pkgname == c.pkgname ==> b.filename == c.filename
  }

  lemma CleanListsEveryPackage(t: Tree, f: string)
    requires Clean(ViewOf(t)) && f in t.objects && IsPackage(f)
    ensures exists p :: p in Entries(t) && Entries(t)[p].filename == f
  {
    var v := ViewOf(t);
    CleanMeansConsistent(v);
    hide IsPackage, EntriesHold;
    assert f in v.present;
    assert ListsFile(v.entries.value, f);
  }

  /** The last package of a name is the one listed. */
  lemma {:induction false} BuiltIsListed(db: Database, build: seq<Built>, b: Built)
    requires b in build && OnePerName(build)
    requires forall i, j :: 0 <= i < j < |build| ==> build[i].filename != build[j].filename
    ensures b.pkgname in AddAll(db, build) && AddAll(db, build)[b.pkgname] == Entry(b.filename, b.bytes)
    decreases |build|
  {
    var next := db[build[0].pkgname := Entry(build[0].filename, build[0].bytes)];
    if b in build[1..] {
      assert forall c :: c in build[1..] ==> c in build;
      BuiltIsListed(next, build[1..], b);
    } else {
      assert b == build[0];
      forall c | c in build[1..] ensures c.pkgname != b.pkgname {
        var i :| 0 <= i < |build[1..]| && build[1..][i] == c;
        assert build[i + 1] == c && build[0].filename != build[i + 1].filename;
        assert c in build;
      }
      OthersKeepEntry(next, build[1..], b.pkgname);
    }
  }

  lemma {:induction false} OthersKeepEntry(db: Database, build: seq<Built>, p: string)
    requires p in db && forall c :: c in build ==> c.pkgname != p
    ensures p in AddAll(db, build) && AddAll(db, build)[p] == db[p]
    decreases |build|
  {
    if build != [] {
      assert build[0] in build;
      assert forall c :: c in build[1..] ==> c in build;
      OthersKeepEntry(db[build[0].pkgname := Entry(build[0].filename, build[0].bytes)], build[1..], p);
    }
  }

  /** After a completed publish, what is left of the packages is listed. */
  lemma NothingUnlistedAtTheEnd(t: Tree, build: seq<Built>, f: string)
    requires Served(true, t) && Clean(ViewOf(t)) && WellBuilt(build) && OnePerName(build)
    requires f in t.objects + AllUploads(t, build) && IsPackage(f) && !Superseded(build, f)
    ensures exists p :: p in AddAll(Entries(t), build) && AddAll(Entries(t), build)[p].filename == f
  {
    if b :| b in build && b.filename == f {
      BuiltIsListed(Entries(t), build, b);
    } else {
      NotUploaded(t, build, f);
      CleanListsEveryPackage(t, f);
      var p :| p in Entries(t) && Entries(t)[p].filename == f;
      assert EntrySound(t, p, Entries(t)[p]);
      forall b | b in build ensures b.pkgname != p {
        NotBuilt(build, f, b);
      }
      hide IsPackage, PkgnameOf, Superseded, AddAll;
      OthersKeepEntry(Entries(t), build, p);
    }
  }

  lemma NotUploaded(t: Tree, build: seq<Built>, f: string)
    requires f in t.objects + AllUploads(t, build) && IsPackage(f)
    requires forall b :: b in build ==> b.filename != f
    ensures f in t.objects
  {
    if f in AllUploads(t, build) {
      UploadsOnlyPut(Live(t), t, build);
      PutMapKeys(Uploads(Live(t), t, build), f);
      var w :| w in Uploads(Live(t), t, build) && w.name == f;
      UploadsAreOf(Live(t), t, build, w);
      var b :| b in build && w in UploadsOf(b);
      SignatureIsNoPackage(b.filename, f);
    }
  }

  /** A package that is neither built now nor superseded is of another name. */
  lemma NotBuilt(build: seq<Built>, f: string, b: Built)
    requires IsPackage(f) && !Superseded(build, f) && WellBuilt(build) && b in build
    requires forall c :: c in build ==> c.filename != f
    ensures b.pkgname != PkgnameOf(f)
  {
    SignatureNames(f);
    assert WellNamed(b);
    assert PkgnameOf(b.filename) in BuiltNames(build);
    hide PkgnameOf, EndsWith;
    forall c | c in build ensures c.filename != f + SIG {
      assert WellNamed(c);
      SignatureIsNoPackage(f, c.filename);
    }
  }

  /** Every package a completed publish leaves is listed by the database it leaves. */
  lemma EndListsPackages(t: Tree, build: seq<Built>, sign: bool, listing: seq<string>, f: string)
    requires Served(true, t) && Clean(ViewOf(t)) && WellBuilt(build) && OnePerName(build)
    requires Accepted(t, build) && Lists(listing, t.objects + AllUploads(t, build))
    requires f in DoAll(t, PublishWrites(t, build, sign, listing)).objects && IsPackage(f)
    ensures var end := DoAll(t, PublishWrites(t, build, sign, listing));
      exists n :: n in Entries(end) && Entries(end)[n].filename == f
  {
    PublishEndsAt(t, build, sign, listing);
    InCompleted(t, build, sign, f);
    hide *;
    NothingUnlistedAtTheEnd(t, build, f);
    CompletedLists(t, build, sign);
  }

  lemma InCompleted(t: Tree, build: seq<Built>, sign: bool, f: string)
    requires f in Completed(t.objects, AllUploads(t, build), build, NewDatabase(t, build, sign)).objects
    ensures f in t.objects + AllUploads(t, build) && !Superseded(build, f)
  {
    hide AllUploads, Superseded, NewDatabase;
  }

  lemma CompletedLists(t: Tree, build: seq<Built>, sign: bool)
    ensures var end := Completed(t.objects, AllUploads(t, build), build, NewDatabase(t, build, sign));
      Entries(end) == AddAll(Entries(t), build) && (end.db.Some? && end.db.value.isSigned == sign)
  {
    hide AllUploads, Superseded, AddAll;
  }

  lemma PublishEndsClean(t: Tree, build: seq<Built>, listing: seq<string>)
    requires Served(true, t) && Clean(ViewOf(t))
    requires WellBuilt(build) && OnePerName(build) && forall b :: b in build ==> b.signature.Some?
    requires Accepted(t, build) && Lists(listing, t.objects + AllUploads(t, build))
    ensures Clean(ViewOf(DoAll(t, PublishWrites(t, build, true, listing))))
  {
    var end := DoAll(t, PublishWrites(t, build, true, listing));
    PublishEndsServed(t, build, listing);
    hide *;
    forall f | f in end.objects && IsPackage(f)
      ensures exists n :: n in Entries(end) && Entries(end)[n].filename == f
    {
      EndListsPackages(t, build, true, listing, f);
    }
    ListedIsClean(end);
  }

  lemma PublishEndsServed(t: Tree, build: seq<Built>, listing: seq<string>)
    requires Served(true, t) && WellBuilt(build) && forall b :: b in build ==> b.signature.Some?
    requires Accepted(t, build) && Lists(listing, t.objects + AllUploads(t, build))
    ensures var end := DoAll(t, PublishWrites(t, build, true, listing)); Served(true, end) && Signed(end)
  {
    var ws := PublishWrites(t, build, true, listing);
    PublishEndsAt(t, build, true, listing);
    CompletedLists(t, build, true);
    PublishServes(true, t, build, true, listing);
    assert ws[..|ws|] == ws;
    hide *;
    ThroughoutMeansEveryPrefix(true, t, ws, |ws|);
    SignedMeans(DoAll(t, ws));
  }

  lemma SignedMeans(t: Tree)
    ensures Signed(t) <==> t.db.Some? && t.db.value.isSigned
  {
  }

  /** A signed tree that serves its readers and lists its packages is clean. */
  lemma ListedIsClean(t: Tree)
    requires Served(true, t) && Signed(t)
    requires forall f :: f in t.objects && IsPackage(f) ==> exists n :: n in Entries(t) && Entries(t)[n].filename == f
    ensures Clean(ViewOf(t))
  {
    hide Served, ViewOf, IsPackage, Holds, Clean;
    forall p ensures !Holds(ViewOf(t), p) {
      if Holds(ViewOf(t), p) {
        ServedShowsOnlyUnlisted(t, p);
        UnlistedMeans(t, p);
        StillListed(t, p);
      }
    }
    NothingHolds(ViewOf(t));
  }

  lemma UnlistedMeans(t: Tree, p: Problem)
    requires p.Unlisted? && t.db.Some? && Holds(ViewOf(t), p)
    ensures p.file in t.objects && IsPackage(p.file)
  {
    hide IsPackage;
  }

  lemma NothingHolds(v: View)
    requires forall p :: !Holds(v, p)
    ensures Clean(v)
  {
  }

  lemma StillListed(t: Tree, p: Problem)
    requires p.Unlisted? && t.db.Some?
    requires exists n :: n in Entries(t) && Entries(t)[n].filename == p.file
    ensures !Holds(ViewOf(t), p)
  {
    var n :| n in Entries(t) && Entries(t)[n].filename == p.file;
    var v := ViewOf(t);
    assert n in v.entries.value && v.entries.value[n].filename == Some(p.file);
    assert ListsFile(v.entries.value, p.file);
  }

  /** Two built packages of one name leave the check something to report. */
  lemma TwoOfANameShow(t: Tree, build: seq<Built>, listing: seq<string>, b: Built, c: Built)
    requires Sound(t) && WellBuilt(build) && Accepted(t, build)
    requires Lists(listing, t.objects + AllUploads(t, build))
    requires b in build && c in build && b.pkgname == c.pkgname && b.filename != c.filename
    ensures !Clean(ViewOf(DoAll(t, PublishWrites(t, build, true, listing))))
  {
    var end := DoAll(t, PublishWrites(t, build, true, listing));
    PublishEndsAt(t, build, true, listing);
    BuiltIsUploaded(t, build, b);
    BuiltIsUploaded(t, build, c);
    UploadsAreKept(t, build, b.filename);
    UploadsAreKept(t, build, c.filename);
    PublishServes(false, t, build, true, listing);
    assert WellNamed(b) && WellNamed(c);
    var ws := PublishWrites(t, build, true, listing);
    assert ws[..|ws|] == ws;
    hide PublishWrites, Uploads, Prunes, WellBuilt, Accepted, Superseded, AddAll, Lists, AllUploads;
    hide IsPackage, PkgnameOf;
    ThroughoutMeansEveryPrefix(false, t, ws, |ws|);
    OneOfTwoUnlisted(end, b, c);
  }

  /** A signed publish into a clean tree, not refused, ends clean exactly when no two of the
      built packages share a name. */
  lemma EndsCleanExactlyWhenOnePerName(t: Tree, build: seq<Built>, listing: seq<string>)
    requires Served(true, t) && Clean(ViewOf(t))
    requires WellBuilt(build) && forall b :: b in build ==> b.signature.Some?
    requires Accepted(t, build) && Lists(listing, t.objects + AllUploads(t, build))
    ensures Clean(ViewOf(DoAll(t, PublishWrites(t, build, true, listing)))) <==> OnePerName(build)
  {
    hide Clean, ViewOf, DoAll, PublishWrites, WellBuilt, Accepted, Lists, AllUploads;
    if OnePerName(build) {
      PublishEndsClean(t, build, listing);
    } else {
      var b, c :| b in build && c in build && b.pkgname == c.pkgname && b.filename != c.filename;
      TwoOfANameShow(t, build, listing, b, c);
    }
  }

  lemma OneOfTwoUnlisted(t: Tree, b: Built, c: Built)
    requires Sound(t) && t.db.Some? && WellNamed(b) && WellNamed(c)
    requires b.pkgname == c.pkgname && b.filename != c.filename
    requires b.filename in t.objects && c.filename in t.objects
    ensures !Clean(ViewOf(t))
  {
    if p, q :| Names(t, p, b.filename) && Names(t, q, c.filename) {
      NamedAlike(t, p);
      NamedAlike(t, q);
      assert false;
    } else if Clean(ViewOf(t)) {
      BothListed(t, b.filename, c.filename);
      assert false;
    }
  }

  lemma BothListed(t: Tree, f: string, g: string)
    requires Clean(ViewOf(t)) && f in t.objects && g in t.objects && IsPackage(f) && IsPackage(g)
    ensures exists p, q :: Names(t, p, f) && Names(t, q, g)
  {
    CleanListsEveryPackage(t, f);
    CleanListsEveryPackage(t, g);
    var p :| p in Entries(t) && Entries(t)[p].filename == f;
    var q :| q in Entries(t) && Entries(t)[q].filename == g;
    assert Names(t, p, f) && Names(t, q, g);
  }

  predicate Names(t: Tree, p: string, file: string)
  {
    p in Entries(t) && Entries(t)[p].filename == file
  }

  lemma NamedAlike(t: Tree, p: string)
    requires Sound(t) && p in Entries(t)
    ensures PkgnameOf(Entries(t)[p].filename) == p
  {
    assert EntrySound(t, p, Entries(t)[p]);
  }
}
