/** Histories of the repository: publishes and removals in any order, each stopped after
    any write, and what running one again brings. */
module RepositoryRuns {
  import opened Basics
  import opened PackageNames
  import opened Repository
  import opened RepositorySafety

  // ----- removing -----

  lemma DoomedIsUnlisted(db: Database, dropped: set<string>, q: string, name: string)
    requires forall p :: p in db ==> IsPackage(db[p].filename) && PkgnameOf(db[p].filename) == p
    requires Doomed(db, dropped, name) && q in db - dropped
    ensures name != db[q].filename && name != db[q].filename + SIG
  {
    var p :| p in dropped && p in db && (name == db[p].filename || name == db[p].filename + SIG);
    SignatureIsNoPackage(db[p].filename, db[q].filename);
    SignatureIsNoPackage(db[q].filename, db[p].filename);
    SameStem(db[p].filename, db[q].filename);
    hide IsPackage, PkgnameOf, Doomed;
  }

  lemma {:induction false} DeletesServe(strict: bool, t: Tree, db: Database, dropped: set<string>, listing: seq<string>)
    requires Served(strict, t) && t.db.Some? && Entries(t) == db - dropped
    requires forall p :: p in db ==> IsPackage(db[p].filename) && PkgnameOf(db[p].filename) == p
    ensures ServedThroughout(strict, t, Deletes(db, dropped, listing))
    decreases |listing|
  {
    hide Doomed, IsPackage, PkgnameOf, Served;
    if listing != [] {
      var name := listing[0];
      if Doomed(db, dropped, name) {
        forall q | q in Entries(t) ensures name != Entries(t)[q].filename && name != Entries(t)[q].filename + SIG {
          DoomedIsUnlisted(db, dropped, q, name);
        }
        DeleteServes(strict, t, name);
        DeletesServe(strict, Do(t, Delete(name)), db, dropped, listing[1..]);
        assert Deletes(db, dropped, listing)[1..] == Deletes(db, dropped, listing[1..]);
      } else {
        DeletesServe(strict, t, db, dropped, listing[1..]);
      }
    }
  }

  lemma FewerEntriesServe(strict: bool, t: Tree, dropped: set<string>, sign: bool)
    requires Served(strict, t)
    ensures Served(strict, Do(t, PutDatabase(Published(Entries(t) - dropped, sign))))
  {
    var u := Do(t, PutDatabase(Published(Entries(t) - dropped, sign)));
    forall p | p in Entries(u)
      ensures EntrySound(u, p, Entries(u)[p]) && (strict ==> EntrySigned(u, Entries(u)[p]))
    {
      assert EntrySound(t, p, Entries(t)[p]) && (strict ==> EntrySigned(t, Entries(t)[p]));
      hide IsPackage, PkgnameOf;
    }
  }

  /** Removing serves readers at every write: the database goes before the files. */
  lemma RemoveServes(strict: bool, t: Tree, dropped: set<string>, sign: bool, listing: seq<string>)
    requires Served(strict, t)
    ensures ServedThroughout(strict, t, RemoveWrites(t, dropped, sign, listing))
  {
    var put := PutDatabase(Published(Entries(t) - dropped, sign));
    var ws := RemoveWrites(t, dropped, sign, listing);
    FewerEntriesServe(strict, t, dropped, sign);
    forall p | p in Entries(t) ensures IsPackage(Entries(t)[p].filename) && PkgnameOf(Entries(t)[p].filename) == p {
      assert EntrySound(t, p, Entries(t)[p]);
    }
    hide Served, IsPackage, PkgnameOf;
    DeletesServe(strict, Do(t, put), Entries(t), dropped, listing);
    assert ws[0] == put && ws[1..] == Deletes(Entries(t), dropped, listing);
  }

  // ----- histories -----

  datatype Job =
    | Publishing(build: seq<Built>, sign: bool, listing: seq<string>)
    | Removing(dropped: set<string>, sign: bool, listing: seq<string>)

  function WritesOf(t: Tree, job: Job): seq<Write>
  {
    match job
    case Publishing(build, sign, listing) => PublishWrites(t, build, sign, listing)
    case Removing(dropped, sign, listing) => RemoveWrites(t, dropped, sign, listing)
  }

  /** A job and how many of its writes were made before it ended or died. */
  datatype Attempt = Attempt(job: Job, made: nat)

  function Try(t: Tree, a: Attempt): Tree
  {
    var writes := WritesOf(t, a.job);
    DoAll(t, writes[..Min(a.made, |writes|)])
  }

  function History(t: Tree, attempts: seq<Attempt>): Tree
    decreases |attempts|
  {
    if attempts == [] then t else History(Try(t, attempts[0]), attempts[1..])
  }

  /** What is asked of the jobs: built packages are named as makepkg names them, and when
      readers are to find signatures, each comes with its own. */
  predicate Fair(strict: bool, job: Job)
  {
    job.Publishing? ==> WellBuilt(job.build) && (strict ==> forall b :: b in job.build ==> b.signature.Some?)
  }

  lemma AttemptServes(strict: bool, t: Tree, job: Job, made: nat)
    requires Served(strict, t) && Fair(strict, job)
    ensures ServedThroughout(strict, t, WritesOf(t, job)) && Served(strict, Try(t, Attempt(job, made)))
  {
    match job {
      case Publishing(build, sign, listing) => PublishServes(strict, t, build, sign, listing);
      case Removing(dropped, sign, listing) => RemoveServes(strict, t, dropped, sign, listing);
    }
    hide Served, WellBuilt, PublishWrites, RemoveWrites;
    var writes := WritesOf(t, job);
    ThroughoutMeansEveryPrefix(strict, t, writes, Min(made, |writes|));
  }

  /** Safety over every history: start from a tree that serves its readers, run any jobs in
      any order, stop each after any number of writes; after every single write of every
      one the database names only files that are there with the bytes it recorded. */
  lemma {:induction false} HistoryServes(strict: bool, t: Tree, attempts: seq<Attempt>, last: Job, made: nat)
    requires Served(strict, t) && Fair(strict, last)
    requires forall i :: 0 <= i < |attempts| ==> Fair(strict, attempts[i].job)
    ensures Served(strict, Try(History(t, attempts), Attempt(last, made)))
    decreases |attempts|
  {
    hide Served, Fair, WritesOf;
    if attempts == [] {
      AttemptServes(strict, t, last, made);
    } else {
      AttemptServes(strict, t, attempts[0].job, attempts[0].made);
      assert attempts[0] == Attempt(attempts[0].job, attempts[0].made);
      HistoryServes(strict, Try(t, attempts[0]), attempts[1..], last, made);
    }
  }

  /** So every tree that publishes and removals can make of an empty bucket serves. */
  lemma EveryReachableTreeServes(strict: bool, attempts: seq<Attempt>, last: Job, made: nat)
    requires Fair(strict, last) && forall i :: 0 <= i < |attempts| ==> Fair(strict, attempts[i].job)
    ensures Served(strict, Try(History(Tree(map[], None), attempts), Attempt(last, made)))
  {
    assert Served(strict, Tree(map[], None));
    hide *;
    HistoryServes(strict, Tree(map[], None), attempts, last, made);
  }

  // ----- running a publish again -----

  /** What a run of puts leaves under each name. */
  function PutMap(writes: seq<Write>): map<string, Blob>
    decreases |writes|
  {
    if writes == [] then map[]
    else if writes[0].Put? then map[writes[0].name := writes[0].blob] + PutMap(writes[1..])
    else PutMap(writes[1..])
  }

  predicate OnlyPuts(writes: seq<Write>)
  {
    forall w :: w in writes ==> w.Put?
  }

  lemma {:induction false} PutsDo(t: Tree, writes: seq<Write>)
    requires OnlyPuts(writes)
    ensures DoAll(t, writes) == Tree(t.objects + PutMap(writes), t.db)
    decreases |writes|
  {
    if writes == [] {
      assert t.objects + map[] == t.objects;
    } else {
      var w := writes[0];
      assert w in writes;
      PutsDo(Do(t, w), writes[1..]);
      PutThenUnion(t.objects, w.name, w.blob, PutMap(writes[1..]));
    }
  }

  lemma PutThenUnion(objects: map<string, Blob>, name: string, blob: Blob, ups: map<string, Blob>)
    ensures objects + (map[name := blob] + ups) == objects[name := blob] + ups
  {
  }

  lemma {:induction false} PutMapKeys(writes: seq<Write>, name: string)
    requires OnlyPuts(writes)
    ensures name in PutMap(writes) <==> exists w :: w in writes && w.name == name
    ensures name in PutMap(writes) ==> Put(name, PutMap(writes)[name]) in writes
    decreases |writes|
  {
    if writes != [] {
      assert writes[0] in writes;
      assert forall w :: w in writes <==> w == writes[0] || w in writes[1..];
      PutMapKeys(writes[1..], name);
    }
  }

  lemma {:induction false} UploadsAreOf(live: set<string>, t: Tree, build: seq<Built>, w: Write)
    requires w in Uploads(live, t, build)
    ensures exists b :: b in build && w in UploadsOf(b)
    decreases |build|
  {
    hide Refused;
    if w in UploadsOf(build[0]) {
      assert build[0] in build;
    } else {
      UploadsAreOf(live, t, build[1..], w);
      var b :| b in build[1..] && w in UploadsOf(b);
      assert b in build;
    }
  }

  lemma UploadsOnlyPut(live: set<string>, t: Tree, build: seq<Built>)
    ensures OnlyPuts(Uploads(live, t, build))
  {
    forall w | w in Uploads(live, t, build) ensures w.Put? {
      UploadsAreOf(live, t, build, w);
    }
  }

  /** Judged against one tree or another, an accepted build has the same uploads. */
  lemma {:induction false} UploadsAlike(live: set<string>, t: Tree, live': set<string>, t': Tree, build: seq<Built>)
    requires forall b :: b in build ==> !Refused(live, t, b) && !Refused(live', t', b)
    ensures Uploads(live, t, build) == Uploads(live', t', build)
    decreases |build|
  {
    hide Refused;
    if build != [] {
      assert build[0] in build;
      assert forall b :: b in build[1..] ==> b in build;
      UploadsAlike(live, t, live', t', build[1..]);
    }
  }

  lemma {:induction false} PrunesDo(t: Tree, build: seq<Built>, listing: seq<string>)
    ensures var u := DoAll(t, Prunes(build, listing));
      u.db == t.db
      && (forall n :: n in u.objects <==> n in t.objects && !(n in listing && Superseded(build, n)))
      && (forall n :: n in u.objects ==> u.objects[n] == t.objects[n])
    decreases |listing|
  {
    hide Superseded;
    if listing != [] {
      var n := listing[0];
      assert forall m :: m in listing <==> m == n || m in listing[1..];
      if Superseded(build, n) {
        PrunesDo(Do(t, Delete(n)), build, listing[1..]);
        assert Prunes(build, listing)[0] == Delete(n) && Prunes(build, listing)[1..] == Prunes(build, listing[1..]);
      } else {
        PrunesDo(t, build, listing[1..]);
      }
    }
  }

  lemma {:induction false} PrunesPrefix(build: seq<Built>, listing: seq<string>, k: nat) returns (j: nat)
    requires k <= |Prunes(build, listing)|
    ensures j <= |listing| && Prunes(build, listing)[..k] == Prunes(build, listing[..j])
    decreases |listing|
  {
    hide Superseded;
    if k == 0 {
      j := 0;
    } else {
      var n := listing[0];
      if Superseded(build, n) {
        var i := PrunesPrefix(build, listing[1..], k - 1);
        j := i + 1;
        assert listing[..j][0] == n && listing[..j][1..] == listing[1..][..i];
        assert Prunes(build, listing)[..k] == [Delete(n)] + Prunes(build, listing[1..])[..k - 1];
      } else {
        var i := PrunesPrefix(build, listing[1..], k);
        j := i + 1;
        assert listing[..j][0] == n && listing[..j][1..] == listing[1..][..i];
      }
    }
  }

  /** What a completed publish leaves: the old objects and the new, less the superseded. */
  function Completed(objects: map<string, Blob>, ups: map<string, Blob>, build: seq<Built>, db: Published): Tree
  {
    Tree(map n | n in objects + ups && !Superseded(build, n) :: (objects + ups)[n], Some(db))
  }

  /** A listing taken when pruning starts names every object then in the bucket. */
  predicate Lists(listing: seq<string>, objects: map<string, Blob>)
  {
    forall n :: n in objects ==> n in listing
  }

  function AllUploads(t: Tree, build: seq<Built>): map<string, Blob>
  {
    PutMap(Uploads(Live(t), t, build))
  }

  lemma PublishEndsAt(t: Tree, build: seq<Built>, sign: bool, listing: seq<string>)
    requires Accepted(t, build) && Lists(listing, t.objects + AllUploads(t, build))
    ensures DoAll(t, PublishWrites(t, build, sign, listing))
         == Completed(t.objects, AllUploads(t, build), build, NewDatabase(t, build, sign))
  {
    var ups, db := Uploads(Live(t), t, build), NewDatabase(t, build, sign);
    UploadsOnlyPut(Live(t), t, build);
    hide Accepted, Refused, Superseded, AddAll, Uploads;
    PutsDo(t, ups);
    DoAllAppend(t, ups + [PutDatabase(db)], Prunes(build, listing));
    DoAllAppend(t, ups, [PutDatabase(db)]);
    var u := DoAll(t, ups);
    OnePut(u, db);
    PrunesDo(Do(u, PutDatabase(db)), build, listing);
    var end := DoAll(Do(u, PutDatabase(db)), Prunes(build, listing));
    hide DoAll;
    assert end.objects == Completed(t.objects, AllUploads(t, build), build, db).objects;
  }

  lemma OnePut(t: Tree, db: Published)
    ensures DoAll(t, [PutDatabase(db)]) == Do(t, PutDatabase(db))
  {
    assert [PutDatabase(db)][1..] == [];
  }

  lemma {:induction false} AddAllUnion(db: Database, build: seq<Built>)
    ensures AddAll(db, build) == db + AddAll(map[], build)
    decreases |build|
  {
    if build == [] {
      assert db + map[] == db;
    } else {
      var p, e := build[0].pkgname, Entry(build[0].filename, build[0].bytes);
      AddAllUnion(db[p := e], build[1..]);
      AddAllUnion(map[][p := e], build[1..]);
      var rest := AddAll(map[], build[1..]);
      assert db[p := e] + rest == db + (map[p := e] + rest);
    }
  }

  /** repo-add again with the same packages changes nothing. */
  lemma AddAllTwice(db: Database, build: seq<Built>)
    ensures AddAll(AddAll(db, build), build) == AddAll(db, build)
  {
    AddAllUnion(db, build);
    AddAllUnion(AddAll(db, build), build);
    var n := AddAll(map[], build);
    hide AddAll;
    assert (db + n) + n == db + n;
  }

  /** What is uploaded is never superseded. */
  lemma UploadsAreKept(t: Tree, build: seq<Built>, name: string)
    requires name in AllUploads(t, build)
    ensures !Superseded(build, name)
  {
    hide Superseded, Uploads;
    UploadsOnlyPut(Live(t), t, build);
    PutMapKeys(Uploads(Live(t), t, build), name);
    var w :| w in Uploads(Live(t), t, build) && w.name == name;
    UploadsAreOf(Live(t), t, build, w);
    var b :| b in build && w in UploadsOf(b);
    OwnNamesAreKept(build, b);
  }

  lemma OwnNamesAreKept(build: seq<Built>, b: Built)
    requires b in build
    ensures !Superseded(build, b.filename) && !Superseded(build, b.filename + SIG)
  {
    hide IsPackageFile, PkgnameOf, RemoveSuffix;
    RemoveAppended(b.filename, SIG);
    assert b.filename in FileNames(build);
  }

  /** Every upload under a built package's own name is that package. */
  lemma UploadIsOwn(t: Tree, build: seq<Built>, b: Built)
    requires WellBuilt(build) && b in build
    requires b.filename in AllUploads(t, build)
    ensures AllUploads(t, build)[b.filename] == Package(b.bytes)
  {
    UploadsOnlyPut(Live(t), t, build);
    PutMapKeys(Uploads(Live(t), t, build), b.filename);
    var w := Put(b.filename, AllUploads(t, build)[b.filename]);
    UploadsAreOf(Live(t), t, build, w);
    var c :| c in build && w in UploadsOf(c);
    OwnName(build, b, c, w);
  }

  lemma OwnName(build: seq<Built>, b: Built, c: Built, w: Write)
    requires WellBuilt(build) && b in build && c in build && w in UploadsOf(c) && w.Put? && w.name == b.filename
    ensures w.blob == Package(b.bytes)
  {
    assert WellNamed(b) && WellNamed(c);
    hide WellNamed;
    if c.filename != b.filename {
      Apart(c, b);
    } else {
      var i :| 0 <= i < |build| && build[i] == b;
      var j :| 0 <= j < |build| && build[j] == c;
      assert i == j;
      assert |b.filename + SIG| != |b.filename|;
    }
  }

  /** Crashed while uploading: what is live is untouched or the same, so the retry is
      accepted, and finishes where the first would have. */
  lemma RetryAfterUploads(t: Tree, build: seq<Built>, k: nat)
    requires Sound(t) && WellBuilt(build) && Accepted(t, build)
    requires k <= |Uploads(Live(t), t, build)|
    ensures var u := DoAll(t, Uploads(Live(t), t, build)[..k]);
      Accepted(u, build) && AllUploads(u, build) == AllUploads(t, build) && u.db == t.db
      && u.objects + AllUploads(t, build) == t.objects + AllUploads(t, build)
  {
    var ups := Uploads(Live(t), t, build);
    var some := ups[..k];
    var u := DoAll(t, some);
    UploadsOnlyPut(Live(t), t, build);
    assert OnlyPuts(some);
    PutsDo(t, some);
    assert Entries(u) == Entries(t);
    assert Live(u) == Live(t);
    hide WellBuilt, Sound, Refused, DoAll, Uploads, UploadsOf;
    forall b | b in build ensures !Refused(Live(u), u, b) {
      StillAccepted(t, build, u, some, b);
    }
    UploadsAlike(Live(t), t, Live(u), u, build);
    forall n | n in PutMap(some) ensures n in PutMap(ups) {
      PutMapKeys(some, n);
      PutMapKeys(ups, n);
    }
    assert (t.objects + PutMap(some)) + PutMap(ups) == t.objects + PutMap(ups);
  }

  lemma StillAccepted(t: Tree, build: seq<Built>, u: Tree, some: seq<Write>, b: Built)
    requires Sound(t) && WellBuilt(build) && Accepted(t, build) && b in build && Live(u) == Live(t)
    requires some <= Uploads(Live(t), t, build) && OnlyPuts(some) && u.objects == t.objects + PutMap(some)
    ensures !Refused(Live(u), u, b)
  {
    hide Uploads, UploadsOf, WellBuilt;
    assert !Refused(Live(t), t, b);
    AcceptedFits(t, b);
    if b.filename in PutMap(some) {
      PutMapKeys(some, b.filename);
      var w := Put(b.filename, PutMap(some)[b.filename]);
      UploadsAreOf(Live(t), t, build, w);
      var c :| c in build && w in UploadsOf(c);
      OwnName(build, b, c, w);
    }
  }

  /** Crashed after the database went up: the same. */
  lemma RetryAfterDatabase(t: Tree, build: seq<Built>, sign: bool, pruned: seq<string>)
    requires WellBuilt(build) && Accepted(t, build)
    ensures var ups := AllUploads(t, build);
      var u := DoAll(Tree(t.objects + ups, Some(NewDatabase(t, build, sign))), Prunes(build, pruned));
      Accepted(u, build) && AllUploads(u, build) == ups
      && NewDatabase(u, build, sign) == NewDatabase(t, build, sign)
      && Completed(u.objects, ups, build, NewDatabase(t, build, sign))
         == Completed(t.objects, ups, build, NewDatabase(t, build, sign))
  {
    var ups, db := AllUploads(t, build), NewDatabase(t, build, sign);
    var v := Tree(t.objects + ups, Some(db));
    var u := DoAll(v, Prunes(build, pruned));
    PrunesDo(v, build, pruned);
    AddAllTwice(Entries(t), build);
    hide Superseded, AddAll, DoAll, Prunes;
    forall b | b in build ensures !Refused(Live(u), u, b) {
      if b.filename in u.objects {
        BuiltIsUploaded(t, build, b);
        UploadIsOwn(t, build, b);
      }
    }
    UploadsAlike(Live(t), t, Live(u), u, build);
    hide WellBuilt, Refused, Uploads;
    forall n | n in ups ensures n in u.objects && u.objects[n] == ups[n] {
      UploadsAreKept(t, build, n);
    }
    assert Completed(u.objects, ups, build, db).objects == Completed(t.objects, ups, build, db).objects;
  }

  lemma BuiltIsUploaded(t: Tree, build: seq<Built>, b: Built)
    requires Accepted(t, build) && b in build
    ensures b.filename in AllUploads(t, build)
  {
    UploadsOnlyPut(Live(t), t, build);
    EveryUpload(Live(t), t, build, b, UploadsOf(b)[0]);
    PutMapKeys(Uploads(Live(t), t, build), b.filename);
  }

  lemma {:induction false} EveryUpload(live: set<string>, t: Tree, build: seq<Built>, b: Built, w: Write)
    requires forall c :: c in build ==> !Refused(live, t, c)
    requires b in build && w in UploadsOf(b)
    ensures w in Uploads(live, t, build)
    decreases |build|
  {
    hide Refused;
    assert build[0] in build;
    if b != build[0] {
      assert b in build[1..];
      assert forall c :: c in build[1..] ==> c in build;
      EveryUpload(live, t, build[1..], b, w);
    }
  }

  /** Run it again: a publish that would have been accepted, stopped after any write, is
      accepted when run again, and ends in exactly the tree it would have ended in. */
  lemma RetryConverges(t: Tree, build: seq<Built>, sign: bool, listing: seq<string>, k: nat, again: seq<string>)
    requires Sound(t) && WellBuilt(build) && Accepted(t, build)
    requires k <= |PublishWrites(t, build, sign, listing)|
    requires Lists(listing, t.objects + AllUploads(t, build))
    requires var u := DoAll(t, PublishWrites(t, build, sign, listing)[..k]);
      Lists(again, u.objects + AllUploads(u, build))
    ensures var u := DoAll(t, PublishWrites(t, build, sign, listing)[..k]);
      Accepted(u, build)
      && DoAll(u, PublishWrites(u, build, sign, again)) == DoAll(t, PublishWrites(t, build, sign, listing))
  {
    var ups, ws := Uploads(Live(t), t, build), PublishWrites(t, build, sign, listing);
    var u := DoAll(t, ws[..k]);
    PublishEndsAt(t, build, sign, listing);
    hide Sound, WellBuilt, Accepted, Superseded, Uploads, AllUploads, NewDatabase, Lists;
    if k <= |ups| {
      assert ws[..k] == ups[..k];
      RetryAfterUploads(t, build, k);
      SameDatabase(u, t, build, sign);
      PublishEndsAt(u, build, sign, again);
      SameCompleted(u.objects, t.objects, AllUploads(t, build), build, NewDatabase(t, build, sign));
    } else {
      var pruned := StoppedWhilePruning(t, build, sign, listing, k);
      RetryAfterDatabase(t, build, sign, pruned);
      PublishEndsAt(u, build, sign, again);
    }
    hide DoAll, PublishWrites, Completed;
  }

  lemma SameDatabase(u: Tree, t: Tree, build: seq<Built>, sign: bool)
    requires u.db == t.db
    ensures NewDatabase(u, build, sign) == NewDatabase(t, build, sign)
  {
  }

  lemma SameCompleted(a: map<string, Blob>, b: map<string, Blob>, ups: map<string, Blob>, build: seq<Built>,
                      db: Published)
    requires a + ups == b + ups
    ensures Completed(a, ups, build, db) == Completed(b, ups, build, db)
  {
    hide Superseded;
  }

  lemma StoppedWhilePruning(t: Tree, build: seq<Built>, sign: bool, listing: seq<string>, k: nat)
    returns (pruned: seq<string>)
    requires Accepted(t, build)
    requires |Uploads(Live(t), t, build)| < k <= |PublishWrites(t, build, sign, listing)|
    ensures DoAll(t, PublishWrites(t, build, sign, listing)[..k])
         == DoAll(Tree(t.objects + AllUploads(t, build), Some(NewDatabase(t, build, sign))), Prunes(build, pruned))
  {
    var ups, put := Uploads(Live(t), t, build), PutDatabase(NewDatabase(t, build, sign));
    UploadsOnlyPut(Live(t), t, build);
    hide Accepted, Uploads, NewDatabase, Superseded;
    PutsDo(t, ups);
    var prunes := Prunes(build, listing);
    var j := PrunesPrefix(build, listing, k - |ups| - 1);
    pruned := listing[..j];
    var some := prunes[..k - |ups| - 1];
    assert PublishWrites(t, build, sign, listing)[..k] == ups + [put] + some;
    DoAllAppend(t, ups + [put], some);
    DoAllAppend(t, ups, [put]);
    OnePut(DoAll(t, ups), NewDatabase(t, build, sign));
    hide DoAll, Prunes;
  }
}
