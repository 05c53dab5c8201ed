/** Safety of the repository at every write: whatever prefix of a publish or a removal has
    been made, and whatever is run next, the database never names a file that is missing
    or not the one it recorded. */
module RepositorySafety {
  import opened Basics
  import opened PackageNames
  import opened Repository

  /** Readers are served the bytes the database recorded; strictly, each with a signature
      over them beside it. */
  predicate Served(strict: bool, t: Tree)
  {
    Sound(t) && (strict ==> SignaturesMatch(t))
  }

  /** Every tree from t on, while the writes are made, serves its readers. */
  predicate ServedThroughout(strict: bool, t: Tree, writes: seq<Write>)
    decreases |writes|
  {
    Served(strict, t) && (writes != [] ==> ServedThroughout(strict, Do(t, writes[0]), writes[1..]))
  }

  lemma {:induction false} ThroughoutMeansEveryPrefix(strict: bool, t: Tree, writes: seq<Write>, k: nat)
    requires ServedThroughout(strict, t, writes) && k <= |writes|
    ensures Served(strict, DoAll(t, writes[..k]))
    decreases |writes|
  {
    if k > 0 {
      assert writes[..k][0] == writes[0] && writes[..k][1..] == writes[1..][..k - 1];
      ThroughoutMeansEveryPrefix(strict, Do(t, writes[0]), writes[1..], k - 1);
    }
    hide Served;
  }

  lemma {:induction false} ThroughoutAppend(strict: bool, t: Tree, a: seq<Write>, b: seq<Write>)
    requires ServedThroughout(strict, t, a) && ServedThroughout(strict, DoAll(t, a), b)
    ensures ServedThroughout(strict, t, a + b)
    decreases |a|
  {
    hide Served;
    if a == [] {
      assert a + b == b;
    } else {
      assert (a + b)[0] == a[0] && (a + b)[1..] == a[1..] + b;
      ThroughoutAppend(strict, Do(t, a[0]), a[1..], b);
    }
  }

  // ----- uploads -----

  /** The name is not live, or is live with just these bytes. */
  predicate Fits(t: Tree, b: Built)
  {
    b.filename in Live(t) ==> b.filename in t.objects && t.objects[b.filename] == Package(b.bytes)
  }

  /** A live name is present with the bytes recorded; so what is not refused fits. */
  lemma AcceptedFits(t: Tree, b: Built)
    requires Sound(t) && !Refused(Live(t), t, b)
    ensures Fits(t, b)
  {
    if b.filename in Live(t) {
      var p :| p in Entries(t) && Entries(t)[p].filename == b.filename;
      assert EntrySound(t, p, Entries(t)[p]);
    }
  }

  lemma SameStem(a: string, b: string)
    ensures a + SIG == b + SIG ==> a == b
  {
    assert (a + SIG)[..|a + SIG| - 4] == a && (b + SIG)[..|b + SIG| - 4] == b;
  }

  /** An entry that no write touches, or that is written over with its own bytes, stands. */
  lemma PutKeepsEntry(t: Tree, b: Built, w: Write, p: string, e: Entry)
    requires EntrySound(t, p, e) && WellNamed(b) && w in UploadsOf(b)
    requires e.filename == b.filename ==> e.bytes == b.bytes
    ensures EntrySound(Do(t, w), p, e) && (EntrySigned(t, e) ==> EntrySigned(Do(t, w), e))
  {
    SignatureIsNoPackage(b.filename, e.filename);
    SignatureIsNoPackage(e.filename, b.filename);
    SameStem(e.filename, b.filename);
    hide IsPackage, PkgnameOf;
  }

  /** Writing a package or its signature where nothing is live, or over the same bytes. */
  lemma PutServes(strict: bool, t: Tree, b: Built, w: Write)
    requires Served(strict, t) && WellNamed(b) && Fits(t, b) && w in UploadsOf(b)
    ensures Served(strict, Do(t, w)) && Entries(Do(t, w)) == Entries(t) && Fits(Do(t, w), b)
  {
    var u := Do(t, w);
    PutKeepsFits(t, b, w);
    hide EntrySound, EntrySigned, WellNamed;
    forall p | p in Entries(u)
      ensures EntrySound(u, p, Entries(u)[p]) && (strict ==> EntrySigned(u, Entries(u)[p]))
    {
      var e := Entries(t)[p];
      assert EntrySound(t, p, e) && (strict ==> EntrySigned(t, e));
      assert e.filename in Live(t);
      BytesOf(t, p, e);
      PutKeepsEntry(t, b, w, p, e);
    }
    hide Fits, Live;
  }

  lemma PutKeepsFits(t: Tree, b: Built, w: Write)
    requires WellNamed(b) && Fits(t, b) && w in UploadsOf(b)
    ensures Entries(Do(t, w)) == Entries(t) && Fits(Do(t, w), b)
  {
    SignatureIsNoPackage(b.filename, b.filename);
    hide WellNamed, EntrySound;
    assert Entries(Do(t, w)) == Entries(t);
    assert Live(Do(t, w)) == Live(t);
  }

  lemma BytesOf(t: Tree, p: string, e: Entry)
    requires EntrySound(t, p, e)
    ensures e.filename in t.objects && t.objects[e.filename] == Package(e.bytes)
  {
  }

  /** What a built package's uploads leave in the bucket. */
  predicate Uploaded(t: Tree, b: Built)
  {
    && b.filename in t.objects && t.objects[b.filename] == Package(b.bytes)
    && (b.signature.Some? ==> b.filename + SIG in t.objects
                              && t.objects[b.filename + SIG] == Signature(b.bytes, b.signature.value))
  }

  lemma UploadsUnfold(t: Tree, b: Built)
    ensures DoAll(t, UploadsOf(b))
         == if b.signature.Some?
            then Do(Do(t, Put(b.filename, Package(b.bytes))),
                    Put(b.filename + SIG, Signature(b.bytes, b.signature.value)))
            else Do(t, Put(b.filename, Package(b.bytes)))
    ensures b.signature.Some? ==> UploadsOf(b)[1..] == [UploadsOf(b)[1]]
    ensures b.signature.None? ==> UploadsOf(b)[1..] == []
  {
    var ws := UploadsOf(b);
    hide Do;
    if b.signature.Some? {
      var u := Do(t, ws[0]);
      assert ws[1..] == [ws[1]];
      assert DoAll(u, [ws[1]]) == DoAll(Do(u, ws[1]), [ws[1]][1..]);
      assert [ws[1]][1..] == [];
    } else {
      assert ws[1..] == [];
    }
  }

  lemma UploadsOfServe(strict: bool, t: Tree, b: Built)
    requires Served(strict, t) && WellNamed(b) && Fits(t, b)
    ensures ServedThroughout(strict, t, UploadsOf(b)) && Served(strict, DoAll(t, UploadsOf(b)))
    ensures Uploaded(DoAll(t, UploadsOf(b)), b) && Entries(DoAll(t, UploadsOf(b))) == Entries(t)
  {
    var ws := UploadsOf(b);
    var t1 := Do(t, ws[0]);
    PutServes(strict, t, b, ws[0]);
    UploadsUnfold(t, b);
    SignatureIsNoPackage(b.filename, b.filename);
    hide Served, Fits, WellNamed, DoAll;
    if b.signature.Some? {
      PutServes(strict, t1, b, ws[1]);
      assert ServedThroughout(strict, Do(t1, ws[1]), []);
      assert [ws[1]][1..] == [];
      assert ServedThroughout(strict, t1, ws[1..]);
    } else {
      assert ServedThroughout(strict, t1, []);
    }
  }

  /** One package's uploads touch no other package's files. */
  lemma UploadsOfSpare(t: Tree, b: Built, name: string)
    requires name != b.filename && name != b.filename + SIG
    ensures var u := DoAll(t, UploadsOf(b));
      (name in u.objects <==> name in t.objects) && (name in t.objects ==> u.objects[name] == t.objects[name])
      && u.db == t.db
  {
    UploadsUnfold(t, b);
    hide DoAll;
  }

  /** All the uploads of a build, up to a refusal or the end. t is the tree they were
      judged against and u the one they have made so far. */
  lemma {:induction false} UploadsServe(strict: bool, t: Tree, u: Tree, build: seq<Built>)
    requires WellBuilt(build) && Served(strict, u) && u.db == t.db
    requires forall b :: b in build && !Refused(Live(t), t, b) ==> Fits(u, b)
    ensures ServedThroughout(strict, u, Uploads(Live(t), t, build))
    ensures DoAll(u, Uploads(Live(t), t, build)).db == t.db
    ensures (forall b :: b in build ==> !Refused(Live(t), t, b)) ==>
      forall b :: b in build ==> Uploaded(DoAll(u, Uploads(Live(t), t, build)), b)
    decreases |build|
  {
    hide Served, Refused, Fits, Uploaded, WellNamed;
    if build != [] {
      var b, rest := build[0], build[1..];
      assert b in build;
      if !Refused(Live(t), t, b) {
        var v := DoAll(u, UploadsOf(b));
        UploadsOfServe(strict, u, b);
        DatabaseSpared(u, b);
        TailWellBuilt(build);
        forall c | c in rest && !Refused(Live(t), t, c) ensures Fits(v, c) {
          assert c in build;
          SpareOther(u, build, c);
        }
        UploadsServe(strict, t, v, rest);
        ThroughoutAppend(strict, u, UploadsOf(b), Uploads(Live(t), t, rest));
        DoAllAppend(u, UploadsOf(b), Uploads(Live(t), t, rest));
        if forall c :: c in build ==> !Refused(Live(t), t, c) {
          var end := DoAll(v, Uploads(Live(t), t, rest));
          UploadedStays(t, v, rest, b, build);
          forall c | c in build ensures Uploaded(end, c) {
            if c != b {
              assert c in rest;
            }
          }
        }
      }
    }
  }

  lemma DatabaseSpared(t: Tree, b: Built)
    ensures DoAll(t, UploadsOf(b)).db == t.db
  {
    UploadsOfSpare(t, b, b.filename + SIG + SIG);
    assert |b.filename + SIG + SIG| > |b.filename + SIG|;
  }

  lemma TailWellBuilt(build: seq<Built>)
    requires WellBuilt(build) && build != []
    ensures WellBuilt(build[1..])
  {
    hide WellNamed;
  }

  /** Distinct packages have distinct files, signatures included. */
  lemma Apart(b: Built, c: Built)
    requires WellNamed(b) && WellNamed(c) && b.filename != c.filename
    ensures c.filename != b.filename + SIG && c.filename + SIG != b.filename && c.filename + SIG != b.filename + SIG
  {
    FilesApart(b, c);
  }

  lemma FilesApart(b: Built, c: Built)
    requires IsPackage(b.filename) && IsPackage(c.filename) && b.filename != c.filename
    ensures c.filename != b.filename + SIG && c.filename + SIG != b.filename && c.filename + SIG != b.filename + SIG
  {
    SignatureIsNoPackage(b.filename, c.filename);
    SignatureIsNoPackage(c.filename, b.filename);
    SameStem(b.filename, c.filename);
  }

  lemma SpareOther(u: Tree, build: seq<Built>, c: Built)
    requires WellBuilt(build) && build != [] && c in build[1..] && Fits(u, c)
    ensures Fits(DoAll(u, UploadsOf(build[0])), c)
  {
    var b := build[0];
    NotTheFirst(build, c);
    UploadsOfSpare(u, b, c.filename);
    hide *;
    FitsBySlot(u, DoAll(u, UploadsOf(b)), c);
  }

  lemma NotTheFirst(build: seq<Built>, c: Built)
    requires WellBuilt(build) && build != [] && c in build[1..]
    ensures c.filename != build[0].filename && c.filename != build[0].filename + SIG
  {
    var i :| 0 <= i < |build[1..]| && build[1..][i] == c;
    assert build[i + 1] == c;
    assert WellNamed(build[0]) && WellNamed(c);
    Apart(build[0], c);
    hide WellNamed;
  }

  lemma FitsBySlot(t: Tree, u: Tree, c: Built)
    requires Fits(t, c) && u.db == t.db
    requires (c.filename in u.objects <==> c.filename in t.objects)
    requires c.filename in t.objects ==> u.objects[c.filename] == t.objects[c.filename]
    ensures Fits(u, c)
  {
    assert Entries(u) == Entries(t);
    assert Live(u) == Live(t);
  }

  lemma {:induction false} UploadedStays(t: Tree, v: Tree, rest: seq<Built>, b: Built, build: seq<Built>)
    requires WellBuilt(build) && build != [] && b == build[0]
    requires exists k :: 0 < k <= |build| && rest == build[k..]
    requires Uploaded(v, b)
    ensures Uploaded(DoAll(v, Uploads(Live(t), t, rest)), b)
    decreases |rest|
  {
    hide WellNamed, Refused;
    if rest != [] && !Refused(Live(t), t, rest[0]) {
      var k :| 0 < k <= |build| && rest == build[k..];
      var c := rest[0];
      assert c == build[k] && rest[1..] == build[k + 1..];
      assert b in build && c in build;
      Apart(b, c);
      UploadsOfSpare(v, c, b.filename);
      UploadsOfSpare(v, c, b.filename + SIG);
      DoAllAppend(v, UploadsOf(c), Uploads(Live(t), t, rest[1..]));
      UploadedStays(t, DoAll(v, UploadsOf(c)), rest[1..], b, build);
    }
  }

  // ----- the database -----

  lemma {:induction false} AddAllEntries(db: Database, build: seq<Built>, p: string)
    requires p in AddAll(db, build)
    ensures (exists b :: b in build && b.pkgname == p && AddAll(db, build)[p] == Entry(b.filename, b.bytes))
         || (p in db && AddAll(db, build)[p] == db[p] && forall b :: b in build ==> b.pkgname != p)
    decreases |build|
  {
    if build != [] {
      var b := build[0];
      var next := db[b.pkgname := Entry(b.filename, b.bytes)];
      AddAllEntries(next, build[1..], p);
      if c :| c in build[1..] && c.pkgname == p && AddAll(db, build)[p] == Entry(c.filename, c.bytes) {
        assert c in build;
      } else {
        assert b in build;
        if b.pkgname != p {
          assert forall c :: c in build ==> c == b || c in build[1..];
        }
      }
    }
  }

  /** With every package uploaded, the new database may go up. */
  lemma NewDatabaseServes(strict: bool, t: Tree, build: seq<Built>, sign: bool)
    requires WellBuilt(build) && Served(strict, t)
    requires forall b :: b in build ==> Uploaded(t, b) && (strict ==> b.signature.Some?)
    ensures Served(strict, Do(t, PutDatabase(NewDatabase(t, build, sign))))
  {
    var u := Do(t, PutDatabase(NewDatabase(t, build, sign)));
    forall p | p in Entries(u)
      ensures EntrySound(u, p, Entries(u)[p]) && (strict ==> EntrySigned(u, Entries(u)[p]))
    {
      AddAllEntries(Entries(t), build, p);
      if b :| b in build && b.pkgname == p && Entries(u)[p] == Entry(b.filename, b.bytes) {
        assert Uploaded(t, b) && (strict ==> b.signature.Some?) && WellNamed(b);
      } else {
        assert EntrySound(t, p, Entries(t)[p]) && (strict ==> EntrySigned(t, Entries(t)[p]));
      }
      hide IsPackage, PkgnameOf, AddAll;
    }
  }

  // ----- pruning -----

  /** What a prune deletes is named by no entry of the new database, nor is it the
      signature of such a file. */
  lemma SupersededIsUnlisted(db: Database, build: seq<Built>, p: string, name: string)
    requires WellBuilt(build) && Superseded(build, name)
    requires p in AddAll(db, build)
    requires IsPackage(AddAll(db, build)[p].filename) && PkgnameOf(AddAll(db, build)[p].filename) == p
    ensures name != AddAll(db, build)[p].filename && name != AddAll(db, build)[p].filename + SIG
  {
    var e := AddAll(db, build)[p];
    AddAllEntries(db, build, p);
    SignatureNames(e.filename);
    hide AddAll, IsPackage, IsPackageFile, PkgnameOf, RemoveSuffix;
    if b :| b in build && b.pkgname == p && e == Entry(b.filename, b.bytes) {
      assert e.filename in FileNames(build);
    } else {
      forall b | b in build ensures PkgnameOf(b.filename) == b.pkgname != p {
        assert WellNamed(b);
      }
      assert p !in BuiltNames(build);
    }
  }

  lemma DeleteServes(strict: bool, t: Tree, name: string)
    requires Served(strict, t)
    requires forall p :: p in Entries(t) ==> name != Entries(t)[p].filename && name != Entries(t)[p].filename + SIG
    ensures Served(strict, Do(t, Delete(name)))
  {
    var u := Do(t, Delete(name));
    hide IsPackage, PkgnameOf;
    forall p | p in Entries(u)
      ensures EntrySound(u, p, Entries(u)[p]) && (strict ==> EntrySigned(u, Entries(u)[p]))
    {
      DeleteKeepsEntry(t, name, p, Entries(t)[p]);
    }
    hide EntrySound, EntrySigned;
  }

  lemma DeleteKeepsEntry(t: Tree, name: string, p: string, e: Entry)
    requires name != e.filename && name != e.filename + SIG
    ensures EntrySound(t, p, e) ==> EntrySound(Do(t, Delete(name)), p, e)
    ensures EntrySigned(t, e) ==> EntrySigned(Do(t, Delete(name)), e)
  {
    hide IsPackage, PkgnameOf;
  }

  lemma {:induction false} PrunesServe(strict: bool, t: Tree, db: Database, build: seq<Built>, listing: seq<string>)
    requires WellBuilt(build) && Served(strict, t) && t.db.Some? && Entries(t) == AddAll(db, build)
    ensures ServedThroughout(strict, t, Prunes(build, listing))
    decreases |listing|
  {
    hide Superseded, AddAll, WellBuilt;
    if listing != [] {
      var name := listing[0];
      if Superseded(build, name) {
        forall p | p in Entries(t)
          ensures name != Entries(t)[p].filename && name != Entries(t)[p].filename + SIG
        {
          assert EntrySound(t, p, Entries(t)[p]);
          SupersededIsUnlisted(db, build, p, name);
        }
        DeleteServes(strict, t, name);
        PrunesServe(strict, Do(t, Delete(name)), db, build, listing[1..]);
        assert Prunes(build, listing)[1..] == Prunes(build, listing[1..]);
      } else {
        PrunesServe(strict, t, db, build, listing[1..]);
      }
    }
    hide Served;
  }

  /** Publishing serves readers at every write, whether it ends, is refused, or stops. */
  lemma PublishServes(strict: bool, t: Tree, build: seq<Built>, sign: bool, listing: seq<string>)
    requires Served(strict, t) && WellBuilt(build)
    requires strict ==> forall b :: b in build ==> b.signature.Some?
    ensures ServedThroughout(strict, t, PublishWrites(t, build, sign, listing))
  {
    forall b | b in build && !Refused(Live(t), t, b) ensures Fits(t, b) {
      AcceptedFits(t, b);
    }
    UploadsServe(strict, t, t, build);
    if Accepted(t, build) {
      var ups, put := Uploads(Live(t), t, build), PutDatabase(NewDatabase(t, build, sign));
      var u := DoAll(t, ups);
      ThroughoutMeansEveryPrefix(strict, t, ups, |ups|);
      assert ups[..|ups|] == ups;
      hide Served, Refused, Fits, WellNamed;
      NewDatabaseServes(strict, u, build, sign);
      assert put == PutDatabase(NewDatabase(u, build, sign));
      var v := Do(u, put);
      PrunesServe(strict, v, Entries(t), build, listing);
      var tail := [put] + Prunes(build, listing);
      assert tail[0] == put && tail[1..] == Prunes(build, listing);
      ThroughoutAppend(strict, t, ups, tail);
      assert ups + tail == PublishWrites(t, build, sign, listing);
    }
  }
}
