/** What a publish leaves: what was built, with its signatures; no other file of any of its
    packages; and every other object as it was. */
module PublishEnds {
  import opened PackageNames
  import opened Repository
  import opened RepositorySafety
  import opened RepositoryRuns

  /** The object is a built package's file or the signature of one. */
  predicate IsBuilt(build: seq<Built>, name: string)
  {
    exists b :: b in build && (name == b.filename || name == b.filename + SIG)
  }

  /** The object is named as a file of one of the built packages, of whatever version. */
  predicate IsVersionOf(build: seq<Built>, name: string)
  {
    IsPackageFile(name) && exists b :: b in build && PkgnameOf(name) == b.pkgname
  }

  lemma SuffixSplits(name: string, suffix: string)
    ensures RemoveSuffix(name, suffix) == name || RemoveSuffix(name, suffix) + suffix == name
  {
    if EndsWith(name, suffix) {
      assert name == name[..|name| - |suffix|] + name[|name| - |suffix|..];
    }
  }

  /** What a prune keeps of its files are the built ones. */
  lemma KeptExactly(build: seq<Built>, name: string)
    requires WellBuilt(build)
    ensures var keep := FileNames(build);
      name in keep || name + SIG in keep || RemoveSuffix(name, SIG) in keep <==> IsBuilt(build, name)
  {
    SuffixSplits(name, SIG);
    hide PkgnameOf, RemoveSuffix;
    forall b | b in build ensures name + SIG != b.filename {
      assert WellNamed(b);
      SignatureIsNoPackage(name, b.filename);
    }
    hide WellBuilt;
    forall b | b in build && name == b.filename + SIG ensures RemoveSuffix(name, SIG) == b.filename {
      RemoveAppended(b.filename, SIG);
    }
  }

  /** Of the files of a built package all but the built ones are superseded, and nothing
      else is. */
  lemma SupersededExactly(build: seq<Built>, name: string)
    requires WellBuilt(build)
    ensures Superseded(build, name) <==> IsVersionOf(build, name) && !IsBuilt(build, name)
  {
    KeptExactly(build, name);
    NamesOfBuild(build, PkgnameOf(name));
    hide PkgnameOf, IsPackageFile, RemoveSuffix, WellBuilt, IsBuilt, FileNames, BuiltNames;
  }

  lemma NamesOfBuild(build: seq<Built>, name: string)
    requires WellBuilt(build)
    ensures name in BuiltNames(build) <==> exists b :: b in build && name == b.pkgname
  {
    hide PkgnameOf, IsPackage;
    forall b | b in build ensures PkgnameOf(b.filename) == b.pkgname {
      assert WellNamed(b);
    }
  }

  /** A completed publish over a full listing. */
  lemma PublishLeaves(t: Tree, build: seq<Built>, sign: bool, listing: seq<string>)
    requires Sound(t) && WellBuilt(build) && Accepted(t, build)
    requires Lists(listing, t.objects + AllUploads(t, build))
    ensures var end := DoAll(t, PublishWrites(t, build, sign, listing));
      && (forall b :: b in build ==> Uploaded(end, b))
      && (forall n :: n in end.objects && IsVersionOf(build, n) ==> IsBuilt(build, n))
      && (forall n :: n in t.objects && !IsVersionOf(build, n) && !IsBuilt(build, n) ==>
            n in end.objects && end.objects[n] == t.objects[n])
      && (forall n :: n in end.objects && !IsBuilt(build, n) ==> n in t.objects && end.objects[n] == t.objects[n])
  {
    var ups := Uploads(Live(t), t, build);
    var end := DoAll(t, PublishWrites(t, build, sign, listing));
    PublishEndsAt(t, build, sign, listing);
    AllAreUploaded(t, build);
    UploadsOnlyPut(Live(t), t, build);
    PutsDo(t, ups);
    hide Superseded, Uploads, Uploaded, IsVersionOf, IsBuilt, WellBuilt, Accepted, DoAll, Sound, PutMap, OnlyPuts;
    forall n ensures Superseded(build, n) <==> IsVersionOf(build, n) && !IsBuilt(build, n) {
      SupersededExactly(build, n);
    }
    forall n | n in AllUploads(t, build) ensures IsBuilt(build, n) {
      UploadIsBuilt(t, build, n);
    }
    forall b | b in build ensures Uploaded(end, b) {
      OwnNamesAreKept(build, b);
      UploadedByObjects(DoAll(t, ups), end, b);
    }
  }

  lemma AllAreUploaded(t: Tree, build: seq<Built>)
    requires Sound(t) && WellBuilt(build) && Accepted(t, build)
    ensures forall b :: b in build ==> Uploaded(DoAll(t, Uploads(Live(t), t, build)), b)
  {
    forall b | b in build && !Refused(Live(t), t, b) ensures Fits(t, b) {
      AcceptedFits(t, b);
    }
    UploadsServe(false, t, t, build);
    hide Uploaded, DoAll, Uploads;
  }

  lemma UploadIsBuilt(t: Tree, build: seq<Built>, n: string)
    requires n in AllUploads(t, build)
    ensures IsBuilt(build, n)
  {
    hide Uploads;
    UploadsOnlyPut(Live(t), t, build);
    PutMapKeys(Uploads(Live(t), t, build), n);
    var w :| w in Uploads(Live(t), t, build) && w.name == n;
    UploadsAreOf(Live(t), t, build, w);
  }

  lemma UploadedByObjects(u: Tree, end: Tree, b: Built)
    requires Uploaded(u, b)
    requires b.filename in u.objects ==> b.filename in end.objects && end.objects[b.filename] == u.objects[b.filename]
    requires b.filename + SIG in u.objects ==>
      (b.filename + SIG in end.objects && end.objects[b.filename + SIG] == u.objects[b.filename + SIG])
    ensures Uploaded(end, b)
  {
  }

  // ----- the entries -----

  lemma {:induction false} NamesListed(db: Database, build: seq<Built>, p: string)
    ensures p in AddAll(db, build) <==> p in db || exists b :: b in build && b.pkgname == p
    decreases |build|
  {
    if build != [] {
      NamesListed(db[build[0].pkgname := Entry(build[0].filename, build[0].bytes)], build[1..], p);
      assert forall b :: b in build <==> b == build[0] || b in build[1..];
    }
  }

  /** Of two built packages of one name the last is listed. */
  lemma {:induction false} LastBuiltIsListed(db: Database, build: seq<Built>, i: nat)
    requires i < |build| && forall j :: i < j < |build| ==> build[j].pkgname != build[i].pkgname
    ensures build[i].pkgname in AddAll(db, build)
    ensures AddAll(db, build)[build[i].pkgname] == Entry(build[i].filename, build[i].bytes)
    decreases |build|
  {
    var p, rest := build[i].pkgname, build[1..];
    var next := db[build[0].pkgname := Entry(build[0].filename, build[0].bytes)];
    if i == 0 {
      NamesListed(next, rest, p);
      AddAllEntries(next, rest, p);
      assert forall b :: b in rest ==> b.pkgname != p;
    } else {
      LastBuiltIsListed(next, rest, i - 1);
    }
  }

  /** What a publish lists: of each name that was built the last package, of every other
      name what was listed before, and no more. */
  lemma PublishLists(t: Tree, build: seq<Built>, sign: bool, p: string)
    ensures var before, after := Entries(t), NewDatabase(t, build, sign).entries;
      && ((forall b :: b in build ==> b.pkgname != p) ==>
            (p in after <==> p in before) && (p in before ==> after[p] == before[p]))
      && (forall i :: IsLastOf(build, p, i) ==> p in after && after[p] == Entry(build[i].filename, build[i].bytes))
  {
    NamesListed(Entries(t), build, p);
    if p in AddAll(Entries(t), build) {
      AddAllEntries(Entries(t), build, p);
    }
    forall i | IsLastOf(build, p, i)
      ensures p in AddAll(Entries(t), build)
      ensures AddAll(Entries(t), build)[p] == Entry(build[i].filename, build[i].bytes)
    {
      LastBuiltIsListed(Entries(t), build, i);
    }
    hide AddAll;
  }

  predicate IsLastOf(build: seq<Built>, p: string, i: int)
  {
    0 <= i < |build| && build[i].pkgname == p && forall j :: i < j < |build| ==> build[j].pkgname != p
  }

  // ----- what is refused -----

  /** A build is refused exactly when the database names one of its files and the bytes there
      are others; a file that nothing names is no reason. */
  lemma RefusedExactlyWhen(t: Tree, build: seq<Built>)
    ensures !Accepted(t, build) <==>
      exists b, p :: b in build && p in Entries(t) && Entries(t)[p].filename == b.filename
        && b.filename in t.objects && t.objects[b.filename] != Package(b.bytes)
  {
    if b :| b in build && Refused(Live(t), t, b) {
      var p :| p in Entries(t) && Entries(t)[p].filename == b.filename;
    }
    if b, p :| (
      b in build && p in Entries(t) && Entries(t)[p].filename == b.filename
      && b.filename in t.objects && t.objects[b.filename] != Package(b.bytes))
    {
      assert Refused(Live(t), t, b);
    }
  }
}
