/** An architecture's tree in the bucket and the writes that publishing and removing make
    to it, one at a time. */
module Repository {
  import opened Basics
  import opened PackageNames

  type Bytes = seq<nat>

  /** What an object holds: a package, or a signature over some package's bytes. */
  datatype Blob = Package(bytes: Bytes) | Signature(over: Bytes, salt: nat)

  /** What the database records of a package: the file it names and its bytes (stored as
      a size and a digest). */
  datatype Entry = Entry(filename: string, bytes: Bytes)

  type Database = map<string, Entry>

  /** The databases as published, all four names and their signatures at once. */
  datatype Published = Published(entries: Database, isSigned: bool)

  datatype Tree = Tree(objects: map<string, Blob>, db: Option<Published>)

  /** A package as built here, waiting to be published. */
  datatype Built = Built(pkgname: string, filename: string, bytes: Bytes, signature: Option<nat>)

  function Entries(t: Tree): Database
  {
    if t.db.Some? then t.db.value.entries else map[]
  }

  /** The file names the live database points readers at. */
  function Live(t: Tree): set<string>
  {
    set p | p in Entries(t) :: Entries(t)[p].filename
  }

  // ----- single writes -----

  datatype Write =
    | Put(name: string, blob: Blob)
    | PutDatabase(published: Published)
    | Delete(name: string)

  function Do(t: Tree, w: Write): Tree
  {
    match w
    case Put(name, blob) => t.(objects := t.objects[name := blob])
    case PutDatabase(published) => t.(db := Some(published))
    case Delete(name) => t.(objects := t.objects - {name})
  }

  function DoAll(t: Tree, writes: seq<Write>): Tree
    decreases |writes|
  {
    if writes == [] then t else DoAll(Do(t, writes[0]), writes[1..])
  }

  // ----- what readers rely on -----

  predicate EntrySound(t: Tree, p: string, e: Entry)
  {
    && IsPackage(e.filename)
    && PkgnameOf(e.filename) == p
    && e.filename in t.objects && t.objects[e.filename] == Package(e.bytes)
  }

  /** Every file the database names is there with the bytes it recorded. */
  predicate Sound(t: Tree)
  {
    forall p :: p in Entries(t) ==> EntrySound(t, p, Entries(t)[p])
  }

  predicate EntrySigned(t: Tree, e: Entry)
  {
    e.filename + SIG in t.objects
    && t.objects[e.filename + SIG].Signature? && t.objects[e.filename + SIG].over == e.bytes
  }

  /** Beside every listed package there is a signature over the listed bytes. */
  predicate SignaturesMatch(t: Tree)
  {
    forall p :: p in Entries(t) ==> EntrySigned(t, Entries(t)[p])
  }

  /** A built package carries makepkg's name. */
  predicate WellNamed(b: Built)
  {
    IsPackage(b.filename) && PkgnameOf(b.filename) == b.pkgname
  }

  /** The package files of one directory: each has the suffix, each is a file of its own. */
  predicate PackageFiles(build: seq<Built>)
  {
    && (forall b :: b in build ==> IsPackage(b.filename))
    && (forall i, j :: 0 <= i < j < |build| ==> build[i].filename != build[j].filename)
  }

  /** And each is well named too. */
  predicate WellBuilt(build: seq<Built>)
  {
    && (forall b :: b in build ==> WellNamed(b))
    && (forall i, j :: 0 <= i < j < |build| ==> build[i].filename != build[j].filename)
  }

  // ----- publishing -----

  /** repo-add: each package replaces the entry of its name. */
  function AddAll(db: Database, build: seq<Built>): Database
    decreases |build|
  {
    if build == [] then db
    else AddAll(db[build[0].pkgname := Entry(build[0].filename, build[0].bytes)], build[1..])
  }

  /** refuse_overwrite, asked only of names the live database holds: an object is there,
      and its bytes are not these. */
  predicate Refused(live: set<string>, t: Tree, b: Built)
  {
    b.filename in live && b.filename in t.objects && t.objects[b.filename] != Package(b.bytes)
  }

  predicate Accepted(t: Tree, build: seq<Built>)
  {
    forall b :: b in build ==> !Refused(Live(t), t, b)
  }

  function UploadsOf(b: Built): seq<Write>
  {
    if b.signature.Some?
    then [Put(b.filename, Package(b.bytes)), Put(b.filename + SIG, Signature(b.bytes, b.signature.value))]
    else [Put(b.filename, Package(b.bytes))]
  }

  /** The uploads, in order, up to the first package that is refused. */
  function Uploads(live: set<string>, t: Tree, build: seq<Built>): seq<Write>
    decreases |build|
  {
    if build == [] || Refused(live, t, build[0]) then [] else UploadsOf(build[0]) + Uploads(live, t, build[1..])
  }

  function NewDatabase(t: Tree, build: seq<Built>, sign: bool): Published
  {
    Published(AddAll(Entries(t), build), sign)
  }

  function FileNames(build: seq<Built>): set<string>
  {
    set b | b in build :: b.filename
  }

  function BuiltNames(build: seq<Built>): set<string>
  {
    set b | b in build :: PkgnameOf(b.filename)
  }

  /** An older file of a package just published. */
  predicate Superseded(build: seq<Built>, name: string)
  {
    var keep := FileNames(build);
    && IsPackageFile(name)
    && !(name in keep || name + SIG in keep || RemoveSuffix(name, SIG) in keep)
    && PkgnameOf(name) in BuiltNames(build)
  }

  /** The deletes of a pruning pass over a listing of the bucket. */
  function Prunes(build: seq<Built>, listing: seq<string>): seq<Write>
    decreases |listing|
  {
    if listing == [] then []
    else if Superseded(build, listing[0]) then [Delete(listing[0])] + Prunes(build, listing[1..])
    else Prunes(build, listing[1..])
  }

  /** Every write of a publish, in order; a refusal ends it after what came before. The
      listing is the bucket's own, taken when pruning starts. */
  function PublishWrites(t: Tree, build: seq<Built>, sign: bool, listing: seq<string>): seq<Write>
  {
    if Accepted(t, build)
    then Uploads(Live(t), t, build) + [PutDatabase(NewDatabase(t, build, sign))] + Prunes(build, listing)
    else Uploads(Live(t), t, build)
  }

  // ----- removing -----

  predicate Doomed(db: Database, dropped: set<string>, name: string)
  {
    IsPackage(RemoveSuffix(name, SIG))
    && exists p :: p in dropped && p in db && (name == db[p].filename || name == db[p].filename + SIG)
  }

  function Deletes(db: Database, dropped: set<string>, listing: seq<string>): seq<Write>
    decreases |listing|
  {
    if listing == [] then []
    else if Doomed(db, dropped, listing[0]) then [Delete(listing[0])] + Deletes(db, dropped, listing[1..])
    else Deletes(db, dropped, listing[1..])
  }

  /** Every write of a removal: the database first, then the files nothing names now. */
  function RemoveWrites(t: Tree, dropped: set<string>, sign: bool, listing: seq<string>): seq<Write>
  {
    [PutDatabase(Published(Entries(t) - dropped, sign))] + Deletes(Entries(t), dropped, listing)
  }

  lemma {:induction false} DoAllAppend(t: Tree, a: seq<Write>, b: seq<Write>)
    ensures DoAll(t, a + b) == DoAll(DoAll(t, a), b)
    decreases |a|
  {
    if a == [] {
      assert a + b == b;
    } else {
      assert (a + b)[0] == a[0] && (a + b)[1..] == a[1..] + b;
      DoAllAppend(Do(t, a[0]), a[1..], b);
    }
  }
}
