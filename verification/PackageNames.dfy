/** The file names of packages, and the name parse that pruning rests on. */
module PackageNames {

  const ZST: string := ".pkg.tar.zst"
  const XZ: string := ".pkg.tar.xz"
  const SIG: string := ".sig"

  predicate EndsWith(s: string, suffix: string)
  {
    |suffix| <= |s| && s[|s| - |suffix|..] == suffix
  }

  function RemoveSuffix(s: string, suffix: string): string
  {
    if EndsWith(s, suffix) then s[..|s| - |suffix|] else s
  }

  predicate IsPackage(name: string)
  {
    EndsWith(name, ZST) || EndsWith(name, XZ)
  }

  /** A package or the signature of one. */
  predicate IsPackageFile(name: string)
  {
    IsPackage(name) || EndsWith(name, ZST + SIG) || EndsWith(name, XZ + SIG)
  }

  /** The name without what follows its last n hyphens, or as many as it has. */
  function DropFields(s: string, n: nat): string
    decreases |s|
  {
    if n == 0 || '-' !in s then s else DropFields(BeforeLastHyphen(s), n - 1)
  }

  function BeforeLastHyphen(s: string): (before: string)
    requires '-' in s
    ensures |before| < |s|
  {
    var last := |s| - 1;
    if s[last] == '-' then s[..last]
    else
      assert s == s[..last] + [s[last]];
      BeforeLastHyphen(s[..last])
  }

  function Stem(filename: string): string
  {
    RemoveSuffix(RemoveSuffix(RemoveSuffix(filename, SIG), ZST), XZ)
  }

  function PkgnameOf(filename: string): string
  {
    DropFields(Stem(filename), 3)
  }

  /** What makepkg calls a package. */
  function FileName(name: string, version: string, release: string, arch: string, suffix: string): string
  {
    name + "-" + version + "-" + release + "-" + arch + suffix
  }

  lemma {:induction false} LastHyphen(s: string, field: string)
    requires '-' !in field
    ensures '-' in s + "-" + field && BeforeLastHyphen(s + "-" + field) == s
  {
    var whole := s + "-" + field;
    assert whole[|s|] == '-';
    if field == [] {
      assert whole[..|s|] == s;
    } else {
      var last := |field| - 1;
      assert field[last] in field;
      assert whole[..|whole| - 1] == s + "-" + field[..last];
      LastHyphen(s, field[..last]);
    }
  }

  lemma DropOneField(s: string, field: string, n: nat)
    requires '-' !in field && n > 0
    ensures DropFields(s + "-" + field, n) == DropFields(s, n - 1)
  {
    LastHyphen(s, field);
  }

  lemma RemoveAppended(s: string, suffix: string)
    ensures RemoveSuffix(s + suffix, suffix) == s
  {
    assert (s + suffix)[|s|..] == suffix;
    assert (s + suffix)[..|s|] == s;
  }

  lemma LastCharDiffers(s: string, a: string, b: string)
    requires a != [] && b != [] && a[|a| - 1] != b[|b| - 1]
    ensures !EndsWith(s + a, b)
  {
    var whole := s + a;
    assert whole[|whole| - 1] == a[|a| - 1];
    if |b| <= |whole| {
      assert whole[|whole| - |b|..][|b| - 1] == whole[|whole| - 1];
    }
  }

  /** A name that ends with a hyphen and a field without a dot has no such suffix. */
  lemma FieldIsNoSuffix(s: string, field: string, suffix: string)
    requires '.' !in field && suffix != [] && suffix[0] == '.' && '-' !in suffix
    ensures !EndsWith(s + "-" + field, suffix)
  {
    var whole := s + "-" + field;
    var at := |whole| - |suffix|;
    assert whole[|s|] == '-';
    if 0 <= at <= |s| {
      assert whole[at..][|s| - at] == '-';
      assert suffix[|s| - at] in suffix;
    } else if at > |s| {
      assert whole[at..][0] == field[at - |s| - 1];
      assert field[at - |s| - 1] in field;
    }
  }

  /** The parse inverts the naming: whatever hyphens a name holds, it is read back from
      the file name, and from the name of its signature. */
  lemma PkgnameInverts(name: string, version: string, release: string, arch: string, suffix: string)
    requires suffix == ZST || suffix == XZ
    requires '-' !in version && '-' !in release && '-' !in arch && '.' !in arch
    ensures PkgnameOf(FileName(name, version, release, arch, suffix)) == name
    ensures PkgnameOf(FileName(name, version, release, arch, suffix) + SIG) == name
  {
    var stem := name + "-" + version + "-" + release + "-" + arch;
    var file := FileName(name, version, release, arch, suffix);
    assert file == stem + suffix;
    RemoveAppended(file, SIG);
    LastCharDiffers(stem, suffix, SIG);
    RemoveAppended(stem, suffix);
    FieldIsNoSuffix(name + "-" + version + "-" + release, arch, ZST);
    FieldIsNoSuffix(name + "-" + version + "-" + release, arch, XZ);
    LastCharDiffers(stem, XZ, ZST);
    hide DropFields, EndsWith;
    assert Stem(file) == stem && Stem(file + SIG) == stem;
    DropOneField(name + "-" + version + "-" + release, arch, 3);
    DropOneField(name + "-" + version, release, 2);
    DropOneField(name, version, 1);
    NothingDropped(name);
  }

  lemma NothingDropped(s: string)
    ensures DropFields(s, 0) == s
  {
  }

  /** A package and a signature are never the same file. */
  lemma SignatureIsNoPackage(name: string, other: string)
    requires IsPackage(other)
    ensures name + SIG != other
  {
    LastCharDiffers(name, SIG, ZST);
    LastCharDiffers(name, SIG, XZ);
  }

  /** A signature's file parses to the name its package does. */
  lemma SignatureNames(file: string)
    requires IsPackage(file)
    ensures IsPackageFile(file + SIG) && RemoveSuffix(file + SIG, SIG) == file
    ensures PkgnameOf(file + SIG) == PkgnameOf(file)
    ensures RemoveSuffix(file, SIG) == file
  {
    RemoveAppended(file, SIG);
    var stem := if EndsWith(file, ZST) then file[..|file| - |ZST|] else file[..|file| - |XZ|];
    var suffix := if EndsWith(file, ZST) then ZST else XZ;
    assert file == stem + suffix;
    LastCharDiffers(stem, suffix, SIG);
    assert file + SIG == stem + (suffix + SIG);
    assert (stem + (suffix + SIG))[|stem|..] == suffix + SIG;
  }
}
