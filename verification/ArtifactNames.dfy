/**
  How the artifact cache spells a cached file. Names are relative paths in POSIX spelling:

    family / first two digits of the digest / digest + suffix

  The family is one of the names below, and everything in other directories is filed under "other". Objects
  may have any suffix after the dot, each other family has its own.
*/
module ArtifactNames {
  import opened Prelude
  import opened Strings

  const FAMILIES: seq<string> := [
    "manifests", "objects", "specializations", "specialization-index", "type-specifics",
    "type-specific-index", "nominal-semantic-witnesses", "nominal-semantic-witness-index",
    "type-layouts", "type-layout-index", "other"]

  // The suffix of a canonical file of a family; objects may have any.
  function CanonicalSuffix(family: string): Option<string> {
    if family == "manifests" then Some(".manifest")
    else if family == "specializations" then Some(".specific")
    else if family == "type-specifics" then Some(".type")
    else if family == "nominal-semantic-witnesses" then Some(".witness")
    else if family == "type-layouts" then Some(".layout")
    else if IsIndexFamily(family) then Some(".ref")
    else None
  }

  predicate IsIndexFamily(family: string) {
    || family == "specialization-index"
    || family == "type-specific-index"
    || family == "nominal-semantic-witness-index"
    || family == "type-layout-index"
  }

  predicate IsHexDigit(c: char) { '0' <= c <= '9' || 'a' <= c <= 'f' }

  predicate IsDigest(s: string) {
    |s| == 64 && forall i :: 0 <= i < |s| ==> IsHexDigit(s[i])
  }

  function Family(relative: string): string {
    var top := Before(relative, '/');
    if top in FAMILIES then top else "other"
  }

  function LastPart(parts: seq<string>): string
    requires |parts| > 0
  {
    parts[|parts| - 1]
  }

  // The digest that a file is named after, if it is named after one.
  function DigestFromName(relative: string): (r: Option<string>)
    ensures r.Some? ==> IsDigest(r.value)
  {
    var digest := Before(LastPart(Split(relative, '/')), '.');
    if IsDigest(digest) then Some(digest) else None
  }

  datatype Entry = Entry(family: string, relative: string, size: nat)

  // The directory walk files every entry under the family its path names.
  ghost predicate Filed(e: Entry) { e.family == Family(e.relative) }

  predicate IsCanonical(e: Entry, digest: string)
    requires IsDigest(digest)
  {
    var parts := Split(e.relative, '/');
    if |parts| != 3 || parts[0] != e.family || parts[1] != digest[..2] then false
    else
      var name := parts[2];
      if e.family == "objects" then digest + "." <= name && |name| > |digest| + 1
      else CanonicalSuffix(e.family).Some? && name == digest + CanonicalSuffix(e.family).value
  }

  function CanonicalPath(family: string, digest: string, suffix: string): string
    requires IsDigest(digest)
  {
    family + "/" + digest[..2] + "/" + digest + suffix
  }

  lemma SplitCanonicalPath(family: string, digest: string, suffix: string)
    requires IsDigest(digest) && '/' !in family && '/' !in suffix
    ensures Split(CanonicalPath(family, digest, suffix), '/') == [family, digest[..2], digest + suffix]
  {
    var parts := [family, digest[..2], digest + suffix];
    assert '/' !in digest;
    assert parts[1..] == [digest[..2], digest + suffix] && parts[1..][1..] == [digest + suffix];
    assert Join([digest + suffix], '/') == digest + suffix;
    assert Join(parts[1..], '/') == digest[..2] + ['/'] + (digest + suffix);
    assert Join(parts, '/') == CanonicalPath(family, digest, suffix);
    SplitOfJoin(parts, '/');
  }

  lemma IndexFamilyName(family: string)
    requires IsIndexFamily(family)
    ensures family != "objects" && '/' !in family
  {
  }

  lemma ArtifactFamilyName(family: string)
    requires CanonicalSuffix(family).Some? && !IsIndexFamily(family)
    ensures family != "objects" && '/' !in family
  {
    hide IsIndexFamily;
  }

  lemma SuffixName(family: string)
    requires CanonicalSuffix(family).Some?
    ensures CanonicalSuffix(family).value in {".manifest", ".specific", ".type", ".witness", ".layout", ".ref"}
  {
  }

  lemma SuffixFacts(family: string)
    requires CanonicalSuffix(family).Some?
    ensures var suffix := CanonicalSuffix(family).value;
      && family != "objects" && '/' !in family && '/' !in suffix && |suffix| > 0 && suffix[0] == '.'
  {
    if IsIndexFamily(family) {
      IndexFamilyName(family);
    } else {
      ArtifactFamilyName(family);
    }
    SuffixName(family);
    hide CanonicalSuffix, IsIndexFamily;
  }

  lemma SuffixedFamiliesAreListed(family: string)
    requires CanonicalSuffix(family).Some?
    ensures family in FAMILIES
  {
    assert FAMILIES[0] == "manifests" && FAMILIES[2] == "specializations" && FAMILIES[4] == "type-specifics";
    assert FAMILIES[3] == "specialization-index" && FAMILIES[5] == "type-specific-index";
    assert FAMILIES[6] == "nominal-semantic-witnesses" && FAMILIES[7] == "nominal-semantic-witness-index";
    assert FAMILIES[8] == "type-layouts" && FAMILIES[9] == "type-layout-index";
  }

  // The families with a suffix of their own.
  ghost predicate HasSuffix(family: string, suffix: string) {
    || (suffix == ".manifest" && family == "manifests")
    || (suffix == ".specific" && family == "specializations")
    || (suffix == ".type" && family == "type-specifics")
    || (suffix == ".witness" && family == "nominal-semantic-witnesses")
    || (suffix == ".layout" && family == "type-layouts")
    || (suffix == ".ref"
        && (family == "specialization-index" || family == "type-specific-index"
            || family == "nominal-semantic-witness-index" || family == "type-layout-index"))
  }

  lemma SuffixTable(family: string, suffix: string)
    ensures CanonicalSuffix(family) == Some(suffix) <==> HasSuffix(family, suffix)
  {
  }

  // In every family but the objects a digest has exactly one canonical path.
  lemma CanonicalPathIsUnique(e: Entry, digest: string)
    requires IsDigest(digest) && CanonicalSuffix(e.family).Some?
    ensures IsCanonical(e, digest) <==>
      e.relative == CanonicalPath(e.family, digest, CanonicalSuffix(e.family).value)
  {
    SuffixFacts(e.family);
    hide CanonicalSuffix, CanonicalPath, Split, Join;
    var suffix := CanonicalSuffix(e.family).value;
    var path := CanonicalPath(e.family, digest, suffix);
    SplitCanonicalPath(e.family, digest, suffix);
    JoinOfSplit(e.relative, '/');
    JoinOfSplit(path, '/');
    assert IsCanonical(e, digest) ==> Split(e.relative, '/') == Split(path, '/');
  }

  lemma PathStartsWithFamily(family: string, digest: string, suffix: string)
    requires IsDigest(digest) && '/' !in family
    ensures Before(CanonicalPath(family, digest, suffix), '/') == family
  {
    hide Before;
    var rest := digest[..2] + "/" + digest + suffix;
    assert CanonicalPath(family, digest, suffix) == family + ['/'] + rest;
    BeforeSeparator(family, rest, '/');
  }

  lemma NameStartsWithDigest(digest: string, suffix: string)
    requires IsDigest(digest) && |suffix| > 0 && suffix[0] == '.'
    ensures Before(digest + suffix, '.') == digest
  {
    hide Before;
    assert '.' !in digest;
    assert digest + suffix == digest + ['.'] + suffix[1..];
    BeforeSeparator(digest, suffix[1..], '.');
  }

  lemma DottedObjectIsCanonical(e: Entry, digest: string, rest: string)
    requires IsDigest(digest) && e.family == "objects"
    requires rest != "" && '/' !in rest && e.relative == CanonicalPath("objects", digest, "." + rest)
    ensures IsCanonical(e, digest)
  {
    SplitCanonicalPath("objects", digest, "." + rest);
    hide CanonicalPath, Split;
    assert digest + ("." + rest) == digest + "." + rest;
  }

  lemma CanonicalObjectIsDotted(e: Entry, digest: string) returns (rest: string)
    requires IsDigest(digest) && e.family == "objects" && IsCanonical(e, digest)
    ensures rest != "" && '/' !in rest && e.relative == CanonicalPath("objects", digest, "." + rest)
  {
    var name := Split(e.relative, '/')[2];
    rest := name[65..];
    assert name == digest + ("." + rest);
    SplitCanonicalPath("objects", digest, "." + rest);
    hide CanonicalPath, Split, Join;
    assert Split(e.relative, '/') == ["objects", digest[..2], name];
    JoinOfSplit(e.relative, '/');
    JoinOfSplit(CanonicalPath("objects", digest, "." + rest), '/');
  }

  // An object may have any name that goes on with a dot and something more after its digest.
  lemma ObjectPathsAreOpen(e: Entry, digest: string)
    requires IsDigest(digest) && e.family == "objects"
    ensures IsCanonical(e, digest) <==>
      exists rest :: rest != "" && '/' !in rest && e.relative == CanonicalPath("objects", digest, "." + rest)
  {
    hide CanonicalPath, IsDigest, IsCanonical;
    forall rest | rest != "" && '/' !in rest && e.relative == CanonicalPath("objects", digest, "." + rest)
      ensures IsCanonical(e, digest)
    {
      DottedObjectIsCanonical(e, digest, rest);
    }
    if IsCanonical(e, digest) {
      var rest := CanonicalObjectIsDotted(e, digest);
    }
  }

  // Whatever is filed elsewhere is never canonical.
  lemma OnlyFamiliesAreCanonical(e: Entry, digest: string)
    requires IsDigest(digest) && IsCanonical(e, digest)
    ensures e.family == "objects" || CanonicalSuffix(e.family).Some?
    ensures e.family in FAMILIES && e.family != "other"
  {
    if e.family != "objects" {
      SuffixedFamiliesAreListed(e.family);
    } else {
      assert FAMILIES[1] == "objects";
    }
  }

  lemma PathIsFiled(family: string, digest: string, suffix: string, size: nat)
    requires IsDigest(digest) && family in FAMILIES && '/' !in family
    requires '/' !in suffix && |suffix| > 0 && suffix[0] == '.'
    ensures var e := Entry(family, CanonicalPath(family, digest, suffix), size);
      Filed(e) && DigestFromName(e.relative) == Some(digest)
  {
    hide CanonicalSuffix, Split, Join, Before, FAMILIES, CanonicalPath;
    PathStartsWithFamily(family, digest, suffix);
    SplitCanonicalPath(family, digest, suffix);
    NameStartsWithDigest(digest, suffix);
  }

  // The canonical path of a digest lies in its family and is named after the digest, objects included.
  lemma CanonicalFilesAreFiled(family: string, digest: string, suffix: string, size: nat)
    requires IsDigest(digest)
    requires CanonicalSuffix(family) == Some(suffix)
          || (family == "objects" && '/' !in suffix && |suffix| > 1 && suffix[0] == '.')
    ensures var e := Entry(family, CanonicalPath(family, digest, suffix), size);
      IsCanonical(e, digest) && Filed(e) && DigestFromName(e.relative) == Some(digest)
  {
    var e := Entry(family, CanonicalPath(family, digest, suffix), size);
    if family == "objects" {
      assert FAMILIES[1] == "objects";
      assert suffix == "." + suffix[1..];
      ObjectPathsAreOpen(e, digest);
    } else {
      SuffixFacts(family);
      SuffixedFamiliesAreListed(family);
      CanonicalPathIsUnique(e, digest);
    }
    hide CanonicalSuffix, CanonicalPath, FAMILIES, IsCanonical, Filed, DigestFromName;
    PathIsFiled(family, digest, suffix, size);
  }

  // A file is named after a digest exactly when its last part is the digest, alone or before a dot.
  lemma NamedAfterDigest(directory: string, name: string, digest: string)
    requires IsDigest(digest) && '/' !in name
    requires directory != "" ==> directory[|directory| - 1] == '/'
    ensures DigestFromName(directory + name) == Some(digest) <==> name == digest || digest + "." <= name
  {
    LastPartIsName(directory, name);
    hide Split;
    assert '.' !in digest;
    if digest + "." <= name {
      assert name == digest + ['.'] + name[65..];
      BeforeSeparator(digest, name[65..], '.');
    } else if name == digest {
      BeforeSeparator(digest, [], '.');
    }
    hide Before;
  }

  lemma {:induction false} LastPartIsName(directory: string, name: string)
    requires '/' !in name && (directory != "" ==> directory[|directory| - 1] == '/')
    ensures LastPart(Split(directory + name, '/')) == name
    decreases |directory|
  {
    hide Before;
    if directory == "" {
      assert directory + name == name;
      BeforeSeparator(name, [], '/');
    } else {
      var first := Before(directory, '/');
      assert directory == first + ['/'] + directory[|first| + 1..];
      var rest := directory[|first| + 1..];
      BeforeSeparator(first, rest + name, '/');
      assert directory + name == first + ['/'] + (rest + name);
      hide Split;
      SplitStep(directory + name, first, rest + name, '/');
      LastPartIsName(rest, name);
    }
  }
}
