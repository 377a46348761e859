/**
  The release-manifest logic of the version-file updater: validate the
  assets found in a build's output directory, then describe the release
  (its tag and one download URL per asset) in a version file that the
  plugin's auto-updater reads.

  Asset paths are strings, in the order the directory listing gave them.
  Validation errors are values of `AssetError` rather than exceptions.
 */
module UpdateCurrentVersion {
  import opened PurePath

  /** The two ways validation rejects a batch of assets; both are a `ValueError` in the source. */
  datatype AssetError = NoAssets | UnsupportedType
  {
    function Message(): string
    {
      match this
      case NoAssets => "No assets found in given directory"
      case UnsupportedType => "GOG Galaxy supports only 'zip' asserts"
    }
  }

  /** What validation returns: nothing on success, the error it raises otherwise. */
  datatype Outcome = Pass | Fail(error: AssetError)

  datatype Result<T> = Success(value: T) | Failure(error: AssetError)

  /** One element of the version file's "assets" list. */
  datatype AssetEntry = AssetEntry(browser_download_url: string, name: string)

  /** The content of the version file. */
  datatype VersionFile = VersionFile(tag_name: string, assets: seq<AssetEntry>)

  const ZipExtension: string := ".zip"
  const HostPrefix: string := "https://github.com/"
  const DownloadSegment: string := "/releases/download/"

  /** The only asset type accepted: a path whose suffix is exactly ".zip". */
  predicate IsZip(path: string)
  {
    Suffix(Name(path)) == ZipExtension
  }

  /** The list of suffix comparisons, one per path, that validation hands to `all`. */
  function SuffixChecks(paths: seq<string>): (r: seq<bool>)
    ensures |r| == |paths|
    ensures forall k :: 0 <= k < |paths| ==> r[k] == IsZip(paths[k])
  {
    seq(|paths|, k requires 0 <= k < |paths| => IsZip(paths[k]))
  }

  /** Python's `all` over a list of booleans. */
  function All(checks: seq<bool>): (r: bool)
    ensures r <==> forall k :: 0 <= k < |checks| ==> checks[k]
  {
    if checks == [] then true
    else
      assert forall k :: 1 <= k < |checks| ==> checks[k] == checks[1..][k - 1];
      checks[0] && All(checks[1..])
  }

  /** A path is accepted exactly when its file name ends in ".zip" after at least one other character. */
  lemma IsZipByName(path: string)
    ensures IsZip(path) <==> |Name(path)| > 4 && Name(path)[|Name(path)| - 4..] == ZipExtension
  {
    ZipSuffix(Name(path));
  }

  /**
    Validates a batch of asset paths, all or nothing: an empty batch is
    rejected first, then a batch with any path that is not a zip archive.
   */
  function ValidateAssets(assetsPaths: seq<string>): (r: Outcome)
    ensures r == Fail(NoAssets) <==> assetsPaths == []
    ensures r == Fail(UnsupportedType) <==> assetsPaths != [] && exists k :: 0 <= k < |assetsPaths| && !IsZip(assetsPaths[k])
    ensures r == Pass <==> assetsPaths != [] && forall k :: 0 <= k < |assetsPaths| ==> IsZip(assetsPaths[k])
  {
    if assetsPaths == [] then Fail(NoAssets)
    else if !All(SuffixChecks(assetsPaths)) then Fail(UnsupportedType)
    else Pass
  }

  /** Where the hosting service serves the asset `name` of release `version` of `repository`. */
  function DownloadUrl(repository: string, version: string, name: string): string
  {
    HostPrefix + repository + DownloadSegment + version + "/" + name
  }

  /** The manifest entry for one asset path. */
  function EntryFor(version: string, repository: string, path: string): AssetEntry
  {
    var name := Name(path);
    AssetEntry(DownloadUrl(repository, version, name), name)
  }

  /** The entries appended one per path, in order. */
  function Entries(version: string, assetsPaths: seq<string>, repository: string): (r: seq<AssetEntry>)
    ensures |r| == |assetsPaths|
    ensures forall k :: 0 <= k < |assetsPaths| ==> r[k] == EntryFor(version, repository, assetsPaths[k])
  {
    if assetsPaths == [] then []
    else
      Entries(version, assetsPaths[..|assetsPaths| - 1], repository)
        + [EntryFor(version, repository, assetsPaths[|assetsPaths| - 1])]
  }

  /** The version file describing release `version` with the given assets. */
  function BuildManifest(version: string, assetsPaths: seq<string>, repository: string): VersionFile
  {
    VersionFile(version, Entries(version, assetsPaths, repository))
  }

  /**
    Builds the version file by starting from an empty asset list and
    appending one entry per path.
   */
  method PrepareVersionFileContent(version: string, assetsPaths: seq<string>, repository: string)
    returns (versionFile: VersionFile)
    ensures versionFile == BuildManifest(version, assetsPaths, repository)
    ensures versionFile.tag_name == version
    ensures |versionFile.assets| == |assetsPaths|
    ensures forall k :: 0 <= k < |assetsPaths| ==>
      versionFile.assets[k].name == Name(assetsPaths[k]) &&
      versionFile.assets[k].browser_download_url
        == "https://github.com/" + repository + "/releases/download/" + version + "/" + versionFile.assets[k].name
  {
    versionFile := VersionFile(version, []);
    for i := 0 to |assetsPaths|
      invariant versionFile.tag_name == version
      invariant versionFile.assets == Entries(version, assetsPaths[..i], repository)
    {
      var name := Name(assetsPaths[i]);
      versionFile := versionFile.(assets := versionFile.assets + [AssetEntry(DownloadUrl(repository, version, name), name)]);
      assert assetsPaths[..i + 1][..i] == assetsPaths[..i];
    }
    assert assetsPaths[..|assetsPaths|] == assetsPaths;
  }

  /**
    The pipeline of the entry point without its I/O: validate, and only if
    that passes, build the version file that is then written.
   */
  function RunRelease(version: string, assetsPaths: seq<string>, repository: string): (r: Result<VersionFile>)
    ensures r == Failure(NoAssets) <==> assetsPaths == []
    ensures r == Failure(UnsupportedType) <==> assetsPaths != [] && exists k :: 0 <= k < |assetsPaths| && !IsZip(assetsPaths[k])
    ensures r.Success? <==> assetsPaths != [] && forall k :: 0 <= k < |assetsPaths| ==> IsZip(assetsPaths[k])
    ensures r.Success? ==> r.value == BuildManifest(version, assetsPaths, repository)
  {
    match ValidateAssets(assetsPaths)
    case Fail(e) => Failure(e)
    case Pass => Success(BuildManifest(version, assetsPaths, repository))
  }

  /** The entry point in the source's own order: validate, then build; nothing is built after a failure. */
  method Run(version: string, assetsPaths: seq<string>, repository: string) returns (r: Result<VersionFile>)
    ensures r == RunRelease(version, assetsPaths, repository)
  {
    var outcome := ValidateAssets(assetsPaths);
    if outcome.Fail? {
      return Failure(outcome.error);
    }
    var versionFile := PrepareVersionFileContent(version, assetsPaths, repository);
    return Success(versionFile);
  }

  /** A single path that is not a zip archive rejects the whole batch, whatever surrounds it. */
  lemma {:induction false} OneBadAssetRejectsAll(before: seq<string>, bad: string, after: seq<string>)
    requires !IsZip(bad)
    ensures ValidateAssets(before + [bad] + after) == Fail(UnsupportedType)
  {
    assert (before + [bad] + after)[|before|] == bad;
  }

  /**
    Validation does not depend on the order of the directory listing: two
    listings of the same paths get the same outcome.
   */
  lemma {:induction false} ValidationIgnoresOrder(xs: seq<string>, ys: seq<string>)
    requires multiset(xs) == multiset(ys)
    ensures ValidateAssets(xs) == ValidateAssets(ys)
  {
    AcceptedOfSameElements(xs, ys);
    AcceptedOfSameElements(ys, xs);
    assert |xs| == |multiset(xs)| == |multiset(ys)| == |ys|;
  }

  lemma AcceptedOfSameElements(xs: seq<string>, ys: seq<string>)
    requires multiset(xs) == multiset(ys)
    ensures (forall k :: 0 <= k < |xs| ==> IsZip(xs[k])) ==> forall k :: 0 <= k < |ys| ==> IsZip(ys[k])
  {
    if forall k :: 0 <= k < |xs| ==> IsZip(xs[k]) {
      forall k | 0 <= k < |ys|
        ensures IsZip(ys[k])
      {
        assert ys[k] in multiset(ys);
        var j :| 0 <= j < |xs| && xs[j] == ys[k];
      }
    }
  }

  /** Building over two listings one after the other gives the two manifests' entries one after the other. */
  lemma {:induction false} EntriesAppend(version: string, xs: seq<string>, ys: seq<string>, repository: string)
    ensures Entries(version, xs + ys, repository) == Entries(version, xs, repository) + Entries(version, ys, repository)
  {
    var left := Entries(version, xs + ys, repository);
    var right := Entries(version, xs, repository) + Entries(version, ys, repository);
    forall k | 0 <= k < |xs + ys|
      ensures left[k] == right[k]
    {
      if k >= |xs| {
        assert (xs + ys)[k] == ys[k - |xs|];
      }
    }
  }

  /**
    The manifest lists every asset exactly as the directory listing does, up
    to order: a listing of the same paths in another order gives the same
    entries in another order.
   */
  lemma {:induction false} ManifestIgnoresOrder(version: string, xs: seq<string>, ys: seq<string>, repository: string)
    requires multiset(xs) == multiset(ys)
    ensures multiset(BuildManifest(version, xs, repository).assets) == multiset(BuildManifest(version, ys, repository).assets)
  {
    EntriesIgnoreOrder(version, xs, ys, repository);
  }

  lemma {:induction false} EntriesIgnoreOrder(version: string, xs: seq<string>, ys: seq<string>, repository: string)
    requires multiset(xs) == multiset(ys)
    ensures multiset(Entries(version, xs, repository)) == multiset(Entries(version, ys, repository))
    decreases |xs|
  {
    if xs == [] {
      assert |ys| == |multiset(ys)| == 0;
    } else {
      var n := |xs| - 1;
      var x := xs[n];
      assert xs == xs[..n] + [x];
      assert x in multiset(ys);
      var j :| 0 <= j < |ys| && ys[j] == x;
      var rest := ys[..j] + ys[j + 1..];
      RemoveAt(ys, j);
      assert multiset(xs) == multiset(xs[..n]) + multiset{x};
      assert multiset(xs[..n]) == multiset(xs) - multiset{x};
      assert multiset(rest) == multiset(ys) - multiset{x};
      EntriesIgnoreOrder(version, xs[..n], rest, repository);
      EntriesRemoveAt(version, ys, j, repository);
    }
  }

  lemma RemoveAt<T>(s: seq<T>, j: int)
    requires 0 <= j < |s|
    ensures multiset(s) == multiset(s[..j] + s[j + 1..]) + multiset{s[j]}
  {
    assert s == s[..j] + [s[j]] + s[j + 1..];
  }

  lemma {:induction false} EntriesRemoveAt(version: string, ys: seq<string>, j: int, repository: string)
    requires 0 <= j < |ys|
    ensures multiset(Entries(version, ys, repository))
      == multiset(Entries(version, ys[..j] + ys[j + 1..], repository)) + multiset{EntryFor(version, repository, ys[j])}
  {
    var a, b := ys[..j], ys[j + 1..];
    assert ys == a + [ys[j]] + b;
    EntriesAppend(version, a + [ys[j]], b, repository);
    EntriesAppend(version, a, [ys[j]], repository);
    EntriesAppend(version, a, b, repository);
  }

  /**
    Every entry's URL is a download URL on the hosting service whose last
    component is the entry's name, so the name can be read back from it.
   */
  lemma {:induction false} UrlEndsWithName(version: string, assetsPaths: seq<string>, repository: string, k: int)
    requires 0 <= k < |assetsPaths|
    ensures var entry := BuildManifest(version, assetsPaths, repository).assets[k];
      entry.browser_download_url[..|HostPrefix|] == HostPrefix &&
      Name(entry.browser_download_url) == entry.name
  {
    var entry := BuildManifest(version, assetsPaths, repository).assets[k];
    var name := Name(assetsPaths[k]);
    assert entry.browser_download_url == (HostPrefix + repository + DownloadSegment + version) + [Separator] + name;
    NameIsFinalComponent(assetsPaths[k]);
    NameOfJoin(HostPrefix + repository + DownloadSegment + version, name);
  }

  /**
    Whatever the run writes is a release with at least one asset, each named
    by a file name that ends in ".zip" after at least one other character.
   */
  lemma {:induction false} WrittenManifestHoldsOnlyZips(version: string, assetsPaths: seq<string>, repository: string)
    requires RunRelease(version, assetsPaths, repository).Success?
    ensures var m := RunRelease(version, assetsPaths, repository).value;
      m.tag_name == version && m.assets != [] &&
      forall k :: 0 <= k < |m.assets| ==>
        |m.assets[k].name| > 4 && m.assets[k].name[|m.assets[k].name| - 4..] == ZipExtension
  {
    var m := RunRelease(version, assetsPaths, repository).value;
    forall k | 0 <= k < |m.assets|
      ensures |m.assets[k].name| > 4 && m.assets[k].name[|m.assets[k].name| - 4..] == ZipExtension
    {
      assert IsZip(assetsPaths[k]);
      ZipSuffix(Name(assetsPaths[k]));
    }
  }
}
