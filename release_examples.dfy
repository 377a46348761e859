/**
  The concrete runs the updater's tests describe, stated over the model.
  A listed path is known here only by its file name (`Name(path)`), so each
  example holds for whichever directory the files sit in. The general
  lemmas come first; the examples instantiate them.
 */
module ReleaseExamples {
  import opened PurePath
  import opened UpdateCurrentVersion

  /** A path whose file name ends in ".zip" after at least one other character is accepted. */
  lemma ZipNamed(path: string, name: string)
    requires Name(path) == name && |name| > 4 && name[|name| - 4..] == ".zip"
    ensures IsZip(path)
  {
    IsZipByName(path);
  }

  /** A path whose file name does not end in ".zip" is rejected. */
  lemma NotZipNamed(path: string, name: string)
    requires Name(path) == name && !(|name| > 4 && name[|name| - 4..] == ".zip")
    ensures !IsZip(path)
  {
    IsZipByName(path);
  }

  /** A run over one accepted file `name` writes that file's download entry. */
  lemma RunOne(version: string, repository: string, p: string, name: string)
    requires Name(p) == name && IsZip(p)
    ensures RunRelease(version, [p], repository)
      == Success(VersionFile(version, [AssetEntry(DownloadUrl(repository, version, name), name)]))
  {
    assert ValidateAssets([p]) == Pass;
    EntriesOfOne(version, repository, p);
  }

  lemma EntriesOfOne(version: string, repository: string, p: string)
    ensures Entries(version, [p], repository) == [EntryFor(version, repository, p)]
  {
    assert Entries(version, [p], repository)[0] == EntryFor(version, repository, p);
  }

  /** A run over two accepted files writes their two download entries in listing order. */
  lemma RunTwo(version: string, repository: string, p: string, pName: string, q: string, qName: string)
    requires Name(p) == pName && IsZip(p) && Name(q) == qName && IsZip(q)
    ensures RunRelease(version, [p, q], repository)
      == Success(VersionFile(version, [
           AssetEntry(DownloadUrl(repository, version, pName), pName),
           AssetEntry(DownloadUrl(repository, version, qName), qName)]))
  {
    ValidTwo(p, q);
    EntriesOfTwo(version, repository, p, q);
  }

  lemma ValidTwo(p: string, q: string)
    requires IsZip(p) && IsZip(q)
    ensures ValidateAssets([p, q]) == Pass
  {
    var paths := [p, q];
    assert forall k :: 0 <= k < |paths| ==> paths[k] == p || paths[k] == q;
  }

  lemma EntriesOfTwo(version: string, repository: string, p: string, q: string)
    ensures Entries(version, [p, q], repository) == [EntryFor(version, repository, p), EntryFor(version, repository, q)]
  {
    var entries := Entries(version, [p, q], repository);
    assert entries[0] == EntryFor(version, repository, p);
    assert entries[1] == EntryFor(version, repository, q);
  }

  /** A run over a rejected file, alone or after another file, writes nothing. */
  lemma RunRejected(version: string, repository: string, other: string, bad: string)
    requires !IsZip(bad)
    ensures RunRelease(version, [bad], repository) == Failure(UnsupportedType)
    ensures RunRelease(version, [other, bad], repository) == Failure(UnsupportedType)
  {
    assert [bad][0] == bad;
    assert [other, bad][1] == bad;
  }

  /** pathlib gives the bare name ".zip" no suffix, so a file of that name is not a zip archive. */
  lemma BareZipHasNoSuffix(path: string)
    requires Name(path) == ".zip"
    ensures Suffix(".zip") == ""
    ensures !IsZip(path)
  {
    RFindIsLast(".zip", '.');
    assert RFind(".zip", '.') == 0;
    ZipSuffix(".zip");
  }

  // The literal URLs of the examples, joined one piece at a time.

  lemma UrlXY()
    ensures DownloadUrl("X/Y", "v3", "windows.zip") == "https://github.com/X/Y/releases/download/v3/windows.zip"
  {
  }

  lemma UrlPluginTest()
    ensures DownloadUrl("GOG-Nebula/plugin-test", "v1.1", "windows.zip")
      == "https://github.com/GOG-Nebula/plugin-test/releases/download/v1.1/windows.zip"
    ensures DownloadUrl("GOG-Nebula/plugin-test", "v1.1", "macos.zip")
      == "https://github.com/GOG-Nebula/plugin-test/releases/download/v1.1/macos.zip"
  {
    JoinPluginTest1();
    JoinPluginTest2();
    JoinPluginTest3();
    JoinPluginTest4();
    JoinPluginTest5();
  }

  lemma JoinPluginTest1()
    ensures HostPrefix + "GOG-Nebula/plugin-test" == "https://github.com/GOG-Nebula/plugin-test"
  {}
  lemma JoinPluginTest2()
    ensures "https://github.com/GOG-Nebula/plugin-test" + DownloadSegment
      == "https://github.com/GOG-Nebula/plugin-test/releases/download/"
  {}
  lemma JoinPluginTest3()
    ensures "https://github.com/GOG-Nebula/plugin-test/releases/download/" + "v1.1" + "/"
      == "https://github.com/GOG-Nebula/plugin-test/releases/download/v1.1/"
  {}
  lemma JoinPluginTest4()
    ensures "https://github.com/GOG-Nebula/plugin-test/releases/download/v1.1/" + "windows.zip"
      == "https://github.com/GOG-Nebula/plugin-test/releases/download/v1.1/windows.zip"
  {}
  lemma JoinPluginTest5()
    ensures "https://github.com/GOG-Nebula/plugin-test/releases/download/v1.1/" + "macos.zip"
      == "https://github.com/GOG-Nebula/plugin-test/releases/download/v1.1/macos.zip"
  {}

  /** One archive "windows.zip", version "v3", repository "X/Y": exactly one entry. */
  lemma SingleArchiveRelease(windows: string)
    requires Name(windows) == "windows.zip"
    ensures RunRelease("v3", [windows], "X/Y")
      == Success(VersionFile("v3", [AssetEntry("https://github.com/X/Y/releases/download/v3/windows.zip", "windows.zip")]))
  {
    ZipNamed(windows, "windows.zip");
    RunOne("v3", "X/Y", windows, "windows.zip");
    UrlXY();
  }

  /** Two archives keep the listing's order and get one download URL each. */
  lemma TwoArchiveRelease(windows: string, macos: string)
    requires Name(windows) == "windows.zip" && Name(macos) == "macos.zip"
    ensures RunRelease("v1.1", [windows, macos], "GOG-Nebula/plugin-test")
      == Success(VersionFile("v1.1", [
           AssetEntry("https://github.com/GOG-Nebula/plugin-test/releases/download/v1.1/windows.zip", "windows.zip"),
           AssetEntry("https://github.com/GOG-Nebula/plugin-test/releases/download/v1.1/macos.zip", "macos.zip")]))
  {
    ZipNamed(windows, "windows.zip");
    ZipNamed(macos, "macos.zip");
    RunTwo("v1.1", "GOG-Nebula/plugin-test", windows, "windows.zip", macos, "macos.zip");
    UrlPluginTest();
  }

  /** A "7z" archive is rejected, alone or next to a valid "zip" archive. */
  lemma SevenZipRejected(windows: string, bad: string)
    requires Name(bad) == "wrong_name.7z"
    ensures RunRelease("v1.1", [bad], "GOG-Nebula/plugin-test") == Failure(UnsupportedType)
    ensures RunRelease("v1.1", [windows, bad], "GOG-Nebula/plugin-test") == Failure(UnsupportedType)
  {
    NotZipNamed(bad, "wrong_name.7z");
    RunRejected("v1.1", "GOG-Nebula/plugin-test", windows, bad);
  }

  /** An empty directory is rejected before anything else is looked at. */
  lemma EmptyDirectoryRejected(version: string, repository: string)
    ensures RunRelease(version, [], repository) == Failure(NoAssets)
    ensures NoAssets.Message() == "No assets found in given directory"
  {
  }
}
