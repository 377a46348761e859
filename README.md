# Release manifest of the plugin release action

This project models, in Dafny, the core of `update_current_version.py`: the
step of a plugin's release pipeline that turns a directory of packaged
assets into the version file (`current_version.json`) read by the GOG Galaxy
auto-updater. It has three parts:

- **Asset validation** (`validate_assets`): a batch of asset paths is
  rejected when it is empty, or when any path's suffix is not exactly
  `.zip`. Validation is all or nothing.
- **Manifest building** (`prepare_version_file_content`): the version file
  holds the release tag (`tag_name`) and one entry per asset path, in
  listing order. Each entry holds the file's name and its download URL
  `https://github.com/{repository}/releases/download/{version}/{name}`.
- **The entry point** (`main`): list, validate, build, write. Only the
  validate-before-build order is modelled. A failed validation yields an
  error and no version file, so nothing is written.

Files:

- `pure_path.dfy` (module `PurePath`) models the two `pathlib` accessors
  the tool uses. `Name` is the final path component. `Suffix` follows
  pathlib's rule: it starts at the last `.` of the name, but only when that
  dot is neither the first nor the last character. Under that rule `.zip`
  alone has no suffix. pathlib is a library outside the repository, so this
  rule is an assumption of the model.
- `update_current_version.dfy` (module `UpdateCurrentVersion`) holds the
  validator, the manifest builder and the pipeline. The builder is a
  method with a loop that appends one entry per path, as the source does.
  It is proved equal to the recursive specification `BuildManifest`.
- `release_examples.dfy` (module `ReleaseExamples`) restates the concrete
  runs of `test_update_current_version.py` as lemmas. General helper
  lemmas come first, then the examples themselves.

Modelling choices:

- The builder accepts any list, including an empty one, as the source does.
  Non-emptiness comes from validation, not from a precondition of the builder.
- The manifest keeps listing order. Listings of the same paths give the same
  entries up to order (`ManifestIgnoresOrder`).
- A zip archive is a file whose pathlib suffix is exactly `.zip`, compared
  case-sensitively. So `A.ZIP` and a file named `.zip` are both rejected.

Validation errors are values of `AssetError` (`NoAssets`,
`UnsupportedType`), not exceptions. The source raises a `ValueError` for
both, with different messages; `AssetError.Message` keeps those messages.

## Model

| member | source | states |
|---|---|---|
| `PurePath.RFindIsLast` | update_current_version.py:36 | the search that pathlib's name and suffix rules use finds the last occurrence of a character, or reports -1 exactly when there is none |
| `PurePath.NameIsFinalComponent` | update_current_version.py:50-51 | an asset's name is the longest separator-free tail of its path |
| `PurePath.SuffixShape` | update_current_version.py:36 | a suffix is either empty or a dot plus at least one non-dot character, ending the name after at least one other character |
| `PurePath.NameOfJoin` | update_current_version.py:26-28 | the path that listing a directory yields for an entry has that entry as its name |
| `PurePath.ZipSuffix` | update_current_version.py:36 | a name's suffix is ".zip" exactly when the name ends in ".zip" after at least one more character |
| `UpdateCurrentVersion.All` | update_current_version.py:36 | `all` is true exactly when every element of the list is true |
| `UpdateCurrentVersion.IsZipByName` | update_current_version.py:36 | a path passes the suffix comparison exactly when its file name ends in ".zip" after at least one more character |
| `UpdateCurrentVersion.ValidateAssets` | update_current_version.py:33-37 | NoAssets exactly for the empty list; UnsupportedType exactly when the list is non-empty and some path is not a zip archive; success exactly when the list is non-empty and every path is a zip archive |
| `UpdateCurrentVersion.OneBadAssetRejectsAll` | update_current_version.py:36-37 | one non-zip path rejects the whole batch with UnsupportedType, whatever valid paths surround it |
| `UpdateCurrentVersion.ValidationIgnoresOrder` | update_current_version.py:26-27 | the outcome of validation does not depend on the order of the directory listing |
| `UpdateCurrentVersion.Entries` | update_current_version.py:47-53 | exactly one entry per input path, in input order; entry k is built from path k |
| `UpdateCurrentVersion.PrepareVersionFileContent` | update_current_version.py:40-54 | the loop's result equals the specification; tag_name is the version verbatim; one entry per path in order; entry k has path k's name and the URL "https://github.com/" + repository + "/releases/download/" + version + "/" + name |
| `UpdateCurrentVersion.EntriesAppend` | update_current_version.py:47-53 | building over two listings in a row gives the two entry lists in a row |
| `UpdateCurrentVersion.ManifestIgnoresOrder` | update_current_version.py:47-53 | listings holding the same paths in different orders give the same entries in different orders |
| `UpdateCurrentVersion.UrlEndsWithName` | update_current_version.py:50-51 | every download URL starts with "https://github.com/" and its final path component is the entry's name |
| `UpdateCurrentVersion.RunRelease` | update_current_version.py:25-30 | the pipeline fails with NoAssets exactly for an empty listing; it fails with UnsupportedType exactly when some path is not a zip archive; otherwise it yields the built manifest, and only then is there anything to write |
| `UpdateCurrentVersion.Run` | update_current_version.py:25-28 | validating first and building only after success gives exactly the pipeline's result |
| `UpdateCurrentVersion.WrittenManifestHoldsOnlyZips` | update_current_version.py:27-30 | whatever the pipeline writes has the given tag, at least one asset, and only names ending in ".zip" |
| `ReleaseExamples.BareZipHasNoSuffix` | update_current_version.py:36 | a file named ".zip" has no suffix and is rejected |
| `ReleaseExamples.SingleArchiveRelease` | test_update_current_version.py:76-87 | windows.zip, version v3, repository X/Y give exactly one entry with the URL https://github.com/X/Y/releases/download/v3/windows.zip |
| `ReleaseExamples.TwoArchiveRelease` | test_update_current_version.py:32-48 | windows.zip and macos.zip at v1.1 of GOG-Nebula/plugin-test give two entries in listing order, with the expected URLs |
| `ReleaseExamples.SevenZipRejected` | test_update_current_version.py:64-73 | wrong_name.7z is rejected with UnsupportedType, alone or after a valid archive |
| `ReleaseExamples.EmptyDirectoryRejected` | update_current_version.py:34-35 | an empty listing fails with NoAssets and its message |

## Left out

- `parse_args` and the command line (update_current_version.py:9-22): argument parsing is a front end. Version, repository and path list are plain parameters.
- Directory enumeration with `iterdir()` (update_current_version.py:26): the listing is an input sequence, because its order depends on the filesystem.
- Opening the version file and `json.dump` (update_current_version.py:29-30): file I/O and JSON serialisation are not modelled. `RunRelease` returns the manifest that would be written. Creating or overwriting the file is outside the model.
- `VERSION_FILE_PATH` and the `__main__` block (update_current_version.py:6, 57-59): configuration plumbing.
- PurePath.Name: assumes POSIX paths as a directory listing yields them. It does not model pathlib's removal of trailing or doubled separators, nor Windows separators.
- Exceptions: a validation failure is an `AssetError` value, not a raised `ValueError`. The test file's subprocess mechanics are not modelled; only their expected outputs are.
