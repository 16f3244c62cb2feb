# Package catalog publisher — a Dafny model

This project models the core of a small static-site publisher for an
over-the-air app catalog. `app.py` loads a catalog of installable packages
from YAML documents. It renders index, package, `.plist` (install manifest)
and JSON pages through Jinja2 templates. It serves them from a preview
server, writes them into a build directory and uploads the manifests to
object storage. The site's pages hide e-mail addresses with a small
integer codec, written once in Python and once in the browser script.

The model is split into modules that follow the program:

- `Catalog` covers `Render.load_data`. Its parts are:
  - the fragment merge of `load_extra_files`;
  - `initial` and the `initials` bucket index of `ensure_initials`;
  - the stable newest-first sort and URL stamping of `sort_versions`;
  - `cdn_base_url`.

  The loops stay loops: `LoadExtraFiles`, `EnsureInitials`, `SortVersions`
  and `LoadData` are methods proved against the functions `ExtraPackages`,
  `Initial`, `Initials` and `SortPackage`.
- `SemVer` makes `semver.compare` concrete. It follows the precedence rules of
  section 11 of Semantic Versioning 2.0.0, and build metadata is ignored. This
  is a model of the standard, not of the `semver` library's code. The sort
  itself is proved for any comparator that is a total preorder on the strings
  it accepts.
- `Site` covers the `Render` class:
  - the dictionary forms of the catalog entries;
  - the view overlay of `render`;
  - the first-match lookups of `render_package` and `render_plist`;
  - the in-place `version.update(package)`;
  - the manifest view of `render_manifest`.

  `Render` is a Dafny class whose `data` field is replaced where the source
  mutates it.
- `Preview` covers the path clean-up of `do_GET`, the route decision of
  `handle`, and the response each route gets.
- `Publish` covers the sequence of files `build` writes and the objects
  `upload` puts. Both are methods proved against the list they produce.
  The build threads the catalog through every `render_plist` call, and it
  stops at the first call whose lookup fails, as the Python `next` raising
  `StopIteration` does.
- `EmailCodec` covers `encodeEmail`/`decodeEmail` in
  `public/includes/main.js` and the Python twin `encode_email`.
- `Strings`, `Seqs` and `Wrappers` hold shared helpers: prefix tests, split
  and join, trimming, decimal rendering, sequence facts, `Option` and `Result`.

In these places the code does less than its design suggests, and the model
follows the code:

- The storage prefix is used exactly as configured. The code never normalises
  it; only `cdn_base_url` drops its trailing slashes. An empty prefix gives
  the object key `/manifest.json`.
- A missing `oss` section fails `load_data` at once, because line 87 reads it
  unconditionally.
- A version the comparator rejects fails loading only when the package has
  two or more versions. `sorted` compares nothing in a shorter list.
- Versions that compare equal are allowed. The order is non-increasing, and
  stable on ties.
- No remote listing or size reconciliation exists in the code, so none is
  modelled.
- `render_plist` searches for the version only in the FIRST package with the
  bundle. A later package that shares the bundle and has a version the first
  one lacks makes `build` stop there. `Publish.SharedBundleFails` shows such a
  catalog.
- `version.update(package)` writes every package key into the version entry,
  so a package's own `version` or `url` key replaces the entry's. A parsed
  version keeps `version` and `url` in typed fields (`Site.Plain`); keys written
  over it go into `attrs`, which win.

## Model

| member | source | states |
|---|---|---|
| Catalog.LoadExtraFiles | app.py:42-51 | the loop returns exactly the merge `ExtraPackages` of the listing |
| Catalog.ExtraPackagesMembers | app.py:44-50 | a package is merged iff some listed `.yml`/`.yaml` file other than `manifest.yaml` has a package list containing it |
| Catalog.ExtraPackagesCount | app.py:42-51 | the merged list is as long as the sum of the contributing lists |
| Catalog.ExtraPackagesAppend | app.py:44-50 | merging a listing in two parts is the concatenation of the two merges, so files are taken in listing order |
| Catalog.SkippedFileIsIgnored | app.py:45-47 | removing the manifest or a non-YAML entry from anywhere in the listing leaves the merge unchanged |
| Catalog.LoadedCount | app.py:84-86 | the list `extend` produces is as long as the primary list plus the sum of the contributing fragments' lists |
| Catalog.AlphabetMembers | app.py:19-20 | `ALPHABET` is exactly the capitals A-Z, and `ALPHABET_WITH_ZERO` is those plus '0' |
| Catalog.UpperLatin | app.py:54-55 | an upper-cased character is a capital letter, and capitals stay themselves |
| Catalog.Initial | app.py:53-59 | an initial exists iff the name is non-empty (`text[0]` fails otherwise), and it is always '0' or A-Z |
| Catalog.InitialCaseInsensitive | app.py:54-55 | a lower-case ASCII first letter and its capital give the same bucket, namely that capital |
| Catalog.InitialZero | app.py:56-59 | the bucket is '0' iff neither the first character nor its one-letter romanization upper-cases to A-Z |
| Catalog.EnsureInitials | app.py:62-63 | fails at the first empty name; otherwise every package keeps its other keys and carries the initial of its name |
| Catalog.MembersSpec | app.py:66 | the filter lists exactly the positions of packages with that initial, each once, in catalog order |
| Catalog.Initials | app.py:64-70 | every bucket of the index has a letter of `ALPHABET_WITH_ZERO`, is non-empty and lists exactly the packages with that initial, in catalog order |
| Catalog.InitialsShape | app.py:64-70 | the index has buckets in '0', A-Z order, no empty bucket, and a bucket for every letter some package carries |
| Catalog.InitialsPartition | app.py:61-71 | a package whose initial is a bucket letter is in exactly one bucket |
| Catalog.BucketsOfOnlyReadInitials | app.py:64-70 | the index depends only on the packages' `initial` entries, so the later version sort leaves it valid |
| Catalog.SemverIsPreorder | app.py:78 | Semantic Versioning 2.0.0 precedence is a total preorder on valid version strings |
| Catalog.SortDesc | app.py:75-79 | `sorted` returns as many versions as it is given |
| SemVer.CompareTextPreorder | app.py:78 | precedence is reflexive, antisymmetric in sign and transitive |
| Catalog.SortDescPermutes | app.py:75-79 | the sorted list is a permutation of the input |
| Catalog.SortDescDescending | app.py:75-79 | under a preorder, with every version accepted, the sorted list is highest first |
| Catalog.SortDescStable | app.py:75-79 | the versions comparing equal to any accepted version keep their input order |
| Catalog.SortDescOfDescending | app.py:75-79 | sorting a list that is already highest first changes nothing |
| Catalog.IpaUrl | app.py:81 | a version's `url` lies under `<cdn_base_url>/package/<bundle>/` and ends in `_<version>.ipa` |
| Catalog.SortPackage | app.py:74-81 | fails iff the package has two or more versions and one is rejected; otherwise only `versions` changes, and each version's `url` names its own `.ipa` |
| Catalog.SortPackageSpec | app.py:75-81 | apart from the `url` stamps, the new list is the stable, highest-first permutation |
| Catalog.SortVersions | app.py:73-82 | fails at the first package with a rejected version; otherwise each package is its `SortPackage` result |
| Catalog.CdnBaseUrl | app.py:87 | the base URL is a prefix of the raw `https://bucket.endpoint/prefix` and does not end in '/' |
| Catalog.CdnBaseUrlShape | app.py:87 | the base URL starts with the bucket origin and never ends in '/'; it is the raw concatenation minus trailing slashes only |
| Catalog.LoadData | app.py:41-91 | the errors come in code order (no packages, no `oss`, empty name, rejected version); on success the catalog is the merged list classified and sorted, with the index, base URL and empty prefix |
| Site.DataDict | app.py:84-90 | `self.data` has the manifest's other keys plus `packages`, `initials`, `oss`, `cdn_base_url` and `prefix` |
| Site.UnionIsOverlay | app.py:113-116 | the map union is the key-by-key overlay of `render` |
| Site.OverlayIsUnion | app.py:113-116 | any map that overlays the override on the copy is that union |
| Site.FindPackage | app.py:131 | the first package with the bundle, or none iff no package has it |
| Site.VersionDict | app.py:78-81 | a version entry as a dictionary has its `version` key and a `url` once stamped; keys written into the entry win over the parsed ones |
| Site.FindVersion | app.py:136 | the first version whose `version` key is the number, or none iff no version has it |
| Site.Absorb | app.py:137 | after `version.update(package)` the entry's dictionary is the version's with the package's keys written over it; its `version` key changes only if the package has one |
| Site.AbsorbOverlays | app.py:137 | that dictionary is the overlay: every package key with the package's value, every other version key kept, `url` and `version` included |
| Site.PlistEntry | app.py:134-136 | the entry `render_plist` picks: the first package with the bundle and its first version with the number; `NoSuchPackage` iff no package has the bundle, `NoSuchVersion` iff that first package has no such version, even when a later package with the bundle does |
| Site.AbsorbIntoTouchesOneVersion | app.py:134-137 | the update changes that one version entry and nothing else in the catalog |
| Site.PlistUpdate | app.py:134-137 | the catalog after `render_plist`: the picked entry updated in place, or unchanged with the lookup's error |
| Site.ManifestView | app.py:120-125 | the manifest dictionary has every catalog key except `oss`, plus `date` and `time`; the other values are the catalog's |
| Site.Render.constructor | app.py:28-38 | the renderer holds the loaded catalog and the template environment |
| Site.Render.View | app.py:111-118 | the view is the data with the override laid over it key by key; `self.data` is unchanged |
| Site.Render.RenderPage | app.py:111-118 | the page is the template applied to that view |
| Site.Render.RenderPackage | app.py:130-132 | fails iff no package has the bundle; otherwise it renders the first such package's keys over the data |
| Site.Render.RenderPlist | app.py:134-138 | fails with `PlistEntry`'s error and the data unchanged; otherwise the data becomes `PlistUpdate`'s, with the package's keys winning in the picked entry, and the page renders that entry over the updated data |
| Site.Render.RenderManifest | app.py:120-125 | the result is `ManifestView` of the current data and the clock readings; the data is unchanged |
| Site.Render.SetPrefix | app.py:213 | only the `prefix` entry changes |
| Site.LoadedIsRenderable | app.py:61-71 | every bucket of a loaded catalog names a package that exists |
| Preview.RequestPath | app.py:170 | the cleaned path is empty or neither starts nor ends with '/' |
| Preview.RouteAsWritten | app.py:150-165 | the code's routing: index iff the path is empty, manifest iff it is `manifest.json`, package page iff it starts with `package/` and has two slugs, `.plist` iff three, file routes only under `assets/` |
| Preview.RouteOf | app.py:150-165 | the same decision with the `.plist` version taken by dropping the suffix (see Findings) |
| Preview.RoutesAgreeElsewhere | app.py:148-165 | the corrected router differs from the code's only in the version a `.plist` request names |
| Preview.IndexRoute | app.py:151-152 | the site root is the index page |
| Preview.ManifestRoute | app.py:153-154 | `/manifest.json` is the manifest |
| Preview.PackageRoute | app.py:155-156 | `/package/B/` is package B's page |
| Preview.PlistRouteAsWritten | app.py:157-158 | as written, the request for the `.plist` of version V names the first five characters of V + ".plist", which is V iff V has five characters |
| Preview.PlistRouteCounterexample | app.py:158 | as written, the `.plist` of 1.10.0 is looked up as version "1.10." |
| Preview.PlistRoute | app.py:157-158 | with the suffix dropped, the request for a built `.plist` names its bundle and version |
| Preview.IconRoute | app.py:159-161 | the raw request (line 170 cleans it) for an icon URL is served from the file the build copies it from |
| Preview.AssetRoute | app.py:162-164 | the raw request (line 170 cleans it) for an asset URL is served from the file the build copies it from |
| Preview.Header | app.py:148-165 | status 404 iff no route matched, 200 otherwise |
| Preview.Serve | app.py:148-177 | the response has its route's status and MIME type; the index and 404 bodies are their templates over the data, the manifest body is `ManifestView`, a package page fails iff no package has the bundle and otherwise renders the first one, a `.plist` request fails iff `PlistEntry` does and otherwise updates the data as `PlistUpdate` and renders the updated entry; file routes answer with their file; only a `.plist` request changes the data |
| Publish.CopyAssets | app.py:219-224 | the loop copies exactly `AssetOutputs` |
| Publish.AssetOutputsExactly | app.py:219-224 | an asset is copied iff it is neither hidden nor a directory |
| Publish.WritePackage | app.py:226-229 | the data evolves as `PlistRenders`; if every `.plist` renders, the writes are icon copy, package page, then one `.plist` per version in order; if version j fails, the writes stop before its `.plist` |
| Publish.VersionOutputsPlists | app.py:228-229 | the j-th write of a package's loop is the `.plist` of its j-th version |
| Publish.Build | app.py:212-229 | if every `.plist` renders, the build writes exactly `BuildOutputs`: index, 404, manifest, optional CNAME, assets, packages; otherwise it fails with the first failing render's error, having written everything before it |
| Publish.BuildFailsIffUnresolvable | app.py:225-229 | when no package has its own `version` key, the build fails iff some package has a version that the first package sharing its bundle lacks |
| Publish.DistinctBundlesResolve | app.py:225-229 | with distinct bundles and parsed versions, every `.plist` of the build renders |
| Publish.SharedBundleFails | app.py:225-229 | two packages with bundle `app` and versions 1.0.0 and 2.0.0: the build fails at the second package's first version with `NoSuchVersion` |
| Publish.BuildWritesEveryPackage | app.py:225-229 | every package's page, icon and `.plist` files are among the build's writes |
| Publish.PlistKeys | app.py:247-249 | the object key and local path of a `.plist` are the prefix and the dist directory joined to its build path |
| Publish.Upload | app.py:232-250 | fails with no put iff the build fails; otherwise the build writes `BuildOutputs` without CNAME and the puts are `UploadPuts` |
| Publish.PutObjects | app.py:243-250 | the uploads are the manifest, then one `.plist` per version, in catalog order |
| Publish.UploadReadsBuiltFiles | app.py:232-250 | every uploaded file is one the preceding build wrote, stored under the prefix at its build path |
| Publish.UploadCount | app.py:242-250 | there is one put for the manifest and one per version |
| Publish.IpaBesidePlist | app.py:81 | with a non-empty prefix and no trailing '/', a version's `.ipa` URL lies in the bucket directory holding its `.plist` |
| EmailCodec.EncodeEmail | public/includes/main.js:1-11 | the array loop writes `Encode(text)` |
| EmailCodec.EncodeEmailPy | app.py:95-102 | the list loop writes `Encode(email)` |
| EmailCodec.TokensAt | public/includes/main.js:3-9 | one token per character; position i holds `code + 0x66ccff` (even) or `code - 0xee0000` (odd) |
| EmailCodec.TokenSigns | public/includes/main.js:4-8 | even tokens are at least 0x66ccff and odd tokens are negative |
| EmailCodec.SplitEncoded | public/includes/main.js:14 | splitting the encoded text on '.' gives back exactly the token renderings |
| EmailCodec.EncodeDots | public/includes/main.js:10 | the empty text encodes to ""; otherwise there is one '.' fewer than characters |
| EmailCodec.ParseIntOfDecimal | public/includes/main.js:18-20 | `parseInt` reads the decimal rendering of any integer back |
| EmailCodec.FromCharCode | public/includes/main.js:18 | codes below 0x10000 are kept and NaN gives 0 |
| EmailCodec.DecodeEmail | public/includes/main.js:13-24 | the loop returns `Decode(data)` |
| EmailCodec.DecodeEncoded | public/includes/main.js:16-21 | each position decodes to its code reduced to 16 bits |
| EmailCodec.RoundTrip | public/includes/main.js:1-24 | decoding the encoding of a non-empty JavaScript string gives it back |
| EmailCodec.DecodeEmpty | public/includes/main.js:14-18 | the empty text does not round-trip: it decodes to one NUL |
| EmailCodec.PythonMatchesBrowser | app.py:95-102 | the Python and browser encodings agree when every code point is below 0x10000; otherwise the browser writes more tokens |
| EmailCodec.PythonToBrowser | app.py:95-102 | the browser decodes the Python encoding to the address iff every code point is below 0x10000 |

## Left out

- File system and YAML parsing (`os.listdir`, `open`, `yaml.load`) are not modelled. Parsed documents and the directory listing are inputs. Only package lists and text scalars are typed; other YAML values are not distinguished.
- `pypinyin.pinyin` is a parameter `romanize` (a character to a string). Only its first result's first letter is used, as in the code.
- Python's `str.upper` is modelled only where its result can be one of the 26 capitals: ASCII letters, U+0131 and U+017F. No other character upper-cases to a single A-Z letter.
- The `semver` library's own parser and its exceptions are not part of this model. `SemVer` follows the Semantic Versioning 2.0.0 text instead, and a rejected version is the `BadVersion` error.
- Jinja2 (`get_template`, `render`) is an opaque function from a template name and a view to text. `render_index` and `render_404` are `RenderPage` with their fixed names. `minify` is ignored by the code and not modelled.
- `json.dumps` is not modelled: the manifest response carries the view map. `datetime.now()` readings are parameters, and the `now` template global is not modelled.
- The HTTP server (`HTTPServer`, header writing, the serve loop) is not modelled. The per-request `Render.load()` is also left out: `Serve` takes a loaded renderer. File bodies are named by path and not read.
- `shutil`, `os.makedirs`, the build log lines and their KB formatting are not modelled. `generage` and `copy` become `Output` records listing the path and the source.
- `oss2` authentication and `put_object_from_file` become `Put` records. The upload's own `build` run is represented by `BuildOutputs` with no CNAME.
- `argparse` and `main` are not modelled.
- Catalog.LoadData: documents are typed records, so some inputs cannot be expressed. These inputs raise `KeyError` or `TypeError` at app.py:62, 76, 81 and 87 and abort the whole load: a package without `name`, `bundle` or `versions`; a package with `versions: null`; a version without `version`; an `oss` section without `bucket`, `endpoint` or `prefix`.
- Publish.Build: page contents are opaque. When two packages share a bundle, the later package's `.plist` pages render the earlier package's entries, and the model does not tell those pages apart.
- Site.Render.RenderPlist: the Python version dictionary ends up holding the package's `versions` list, which contains that very dictionary (a cycle). The model stores the list as it was before the update.
- Site.Render.RenderPlist: later renders see the updated version entry through `data`. The bucket lists of `initials` alias the package dictionaries in Python. The model keeps positions into `packages`, so they see the update too.
- EmailCodec.RoundTrip: JavaScript numbers are doubles. The model's integers are exact, which agrees for every token a UTF-16 code unit produces (all are far below 2^53).
- Preview.Serve: routes with the corrected `.plist` rule (see Findings). `RouteAsWritten` keeps the code's rule.

## Findings

| source | as written | input that shows it | evidently intended | confidence | as-written member | corrected member |
|---|---|---|---|---|---|---|
| app.py:158 | the version is `slugs[2][:len('.plist') - 1]`, the first five characters of the last slug | `package/app/1.10.0.plist` is looked up as version `1.10.`, so `render_plist` raises StopIteration | drop the suffix: `slugs[2][:-len('.plist')]` | not executed | Preview.PlistRouteCounterexample | Preview.PlistRoute |
