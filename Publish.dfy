/** What `build` writes into the output directory and what `upload` puts into
    the object-storage bucket, as lists of paths and keys. Page contents,
    the file system and the storage client are not modelled: a build output
    is the relative path it is written to, an upload is the object key and
    the local file it is read from. */
module Publish {
  import opened Wrappers
  import opened Strings
  import opened Catalog
  import opened Site
  import opened Seqs

  const ManifestJson: string := "manifest.json"
  /** `upload` builds into this directory before putting objects. */
  const UploadDist: string := "ossdist"

  /** An entry of `public/assets`. */
  datatype Asset = Asset(name: string, isDir: bool)

  /** One file of a build: generated from a template, or copied. */
  datatype Output = Generate(path: string) | Copy(path: string, source: string)

  /** One `put_object_from_file(key, local)` call. */
  datatype Put = Put(key: string, local: string)

  function PackagePagePath(bundle: string): string {
    "package/" + bundle + "/index.html"
  }

  function PlistPath(bundle: string, version: string): string {
    "package/" + bundle + "/" + version + ".plist"
  }

  function IconPath(bundle: string): string {
    "assets/icon/" + bundle + ".png"
  }

  function IconSource(bundle: string): string {
    "data/icon/" + bundle + ".png"
  }

  // ---- build ----

  /** Hidden entries and directories of `public/assets` are not copied. */
  predicate Copied(a: Asset) {
    !StartsWith(a.name, ".") && !a.isDir
  }

  function AssetCopy(a: Asset): Output {
    Copy("assets/" + a.name, "public/assets/" + a.name)
  }

  function AssetOutputs(assets: seq<Asset>): seq<Output>
  {
    if assets == [] then []
    else
      var a := assets[|assets| - 1];
      AssetOutputs(assets[..|assets| - 1])
        + (if Copied(a) then [AssetCopy(a)] else [])
  }

  function VersionOutputs(bundle: string, versions: seq<Version>): seq<Output>
  {
    if versions == [] then []
    else VersionOutputs(bundle, versions[..|versions| - 1]) + [Generate(PlistPath(bundle, versions[|versions| - 1].version))]
  }

  function PackageOutputs(p: Package): seq<Output> {
    [Copy(IconPath(p.bundle), IconSource(p.bundle)), Generate(PackagePagePath(p.bundle))]
      + VersionOutputs(p.bundle, p.versions)
  }

  function PackagesOutputs(packages: seq<Package>): seq<Output>
  {
    if packages == [] then []
    else PackagesOutputs(packages[..|packages| - 1]) + PackageOutputs(packages[|packages| - 1])
  }

  function FixedOutputs(cname: Option<string>): seq<Output> {
    [Generate("index.html"), Generate("404.html"), Generate(ManifestJson)]
      + (if cname.Some? then [Generate("CNAME")] else [])
  }

  /** Everything `build` writes, in order. */
  function BuildOutputs(packages: seq<Package>, cname: Option<string>, assets: seq<Asset>): seq<Output> {
    FixedOutputs(cname) + AssetOutputs(assets) + PackagesOutputs(packages)
  }

  /** The copy loop of `build` over `public/assets`. */
  method CopyAssets(assets: seq<Asset>) returns (out: seq<Output>)
    ensures out == AssetOutputs(assets)
  {
    out := [];
    for i := 0 to |assets|
      invariant out == AssetOutputs(assets[..i])
    {
      var a := assets[i];
      ghost var before := out;
      if StartsWith(a.name, ".") {
        CopiedStep(assets, i, before, before);
        continue;
      }
      if a.isDir {
        CopiedStep(assets, i, before, before);
        continue;
      }
      out := out + [AssetCopy(a)];
      CopiedStep(assets, i, before, out);
    }
    TakeAll(assets);
  }

  /** One round of the copy loop adds the next entry's copy, if any. */
  lemma CopiedStep(assets: seq<Asset>, i: nat, before: seq<Output>, after: seq<Output>)
    requires i < |assets| && before == AssetOutputs(assets[..i])
    requires after == before + (if Copied(assets[i]) then [AssetCopy(assets[i])] else [])
    ensures after == AssetOutputs(assets[..i + 1])
  {
    PrefixSnoc(assets, i);
    assert assets[..i + 1][..i] == assets[..i];
  }

  /** The files of one package up to, not including, the `.plist` of its
      version `j`: the icon, the page, then the earlier versions' `.plist`s. */
  function PackageOutputsUpTo(p: Package, j: nat): seq<Output>
    requires j <= |p.versions|
  {
    [Copy(IconPath(p.bundle), IconSource(p.bundle)), Generate(PackagePagePath(p.bundle))]
      + VersionOutputs(p.bundle, p.versions[..j])
  }

  /** Where the build stopped: version `version` of package `package` could
      not be rendered. */
  datatype BuildFailure = BuildFailure(package: nat, version: nat, error: RenderError)

  /** The `render_plist` calls of one package's loop, made in turn on the
      catalog they keep updating: the catalog afterwards, or the position of
      the first version whose lookup fails, with the error. */
  function PlistRenders(d: CatalogData, bundle: string, versions: seq<Version>): Result<CatalogData, (nat, RenderError)>
  {
    if versions == [] then Ok(d)
    else
      match PlistRenders(d, bundle, versions[..|versions| - 1])
      case Err(f) => Err(f)
      case Ok(e) =>
        match PlistUpdate(e, bundle, versions[|versions| - 1].version)
        case Err(err) => Err((|versions| - 1, err))
        case Ok(e') => Ok(e')
  }

  /** The `render_plist` calls of the package loop of `build`, over `packages`
      in order, starting from catalog `d`. */
  function BuildRenders(d: CatalogData, packages: seq<Package>): Result<CatalogData, BuildFailure>
  {
    if packages == [] then Ok(d)
    else
      match BuildRenders(d, packages[..|packages| - 1])
      case Err(f) => Err(f)
      case Ok(e) =>
        var p := packages[|packages| - 1];
        match PlistRenders(e, p.bundle, p.versions)
        case Err((j, err)) => Err(BuildFailure(|packages| - 1, j, err))
        case Ok(e') => Ok(e')
  }

  /** One round of the package loop of `build`: the icon, the package page,
      then a `.plist` per version, each rendered by `render_plist` on the
      catalog as the earlier renders left it. The package page always
      renders: its own bundle is in the catalog. When a lookup fails, the
      `.plist` whose render raised is not written and the build stops. */
  method WritePackage(data: CatalogData, p: Package) returns (out: seq<Output>, r: Result<CatalogData, (nat, RenderError)>)
    ensures r == PlistRenders(data, p.bundle, p.versions)
    ensures r.Ok? ==> out == PackageOutputs(p)
    ensures r.Err? ==> r.error.0 < |p.versions| && out == PackageOutputsUpTo(p, r.error.0)
  {
    var head := [Copy(IconPath(p.bundle), IconSource(p.bundle)), Generate(PackagePagePath(p.bundle))];
    var plists := [];
    var current := data;
    for j := 0 to |p.versions|
      invariant plists == VersionOutputs(p.bundle, p.versions[..j])
      invariant PlistRenders(data, p.bundle, p.versions[..j]) == Ok(current)
    {
      var path := PlistPath(p.bundle, p.versions[j].version);
      var rendered := PlistUpdate(current, p.bundle, p.versions[j].version);
      PlistStep(data, p.bundle, p.versions, j, current);
      if rendered.Err? {
        return head + plists, Err((j, rendered.error));
      }
      current := rendered.value;
      VersionOutputsStep(p.bundle, p.versions, j);
      plists := plists + [Generate(path)];
    }
    TakeAll(p.versions);
    out := head + plists;
    r := Ok(current);
  }

  lemma VersionOutputsStep(bundle: string, versions: seq<Version>, j: nat)
    requires j < |versions|
    ensures VersionOutputs(bundle, versions[..j + 1])
      == VersionOutputs(bundle, versions[..j]) + [Generate(PlistPath(bundle, versions[j].version))]
  {
    PrefixSnoc(versions, j);
    SnocButLast(versions[..j], versions[j]);
  }

  /** One `render_plist` call of a package's loop: it either carries the
      loop on with the updated catalog, or its failure is the loop's. */
  lemma PlistStep(data: CatalogData, bundle: string, versions: seq<Version>, j: nat, current: CatalogData)
    requires j < |versions| && PlistRenders(data, bundle, versions[..j]) == Ok(current)
    ensures var u := PlistUpdate(current, bundle, versions[j].version);
      u.Ok? ==> PlistRenders(data, bundle, versions[..j + 1]) == Ok(u.value)
    ensures var u := PlistUpdate(current, bundle, versions[j].version);
      u.Err? ==> PlistRenders(data, bundle, versions) == Err((j, u.error))
  {
    PrefixSnoc(versions, j);
    SnocButLast(versions[..j], versions[j]);
    var u := PlistUpdate(current, bundle, versions[j].version);
    if u.Err? {
      PlistRendersStays(data, bundle, versions, j + 1, (j, u.error));
    }
  }

  /** Once a render has failed, the later versions change nothing. */
  lemma {:induction false} PlistRendersStays(data: CatalogData, bundle: string, versions: seq<Version>, k: nat, f: (nat, RenderError))
    requires k <= |versions| && PlistRenders(data, bundle, versions[..k]) == Err(f)
    ensures PlistRenders(data, bundle, versions) == Err(f)
    decreases |versions| - k
  {
    if k < |versions| {
      PrefixSnoc(versions, k);
      SnocButLast(versions[..k], versions[k]);
      assert PlistRenders(data, bundle, versions[..k + 1]) == Err(f);
      PlistRendersStays(data, bundle, versions, k + 1, f);
    } else {
      TakeAll(versions);
    }
  }

  /** The file writes of `build`, in the order its loops make them, and the
      error that stops it, if any. */
  method Build(d: CatalogData, cname: Option<string>, assets: seq<Asset>) returns (out: seq<Output>, error: Option<RenderError>)
    ensures BuildRenders(d, d.packages).Ok? ==> error == None && out == BuildOutputs(d.packages, cname, assets)
    ensures BuildRenders(d, d.packages).Err? ==>
      var f := BuildRenders(d, d.packages).error;
      && error == Some(f.error)
      && f.package < |d.packages| && f.version < |d.packages[f.package].versions|
      && out == FixedOutputs(cname) + AssetOutputs(assets) + PackagesOutputs(d.packages[..f.package])
           + PackageOutputsUpTo(d.packages[f.package], f.version)
  {
    var fixed := [Generate("index.html"), Generate("404.html"), Generate(ManifestJson)];
    if cname.Some? {
      fixed := fixed + [Generate("CNAME")];
    } else {
      AppendEmpty(fixed);
    }
    assert fixed == FixedOutputs(cname);
    var copied := CopyAssets(assets);
    var written := [];
    var data := d;
    for i := 0 to |d.packages|
      invariant written == PackagesOutputs(d.packages[..i])
      invariant BuildRenders(d, d.packages[..i]) == Ok(data)
    {
      var files, r := WritePackage(data, d.packages[i]);
      if r.Err? {
        BuildStopped(d, i, data, r.error.0, r.error.1);
        ghost var f := BuildFailure(i, r.error.0, r.error.1);
        assert BuildRenders(d, d.packages).error == f;
        out := fixed + copied + written + files;
        assert out == FixedOutputs(cname) + AssetOutputs(assets) + PackagesOutputs(d.packages[..f.package])
          + PackageOutputsUpTo(d.packages[f.package], f.version);
        return out, Some(r.error.1);
      }
      BuildStep(d, i, data, r.value);
      PackagesOutputsStep(d.packages, i);
      data := r.value;
      written := written + files;
    }
    TakeAll(d.packages);
    out := fixed + copied + written;
    error := None;
  }

  lemma PackagesOutputsStep(packages: seq<Package>, i: nat)
    requires i < |packages|
    ensures PackagesOutputs(packages[..i + 1]) == PackagesOutputs(packages[..i]) + PackageOutputs(packages[i])
  {
    PrefixSnoc(packages, i);
    SnocButLast(packages[..i], packages[i]);
  }

  /** A package whose `.plist` loop succeeds carries the build on. */
  lemma BuildStep(d: CatalogData, i: nat, data: CatalogData, next: CatalogData)
    requires i < |d.packages| && BuildRenders(d, d.packages[..i]) == Ok(data)
    requires PlistRenders(data, d.packages[i].bundle, d.packages[i].versions) == Ok(next)
    ensures BuildRenders(d, d.packages[..i + 1]) == Ok(next)
  {
    PrefixSnoc(d.packages, i);
    SnocButLast(d.packages[..i], d.packages[i]);
  }

  /** Once a render has failed, the later packages change nothing: the
      failure is the build's. */
  lemma {:induction false} BuildRendersStays(d: CatalogData, packages: seq<Package>, k: nat, f: BuildFailure)
    requires k <= |packages| && BuildRenders(d, packages[..k]) == Err(f)
    ensures BuildRenders(d, packages) == Err(f)
    decreases |packages| - k
  {
    if k < |packages| {
      PrefixSnoc(packages, k);
      SnocButLast(packages[..k], packages[k]);
      assert BuildRenders(d, packages[..k + 1]) == Err(f);
      BuildRendersStays(d, packages, k + 1, f);
    } else {
      TakeAll(packages);
    }
  }

  /** A failing `.plist` loop of package `i` is the failure of the build. */
  lemma BuildStopped(d: CatalogData, i: nat, data: CatalogData, j: nat, e: RenderError)
    requires i < |d.packages| && BuildRenders(d, d.packages[..i]) == Ok(data)
    requires PlistRenders(data, d.packages[i].bundle, d.packages[i].versions) == Err((j, e))
    ensures BuildRenders(d, d.packages) == Err(BuildFailure(i, j, e))
  {
    PrefixSnoc(d.packages, i);
    SnocButLast(d.packages[..i], d.packages[i]);
    assert BuildRenders(d, d.packages[..i + 1]) == Err(BuildFailure(i, j, e));
    BuildRendersStays(d, d.packages, i + 1, BuildFailure(i, j, e));
  }

  // ---- When the build fails ----

  /** Every `render_plist(bundle, v.version)` lookup for the versions `v` of
      `versions` finds an entry in `packages`. */
  predicate AllFound(packages: seq<Package>, bundle: string, versions: seq<Version>) {
    forall j :: 0 <= j < |versions| ==> PlistEntry(packages, bundle, versions[j].version).Ok?
  }

  /** Every lookup the package loop of `build` makes for `packages` finds an
      entry in `loaded`. */
  predicate AllResolve(loaded: seq<Package>, packages: seq<Package>) {
    forall i :: 0 <= i < |packages| ==> AllFound(loaded, packages[i].bundle, packages[i].versions)
  }

  /** Every lookup the package loop of `build` makes finds an entry in the
      catalog as loaded. */
  predicate Resolvable(packages: seq<Package>) {
    AllResolve(packages, packages)
  }

  lemma AllResolveSnoc(loaded: seq<Package>, packages: seq<Package>)
    requires packages != []
    ensures AllResolve(loaded, packages) <==>
      AllResolve(loaded, packages[..|packages| - 1])
      && AllFound(loaded, packages[|packages| - 1].bundle, packages[|packages| - 1].versions)
  {
    var n := |packages| - 1;
    assert forall i :: 0 <= i < n ==> packages[..n][i] == packages[i];
  }

  lemma AllFoundSnoc(packages: seq<Package>, bundle: string, versions: seq<Version>)
    requires versions != []
    ensures AllFound(packages, bundle, versions) <==>
      AllFound(packages, bundle, versions[..|versions| - 1])
      && PlistEntry(packages, bundle, versions[|versions| - 1].version).Ok?
  {
    var n := |versions| - 1;
    assert forall j :: 0 <= j < n ==> versions[..n][j] == versions[j];
  }

  /** No package has a `version` key of its own, so `version.update(package)`
      never changes the number a later lookup compares. */
  predicate NoOwnVersionKey(packages: seq<Package>) {
    forall i :: 0 <= i < |packages| ==> "version" !in packages[i].attrs
  }

  /** Two catalogs agree on everything the lookups of `render_plist` read. */
  predicate SameKeys(e: seq<Package>, d: seq<Package>) {
    && |e| == |d|
    && (forall i :: 0 <= i < |e| ==> e[i].bundle == d[i].bundle && e[i].attrs == d[i].attrs)
    && (forall i :: 0 <= i < |e| ==> |e[i].versions| == |d[i].versions|)
    && (forall i, j :: 0 <= i < |e| && 0 <= j < |e[i].versions| ==>
          VersionKey(e[i].versions[j]) == VersionKey(d[i].versions[j]))
  }

  lemma FindVersionSame(a: seq<Version>, b: seq<Version>, version: string)
    requires |a| == |b| && forall j :: 0 <= j < |a| ==> VersionKey(a[j]) == VersionKey(b[j])
    ensures FindVersion(a, version) == FindVersion(b, version)
  {
  }

  lemma PlistEntrySame(e: seq<Package>, d: seq<Package>, bundle: string, version: string)
    requires SameKeys(e, d)
    ensures PlistEntry(e, bundle, version) == PlistEntry(d, bundle, version)
  {
    if FindPackage(d, bundle).Some? {
      var i := FindPackage(d, bundle).value;
      assert FindPackage(e, bundle) == Some(i);
      FindVersionSame(e[i].versions, d[i].versions, version);
    } else {
      assert FindPackage(e, bundle).None?;
    }
  }

  /** Without a package's own `version` key, an update leaves every number
      the lookups compare as it was. */
  lemma AbsorbIntoSame(e: CatalogData, d: seq<Package>, i: nat, j: nat)
    requires SameKeys(e.packages, d) && NoOwnVersionKey(d)
    requires i < |e.packages| && j < |e.packages[i].versions|
    ensures SameKeys(AbsorbInto(e, i, j).packages, d)
  {
    var p := e.packages[i];
    assert "version" !in p.attrs;
    var w := Absorb(p.versions[j], p);
    assert VersionKey(w) == VersionKey(p.versions[j]);
    AbsorbIntoTouchesOneVersion(e, i, j);
  }

  /** One `render_plist` call on a catalog that agrees with the loaded one
      succeeds exactly when the lookup does in the loaded catalog, and the
      catalog it leaves still agrees. */
  lemma PlistUpdateFound(e: CatalogData, d: seq<Package>, bundle: string, version: string)
    requires SameKeys(e.packages, d) && NoOwnVersionKey(d)
    ensures PlistUpdate(e, bundle, version).Ok? <==> PlistEntry(d, bundle, version).Ok?
    ensures PlistUpdate(e, bundle, version).Ok? ==> SameKeys(PlistUpdate(e, bundle, version).value.packages, d)
  {
    PlistEntrySame(e.packages, d, bundle, version);
    var at := PlistEntry(e.packages, bundle, version);
    if at.Ok? {
      AbsorbIntoSame(e, d, at.value.0, at.value.1);
    }
  }

  /** One package's `.plist` loop runs to its end exactly when each of its
      lookups finds an entry in the catalog as loaded. */
  lemma {:induction false} PlistRendersFound(e: CatalogData, d: seq<Package>, bundle: string, versions: seq<Version>)
    requires SameKeys(e.packages, d) && NoOwnVersionKey(d)
    ensures PlistRenders(e, bundle, versions).Ok? <==> AllFound(d, bundle, versions)
    ensures PlistRenders(e, bundle, versions).Ok? ==> SameKeys(PlistRenders(e, bundle, versions).value.packages, d)
  {
    if versions != [] {
      var n := |versions| - 1;
      PlistRendersFound(e, d, bundle, versions[..n]);
      AllFoundSnoc(d, bundle, versions);
      var r := PlistRenders(e, bundle, versions[..n]);
      if r.Ok? {
        PlistUpdateFound(r.value, d, bundle, versions[n].version);
      }
    }
  }

  /** The package loop of `build` runs to its end exactly when every lookup
      it makes finds an entry in the catalog as loaded. */
  lemma {:induction false} BuildRendersFound(d: CatalogData, packages: seq<Package>)
    requires NoOwnVersionKey(d.packages)
    ensures BuildRenders(d, packages).Ok? <==> AllResolve(d.packages, packages)
    ensures BuildRenders(d, packages).Ok? ==> SameKeys(BuildRenders(d, packages).value.packages, d.packages)
  {
    if packages == [] {
      assert SameKeys(d.packages, d.packages);
    } else {
      var n := |packages| - 1;
      BuildRendersFound(d, packages[..n]);
      AllResolveSnoc(d.packages, packages);
      var r := BuildRenders(d, packages[..n]);
      if r.Ok? {
        PlistRendersFound(r.value, d.packages, packages[n].bundle, packages[n].versions);
      }
    }
  }

  /** `build` raises exactly when some version of some package is missing
      from the first package with that package's bundle, as long as no
      package carries a `version` key of its own. */
  lemma BuildFailsIffUnresolvable(d: CatalogData)
    requires NoOwnVersionKey(d.packages)
    ensures BuildRenders(d, d.packages).Ok? <==> Resolvable(d.packages)
  {
    BuildRendersFound(d, d.packages);
  }

  /** With distinct bundles, every package finds itself and each of its
      parsed versions, so the build never raises. */
  lemma DistinctBundlesResolve(packages: seq<Package>)
    requires forall a, b :: 0 <= a < b < |packages| ==> packages[a].bundle != packages[b].bundle
    requires forall i, j :: 0 <= i < |packages| && 0 <= j < |packages[i].versions| ==> Plain(packages[i].versions[j])
    ensures Resolvable(packages)
  {
    forall i, j | 0 <= i < |packages| && 0 <= j < |packages[i].versions|
      ensures PlistEntry(packages, packages[i].bundle, packages[i].versions[j].version).Ok?
    {
      assert FindPackage(packages, packages[i].bundle) == Some(i);
      assert VersionKey(packages[i].versions[j]) == Text(packages[i].versions[j].version);
    }
  }

  /** Two packages share a bundle, and the second has a version the first
      lacks: the lookup for it searches only the first package, so the build
      raises at the second package's first `.plist`. */
  lemma SharedBundleFails()
    ensures var first := Package("First", "app", None, [Version("1.0.0", None, map[])], map[]);
      var second := Package("Second", "app", None, [Version("2.0.0", None, map[])], map[]);
      var d := CatalogData([first, second], [], Oss("b", "e", "p"), "", "", map[]);
      && !Resolvable(d.packages)
      && BuildRenders(d, d.packages) == Err(BuildFailure(1, 0, NoSuchVersion("app", "2.0.0")))
  {
    var first := Package("First", "app", None, [Version("1.0.0", None, map[])], map[]);
    var second := Package("Second", "app", None, [Version("2.0.0", None, map[])], map[]);
    var d := CatalogData([first, second], [], Oss("b", "e", "p"), "", "", map[]);
    assert FindPackage(d.packages, "app") == Some(0);
    assert VersionKey(first.versions[0]) == Text("1.0.0");
    assert FindVersion(first.versions, "2.0.0") == None;
    assert !AllFound(d.packages, second.bundle, second.versions) by {
      assert !PlistEntry(d.packages, "app", second.versions[0].version).Ok?;
    }
    var e := AbsorbInto(d, 0, 0);
    assert first.versions[..0] == [] && [first][..0] == [] && second.versions[..0] == [];
    assert [first, second][..1] == [first];
    assert PlistUpdate(d, "app", "1.0.0") == Ok(e);
    assert PlistRenders(d, "app", first.versions) == Ok(e);
    assert BuildRenders(d, [first]) == Ok(e);
    assert FindPackage(e.packages, "app") == Some(0);
    assert VersionKey(e.packages[0].versions[0]) == Text("1.0.0");
    assert FindVersion(e.packages[0].versions, "2.0.0") == None;
    assert PlistUpdate(e, "app", "2.0.0") == Err(NoSuchVersion("app", "2.0.0"));
    assert PlistRenders(e, "app", second.versions) == Err((0, NoSuchVersion("app", "2.0.0")));
    assert BuildRenders(d, [first, second]) == Err(BuildFailure(1, 0, NoSuchVersion("app", "2.0.0")));
    assert !AllResolve(d.packages, d.packages) by {
      assert d.packages[1] == second;
    }
  }

  lemma {:induction false} VersionOutputsPlists(bundle: string, versions: seq<Version>)
    ensures |VersionOutputs(bundle, versions)| == |versions|
    ensures forall j :: 0 <= j < |versions| ==> VersionOutputs(bundle, versions)[j] == Generate(PlistPath(bundle, versions[j].version))
  {
    if versions != [] {
      VersionOutputsPlists(bundle, versions[..|versions| - 1]);
    }
  }

  lemma {:induction false} PackagesOutputsContain(packages: seq<Package>, i: nat)
    requires i < |packages|
    ensures forall o :: o in PackageOutputs(packages[i]) ==> o in PackagesOutputs(packages)
  {
    var n := |packages| - 1;
    if i < n {
      PackagesOutputsContain(packages[..n], i);
      assert packages[..n][i] == packages[i];
    }
  }

  /** The build writes the package page, the icon and one `.plist` per version
      of every package. */
  lemma BuildWritesEveryPackage(packages: seq<Package>, cname: Option<string>, assets: seq<Asset>, i: nat)
    requires i < |packages|
    ensures Generate(PackagePagePath(packages[i].bundle)) in BuildOutputs(packages, cname, assets)
    ensures Copy(IconPath(packages[i].bundle), IconSource(packages[i].bundle)) in BuildOutputs(packages, cname, assets)
    ensures forall j :: 0 <= j < |packages[i].versions| ==>
      Generate(PlistPath(packages[i].bundle, packages[i].versions[j].version)) in BuildOutputs(packages, cname, assets)
  {
    var p := packages[i];
    PackagesOutputsContain(packages, i);
    VersionOutputsPlists(p.bundle, p.versions);
    forall j | 0 <= j < |p.versions|
      ensures Generate(PlistPath(p.bundle, p.versions[j].version)) in BuildOutputs(packages, cname, assets)
    {
      assert PackageOutputs(p)[j + 2] == Generate(PlistPath(p.bundle, p.versions[j].version));
    }
  }

  /** An asset is copied exactly when it is neither hidden nor a directory. */
  lemma {:induction false} AssetOutputsExactly(assets: seq<Asset>, o: Output)
    ensures o in AssetOutputs(assets) <==>
      exists i :: 0 <= i < |assets| && Copied(assets[i]) && o == AssetCopy(assets[i])
  {
    if assets != [] {
      var n := |assets| - 1;
      AssetOutputsExactly(assets[..n], o);
      if exists i :: 0 <= i < |assets| && Copied(assets[i]) && o == AssetCopy(assets[i]) {
        var i :| 0 <= i < |assets| && Copied(assets[i]) && o == AssetCopy(assets[i]);
        if i < n {
          assert assets[..n][i] == assets[i];
        }
      }
    }
  }

  // ---- upload ----

  /** The object key of a built file: the storage prefix, a '/', the path. */
  function ObjectKey(prefix: string, path: string): string {
    prefix + "/" + path
  }

  function VersionPuts(prefix: string, bundle: string, versions: seq<Version>): seq<Put>
  {
    if versions == [] then []
    else
      var path := PlistPath(bundle, versions[|versions| - 1].version);
      VersionPuts(prefix, bundle, versions[..|versions| - 1]) + [Put(ObjectKey(prefix, path), UploadDist + "/" + path)]
  }

  function PackagesPuts(prefix: string, packages: seq<Package>): seq<Put>
  {
    if packages == [] then []
    else
      var p := packages[|packages| - 1];
      PackagesPuts(prefix, packages[..|packages| - 1]) + VersionPuts(prefix, p.bundle, p.versions)
  }

  /** Everything `upload` puts, in order: the manifest, then every `.plist`. */
  function UploadPuts(oss: Oss, packages: seq<Package>): seq<Put> {
    [Put(ObjectKey(oss.prefix, ManifestJson), UploadDist + "/" + ManifestJson)] + PackagesPuts(oss.prefix, packages)
  }

  /** The key and local file `upload` spells out are the object key and the
      build location of the version's `.plist`. */
  lemma PlistKeys(prefix: string, bundle: string, version: string)
    ensures prefix + "/package/" + bundle + "/" + version + ".plist" == ObjectKey(prefix, PlistPath(bundle, version))
    ensures UploadDist + "/package/" + bundle + "/" + version + ".plist" == UploadDist + "/" + PlistPath(bundle, version)
  {
    assert "/package/" == "/" + "package/";
  }

  /** `upload`: a build into `ossdist` without a CNAME, then the
      `put_object_from_file` calls, on the catalog loaded afresh. A build
      that raises stops the upload before anything is put. */
  method Upload(d: CatalogData, assets: seq<Asset>) returns (built: seq<Output>, puts: seq<Put>, error: Option<RenderError>)
    ensures error.Some? <==> BuildRenders(d, d.packages).Err?
    ensures error.Some? ==> puts == []
    ensures error.None? ==> built == BuildOutputs(d.packages, None, assets) && puts == UploadPuts(d.oss, d.packages)
  {
    built, error := Build(d, None, assets);
    if error.Some? {
      return built, [], error;
    }
    puts := PutObjects(d.oss, d.packages);
  }

  /** The `put_object_from_file` calls of `upload` after its build: the
      manifest, then every version's `.plist`. */
  method PutObjects(oss: Oss, packages: seq<Package>) returns (puts: seq<Put>)
    ensures puts == UploadPuts(oss, packages)
  {
    puts := [Put(oss.prefix + "/" + ManifestJson, UploadDist + "/" + ManifestJson)];
    var first := puts;
    for i := 0 to |packages|
      invariant puts == first + PackagesPuts(oss.prefix, packages[..i])
    {
      var p := packages[i];
      PrefixSnoc(packages, i);
      var start := puts;
      for j := 0 to |p.versions|
        invariant puts == start + VersionPuts(oss.prefix, p.bundle, p.versions[..j])
      {
        var v := p.versions[j];
        PrefixSnoc(p.versions, j);
        var plistUrl := oss.prefix + "/package/" + p.bundle + "/" + v.version + ".plist";
        var local := UploadDist + "/package/" + p.bundle + "/" + v.version + ".plist";
        PlistKeys(oss.prefix, p.bundle, v.version);
        puts := puts + [Put(plistUrl, local)];
      }
      TakeAll(p.versions);
    }
    TakeAll(packages);
  }

  /** Each put reads a file the build generated, under the same relative path
      as its object key below the storage prefix. */
  ghost predicate ReadsBuiltFile(put: Put, prefix: string, built: seq<Output>) {
    exists path :: Generate(path) in built && put.key == ObjectKey(prefix, path) && put.local == UploadDist + "/" + path
  }

  lemma {:induction false} VersionPutsFromBuild(prefix: string, bundle: string, versions: seq<Version>, built: seq<Output>)
    requires forall j :: 0 <= j < |versions| ==> Generate(PlistPath(bundle, versions[j].version)) in built
    ensures forall put :: put in VersionPuts(prefix, bundle, versions) ==> ReadsBuiltFile(put, prefix, built)
  {
    if versions != [] {
      var n := |versions| - 1;
      VersionPutsFromBuild(prefix, bundle, versions[..n], built);
      assert Generate(PlistPath(bundle, versions[n].version)) in built;
    }
  }

  lemma {:induction false} PackagesPutsFromBuild(prefix: string, packages: seq<Package>, all: seq<Package>, assets: seq<Asset>)
    requires |packages| <= |all| && packages == all[..|packages|]
    ensures forall put :: put in PackagesPuts(prefix, packages) ==> ReadsBuiltFile(put, prefix, BuildOutputs(all, None, assets))
  {
    if packages != [] {
      var n := |packages| - 1;
      assert packages[..n] == all[..n];
      PackagesPutsFromBuild(prefix, packages[..n], all, assets);
      BuildWritesEveryPackage(all, None, assets, n);
      assert all[n] == packages[n];
      VersionPutsFromBuild(prefix, packages[n].bundle, packages[n].versions, BuildOutputs(all, None, assets));
    }
  }

  /** `upload` only reads files its own build (no CNAME, into `ossdist`)
      wrote, and stores each under the storage prefix plus the path it was
      built at. */
  lemma UploadReadsBuiltFiles(oss: Oss, packages: seq<Package>, assets: seq<Asset>)
    ensures forall put :: put in UploadPuts(oss, packages) ==>
      ReadsBuiltFile(put, oss.prefix, BuildOutputs(packages, None, assets))
  {
    var built := BuildOutputs(packages, None, assets);
    assert Generate(ManifestJson) in built by {
      assert built[2] == Generate(ManifestJson);
    }
    TakeAll(packages);
    PackagesPutsFromBuild(oss.prefix, packages, packages, assets);
  }

  function VersionCount(packages: seq<Package>): nat
  {
    if packages == [] then 0 else VersionCount(packages[..|packages| - 1]) + |packages[|packages| - 1].versions|
  }

  lemma {:induction false} VersionPutsCount(prefix: string, bundle: string, versions: seq<Version>)
    ensures |VersionPuts(prefix, bundle, versions)| == |versions|
  {
    if versions != [] {
      VersionPutsCount(prefix, bundle, versions[..|versions| - 1]);
    }
  }

  /** One put for the manifest and one per version of every package. */
  lemma {:induction false} UploadCount(oss: Oss, packages: seq<Package>)
    ensures |UploadPuts(oss, packages)| == 1 + VersionCount(packages)
  {
    if packages != [] {
      var n := |packages| - 1;
      UploadCount(oss, packages[..n]);
      VersionPutsCount(oss.prefix, packages[n].bundle, packages[n].versions);
    }
  }

  /** When the storage prefix is not empty and has no trailing '/', a
      version's `.ipa` URL points into the bucket directory that holds its
      uploaded `.plist`. */
  lemma IpaBesidePlist(oss: Oss, bundle: string, version: string)
    requires oss.prefix != [] && oss.prefix[|oss.prefix| - 1] != '/'
    ensures var dir := ObjectKey(oss.prefix, "package/" + bundle + "/");
      && StartsWith(ObjectKey(oss.prefix, PlistPath(bundle, version)), dir)
      && IpaUrl(CdnBaseUrl(oss), bundle, version)
         == "https://" + oss.bucket + "." + oss.endpoint + "/" + dir + bundle + "_" + version + ".ipa"
  {
    var raw := "https://" + oss.bucket + "." + oss.endpoint + "/" + oss.prefix;
    assert raw[|raw| - 1] == oss.prefix[|oss.prefix| - 1];
    assert CdnBaseUrl(oss) == raw;
    var dir := ObjectKey(oss.prefix, "package/" + bundle + "/");
    assert ObjectKey(oss.prefix, PlistPath(bundle, version)) == dir + version + ".plist";
  }
}
