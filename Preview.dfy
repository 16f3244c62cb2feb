/** The preview server of `start`: how a request path is cleaned and routed
    by `handle`, and the response each route gets. The HTTP server, the
    per-request reload of the catalog and the reading of files are not
    modelled: a file route names the file it would send. */
module Preview {
  import opened Wrappers
  import opened Strings
  import opened Catalog
  import opened Site
  import opened Publish
  import opened Seqs

  const IconDir: string := "data/icon"
  const PublicDir: string := "public"
  const PlistSuffix: string := ".plist"

  /** The characters Python's `str.strip()` removes (`str.isspace`). */
  predicate PyWhitespace(c: char) {
    var n := c as int;
    || 0x09 <= n <= 0x0D || 0x1C <= n <= 0x20 || n == 0x85 || n == 0xA0
    || n == 0x1680 || 0x2000 <= n <= 0x200A || n == 0x2028 || n == 0x2029
    || n == 0x202F || n == 0x205F || n == 0x3000
  }

  predicate IsSlash(c: char) {
    c == '/'
  }

  /** `self.path.strip().strip('/')`: the path `handle` sees never begins
      or ends with a '/'. */
  function RequestPath(raw: string): (path: string)
    ensures path == [] || (path[0] != '/' && path[|path| - 1] != '/')
  {
    var inner := TrimLeft(Trim(raw, PyWhitespace), IsSlash);
    var path := TrimRight(inner, IsSlash);
    assert path != [] ==> path[0] == inner[0];
    path
  }

  /** What `handle` does with a path. The two file routes name the file they
      open. */
  datatype Route =
    | IndexPage
    | ManifestPage
    | PackagePage(bundle: string)
    | PlistPage(bundle: string, version: string)
    | IconFile(file: string)
    | AssetFile(file: string)
    | NotFound

  /** Python's `s[:n]` for `n >= 0`. */
  function PyPrefix(s: string, n: nat): (r: string)
    ensures |r| <= n && StartsWith(s, r)
    ensures |r| == if |s| < n then |s| else n
  {
    if |s| < n then s else s[..n]
  }

  /** Python's `s[:-n]` for `n > 0`: everything but the last `n` characters. */
  function PyDropLast(s: string, n: nat): (r: string)
    requires n > 0
    ensures StartsWith(s, r)
    ensures |r| == if |s| < n then 0 else |s| - n
  {
    if |s| < n then [] else s[..|s| - n]
  }

  /** Splitting text that starts with a separator-free head and a separator
      peels off the head. */
  lemma SplitAfterHead(s: string, head: string, sep: char)
    requires sep !in head && StartsWith(s, head + [sep])
    ensures Split(s, sep) == [head] + Split(s[|head| + 1..], sep)
  {
    assert s == head + [sep] + s[|head| + 1..];
    IndexOfAfter(head, sep, s[|head| + 1..]);
    assert s[..|head|] == head;
  }

  lemma SplitCons(head: string, sep: char, tail: string)
    requires sep !in head
    ensures Split(head + [sep] + tail, sep) == [head] + Split(tail, sep)
  {
    var s := head + [sep] + tail;
    IndexOfAfter(head, sep, tail);
    assert s[..|head|] == head;
    assert s[|head| + 1..] == tail;
  }

  lemma SplitNone(s: string, sep: char)
    requires sep !in s
    ensures Split(s, sep) == [s]
  {
  }

  /** A path under `assets/icon/` has at least three slugs. */
  lemma IconSlugs(path: string)
    requires StartsWith(path, "assets/icon/")
    ensures |Split(path, '/')| >= 3
  {
    assert path[..12] == "assets/icon/";
    assert path[..7] == "assets/";
    SplitAfterHead(path, "assets", '/');
    var rest := path[7..];
    assert rest[..5] == path[7..12];
    SplitAfterHead(rest, "icon", '/');
  }

  /** A path under `assets/` has at least two slugs. */
  lemma AssetSlugs(path: string)
    requires StartsWith(path, "assets/")
    ensures |Split(path, '/')| >= 2
  {
    assert path[..7] == "assets/";
    SplitAfterHead(path, "assets", '/');
  }

  /** A path under `package/` is neither the root nor the manifest. */
  lemma PackageNotFixed(path: string)
    ensures StartsWith(path, "package/") ==> path != "" && path != ManifestJson
    ensures StartsWith(path, "assets/icon/") ==> StartsWith(path, "assets/")
  {
    if StartsWith(path, "package/") {
      assert path[0] == 'p' && ManifestJson[0] == 'm';
    }
    if StartsWith(path, "assets/icon/") {
      assert path[..7] == path[..12][..7];
    }
  }

  /** The route of `handle` as written: the version of a `.plist` request is
      the first `len('.plist') - 1` characters of the last slug. */
  function RouteAsWritten(path: string): (r: Route)
    ensures r == IndexPage <==> path == ""
    ensures r == ManifestPage <==> path == ManifestJson
    ensures r.PackagePage? <==> StartsWith(path, "package/") && |Split(path, '/')| == 2
    ensures r.PlistPage? <==> StartsWith(path, "package/") && |Split(path, '/')| == 3
    ensures r.PackagePage? || r.PlistPage? ==> r.bundle == Split(path, '/')[1]
    ensures r.IconFile? || r.AssetFile? ==> StartsWith(path, "assets/")
  {
    var slugs := Split(path, '/');
    PackageNotFixed(path);
    if path == "" then IndexPage
    else if path == ManifestJson then ManifestPage
    else if StartsWith(path, "package/") && |slugs| == 2 then PackagePage(slugs[1])
    else if StartsWith(path, "package/") && |slugs| == 3 then PlistPage(slugs[1], PyPrefix(slugs[2], |PlistSuffix| - 1))
    else if StartsWith(path, "assets/icon/") then
      IconSlugs(path);
      IconFile(IconDir + "/" + slugs[2])
    else if StartsWith(path, "assets/") then
      AssetSlugs(path);
      AssetFile(PublicDir + "/assets/" + slugs[1])
    else NotFound
  }

  /** The route with the `.plist` suffix dropped from the last slug
      (`slugs[2][:-len('.plist')]`), which the server below uses. */
  function RouteOf(path: string): (r: Route)
    ensures r == IndexPage <==> path == ""
    ensures r == ManifestPage <==> path == ManifestJson
    ensures r.PackagePage? <==> StartsWith(path, "package/") && |Split(path, '/')| == 2
    ensures r.PlistPage? <==> StartsWith(path, "package/") && |Split(path, '/')| == 3
    ensures r.PackagePage? || r.PlistPage? ==> r.bundle == Split(path, '/')[1]
    ensures r.IconFile? || r.AssetFile? ==> StartsWith(path, "assets/")
  {
    var slugs := Split(path, '/');
    PackageNotFixed(path);
    if path == "" then IndexPage
    else if path == ManifestJson then ManifestPage
    else if StartsWith(path, "package/") && |slugs| == 2 then PackagePage(slugs[1])
    else if StartsWith(path, "package/") && |slugs| == 3 then PlistPage(slugs[1], PyDropLast(slugs[2], |PlistSuffix|))
    else if StartsWith(path, "assets/icon/") then
      IconSlugs(path);
      IconFile(IconDir + "/" + slugs[2])
    else if StartsWith(path, "assets/") then
      AssetSlugs(path);
      AssetFile(PublicDir + "/assets/" + slugs[1])
    else NotFound
  }

  /** The two routes differ only in the version a `.plist` request names. */
  lemma RoutesAgreeElsewhere(path: string)
    ensures !RouteAsWritten(path).PlistPage? ==> RouteOf(path) == RouteAsWritten(path)
    ensures RouteAsWritten(path).PlistPage? <==> RouteOf(path).PlistPage?
    ensures RouteAsWritten(path).PlistPage? ==> RouteOf(path).bundle == RouteAsWritten(path).bundle
  {
  }

  /** The site root is routed to the index page. */
  lemma IndexRoute()
    ensures RouteOf(RequestPath("/")) == IndexPage
  {
    RootRequestPath();
    RouteOfFixed();
  }

  /** The manifest URL is routed to the manifest, ahead of every other route. */
  lemma ManifestRoute()
    ensures RouteOf(RequestPath("/" + ManifestJson)) == ManifestPage
  {
    ManifestRequestPath();
    RouteOfFixed();
  }

  lemma ManifestRequestPath()
    ensures RequestPath("/" + ManifestJson) == ManifestJson
  {
    RequestPathKeeps(ManifestJson);
  }

  lemma RootRequestPath()
    ensures RequestPath("/") == ""
  {
    assert Trim("/", PyWhitespace) == "/";
    assert TrimLeft("/", IsSlash) == "";
  }

  lemma RouteOfFixed()
    ensures RouteOf("") == IndexPage
    ensures RouteOf(ManifestJson) == ManifestPage
  {
  }

  /** Trimming leaves text alone whose end characters are not trimmed. */
  lemma TrimKeeps(s: string, drop: char -> bool)
    requires s != [] && !drop(s[0]) && !drop(s[|s| - 1])
    ensures TrimLeft(s, drop) == s && TrimRight(s, drop) == s && Trim(s, drop) == s
  {
  }

  /** A path whose first and last characters are neither whitespace nor '/'
      is routed as it is, with or without a leading '/'. */
  lemma RequestPathKeeps(path: string)
    requires path != [] && !PyWhitespace(path[0]) && !PyWhitespace(path[|path| - 1])
    requires path[0] != '/' && path[|path| - 1] != '/'
    ensures RequestPath("/" + path) == path
  {
    var raw := "/" + path;
    assert raw[|raw| - 1] == path[|path| - 1];
    TrimKeeps(raw, PyWhitespace);
    assert raw[1..] == path;
    assert TrimLeft(raw, IsSlash) == TrimLeft(path, IsSlash);
    TrimKeeps(path, IsSlash);
  }

  /** The branches of the router that the lemmas below reach. */
  lemma RouteOfPlist(path: string)
    requires path != "" && path != ManifestJson && StartsWith(path, "package/") && |Split(path, '/')| == 3
    ensures RouteOf(path) == PlistPage(Split(path, '/')[1], PyDropLast(Split(path, '/')[2], |PlistSuffix|))
    ensures RouteAsWritten(path) == PlistPage(Split(path, '/')[1], PyPrefix(Split(path, '/')[2], |PlistSuffix| - 1))
  {
  }

  lemma RouteOfPackage(path: string)
    requires path != "" && path != ManifestJson && StartsWith(path, "package/") && |Split(path, '/')| == 2
    ensures RouteOf(path) == PackagePage(Split(path, '/')[1])
  {
  }

  lemma RouteOfIcon(path: string)
    requires path != "" && path != ManifestJson && !StartsWith(path, "package/") && StartsWith(path, "assets/icon/")
    ensures |Split(path, '/')| >= 3 && RouteOf(path) == IconFile(IconDir + "/" + Split(path, '/')[2])
  {
    IconSlugs(path);
  }

  lemma RouteOfAsset(path: string)
    requires path != "" && path != ManifestJson && !StartsWith(path, "package/")
    requires !StartsWith(path, "assets/icon/") && StartsWith(path, "assets/")
    ensures |Split(path, '/')| >= 2 && RouteOf(path) == AssetFile(PublicDir + "/assets/" + Split(path, '/')[1])
  {
    AssetSlugs(path);
  }

  /** The slugs of the path a `.plist` is built at. */
  lemma PlistSplit(bundle: string, version: string)
    requires '/' !in bundle && '/' !in version
    ensures Split(PlistPath(bundle, version), '/') == ["package", bundle, version + PlistSuffix]
  {
    var last := version + PlistSuffix;
    assert '/' !in last;
    assert PlistPath(bundle, version) == "package" + ['/'] + (bundle + ['/'] + last);
    SplitCons("package", '/', bundle + ['/'] + last);
    SplitCons(bundle, '/', last);
    SplitNone(last, '/');
  }

  /** The path a `.plist` is built at takes the `.plist` branch. */
  lemma PlistSlugs(bundle: string, version: string)
    requires '/' !in bundle && '/' !in version
    ensures Split(PlistPath(bundle, version), '/') == ["package", bundle, version + PlistSuffix]
    ensures StartsWith(PlistPath(bundle, version), "package/")
    ensures PlistPath(bundle, version) != ManifestJson
  {
    PlistSplit(bundle, version);
    var path := PlistPath(bundle, version);
    assert path[..8] == "package/";
    assert path[0] != ManifestJson[0];
  }

  /** As written, the request for the `.plist` of version `v` is routed to
      `v` only when `v` has exactly five characters: otherwise it names the
      first five characters of `v + ".plist"`. */
  lemma PlistRouteAsWritten(bundle: string, version: string)
    requires '/' !in bundle && '/' !in version
    ensures RouteAsWritten(PlistPath(bundle, version)) == PlistPage(bundle, PyPrefix(version + PlistSuffix, 5))
    ensures RouteAsWritten(PlistPath(bundle, version)) == PlistPage(bundle, version) <==> |version| == 5
  {
    PlistSlugs(bundle, version);
    RouteOfPlist(PlistPath(bundle, version));
    var r := PyPrefix(version + PlistSuffix, 5);
    if |version| == 5 {
      assert r == version;
    }
  }

  /** The input that shows it: version 1.10.0 is asked for as "1.10.". */
  lemma PlistRouteCounterexample()
    ensures RouteAsWritten(PlistPath("app", "1.10.0")) == PlistPage("app", "1.10.")
  {
    PlistRouteAsWritten("app", "1.10.0");
    assert PyPrefix("1.10.0" + PlistSuffix, 5) == "1.10.";
  }

  /** The URL path of a built `.plist` reaches the router unchanged. */
  lemma PlistRequestPath(bundle: string, version: string)
    ensures RequestPath("/" + PlistPath(bundle, version)) == PlistPath(bundle, version)
  {
    var path := PlistPath(bundle, version);
    assert path[0] == 'p' && path[|path| - 1] == 't';
    RequestPathKeeps(path);
  }

  /** Dropping the suffix from a built `.plist` name gives the version. */
  lemma DropPlistSuffix(version: string)
    ensures PyDropLast(version + PlistSuffix, |PlistSuffix|) == version
  {
    assert (version + PlistSuffix)[..|version|] == version;
  }

  /** The path a `.plist` is built at is routed to that bundle and version. */
  lemma PlistRouteOf(bundle: string, version: string)
    requires '/' !in bundle && '/' !in version
    ensures RouteOf(PlistPath(bundle, version)) == PlistPage(bundle, version)
  {
    PlistSlugs(bundle, version);
    RouteOfPlist(PlistPath(bundle, version));
    DropPlistSuffix(version);
  }

  /** With the suffix dropped, the request for a built `.plist` (as a URL
      path, with its leading '/') is routed to that bundle and version. */
  lemma PlistRoute(bundle: string, version: string)
    requires '/' !in bundle && '/' !in version
    ensures RouteOf(RequestPath("/" + PlistPath(bundle, version))) == PlistPage(bundle, version)
  {
    PlistRequestPath(bundle, version);
    PlistRouteOf(bundle, version);
  }

  /** Stripping '/' from both ends of a path wrapped in slashes gives the
      path back. */
  lemma StripSlashes(path: string)
    requires path != [] && path[0] != '/' && path[|path| - 1] != '/'
    ensures TrimRight(TrimLeft("/" + path + "/", IsSlash), IsSlash) == path
  {
    var raw := "/" + path + "/";
    assert raw[1..] == path + "/";
    assert (path + "/")[0] == path[0];
    assert TrimLeft(raw, IsSlash) == path + "/";
    assert (path + "/")[..|path|] == path;
    TrimKeeps(path, IsSlash);
  }

  /** The request path of a package directory URL. */
  lemma PackageRequestPath(bundle: string)
    requires bundle != [] && '/' !in bundle
    ensures RequestPath("/package/" + bundle + "/") == "package/" + bundle
  {
    var path := "package/" + bundle;
    var raw := "/package/" + bundle + "/";
    assert raw == "/" + path + "/";
    assert raw[0] == '/' && raw[|raw| - 1] == '/';
    TrimKeeps(raw, PyWhitespace);
    assert path[|path| - 1] == bundle[|bundle| - 1];
    StripSlashes(path);
  }

  /** A package page path has two slugs. */
  lemma PackageSplit(bundle: string)
    requires '/' !in bundle
    ensures Split("package/" + bundle, '/') == ["package", bundle]
    ensures StartsWith("package/" + bundle, "package/")
  {
    assert "package/" + bundle == "package" + ['/'] + bundle;
    SplitCons("package", '/', bundle);
    SplitNone(bundle, '/');
    assert ("package/" + bundle)[..8] == "package/";
  }

  /** A package directory URL is routed to its page. */
  lemma PackageRoute(bundle: string)
    requires bundle != [] && '/' !in bundle
    ensures RouteOf(RequestPath("/package/" + bundle + "/")) == PackagePage(bundle)
  {
    PackageRequestPath(bundle);
    PackageSplit(bundle);
    var path := "package/" + bundle;
    assert path[0] != ManifestJson[0];
    RouteOfPackage(path);
  }

  /** An icon path has three slugs. */
  lemma IconSplit(bundle: string)
    requires '/' !in bundle
    ensures Split(IconPath(bundle), '/') == ["assets", "icon", bundle + ".png"]
  {
    var last := bundle + ".png";
    assert '/' !in last;
    assert IconPath(bundle) == "assets" + ['/'] + ("icon" + ['/'] + last);
    SplitCons("assets", '/', "icon" + ['/'] + last);
    SplitCons("icon", '/', last);
    SplitNone(last, '/');
  }

  /** An icon path takes the icon branch. */
  lemma IconBranch(bundle: string)
    ensures IconPath(bundle) != "" && IconPath(bundle) != ManifestJson
    ensures !StartsWith(IconPath(bundle), "package/") && StartsWith(IconPath(bundle), "assets/icon/")
  {
    var path := IconPath(bundle);
    assert path[0] != ManifestJson[0] && path[0] != 'p';
    assert path[..12] == "assets/icon/";
  }

  /** The URL path of an icon reaches the router unchanged. */
  lemma IconRequestPath(bundle: string)
    ensures RequestPath("/" + IconPath(bundle)) == IconPath(bundle)
  {
    var path := IconPath(bundle);
    assert path[0] == 'a' && path[|path| - 1] == 'g';
    RequestPathKeeps(path);
  }

  /** An icon path is routed to the file the build copies the icon from. */
  lemma IconRouteOf(bundle: string)
    requires '/' !in bundle
    ensures RouteOf(IconPath(bundle)) == IconFile(IconSource(bundle))
  {
    IconSplit(bundle);
    IconBranch(bundle);
    RouteOfIcon(IconPath(bundle));
    assert IconDir + "/" + (bundle + ".png") == IconSource(bundle);
  }

  /** The preview serves an icon from the file the build copies it from. */
  lemma IconRoute(bundle: string)
    requires '/' !in bundle
    ensures RouteOf(RequestPath("/" + IconPath(bundle))) == IconFile(IconSource(bundle))
  {
    IconRequestPath(bundle);
    IconRouteOf(bundle);
  }

  /** The URL path of a copied asset has two slugs. */
  lemma AssetSplit(name: string)
    requires '/' !in name
    ensures Split("assets/" + name, '/') == ["assets", name]
  {
    assert "assets/" + name == "assets" + ['/'] + name;
    SplitCons("assets", '/', name);
    SplitNone(name, '/');
  }

  /** The URL path of a copied asset is not under `assets/icon/`. */
  lemma AssetNotIcon(name: string)
    requires '/' !in name
    ensures StartsWith("assets/" + name, "assets/") && !StartsWith("assets/" + name, "assets/icon/")
  {
    var path := "assets/" + name;
    assert path[..7] == "assets/";
    if |path| >= 12 {
      assert path[..12][11] == name[4];
      assert name[4] in name;
      assert path[..12][11] != "assets/icon/"[11];
    }
  }

  /** The URL path of an asset whose name does not end in whitespace reaches
      the router unchanged. */
  lemma AssetRequestPath(name: string)
    requires name != [] && '/' !in name && !PyWhitespace(name[|name| - 1])
    ensures RequestPath("/assets/" + name) == "assets/" + name
  {
    var path := "assets/" + name;
    assert "/assets/" + name == "/" + path;
    assert name[|name| - 1] in name;
    assert path[0] == 'a' && path[|path| - 1] == name[|name| - 1];
    RequestPathKeeps(path);
  }

  /** An asset path is routed to the file the build copies the asset from. */
  lemma AssetRouteOf(a: Asset)
    requires '/' !in a.name
    ensures RouteOf("assets/" + a.name) == AssetFile(AssetCopy(a).source)
  {
    var path := "assets/" + a.name;
    AssetSplit(a.name);
    AssetNotIcon(a.name);
    assert path[0] != ManifestJson[0] && path[0] != 'p';
    RouteOfAsset(path);
  }

  /** The preview serves an asset from the file the build copies it from. A
      name ending in whitespace is not: `strip()` removes that whitespace
      from the request. */
  lemma AssetRoute(a: Asset)
    requires a.name != [] && '/' !in a.name && !PyWhitespace(a.name[|a.name| - 1])
    ensures RouteOf(RequestPath("/assets/" + a.name)) == AssetFile(AssetCopy(a).source)
  {
    AssetRequestPath(a.name);
    AssetRouteOf(a);
  }

  // ---- Responses ----

  datatype Body = Html(text: string) | Json(view: map<string, Field>) | FileAt(path: string)
  datatype Response = Response(status: nat, mime: string, body: Body)

  /** The status code and MIME type `handle` answers a route with. */
  function Header(route: Route): (h: (nat, string))
    ensures h.0 == 404 <==> route.NotFound?
    ensures h.0 == 200 <==> !route.NotFound?
  {
    match route
    case IndexPage => (200, "text/html")
    case ManifestPage => (200, "application/json")
    case PackagePage(_) => (200, "text/html")
    case PlistPage(_, _) => (200, "application/plist")
    case IconFile(_) => (200, "image/png")
    case AssetFile(_) => (200, "image/png")
    case NotFound => (404, "text/html")
  }

  /** `do_GET` followed by `handle`, on a loaded renderer. A missing package
      or version is the error `next` raises; the clock readings of the
      manifest are parameters. Every page is the template of its route
      applied to the catalog with that route's keys laid over it, and only a
      found `.plist` changes the catalog. */
  method Serve(render: Render, raw: string, today: string, iso: string, timestamp: real)
    returns (r: Result<Response, RenderError>)
    requires render.Valid()
    modifies render
    ensures render.Valid()
    ensures var route := RouteOf(RequestPath(raw));
      && (r.Ok? ==> (r.value.status, r.value.mime) == Header(route))
      && (!route.PlistPage? ==> render.data == old(render.data))
    ensures var route := RouteOf(RequestPath(raw));
      && (route == IndexPage ==>
            r == Ok(Response(200, "text/html", Html(render.template("index.html", DataDict(render.data))))))
      && (route == ManifestPage ==>
            r == Ok(Response(200, "application/json", Json(ManifestView(render.data, today, iso, timestamp)))))
      && (route == NotFound ==>
            r == Ok(Response(404, "text/html", Html(render.template("404.html", DataDict(render.data))))))
      && (route.IconFile? || route.AssetFile? ==> r == Ok(Response(200, "image/png", FileAt(route.file))))
    ensures var route := RouteOf(RequestPath(raw));
      route.PackagePage? ==>
        var i := FindPackage(render.data.packages, route.bundle);
        && (i.None? ==> r == Err(NoSuchPackage(route.bundle)))
        && (i.Some? ==> r == Ok(Response(200, "text/html",
              Html(render.template(PackageTemplate, DataDict(render.data) + PackageDict(render.data.packages[i.value]))))))
    ensures var route := RouteOf(RequestPath(raw));
      route.PlistPage? ==>
        var at := PlistEntry(old(render.data).packages, route.bundle, route.version);
        && (at.Err? ==> r == Err(at.error) && render.data == old(render.data))
        && (at.Ok? ==>
              && render.data == AbsorbInto(old(render.data), at.value.0, at.value.1)
              && r == Ok(Response(200, "application/plist", Html(render.template(PlistTemplate,
                   DataDict(render.data) + VersionDict(render.data.packages[at.value.0].versions[at.value.1]))))))
  {
    var route := RouteOf(RequestPath(raw));
    match route {
      case IndexPage =>
        var html := render.RenderPage("index.html", map[]);
        UnionEmpty(DataDict(render.data));
        r := Ok(Response(200, "text/html", Html(html)));
      case ManifestPage =>
        var m := render.RenderManifest(today, iso, timestamp);
        r := Ok(Response(200, "application/json", Json(m)));
      case PackagePage(bundle) =>
        var page := render.RenderPackage(bundle);
        r := match page
          case Ok(html) => Ok(Response(200, "text/html", Html(html)))
          case Err(e) => Err(e);
      case PlistPage(bundle, version) =>
        var page := render.RenderPlist(bundle, version);
        r := match page
          case Ok(text) => Ok(Response(200, "application/plist", Html(text)))
          case Err(e) => Err(e);
      case IconFile(file) =>
        r := Ok(Response(200, "image/png", FileAt(file)));
      case AssetFile(file) =>
        r := Ok(Response(200, "image/png", FileAt(file)));
      case NotFound =>
        var html := render.RenderPage("404.html", map[]);
        UnionEmpty(DataDict(render.data));
        r := Ok(Response(404, "text/html", Html(html)));
    }
  }
}
