/** The page renderer (`Render` in app.py): the loaded catalog, the view
    dictionaries handed to the templates, and the three ways a page is
    rendered. Templates are opaque: `template(name, view)` stands for
    `env.get_template(name).render(view)`, the Jinja2 environment and its
    globals included. */
module Site {
  import opened Wrappers
  import opened Catalog
  import opened Seqs

  datatype RenderError =
    | NoSuchPackage(bundle: string)                    // `next` raises StopIteration on the packages
    | NoSuchVersion(bundle: string, version: string)   // `next` raises StopIteration on the versions

  /** The template names are literal strings: the braces are not filled in. */
  const PackageTemplate: string := "package/{bundle}/index.html"
  const PlistTemplate: string := "package/{bundle}/{version}.plist"

  // ---- Dictionary forms of the catalog entries ----

  /** The value of a version entry's `version` key. A parsed version holds it
      in its typed field; once `render_plist` has written a package that has
      its own `version` key over the entry, `attrs` holds the package's value
      instead. */
  function VersionKey(v: Version): Field {
    if "version" in v.attrs then v.attrs["version"] else Text(v.version)
  }

  /** A version as parsed and sorted: `version` and `url` live in the typed
      fields only. */
  predicate Plain(v: Version) {
    "version" !in v.attrs && "url" !in v.attrs
  }

  /** A version entry as the dictionary the templates see. Keys in `attrs`
      win over the typed fields, so a key written over the entry shows. */
  function VersionDict(v: Version): (m: map<string, Field>)
    ensures "version" in m && m["version"] == VersionKey(v)
    ensures "url" in m <==> "url" in v.attrs || v.url.Some?
    ensures Plain(v) && v.url.Some? ==> m["version"] == Text(v.version) && m["url"] == Text(v.url.value)
    ensures forall k :: k in v.attrs ==> k in m && m[k] == v.attrs[k]
  {
    map["version" := Text(v.version)]
      + (if v.url.Some? then map["url" := Text(v.url.value)] else map[])
      + v.attrs
  }

  /** A package entry as the dictionary the templates see. */
  function PackageDict(p: Package): (m: map<string, Field>)
    ensures "bundle" in m && m["bundle"] == Text(p.bundle)
    ensures "version" in m <==> "version" in p.attrs
    ensures "versions" in m && m["versions"] == VersionList(p.versions)
  {
    p.attrs + map["name" := Text(p.name), "bundle" := Text(p.bundle), "versions" := VersionList(p.versions)]
      + (if p.initial.Some? then map["initial" := Text([p.initial.value])] else map[])
  }

  /** Every bucket position names a package. */
  predicate BucketsInRange(bs: seq<Bucket>, count: nat) {
    forall b, k :: 0 <= b < |bs| && 0 <= k < |bs[b].members| ==> bs[b].members[k] < count
  }

  /** The buckets with their members looked up, as the templates see them:
      the Python lists hold the package dictionaries themselves. */
  function ResolveBuckets(bs: seq<Bucket>, packages: seq<Package>): (r: seq<(char, seq<Package>)>)
    requires BucketsInRange(bs, |packages|)
    ensures |r| == |bs|
    ensures forall b :: 0 <= b < |bs| ==> r[b].0 == bs[b].letter && |r[b].1| == |bs[b].members|
    ensures forall b, k :: 0 <= b < |bs| && 0 <= k < |bs[b].members| ==> r[b].1[k] == packages[bs[b].members[k]]
  {
    seq(|bs|, b requires 0 <= b < |bs| =>
      (bs[b].letter, seq(|bs[b].members|, k requires 0 <= k < |bs[b].members| => packages[bs[b].members[k]])))
  }

  /** `self.data` as a dictionary: the other keys of `manifest.yaml` plus the
      ones `load_data` writes. */
  function DataDict(d: CatalogData): (m: map<string, Field>)
    requires BucketsInRange(d.initials, |d.packages|)
    ensures m.Keys == d.extra.Keys + {"packages", "initials", "oss", "cdn_base_url", "prefix"}
    ensures m["packages"] == PackageList(d.packages) && m["prefix"] == Text(d.prefix)
  {
    d.extra + map[
      "packages" := PackageList(d.packages),
      "initials" := BucketList(ResolveBuckets(d.initials, d.packages)),
      "oss" := Storage(d.oss),
      "cdn_base_url" := Text(d.cdnBaseUrl),
      "prefix" := Text(d.prefix)]
  }

  /** What `dict.update` and the overlay loop of `render` compute: every key of
      either map, the overriding value where both have one. */
  predicate IsOverlay(view: map<string, Field>, base: map<string, Field>, over: map<string, Field>) {
    && view.Keys == base.Keys + over.Keys
    && (forall k :: k in over ==> view[k] == over[k])
    && (forall k :: k in base && k !in over ==> view[k] == base[k])
  }

  /** Dafny's map union is that overlay. */
  lemma UnionIsOverlay(base: map<string, Field>, over: map<string, Field>)
    ensures IsOverlay(base + over, base, over)
  {
  }

  /** ... and it is the only map that is one: the overlay determines the view. */
  lemma OverlayIsUnion(view: map<string, Field>, base: map<string, Field>, over: map<string, Field>)
    requires IsOverlay(view, base, over)
    ensures view == base + over
  {
    forall k | k in view ensures view[k] == (base + over)[k] {
    }
  }

  // ---- Lookups ----

  /** `next(filter(lambda x: x['bundle'] == bundle, packages))`, as an index. */
  function FindPackage(packages: seq<Package>, bundle: string): (r: Option<nat>)
    ensures r.None? <==> forall i :: 0 <= i < |packages| ==> packages[i].bundle != bundle
    ensures r.Some? ==>
      && r.value < |packages| && packages[r.value].bundle == bundle
      && forall i :: 0 <= i < r.value ==> packages[i].bundle != bundle
  {
    if packages == [] then None
    else if packages[0].bundle == bundle then Some(0)
    else match FindPackage(packages[1..], bundle)
      case None => None
      case Some(k) => Some(k + 1)
  }

  /** `next(filter(lambda x: x['version'] == version, versions))`, as an
      index. The lambda reads the entry's `version` key, which a string equals
      only when it is that text. */
  function FindVersion(versions: seq<Version>, version: string): (r: Option<nat>)
    ensures r.None? <==> forall j :: 0 <= j < |versions| ==> VersionKey(versions[j]) != Text(version)
    ensures r.Some? ==>
      && r.value < |versions| && VersionKey(versions[r.value]) == Text(version)
      && forall j :: 0 <= j < r.value ==> VersionKey(versions[j]) != Text(version)
  {
    if versions == [] then None
    else if VersionKey(versions[0]) == Text(version) then Some(0)
    else match FindVersion(versions[1..], version)
      case None => None
      case Some(k) => Some(k + 1)
  }

  // ---- The in-place update of render_plist ----

  /** `version.update(package)`: every key of the package is written into the
      version entry, its own `version` or `url` included. The package's
      `versions` value is the list as it was before the update. */
  function Absorb(v: Version, p: Package): (w: Version)
    ensures VersionDict(w) == VersionDict(v) + PackageDict(p)
    ensures "version" !in p.attrs ==> VersionKey(w) == VersionKey(v)
  {
    var w := v.(attrs := v.attrs + PackageDict(p));
    UnionAssoc(map["version" := Text(v.version)] + (if v.url.Some? then map["url" := Text(v.url.value)] else map[]),
      v.attrs, PackageDict(p));
    w
  }

  /** Absorbing overlays the package's dictionary on the version's: on every
      key the two share, the package's value is the one the template sees. */
  lemma AbsorbOverlays(v: Version, p: Package)
    ensures IsOverlay(VersionDict(Absorb(v, p)), VersionDict(v), PackageDict(p))
  {
    UnionIsOverlay(VersionDict(v), PackageDict(p));
  }

  /** Where `render_plist(bundle, version)` finds the entry it updates: the
      first package with the bundle, then that package's first version with
      the number. Only the first package is searched for the version. */
  function PlistEntry(packages: seq<Package>, bundle: string, version: string): (r: Result<(nat, nat), RenderError>)
    ensures r.Ok? ==>
      && r.value.0 < |packages| && r.value.1 < |packages[r.value.0].versions|
      && packages[r.value.0].bundle == bundle
      && VersionKey(packages[r.value.0].versions[r.value.1]) == Text(version)
      && FindPackage(packages, bundle) == Some(r.value.0)
    ensures r == Err(NoSuchPackage(bundle)) <==> forall i :: 0 <= i < |packages| ==> packages[i].bundle != bundle
    ensures r == Err(NoSuchVersion(bundle, version)) <==>
      FindPackage(packages, bundle).Some? && FindVersion(packages[FindPackage(packages, bundle).value].versions, version).None?
    ensures r.Err? ==> r == Err(NoSuchPackage(bundle)) || r == Err(NoSuchVersion(bundle, version))
  {
    match FindPackage(packages, bundle)
    case None => Err(NoSuchPackage(bundle))
    case Some(i) =>
      match FindVersion(packages[i].versions, version)
      case None => Err(NoSuchVersion(bundle, version))
      case Some(j) => Ok((i, j))
  }

  /** The catalog after `render_plist` updated version `j` of package `i`. */
  function AbsorbInto(d: CatalogData, i: nat, j: nat): (e: CatalogData)
    requires i < |d.packages| && j < |d.packages[i].versions|
    ensures |e.packages| == |d.packages| && e.initials == d.initials
  {
    var p := d.packages[i];
    d.(packages := d.packages[i := p.(versions := p.versions[j := Absorb(p.versions[j], p)])])
  }

  /** The update touches one version entry and nothing else. */
  lemma AbsorbIntoTouchesOneVersion(d: CatalogData, i: nat, j: nat)
    requires i < |d.packages| && j < |d.packages[i].versions|
    ensures var e := AbsorbInto(d, i, j);
      && e == d.(packages := e.packages)
      && (forall a :: 0 <= a < |d.packages| && a != i ==> e.packages[a] == d.packages[a])
      && e.packages[i] == d.packages[i].(versions := e.packages[i].versions)
      && |e.packages[i].versions| == |d.packages[i].versions|
      && (forall b :: 0 <= b < |d.packages[i].versions| && b != j ==>
            e.packages[i].versions[b] == d.packages[i].versions[b])
      && e.packages[i].versions[j] == Absorb(d.packages[i].versions[j], d.packages[i])
  {
  }

  /** What `render_plist(bundle, version)` does to the catalog: the entry
      `PlistEntry` finds absorbs its package, or the lookup fails and nothing
      changes. */
  function PlistUpdate(d: CatalogData, bundle: string, version: string): (r: Result<CatalogData, RenderError>)
    ensures r.Err? <==> PlistEntry(d.packages, bundle, version).Err?
    ensures r.Err? ==> r.error == PlistEntry(d.packages, bundle, version).error
    ensures r.Ok? ==> var (i, j) := PlistEntry(d.packages, bundle, version).value;
      r.value == AbsorbInto(d, i, j)
  {
    match PlistEntry(d.packages, bundle, version)
    case Err(e) => Err(e)
    case Ok((i, j)) => Ok(AbsorbInto(d, i, j))
  }

  /** The dictionary `render_manifest` serialises: the catalog without its
      storage settings, with the date and the time. The clock readings are
      parameters. */
  function ManifestView(d: CatalogData, today: string, iso: string, timestamp: real): (m: map<string, Field>)
    requires BucketsInRange(d.initials, |d.packages|)
    ensures "oss" !in m
    ensures m.Keys == DataDict(d).Keys - {"oss"} + {"date", "time"}
    ensures m["date"] == Text(today) && m["time"] == Clock(iso, timestamp)
    ensures forall k :: k in DataDict(d) && k != "oss" && k != "date" && k != "time" ==> m[k] == DataDict(d)[k]
  {
    (DataDict(d) - {"oss"})["date" := Text(today)]["time" := Clock(iso, timestamp)]
  }

  // ---- The renderer ----

  class Render {
    var data: CatalogData
    const template: (string, map<string, Field>) -> string

    ghost predicate Valid()
      reads this
    {
      BucketsInRange(data.initials, |data.packages|)
    }

    constructor (data: CatalogData, template: (string, map<string, Field>) -> string)
      requires BucketsInRange(data.initials, |data.packages|)
      ensures Valid() && this.data == data && this.template == template
    {
      this.data := data;
      this.template := template;
    }

    /** The view of `render`: a copy of `self.data` with the override's keys
        written over it one by one; `self.data` itself is left alone. */
    method View(over: map<string, Field>) returns (view: map<string, Field>)
      requires Valid()
      ensures IsOverlay(view, DataDict(data), over)
      ensures view == DataDict(data) + over
    {
      var base := DataDict(data);
      view := base;
      var pending := over.Keys;
      while pending != {}
        invariant pending <= over.Keys
        invariant view.Keys == base.Keys + (over.Keys - pending)
        invariant forall k :: k in over.Keys - pending ==> view[k] == over[k]
        invariant forall k :: k in base && k !in over.Keys - pending ==> view[k] == base[k]
        decreases pending
      {
        var k :| k in pending;
        view := view[k := over[k]];
        pending := pending - {k};
      }
      OverlayIsUnion(view, base, over);
    }

    /** `render(template_name, data)`. */
    method RenderPage(name: string, over: map<string, Field>) returns (html: string)
      requires Valid()
      ensures html == template(name, DataDict(data) + over)
    {
      var view := View(over);
      html := template(name, view);
    }

    /** `render_package(bundle)`: the first package with that bundle, its keys
        laid over the catalog's. */
    method RenderPackage(bundle: string) returns (r: Result<string, RenderError>)
      requires Valid()
      ensures r.Err? <==> FindPackage(data.packages, bundle).None?
      ensures r.Err? ==> r.error == NoSuchPackage(bundle)
      ensures r.Ok? ==>
        r.value == template(PackageTemplate, DataDict(data) + PackageDict(data.packages[FindPackage(data.packages, bundle).value]))
    {
      var i := FindPackage(data.packages, bundle);
      if i.None? {
        return Err(NoSuchPackage(bundle));
      }
      var html := RenderPage(PackageTemplate, PackageDict(data.packages[i.value]));
      return Ok(html);
    }

    /** `render_plist(bundle, version)`: the first package with that bundle and
        its first version whose `version` key is that number; the version
        entry of the catalog absorbs the package's keys in place (where both
        have a key, the package's value wins), and the page is rendered with
        that entry laid over the updated catalog. */
    method RenderPlist(bundle: string, version: string) returns (r: Result<string, RenderError>)
      requires Valid()
      modifies this
      ensures Valid()
      ensures var at := PlistEntry(old(data).packages, bundle, version);
        && (at.Err? ==> r == Err(at.error) && data == old(data))
        && (at.Ok? ==>
              && data == AbsorbInto(old(data), at.value.0, at.value.1)
              && r == Ok(template(PlistTemplate, DataDict(data) + VersionDict(data.packages[at.value.0].versions[at.value.1]))))
    {
      var i := FindPackage(data.packages, bundle);
      if i.None? {
        return Err(NoSuchPackage(bundle));
      }
      var p := data.packages[i.value];
      var j := FindVersion(p.versions, version);
      if j.None? {
        return Err(NoSuchVersion(bundle, version));
      }
      var v := Absorb(p.versions[j.value], p);
      data := AbsorbInto(data, i.value, j.value);
      var html := RenderPage(PlistTemplate, VersionDict(v));
      return Ok(html);
    }

    /** `render_manifest`, before `json.dumps`: a copy of the catalog, its
        storage settings deleted, the date and the time set. */
    method RenderManifest(today: string, iso: string, timestamp: real) returns (m: map<string, Field>)
      requires Valid()
      ensures m == ManifestView(data, today, iso, timestamp)
    {
      m := DataDict(data);
      m := m - {"oss"};
      m := m["date" := Text(today)];
      m := m["time" := Clock(iso, timestamp)];
    }

    /** `render.data['prefix'] = args.prefix` in `build`. */
    method SetPrefix(prefix: string)
      requires Valid()
      modifies this
      ensures Valid() && data == old(data).(prefix := prefix)
    {
      data := data.(prefix := prefix);
    }
  }

  /** A catalog built by `load_data` can be handed to the renderer. */
  lemma LoadedIsRenderable(d: CatalogData, romanize: char -> string)
    requires Indexed(d, romanize)
    ensures BucketsInRange(d.initials, |d.packages|)
  {
    InitialsShape(d.packages);
    forall b, k | 0 <= b < |d.initials| && 0 <= k < |d.initials[b].members|
      ensures d.initials[b].members[k] < |d.packages|
    {
      MembersSpec(d.packages, d.initials[b].letter);
    }
  }
}
