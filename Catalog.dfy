/** Catalog construction (`Render.load_data` in app.py): the primary
    `manifest.yaml` document is merged with the package lists of the other YAML
    files of the data directory, every package is classified into an initial
    bucket, the bucket index is built, each package's versions are sorted newest
    first and every version gets the URL of its `.ipa` binary.

    YAML documents arrive already parsed: a package or version mapping is a
    record whose typed fields are the keys the code reads or writes (`name`,
    `bundle`, `initial`, `versions`; `version`, `url`) and whose `attrs` hold
    every other key. */
module Catalog {
  import opened Wrappers
  import opened Strings
  import SemVer
  import opened Seqs

  // ---- Data model ----

  /** A value of a YAML mapping or of a template view. Scalars of the
      configuration files are carried as `Text`. */
  datatype Field =
    | Text(s: string)
    | VersionList(versions: seq<Version>)
    | PackageList(packages: seq<Package>)
    | BucketList(buckets: seq<(char, seq<Package>)>)
    | Storage(oss: Oss)
    | Clock(iso: string, timestamp: real)

  /** One entry of a package's `versions` list; `url` is absent until
      `sort_versions` writes it. */
  datatype Version = Version(version: string, url: Option<string>, attrs: map<string, Field>)

  /** One entry of a `packages` list; `initial` is absent until
      `ensure_initials` writes it. */
  datatype Package = Package(
    name: string,
    bundle: string,
    initial: Option<char>,
    versions: seq<Version>,
    attrs: map<string, Field>)

  /** The `oss` section of `manifest.yaml`. */
  datatype Oss = Oss(bucket: string, endpoint: string, prefix: string)

  /** The parsed `manifest.yaml`: `packages` and `oss` may be missing or null. */
  datatype Document = Document(packages: Option<seq<Package>>, oss: Option<Oss>, extra: map<string, Field>)

  /** One entry of the data directory listing with its parsed content: `packages`
      is None when the document is empty or null or has no (or a null)
      `packages` key. */
  datatype Fragment = Fragment(filename: string, packages: Option<seq<Package>>)

  /** A bucket of the initials index. The Python lists hold the very package
      dictionaries of `data['packages']`, so later in-place updates show
      through; the model keeps the positions of those packages. */
  datatype Bucket = Bucket(letter: char, members: seq<nat>)

  /** The loaded `data` dictionary. */
  datatype CatalogData = CatalogData(
    packages: seq<Package>,
    initials: seq<Bucket>,
    oss: Oss,
    cdnBaseUrl: string,
    prefix: string,
    extra: map<string, Field>)

  datatype LoadError =
    | MissingPackages      // `data['packages']` is absent or null in manifest.yaml
    | MissingStorage       // `data['oss']` is absent
    | EmptyName(index: nat)   // `text[0]` on an empty package name
    | BadVersion(index: nat)  // `semver.compare` rejects a version of this package

  /** `ALPHABET`: the capitals 'A' to 'Z'. */
  const Alphabet: string := Capitals(26)
  /** `ALPHABET_WITH_ZERO`: the bucket letters, '0' first. */
  const AlphabetWithZero: string := ['0'] + Alphabet
  const ManifestPath: string := "manifest.yaml"

  predicate IsCapital(c: char) {
    'A' <= c <= 'Z'
  }

  predicate IsBucketLetter(c: char) {
    c == '0' || IsCapital(c)
  }

  /** The first `n` capitals in order (`chr(ord('A') + i)`). */
  function Capitals(n: nat): (r: string)
    requires n <= 26
    ensures |r| == n && forall i :: 0 <= i < n ==> r[i] == ('A' as int + i) as char
  {
    if n == 0 then [] else Capitals(n - 1) + [('A' as int + n - 1) as char]
  }

  lemma AlphabetMembers(c: char)
    ensures c in Alphabet <==> IsCapital(c)
    ensures c in AlphabetWithZero <==> IsBucketLetter(c)
  {
    if IsCapital(c) {
      var k := c as int - 'A' as int;
      assert Alphabet[k] == c;
      assert AlphabetWithZero[k + 1] == c;
    }
    if c in Alphabet {
      var k :| 0 <= k < 26 && Alphabet[k] == c;
    }
    assert AlphabetWithZero[0] == '0';
  }

  // ---- Fragment merge (load_extra_files) ----

  /** Whether a directory entry is read as a package fragment. */
  predicate IsExtraFile(filename: string) {
    filename != ManifestPath && (EndsWith(filename, ".yml") || EndsWith(filename, ".yaml"))
  }

  /** The packages one directory entry adds: `configuration.get('packages') or []`. */
  function Contribution(f: Fragment): seq<Package> {
    if IsExtraFile(f.filename) && f.packages.Some? then f.packages.value else []
  }

  /** The fragments' packages in directory-listing order. */
  function ExtraPackages(listing: seq<Fragment>): seq<Package>
  {
    if listing == [] then []
    else ExtraPackages(listing[..|listing| - 1]) + Contribution(listing[|listing| - 1])
  }

  function ContributedCount(listing: seq<Fragment>): nat
  {
    if listing == [] then 0
    else ContributedCount(listing[..|listing| - 1]) + |Contribution(listing[|listing| - 1])|
  }

  method LoadExtraFiles(listing: seq<Fragment>) returns (packages: seq<Package>)
    ensures packages == ExtraPackages(listing)
  {
    packages := [];
    for i := 0 to |listing|
      invariant packages == ExtraPackages(listing[..i])
    {
      var f := listing[i];
      ghost var before := packages;
      if f.filename == ManifestPath {
        LoadedStep(listing, i, before, before);
        continue;
      }
      if EndsWith(f.filename, ".yml") || EndsWith(f.filename, ".yaml") {
        var more := if f.packages.Some? then f.packages.value else [];
        packages := packages + more;
      }
      LoadedStep(listing, i, before, packages);
    }
    TakeAll(listing);
  }

  /** One step of the loading loop: the packages merged so far grow by the
      contribution of the next directory entry. */
  lemma LoadedStep(listing: seq<Fragment>, i: nat, before: seq<Package>, after: seq<Package>)
    requires i < |listing| && before == ExtraPackages(listing[..i])
    requires after == before + Contribution(listing[i])
    ensures after == ExtraPackages(listing[..i + 1])
  {
    PrefixSnoc(listing, i);
    ExtraPackagesSnoc(listing[..i], listing[i]);
  }

  /** The merged fragments hold as many packages as the contributing files. */
  lemma {:induction false} ExtraPackagesCount(listing: seq<Fragment>)
    ensures |ExtraPackages(listing)| == ContributedCount(listing)
  {
    if listing != [] {
      ExtraPackagesCount(listing[..|listing| - 1]);
    }
  }

  /** A package is merged exactly when some YAML fragment other than the
      manifest lists it. */
  lemma {:induction false} ExtraPackagesMembers(listing: seq<Fragment>, p: Package)
    ensures p in ExtraPackages(listing) <==>
      exists i :: 0 <= i < |listing| && IsExtraFile(listing[i].filename)
                  && listing[i].packages.Some? && p in listing[i].packages.value
  {
    if listing != [] {
      var init := listing[..|listing| - 1];
      ExtraPackagesMembers(init, p);
      if p in ExtraPackages(listing) && p !in ExtraPackages(init) {
        var i := |listing| - 1;
        assert IsExtraFile(listing[i].filename) && listing[i].packages.Some? && p in listing[i].packages.value;
      }
      if exists i :: 0 <= i < |listing| && IsExtraFile(listing[i].filename)
                     && listing[i].packages.Some? && p in listing[i].packages.value {
        var i :| 0 <= i < |listing| && IsExtraFile(listing[i].filename)
                 && listing[i].packages.Some? && p in listing[i].packages.value;
        if i < |listing| - 1 {
          assert init[i] == listing[i];
        }
      }
    }
  }

  /** One more directory entry adds its own contribution at the end. */
  lemma ExtraPackagesSnoc(listing: seq<Fragment>, f: Fragment)
    ensures ExtraPackages(listing + [f]) == ExtraPackages(listing) + Contribution(f)
  {
    SnocButLast(listing, f);
  }

  lemma ExtraPackagesAppendStep(a: seq<Fragment>, init: seq<Fragment>, last: Fragment)
    requires ExtraPackages(a + init) == ExtraPackages(a) + ExtraPackages(init)
    ensures ExtraPackages((a + init) + [last]) == ExtraPackages(a) + ExtraPackages(init + [last])
  {
    ExtraPackagesSnoc(a + init, last);
    ExtraPackagesSnoc(init, last);
  }

  /** Merging a listing in two parts merges each part in turn. */
  lemma {:induction false} ExtraPackagesAppend(a: seq<Fragment>, b: seq<Fragment>)
    ensures ExtraPackages(a + b) == ExtraPackages(a) + ExtraPackages(b)
    decreases |b|
  {
    if b == [] {
      assert a + b == a;
    } else {
      AppendButLast(a, b);
      ExtraPackagesAppend(a, b[..|b| - 1]);
      ExtraPackagesAppendStep(a, b[..|b| - 1], b[|b| - 1]);
    }
  }

  /** A listing entry that is the manifest or not a YAML file can be dropped
      without changing the merge. */
  lemma SkippedFileIsIgnored(before: seq<Fragment>, f: Fragment, after: seq<Fragment>)
    requires !IsExtraFile(f.filename)
    ensures ExtraPackages(before + [f] + after) == ExtraPackages(before + after)
  {
    ExtraPackagesAppend(before + [f], after);
    ExtraPackagesSnoc(before, f);
    AppendEmpty(ExtraPackages(before));
    ExtraPackagesAppend(before, after);
  }

  // ---- Classification (initial) ----

  /** Python's `c.upper()` when the result is one of the 26 capital letters:
      ASCII letters, U+0131 (dotless i) and U+017F (long s); None otherwise. */
  function UpperLatin(c: char): (r: Option<char>)
    ensures r.Some? ==> IsCapital(r.value)
    ensures 'A' <= c <= 'Z' ==> r == Some(c)
  {
    if 'a' <= c <= 'z' then Some((c as int - 32) as char)
    else if 'A' <= c <= 'Z' then Some(c)
    else if c == '\U{0131}' then Some('I')
    else if c == '\U{017F}' then Some('S')
    else None
  }

  /** `initial(text)`: the capital of the first character, else the capital of
      its romanization (`romanize` stands for `pinyin(c, FIRST_LETTER)[0][0]`),
      else '0'. None models the IndexError of `text[0]` on an empty name. A
      romanization longer than one character never upper-cases to a single
      letter, so only one-character romanizations can name a bucket. */
  function Initial(text: string, romanize: char -> string): (r: Option<char>)
    ensures r.Some? <==> text != []
    ensures r.Some? ==> IsBucketLetter(r.value)
  {
    if text == [] then None
    else match UpperLatin(text[0])
      case Some(c) => Some(c)
      case None =>
        var rom := romanize(text[0]);
        if |rom| == 1 && UpperLatin(rom[0]).Some? then UpperLatin(rom[0]) else Some('0')
  }

  /** A name's bucket depends only on its first character, and not on that
      character's case. */
  lemma InitialCaseInsensitive(a: string, b: string, romanize: char -> string)
    requires a != [] && b != []
    requires 'a' <= a[0] <= 'z' && b[0] as int == a[0] as int - 32
    ensures Initial(a, romanize) == Initial(b, romanize) == Some(b[0])
  {
  }

  /** The fallback bucket '0' is chosen only when neither the character nor its
      romanization upper-cases to a Latin letter. */
  lemma InitialZero(text: string, romanize: char -> string)
    requires text != []
    ensures Initial(text, romanize) == Some('0') <==>
      UpperLatin(text[0]).None? && !(|romanize(text[0])| == 1 && UpperLatin(romanize(text[0])[0]).Some?)
  {
  }

  predicate HasInitial(p: Package, c: char) {
    p.initial == Some(c)
  }

  function WithInitial(p: Package, c: char): (q: Package)
    ensures HasInitial(q, c)
    ensures q.name == p.name && q.bundle == p.bundle && q.versions == p.versions
  {
    p.(initial := Some(c))
  }

  /** Index of the first package whose name is empty. */
  function FirstEmptyName(packages: seq<Package>): (r: Option<nat>)
    ensures r.None? <==> forall i :: 0 <= i < |packages| ==> packages[i].name != []
    ensures r.Some? ==>
      && r.value < |packages| && packages[r.value].name == []
      && forall i :: 0 <= i < r.value ==> packages[i].name != []
  {
    if packages == [] then None
    else if packages[0].name == [] then Some(0)
    else match FirstEmptyName(packages[1..])
      case None => None
      case Some(k) => Some(k + 1)
  }

  lemma FirstEmptyNameAt(packages: seq<Package>, i: nat)
    requires i < |packages| && packages[i].name == []
    requires forall k :: 0 <= k < i ==> packages[k].name != []
    ensures FirstEmptyName(packages) == Some(i)
  {
    assert FirstEmptyName(packages).Some?;
  }

  /** `q` is package `p` with its `initial` entry written. */
  predicate Classified(p: Package, q: Package, romanize: char -> string) {
    p.name != [] && q == WithInitial(p, Initial(p.name, romanize).value)
  }

  /** The first loop of `ensure_initials`: every package gets the initial of
      its name, or the load fails at the first empty name. */
  method EnsureInitials(packages: seq<Package>, romanize: char -> string) returns (r: Result<seq<Package>, LoadError>)
    ensures r.Err? <==> FirstEmptyName(packages).Some?
    ensures r.Err? ==> r.error == EmptyName(FirstEmptyName(packages).value)
    ensures r.Ok? ==> |r.value| == |packages| && forall i :: 0 <= i < |packages| ==> Classified(packages[i], r.value[i], romanize)
  {
    var out: seq<Package> := [];
    for i := 0 to |packages|
      invariant |out| == i
      invariant forall k :: 0 <= k < i ==> packages[k].name != []
      invariant forall k :: 0 <= k < i ==> Classified(packages[k], out[k], romanize)
    {
      var c := Initial(packages[i].name, romanize);
      if c.None? {
        FirstEmptyNameAt(packages, i);
        return Err(EmptyName(i));
      }
      var q := WithInitial(packages[i], c.value);
      assert Classified(packages[i], q, romanize);
      out := out + [q];
    }
    return Ok(out);
  }

  // ---- Bucket index (the `initials` comprehension) ----

  /** Positions of the packages carrying initial `letter`, in catalog order
      (`filter(lambda b: b['initial'] == letter, packages)`). */
  function Members(packages: seq<Package>, letter: char): seq<nat>
  {
    if packages == [] then []
    else
      var n := |packages| - 1;
      Members(packages[..n], letter) + (if HasInitial(packages[n], letter) then [n] else [])
  }

  /** `r` lists exactly the positions of the packages with initial `letter`,
      each once, in catalog order. */
  predicate ListsInitial(r: seq<nat>, packages: seq<Package>, letter: char) {
    && (forall k :: 0 <= k < |r| ==> r[k] < |packages| && HasInitial(packages[r[k]], letter))
    && (forall j :: 0 <= j < |packages| && HasInitial(packages[j], letter) ==> j in r)
    && (forall a, b :: 0 <= a < b < |r| ==> r[a] < r[b])
  }

  lemma {:induction false} MembersSpec(packages: seq<Package>, letter: char)
    ensures ListsInitial(Members(packages, letter), packages, letter)
  {
    if packages != [] {
      var n := |packages| - 1;
      var init := packages[..n];
      MembersSpec(init, letter);
      var m := Members(init, letter);
      var last := if HasInitial(packages[n], letter) then [n] else [];
      assert Members(packages, letter) == m + last;
      forall k | 0 <= k < |m| ensures m[k] < n && HasInitial(packages[m[k]], letter) {
        assert init[m[k]] == packages[m[k]];
      }
      forall j | 0 <= j < n && HasInitial(packages[j], letter) ensures j in m {
        assert init[j] == packages[j];
      }
    }
  }

  function BucketsOf(letters: string, packages: seq<Package>): seq<Bucket>
  {
    if letters == [] then []
    else
      var m := Members(packages, letters[0]);
      (if m == [] then [] else [Bucket(letters[0], m)]) + BucketsOf(letters[1..], packages)
  }

  /** `data['initials']`: one bucket per letter of `0`, `A`..`Z` that has members. */
  function Initials(packages: seq<Package>): (r: seq<Bucket>)
    ensures SoundBuckets(r, AlphabetWithZero, packages)
  {
    BucketsOfSound(AlphabetWithZero, packages);
    BucketsOf(AlphabetWithZero, packages)
  }

  predicate IncreasingLabels(bs: seq<Bucket>) {
    forall a, b :: 0 <= a < b < |bs| ==> bs[a].letter < bs[b].letter
  }

  predicate SortedText(s: string) {
    forall a, b :: 0 <= a < b < |s| ==> s[a] < s[b]
  }

  /** Every bucket is labelled by one of `letters` and holds exactly the
      packages with that initial, and none is empty. */
  predicate SoundBuckets(bs: seq<Bucket>, letters: string, packages: seq<Package>) {
    forall b :: 0 <= b < |bs| ==>
      && bs[b].letter in letters
      && bs[b].members != []
      && bs[b].members == Members(packages, bs[b].letter)
  }

  lemma {:induction false} BucketsOfSound(letters: string, packages: seq<Package>)
    ensures SoundBuckets(BucketsOf(letters, packages), letters, packages)
  {
    if letters != [] {
      var tail := letters[1..];
      BucketsOfSound(tail, packages);
      var rest := BucketsOf(tail, packages);
      var m := Members(packages, letters[0]);
      var bs := BucketsOf(letters, packages);
      var head := if m == [] then [] else [Bucket(letters[0], m)];
      assert bs == head + rest;
      forall b | 0 <= b < |bs|
        ensures bs[b].letter in letters && bs[b].members != [] && bs[b].members == Members(packages, bs[b].letter)
      {
        if b >= |head| {
          var x := rest[b - |head|];
          assert bs[b] == x;
          assert x.letter in tail;
          var k :| 0 <= k < |tail| && tail[k] == x.letter;
          assert letters[k + 1] == x.letter;
        }
      }
    }
  }

  /** Every letter that some package carries gets a bucket. */
  lemma {:induction false} BucketsOfComplete(letters: string, packages: seq<Package>, c: char)
    requires c in letters && Members(packages, c) != []
    ensures exists b :: 0 <= b < |BucketsOf(letters, packages)| && BucketsOf(letters, packages)[b].letter == c
  {
    var rest := BucketsOf(letters[1..], packages);
    var bs := BucketsOf(letters, packages);
    if c == letters[0] {
      assert bs[0].letter == c;
    } else {
      assert c in letters[1..];
      BucketsOfComplete(letters[1..], packages, c);
      var b :| 0 <= b < |rest| && rest[b].letter == c;
      var m := Members(packages, letters[0]);
      if m == [] {
        assert bs == rest;
      } else {
        assert bs == [Bucket(letters[0], m)] + rest;
        assert bs[b + 1].letter == c;
      }
    }
  }

  /** Buckets follow the order of `letters`. */
  lemma {:induction false} BucketsOfOrdered(letters: string, packages: seq<Package>)
    requires SortedText(letters)
    ensures IncreasingLabels(BucketsOf(letters, packages))
  {
    if letters != [] {
      var tail := letters[1..];
      assert SortedText(tail);
      BucketsOfOrdered(tail, packages);
      BucketsOfSound(tail, packages);
      var rest := BucketsOf(tail, packages);
      forall b | 0 <= b < |rest| ensures letters[0] < rest[b].letter {
        var k :| 0 <= k < |tail| && tail[k] == rest[b].letter;
        assert letters[k + 1] == rest[b].letter;
      }
      var m := Members(packages, letters[0]);
      if m != [] {
        assert BucketsOf(letters, packages) == [Bucket(letters[0], m)] + rest;
      }
    }
  }

  lemma AlphabetWithZeroSorted()
    ensures SortedText(AlphabetWithZero)
  {
    forall a, b | 0 <= a < b < |AlphabetWithZero| ensures AlphabetWithZero[a] < AlphabetWithZero[b] {
      assert AlphabetWithZero[b] == Alphabet[b - 1];
      if a > 0 {
        assert AlphabetWithZero[a] == Alphabet[a - 1];
      }
    }
  }

  /** `bs` is the bucket index of `packages`: in the fixed `0`, `A`..`Z`
      order, a bucket for exactly the letters some package carries, each
      bucket holding the positions `Members` lists for its letter. */
  predicate BucketIndex(bs: seq<Bucket>, packages: seq<Package>) {
    && IncreasingLabels(bs)
    && (forall b :: 0 <= b < |bs| ==>
          && IsBucketLetter(bs[b].letter)
          && bs[b].members != []
          && bs[b].members == Members(packages, bs[b].letter))
    && (forall c :: IsBucketLetter(c) && Members(packages, c) != [] ==>
          exists b :: 0 <= b < |bs| && bs[b].letter == c)
  }

  /** The comprehension builds the bucket index: fixed order, no empty
      bucket, and (with `MembersSpec`) each bucket holds exactly the packages
      with that initial, in catalog order. */
  lemma InitialsShape(packages: seq<Package>)
    ensures BucketIndex(Initials(packages), packages)
  {
    var bs := Initials(packages);
    AlphabetWithZeroSorted();
    BucketsOfOrdered(AlphabetWithZero, packages);
    BucketsOfSound(AlphabetWithZero, packages);
    forall b | 0 <= b < |bs| ensures IsBucketLetter(bs[b].letter) {
      AlphabetMembers(bs[b].letter);
    }
    forall c | IsBucketLetter(c) && Members(packages, c) != []
      ensures exists b :: 0 <= b < |bs| && bs[b].letter == c
    {
      AlphabetMembers(c);
      BucketsOfComplete(AlphabetWithZero, packages, c);
    }
  }

  /** A package whose initial is a bucket letter (as every package's is after
      `ensure_initials`) sits in exactly one bucket. */
  lemma InitialsPartition(packages: seq<Package>, j: nat, c: char)
    requires j < |packages| && IsBucketLetter(c) && HasInitial(packages[j], c)
    ensures exists b :: 0 <= b < |Initials(packages)| && j in Initials(packages)[b].members
    ensures forall b1, b2 ::
      (0 <= b1 < |Initials(packages)| && 0 <= b2 < |Initials(packages)|
       && j in Initials(packages)[b1].members && j in Initials(packages)[b2].members) ==> b1 == b2
  {
    InitialsShape(packages);
    InitialsCover(packages, j, c);
    InitialsDisjoint(Initials(packages), packages, j);
  }

  lemma InitialsCover(packages: seq<Package>, j: nat, c: char)
    requires j < |packages| && IsBucketLetter(c) && HasInitial(packages[j], c)
    requires BucketIndex(Initials(packages), packages)
    ensures exists b :: 0 <= b < |Initials(packages)| && j in Initials(packages)[b].members
  {
    var bs := Initials(packages);
    MembersSpec(packages, c);
    assert j in Members(packages, c);
    var b :| 0 <= b < |bs| && bs[b].letter == c;
    assert j in bs[b].members;
  }

  /** Every position a bucket of an index lists holds a package with that
      bucket's letter. */
  lemma BucketMember(bs: seq<Bucket>, packages: seq<Package>, b: nat, j: nat)
    requires BucketIndex(bs, packages) && b < |bs| && j in bs[b].members
    ensures j < |packages| && HasInitial(packages[j], bs[b].letter)
  {
    MembersSpec(packages, bs[b].letter);
    var k :| 0 <= k < |bs[b].members| && bs[b].members[k] == j;
  }

  lemma InitialsDisjoint(bs: seq<Bucket>, packages: seq<Package>, j: nat)
    requires BucketIndex(bs, packages)
    ensures forall b1, b2 :: 0 <= b1 < |bs| && 0 <= b2 < |bs| && j in bs[b1].members && j in bs[b2].members ==> b1 == b2
  {
    forall b1, b2 | 0 <= b1 < |bs| && 0 <= b2 < |bs| && j in bs[b1].members && j in bs[b2].members
      ensures b1 == b2
    {
      BucketMember(bs, packages, b1, j);
      BucketMember(bs, packages, b2, j);
    }
  }

  /** The bucket index only looks at the packages' `initial` entries. */
  lemma {:induction false} MembersOnlyReadInitials(ps: seq<Package>, qs: seq<Package>, letter: char)
    requires |ps| == |qs|
    requires forall i :: 0 <= i < |ps| ==> ps[i].initial == qs[i].initial
    ensures Members(ps, letter) == Members(qs, letter)
  {
    if ps != [] {
      var n := |ps| - 1;
      MembersOnlyReadInitials(ps[..n], qs[..n], letter);
    }
  }

  lemma {:induction false} BucketsOfOnlyReadInitials(letters: string, ps: seq<Package>, qs: seq<Package>)
    requires |ps| == |qs|
    requires forall i :: 0 <= i < |ps| ==> ps[i].initial == qs[i].initial
    ensures BucketsOf(letters, ps) == BucketsOf(letters, qs)
  {
    if letters != [] {
      MembersOnlyReadInitials(ps, qs, letters[0]);
      BucketsOfOnlyReadInitials(letters[1..], ps, qs);
    }
  }

  // ---- Version order (sort_versions) ----

  /** A comparator on version strings (`semver.compare`) together with the
      strings it accepts; `cmp(a, b)` is negative, zero or positive. */
  datatype Ordering = Ordering(cmp: (string, string) -> int, valid: string -> bool)

  /** What sorting relies on: on accepted strings the comparator is a total
      preorder (reflexive, antisymmetric in sign, transitive). */
  ghost predicate Preorder(ord: Ordering) {
    && (forall a :: ord.valid(a) ==> ord.cmp(a, a) == 0)
    && (forall a, b :: ord.valid(a) && ord.valid(b) ==> ord.cmp(b, a) == -ord.cmp(a, b))
    && (forall a, b, c :: ord.valid(a) && ord.valid(b) && ord.valid(c) && ord.cmp(a, b) <= 0 && ord.cmp(b, c) <= 0
          ==> ord.cmp(a, c) <= 0)
  }

  /** Semantic Versioning 2.0.0 precedence. */
  const Semver: Ordering := Ordering(SemVer.CompareText, SemVer.Valid)

  lemma SemverIsPreorder()
    ensures Preorder(Semver)
  {
    forall a, b, c | SemVer.Valid(a) && SemVer.Valid(b) && SemVer.Valid(c)
      ensures SemVer.CompareText(a, a) == 0
      ensures SemVer.CompareText(b, a) == -SemVer.CompareText(a, b)
      ensures SemVer.CompareText(a, b) <= 0 && SemVer.CompareText(b, c) <= 0 ==> SemVer.CompareText(a, c) <= 0
    {
      SemVer.CompareTextPreorder(a, b, c);
    }
  }

  predicate AllValid(vs: seq<Version>, ord: Ordering) {
    forall i :: 0 <= i < |vs| ==> ord.valid(vs[i].version)
  }

  /** `x` ranks at least as high as `y`. */
  predicate AtLeast(x: Version, y: Version, ord: Ordering) {
    ord.cmp(x.version, y.version) >= 0
  }

  /** Newest first: no version ranks above one placed before it. */
  predicate Descending(vs: seq<Version>, ord: Ordering) {
    forall i, j :: 0 <= i < j < |vs| ==> AtLeast(vs[i], vs[j], ord)
  }

  predicate AdjacentDescending(vs: seq<Version>, ord: Ordering) {
    forall i :: 0 <= i < |vs| - 1 ==> AtLeast(vs[i], vs[i + 1], ord)
  }

  /** Inserts `v` after every element that ranks at least as high. */
  function Insert(v: Version, s: seq<Version>, ord: Ordering): (r: seq<Version>)
    ensures |r| == |s| + 1
  {
    if s == [] then [v]
    else if AtLeast(s[0], v, ord) then [s[0]] + Insert(v, s[1..], ord)
    else [v] + s
  }

  /** `sorted(versions, reverse=True, key=cmp_to_key(cmp))`: a stable sort,
      highest first. */
  function SortDesc(s: seq<Version>, ord: Ordering): (r: seq<Version>)
    ensures |r| == |s|
  {
    if s == [] then [] else Insert(s[|s| - 1], SortDesc(s[..|s| - 1], ord), ord)
  }

  /** The versions of `s` that compare equal to version text `t`, in order. */
  function Ties(s: seq<Version>, t: string, ord: Ordering): seq<Version>
  {
    if s == [] then []
    else (if ord.cmp(s[0].version, t) == 0 then [s[0]] else []) + Ties(s[1..], t, ord)
  }

  lemma {:induction false} TiesAppend(a: seq<Version>, b: seq<Version>, t: string, ord: Ordering)
    ensures Ties(a + b, t, ord) == Ties(a, t, ord) + Ties(b, t, ord)
  {
    if a == [] {
      assert a + b == b;
    } else {
      RestOfAppend(a, b);
      TiesAppend(a[1..], b, t, ord);
    }
  }

  lemma {:induction false} InsertPermutes(v: Version, s: seq<Version>, ord: Ordering)
    ensures multiset(Insert(v, s, ord)) == multiset(s) + multiset{v}
  {
    if s != [] && AtLeast(s[0], v, ord) {
      InsertPermutes(v, s[1..], ord);
      HeadRest(s);
    }
  }

  /** The sorted list is a permutation of the input. */
  lemma {:induction false} SortDescPermutes(s: seq<Version>, ord: Ordering)
    ensures multiset(SortDesc(s, ord)) == multiset(s)
  {
    if s != [] {
      var n := |s| - 1;
      SortDescPermutes(s[..n], ord);
      InsertPermutes(s[n], SortDesc(s[..n], ord), ord);
      ButLast(s);
    }
  }

  lemma AllValidPermutation(a: seq<Version>, b: seq<Version>, ord: Ordering)
    requires multiset(a) == multiset(b) && AllValid(a, ord)
    ensures AllValid(b, ord)
  {
    forall i | 0 <= i < |b| ensures ord.valid(b[i].version) {
      assert b[i] in multiset(a);
      var k :| 0 <= k < |a| && a[k] == b[i];
    }
  }

  lemma {:induction false} InsertHead(v: Version, s: seq<Version>, ord: Ordering)
    ensures var r := Insert(v, s, ord); r != [] && (r[0] == v || (s != [] && r[0] == s[0]))
  {
  }

  lemma {:induction false} InsertAdjacent(v: Version, s: seq<Version>, ord: Ordering)
    requires Preorder(ord)
    requires AdjacentDescending(s, ord) && AllValid(s, ord) && ord.valid(v.version)
    ensures AdjacentDescending(Insert(v, s, ord), ord)
  {
    if s != [] {
      if AtLeast(s[0], v, ord) {
        InsertAdjacent(v, s[1..], ord);
        InsertHead(v, s[1..], ord);
        var r := Insert(v, s, ord);
        assert r == [s[0]] + Insert(v, s[1..], ord);
        if |s| > 1 {
          assert AtLeast(s[0], s[1], ord);
        }
      } else {
        assert ord.valid(s[0].version);
        assert ord.cmp(v.version, s[0].version) == -ord.cmp(s[0].version, v.version);
      }
    }
  }

  lemma {:induction false} AdjacentToDescending(s: seq<Version>, ord: Ordering)
    requires Preorder(ord)
    requires AdjacentDescending(s, ord) && AllValid(s, ord)
    ensures Descending(s, ord)
  {
    if |s| > 1 {
      var t := s[1..];
      assert AllValid(t, ord);
      assert AdjacentDescending(t, ord) by {
        forall i | 0 <= i < |t| - 1 ensures AtLeast(t[i], t[i + 1], ord) {
          assert t[i] == s[i + 1] && t[i + 1] == s[i + 2];
        }
      }
      AdjacentToDescending(t, ord);
      forall i, j | 0 <= i < j < |s| ensures AtLeast(s[i], s[j], ord) {
        if i > 0 {
          assert t[i - 1] == s[i] && t[j - 1] == s[j];
        } else if j > 1 {
          assert AtLeast(t[0], t[j - 1], ord);
          assert ord.valid(s[0].version) && ord.valid(s[1].version) && ord.valid(s[j].version);
          assert ord.cmp(s[1].version, s[0].version) <= 0;
          assert ord.cmp(s[j].version, s[1].version) <= 0;
        }
      }
    }
  }

  lemma {:induction false} SortDescAdjacent(s: seq<Version>, ord: Ordering)
    requires Preorder(ord) && AllValid(s, ord)
    ensures AdjacentDescending(SortDesc(s, ord), ord) && AllValid(SortDesc(s, ord), ord)
  {
    if s != [] {
      var n := |s| - 1;
      assert AllValid(s[..n], ord);
      SortDescAdjacent(s[..n], ord);
      InsertAdjacent(s[n], SortDesc(s[..n], ord), ord);
      SortDescPermutes(s, ord);
      AllValidPermutation(s, SortDesc(s, ord), ord);
    }
  }

  /** When every version is accepted, the sorted list is highest first. */
  lemma SortDescDescending(s: seq<Version>, ord: Ordering)
    requires Preorder(ord) && AllValid(s, ord)
    ensures Descending(SortDesc(s, ord), ord)
  {
    SortDescAdjacent(s, ord);
    AdjacentToDescending(SortDesc(s, ord), ord);
  }

  lemma DescendingTail(s: seq<Version>, ord: Ordering)
    requires s != [] && Descending(s, ord)
    ensures Descending(s[1..], ord)
  {
    var u := s[1..];
    forall i, j | 0 <= i < j < |u| ensures AtLeast(u[i], u[j], ord) {
      assert u[i] == s[i + 1] && u[j] == s[j + 1];
    }
  }

  /** Below a version that ranks strictly above every element, nothing ties with it. */
  lemma {:induction false} NoTiesBelow(s: seq<Version>, v: Version, t: string, ord: Ordering)
    requires Preorder(ord) && AllValid(s, ord) && Descending(s, ord) && ord.valid(v.version) && ord.valid(t)
    requires ord.cmp(v.version, t) == 0
    requires s != [] && !AtLeast(s[0], v, ord)
    ensures Ties(s, t, ord) == []
  {
    assert ord.valid(s[0].version);
    assert ord.cmp(t, v.version) == 0;
    assert ord.cmp(s[0].version, t) < 0;
    if |s| > 1 {
      var u := s[1..];
      assert AtLeast(s[0], s[1], ord);
      assert ord.valid(s[1].version);
      assert !AtLeast(u[0], v, ord);
      DescendingTail(s, ord);
      NoTiesBelow(u, v, t, ord);
    }
  }

  /** The ties of a list with a first element. */
  lemma TiesCons(x: Version, rest: seq<Version>, t: string, ord: Ordering)
    ensures Ties([x] + rest, t, ord) == (if ord.cmp(x.version, t) == 0 then [x] else []) + Ties(rest, t, ord)
  {
    RestOfAppend([x], rest);
  }

  lemma {:induction false} InsertStable(v: Version, s: seq<Version>, t: string, ord: Ordering)
    requires Preorder(ord) && AllValid(s, ord) && Descending(s, ord) && ord.valid(v.version) && ord.valid(t)
    ensures Ties(Insert(v, s, ord), t, ord) ==
      Ties(s, t, ord) + (if ord.cmp(v.version, t) == 0 then [v] else [])
  {
    var tail := if ord.cmp(v.version, t) == 0 then [v] else [];
    if s == [] {
      AppendEmpty(tail);
    } else if AtLeast(s[0], v, ord) {
      var u := s[1..];
      var head := if ord.cmp(s[0].version, t) == 0 then [s[0]] else [];
      DescendingTail(s, ord);
      InsertStable(v, u, t, ord);
      TiesCons(s[0], Insert(v, u, ord), t, ord);
      HeadRest(s);
      TiesCons(s[0], u, t, ord);
      AppendAssoc(head, Ties(u, t, ord), tail);
    } else {
      TiesCons(v, s, t, ord);
      if ord.cmp(v.version, t) == 0 {
        NoTiesBelow(s, v, t, ord);
      }
      AppendEmpty(Ties(s, t, ord));
    }
  }

  /** The sort is stable: the versions that compare equal to any accepted
      version text come out in their input order. */
  lemma {:induction false} SortDescStable(s: seq<Version>, t: string, ord: Ordering)
    requires Preorder(ord) && AllValid(s, ord) && ord.valid(t)
    ensures Ties(SortDesc(s, ord), t, ord) == Ties(s, t, ord)
  {
    if s != [] {
      var n := |s| - 1;
      assert AllValid(s[..n], ord);
      SortDescStable(s[..n], t, ord);
      SortDescStableStep(s[..n], s[n], t, ord);
      ButLast(s);
    }
  }

  lemma SortDescStableStep(init: seq<Version>, last: Version, t: string, ord: Ordering)
    requires Preorder(ord) && AllValid(init, ord) && ord.valid(last.version) && ord.valid(t)
    requires Ties(SortDesc(init, ord), t, ord) == Ties(init, t, ord)
    ensures Ties(SortDesc(init + [last], ord), t, ord) == Ties(init + [last], t, ord)
  {
    var s := init + [last];
    var sorted := SortDesc(init, ord);
    SortDescDescending(init, ord);
    SortDescAdjacent(init, ord);
    InsertStable(last, sorted, t, ord);
    SnocButLast(init, last);
    assert SortDesc(s, ord) == Insert(last, sorted, ord);
    TiesAppend(init, [last], t, ord);
    TiesCons(last, [], t, ord);
    AppendEmpty([last]);
  }

  lemma {:induction false} InsertAtEnd(v: Version, s: seq<Version>, ord: Ordering)
    requires forall k :: 0 <= k < |s| ==> AtLeast(s[k], v, ord)
    ensures Insert(v, s, ord) == s + [v]
  {
    if s != [] {
      InsertAtEnd(v, s[1..], ord);
    }
  }

  /** Sorting a list that is already highest first changes nothing, so sorting
      twice is sorting once. */
  lemma {:induction false} SortDescOfDescending(s: seq<Version>, ord: Ordering)
    requires Descending(s, ord)
    ensures SortDesc(s, ord) == s
  {
    if s != [] {
      var n := |s| - 1;
      SortDescOfDescending(s[..n], ord);
      InsertAtEnd(s[n], s[..n], ord);
      ButLast(s);
    }
  }

  // ---- URLs ----

  /** `cdn_base_url`: the bucket origin plus the prefix, all trailing '/' removed. */
  function CdnBaseUrl(oss: Oss): (r: string)
    ensures var raw := "https://" + oss.bucket + "." + oss.endpoint + "/" + oss.prefix;
      StartsWith(raw, r) && (r == [] || r[|r| - 1] != '/')
  {
    TrimRight("https://" + oss.bucket + "." + oss.endpoint + "/" + oss.prefix, c => c == '/')
  }

  /** The public URL of a version's `.ipa` binary. */
  function IpaUrl(cdnBaseUrl: string, bundle: string, version: string): (r: string)
    ensures StartsWith(r, cdnBaseUrl + "/package/" + bundle + "/")
    ensures EndsWith(r, "_" + version + ".ipa")
  {
    cdnBaseUrl + "/package/" + bundle + "/" + bundle + "_" + version + ".ipa"
  }

  /** The base URL never ends in '/', keeps the bucket origin, and differs
      from the raw concatenation only by the slashes it dropped. */
  lemma CdnBaseUrlShape(oss: Oss)
    ensures var raw := "https://" + oss.bucket + "." + oss.endpoint + "/" + oss.prefix;
      var url := CdnBaseUrl(oss);
      && url != [] && url[|url| - 1] != '/'
      && StartsWith(url, "https://" + oss.bucket + ".")
      && raw[..|url|] == url
      && forall i :: |url| <= i < |raw| ==> raw[i] == '/'
  {
    var head := "https://" + oss.bucket + ".";
    var raw := "https://" + oss.bucket + "." + oss.endpoint + "/" + oss.prefix;
    var url := CdnBaseUrl(oss);
    assert raw[|head| - 1] == '.';
    assert raw[..|head|] == head;
    assert url[..|head|] == raw[..|url|][..|head|];
  }

  function WithUrl(v: Version, cdnBaseUrl: string, bundle: string): Version
  {
    v.(url := Some(IpaUrl(cdnBaseUrl, bundle, v.version)))
  }

  /** What `sort_versions` makes of one package, or the error `semver.compare`
      raises: `sorted` compares every element of a list of two or more, and
      none of a shorter one. Only `versions` changes, and every version's
      `url` names its own `.ipa`. */
  function SortPackage(p: Package, index: nat, cdnBaseUrl: string, ord: Ordering): (r: Result<Package, LoadError>)
    ensures r.Err? <==> |p.versions| >= 2 && !AllValid(p.versions, ord)
    ensures r.Err? ==> r.error == BadVersion(index)
    ensures r.Ok? ==> r.value == p.(versions := r.value.versions) && |r.value.versions| == |p.versions|
    ensures r.Ok? ==> forall j :: 0 <= j < |r.value.versions| ==>
      r.value.versions[j].url == Some(IpaUrl(cdnBaseUrl, p.bundle, r.value.versions[j].version))
  {
    if |p.versions| >= 2 && !AllValid(p.versions, ord) then Err(BadVersion(index))
    else
      var sorted := SortDesc(p.versions, ord);
      SortDescPermutes(p.versions, ord);
      assert |sorted| == |p.versions| by {
        assert |multiset(sorted)| == |multiset(p.versions)|;
      }
      Ok(p.(versions := seq(|sorted|, j requires 0 <= j < |sorted| => WithUrl(sorted[j], cdnBaseUrl, p.bundle))))
  }

  /** Apart from the `url` stamps, a package's new `versions` list is the
      sorted one: a permutation of the input, highest first, and stable. */
  lemma SortPackageSpec(p: Package, index: nat, cdnBaseUrl: string, ord: Ordering)
    requires Preorder(ord)
    requires SortPackage(p, index, cdnBaseUrl, ord).Ok?
    ensures forall j :: 0 <= j < |p.versions| ==>
      SortPackage(p, index, cdnBaseUrl, ord).value.versions[j]
        == SortDesc(p.versions, ord)[j].(url := SortPackage(p, index, cdnBaseUrl, ord).value.versions[j].url)
    ensures multiset(SortDesc(p.versions, ord)) == multiset(p.versions)
    ensures AllValid(p.versions, ord) ==> Descending(SortDesc(p.versions, ord), ord)
    ensures AllValid(p.versions, ord) ==>
      forall t :: ord.valid(t) ==> Ties(SortDesc(p.versions, ord), t, ord) == Ties(p.versions, t, ord)
  {
    SortDescPermutes(p.versions, ord);
    if AllValid(p.versions, ord) {
      SortDescDescending(p.versions, ord);
      forall t | ord.valid(t) ensures Ties(SortDesc(p.versions, ord), t, ord) == Ties(p.versions, t, ord) {
        SortDescStable(p.versions, t, ord);
      }
    }
  }

  /** Index of the first package whose versions the comparator rejects. */
  function FirstSortError(packages: seq<Package>, ord: Ordering): (r: Option<nat>)
    ensures r.None? <==> forall i :: 0 <= i < |packages| ==> !(|packages[i].versions| >= 2 && !AllValid(packages[i].versions, ord))
    ensures r.Some? ==>
      && r.value < |packages| && |packages[r.value].versions| >= 2 && !AllValid(packages[r.value].versions, ord)
      && forall i :: 0 <= i < r.value ==> !(|packages[i].versions| >= 2 && !AllValid(packages[i].versions, ord))
  {
    if packages == [] then None
    else if |packages[0].versions| >= 2 && !AllValid(packages[0].versions, ord) then Some(0)
    else match FirstSortError(packages[1..], ord)
      case None => None
      case Some(k) => Some(k + 1)
  }

  lemma FirstSortErrorAt(packages: seq<Package>, i: nat, ord: Ordering)
    requires i < |packages| && |packages[i].versions| >= 2 && !AllValid(packages[i].versions, ord)
    requires forall k :: 0 <= k < i ==> !(|packages[k].versions| >= 2 && !AllValid(packages[k].versions, ord))
    ensures FirstSortError(packages, ord) == Some(i)
  {
    assert FirstSortError(packages, ord).Some?;
  }

  /** `sort_versions`: the nested loops over packages and their versions. */
  method SortVersions(packages: seq<Package>, cdnBaseUrl: string, ord: Ordering) returns (r: Result<seq<Package>, LoadError>)
    ensures r.Err? <==> FirstSortError(packages, ord).Some?
    ensures r.Err? ==> r.error == BadVersion(FirstSortError(packages, ord).value)
    ensures r.Ok? ==> |r.value| == |packages| && forall i :: 0 <= i < |packages| ==>
      SortPackage(packages[i], i, cdnBaseUrl, ord) == Ok(r.value[i])
  {
    var out: seq<Package> := [];
    for i := 0 to |packages|
      invariant |out| == i
      invariant forall k :: 0 <= k < i ==> !(|packages[k].versions| >= 2 && !AllValid(packages[k].versions, ord))
      invariant forall k :: 0 <= k < i ==> SortPackage(packages[k], k, cdnBaseUrl, ord) == Ok(out[k])
    {
      var p := packages[i];
      if |p.versions| >= 2 && !AllValid(p.versions, ord) {
        FirstSortErrorAt(packages, i, ord);
        return Err(BadVersion(i));
      }
      var sorted := SortDesc(p.versions, ord);
      var stamped: seq<Version> := [];
      for j := 0 to |sorted|
        invariant |stamped| == j
        invariant forall k :: 0 <= k < j ==> stamped[k] == WithUrl(sorted[k], cdnBaseUrl, p.bundle)
      {
        stamped := stamped + [WithUrl(sorted[j], cdnBaseUrl, p.bundle)];
      }
      assert stamped == seq(|sorted|, j requires 0 <= j < |sorted| => WithUrl(sorted[j], cdnBaseUrl, p.bundle));
      assert SortPackage(p, i, cdnBaseUrl, ord) == Ok(p.(versions := stamped));
      out := out + [p.(versions := stamped)];
    }
    return Ok(out);
  }

  // ---- load_data ----

  /** The sort only looks at the packages' `versions`. */
  lemma {:induction false} FirstSortErrorOnlyReadsVersions(ps: seq<Package>, qs: seq<Package>, ord: Ordering)
    requires |ps| == |qs|
    requires forall i :: 0 <= i < |ps| ==> ps[i].versions == qs[i].versions
    ensures FirstSortError(ps, ord) == FirstSortError(qs, ord)
  {
    if ps != [] {
      FirstSortErrorOnlyReadsVersions(ps[1..], qs[1..], ord);
    }
  }

  /** Everything `load_data` establishes about a catalog. */
  ghost predicate Indexed(d: CatalogData, romanize: char -> string) {
    && d.cdnBaseUrl == CdnBaseUrl(d.oss)
    && d.initials == Initials(d.packages)
    && (forall i :: 0 <= i < |d.packages| ==>
          d.packages[i].name != [] && HasInitial(d.packages[i], Initial(d.packages[i].name, romanize).value))
    && (forall i, j :: 0 <= i < |d.packages| && 0 <= j < |d.packages[i].versions| ==>
          var v := d.packages[i].versions[j];
          v.url == Some(IpaUrl(d.cdnBaseUrl, d.packages[i].bundle, v.version)))
  }

  /** `Render.load_data` on parsed documents; `ord` is `semver.compare`
      (`Semver` for Semantic Versioning 2.0.0). The failures come in the order
      the code meets them: no `packages`, no `oss`, an empty package name, a
      version the comparator rejects. */
  method LoadData(primary: Document, listing: seq<Fragment>, romanize: char -> string, ord: Ordering)
    returns (r: Result<CatalogData, LoadError>)
    ensures primary.packages.None? ==> r == Err(MissingPackages)
    ensures primary.packages.Some? && primary.oss.None? ==> r == Err(MissingStorage)
    ensures primary.packages.Some? && primary.oss.Some? ==>
      var merged := primary.packages.value + ExtraPackages(listing);
      && (FirstEmptyName(merged).Some? ==> r == Err(EmptyName(FirstEmptyName(merged).value)))
      && (FirstEmptyName(merged).None? && FirstSortError(merged, ord).Some? ==>
            r == Err(BadVersion(FirstSortError(merged, ord).value)))
      && (FirstEmptyName(merged).None? && FirstSortError(merged, ord).None? ==> r.Ok?)
    ensures r.Ok? ==>
      var merged := primary.packages.value + ExtraPackages(listing);
      var d := r.value;
      && primary.oss == Some(d.oss)
      && d.prefix == "" && d.extra == primary.extra
      && |d.packages| == |merged|
      && (forall i :: 0 <= i < |merged| ==>
            && merged[i].name != []
            && SortPackage(WithInitial(merged[i], Initial(merged[i].name, romanize).value), i, d.cdnBaseUrl, ord)
               == Ok(d.packages[i]))
      && Indexed(d, romanize)
  {
    if primary.packages.None? {
      return Err(MissingPackages);
    }
    var extra := LoadExtraFiles(listing);
    var merged := primary.packages.value + extra;
    if primary.oss.None? {
      return Err(MissingStorage);
    }
    var oss := primary.oss.value;
    var cdn := CdnBaseUrl(oss);
    var named := EnsureInitials(merged, romanize);
    if named.Err? {
      return Err(named.error);
    }
    var initials := Initials(named.value);
    FirstSortErrorOnlyReadsVersions(named.value, merged, ord);
    var sorted := SortVersions(named.value, cdn, ord);
    if sorted.Err? {
      return Err(sorted.error);
    }
    var ps := sorted.value;
    BucketsOfOnlyReadInitials(AlphabetWithZero, ps, named.value);
    var d := CatalogData(ps, initials, oss, cdn, "", primary.extra);
    return Ok(d);
  }

  /** The merged catalog holds the primary packages followed by every
      fragment's, so its size is their sum. */
  lemma LoadedCount(primary: seq<Package>, listing: seq<Fragment>)
    ensures |primary + ExtraPackages(listing)| == |primary| + ContributedCount(listing)
  {
    ExtraPackagesCount(listing);
  }
}
