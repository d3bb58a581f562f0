/**
 * Which directories the scan of /data finds: the cache directory of each package of the primary
 * user, of each other user, and on external storage, and no others.
 */
module CacheDirs {
  import opened Wrappers
  import opened CacheTree
  import opened CacheCollect
  import opened CacheRoots

  /** The two are the same letter. */
  predicate SameLetter(c: char, d: char) {
    || c == d
    || ('A' <= c <= 'Z' && d as int == c as int + 32)
    || ('A' <= d <= 'Z' && c as int == d as int + 32)
  }

  predicate SameButCase(a: string, b: string) {
    |a| == |b| && forall i :: 0 <= i < |a| ==> SameLetter(a[i], b[i])
  }

  /** Of the entries of `e`, the one that stands for `dir`: the one with that very name, or else, if the
      directory can be read, the first whose name differs from it only in case. */
  ghost predicate StandsFor(e: Entry, dir: string, c: Entry)
    requires e.Directory?
  {
    || (c in e.entries && c.name == dir && !c.Other?)
    || (&& e.opens && (forall x :: x in e.entries && x.name == dir ==> x.Other?)
        && exists k :: IsFirst(e.entries, dir, k, c))
  }

  ghost predicate IsFirst(es: seq<Entry>, dir: string, k: int, c: Entry) {
    && 0 <= k < |es| && es[k] == c && SameButCase(c.name, dir)
    && forall j :: 0 <= j < k ==> !SameButCase(es[j].name, dir)
  }

  /** The cache directory of a package in the directory `e` of packages, which has the path `path`. */
  ghost predicate PackageCache(path: string, e: Entry, r: Entry) {
    && e.Directory? && e.opens
    && exists p, c :: CacheOf(path, e.entries, p, c, r)
  }

  ghost predicate CacheOf(path: string, es: seq<Entry>, p: Entry, c: Entry, r: Entry) {
    && p in es && p.Directory? && c in p.entries && c.Directory? && c.name == "cache"
    && r == Directory(path + p.name + "/cache", c.opens, c.entries)
  }

  /** In data/, where the path of that directory fits a buffer of 256 characters. */
  ghost predicate OfPrimaryUser(device: Entry, r: Entry)
    requires device.Directory?
  {
    && |device.name| + 6 < 256
    && exists data :: data in device.entries && data.name == "data" && PackageCache(device.name + "/data/", data, r)
  }

  /** In user/. */
  ghost predicate OfOtherUser(device: Entry, r: Entry)
    requires device.Directory?
  {
    exists users, u ::
      && users in device.entries && users.name == "user" && users.Directory? && users.opens
      && u in users.entries && PackageCache(device.name + "/user/" + u.name + "/", u, r)
  }

  /** In Android/data/ of a directory in media/ whose name starts with a digit. */
  ghost predicate OnExternalStorage(device: Entry, r: Entry)
    requires device.Directory?
  {
    exists media, u ::
      && media in device.entries && media.name == "media" && media.Directory? && media.opens
      && u in media.entries && OfMediaUser(device.name + "/media/", u, r)
  }

  ghost predicate OfMediaUser(base: string, u: Entry, r: Entry) {
    && u.Directory? && u.name != "" && u.name[0] in "0123456789"
    && exists android, data ::
         && StandsFor(u, "Android", android) && android.Directory? && StandsFor(android, "data", data)
         && PackageCache(base + u.name + "/" + android.name + "/" + data.name + "/", data, r)
  }

  ghost predicate IsCacheDir(device: Entry, r: Entry)
    requires device.Directory?
  {
    OfPrimaryUser(device, r) || OfOtherUser(device, r) || OnExternalStorage(device, r)
  }

  // ---------------------------------------------------------------- lookups

  lemma AlikeIs(a: string, b: string)
    ensures Alike(a, b) <==> SameButCase(a, b)
  {
    if |a| == |b| {
      forall i | 0 <= i < |a|
        ensures Lower(a[i]) == Lower(b[i]) <==> SameLetter(a[i], b[i])
      {
      }
    }
  }

  lemma {:induction false} FirstIs(es: seq<Entry>, dir: string, i: nat, c: Entry)
    requires i <= |es| && forall j :: 0 <= j < i ==> !SameButCase(es[j].name, dir)
    ensures FirstAlike(es, dir, i) == Some(c) ==> exists k :: IsFirst(es, dir, k, c)
    ensures (exists k :: IsFirst(es, dir, k, c)) ==> FirstAlike(es, dir, i) == Some(c)
    decreases |es| - i
  {
    if i < |es| {
      AlikeIs(es[i].name, dir);
      if SameButCase(es[i].name, dir) {
        assert IsFirst(es, dir, i, es[i]);
        if k :| IsFirst(es, dir, k, c) { assert k == i; }
      } else {
        FirstIs(es, dir, i + 1, c);
      }
    }
  }

  lemma {:induction false} LookupIs(e: Entry, dir: string, c: Entry)
    requires e.Directory? && DistinctNames(e.entries)
    ensures Lookup(e, dir) == Some(c) <==> StandsFor(e, dir, c)
  {
    FirstIs(e.entries, dir, 0, c);
    forall x | x in e.entries && x.name == dir
      ensures Child(e.entries, dir) == Some(x)
    {
      ChildIs(e.entries, x);
    }
  }

  lemma {:induction false} ChildFound(es: seq<Entry>, name: string, c: Entry)
    requires DistinctNames(es)
    ensures Child(es, name) == Some(c) <==> c in es && c.name == name
  {
    if c in es && c.name == name { ChildIs(es, c); }
  }

  // ---------------------------------------------------------------- one directory of packages

  lemma {:induction false} OwnIs(base: string, p: Entry, r: Entry)
    requires p.Directory? ==> DistinctNames(p.entries)
    ensures r in Own(base, p) ==> exists c :: CacheOf(base, [p], p, c, r)
    ensures (exists c :: CacheOf(base, [p], p, c, r)) ==> r in Own(base, p)
  {
    if r in Own(base, p) {
      var c := Child(p.entries, CACHE).value;
      assert base + p.name + "/" + c.name == base + p.name + "/cache";
      assert CacheOf(base, [p], p, c, r);
    }
    if c :| CacheOf(base, [p], p, c, r) {
      ChildIs(p.entries, c);
      assert base + p.name + "/" + c.name == base + p.name + "/cache";
    }
  }

  lemma {:induction false} PackagesAre(base: string, es: seq<Entry>, n: nat, r: Entry)
    requires n <= |es| && r in PackageRoots(base, es, n)
    ensures exists k :: 0 <= k < n && r in Own(base, es[k])
  {
    if r !in Own(base, es[n - 1]) { PackagesAre(base, es, n - 1, r); }
  }

  lemma {:induction false} FoundIsCache(path: string, e: Entry, r: Entry)
    requires e.Directory? && SoundInside(e) && r in PackageRoots(path, e.entries, |e.entries|)
    ensures exists p, c :: CacheOf(path, e.entries, p, c, r)
  {
    PackagesAre(path, e.entries, |e.entries|, r);
    var k :| 0 <= k < |e.entries| && r in Own(path, e.entries[k]);
    var p := e.entries[k];
    if p.Directory? { SoundBelow(e, p); }
    OwnIs(path, p, r);
    var c :| CacheOf(path, [p], p, c, r);
    assert CacheOf(path, e.entries, p, c, r);
  }

  lemma {:induction false} CacheIsFound(path: string, e: Entry, p: Entry, c: Entry, r: Entry)
    requires e.Directory? && SoundInside(e) && CacheOf(path, e.entries, p, c, r)
    ensures r in PackageRoots(path, e.entries, |e.entries|)
  {
    SoundBelow(e, p);
    assert CacheOf(path, [p], p, c, r);
    OwnIs(path, p, r);
    var k :| 0 <= k < |e.entries| && e.entries[k] == p;
    AmongPackages(path, e.entries, |e.entries|, k, r);
  }

  lemma {:induction false} AllPackagesAre(base: string, e: Entry, path: string, r: Entry)
    requires (e.Directory? ==> SoundInside(e)) && path == base + e.name + "/"
    ensures r in AllPackages(base, e) <==> PackageCache(path, e, r)
  {
    if r in AllPackages(base, e) { FoundIsCache(path, e, r); }
    if PackageCache(path, e, r) {
      var p, c :| CacheOf(path, e.entries, p, c, r);
      CacheIsFound(path, e, p, c, r);
    }
  }

  // ---------------------------------------------------------------- the three kinds

  lemma {:induction false} PrimaryIs(device: Entry, r: Entry)
    requires device.Directory? && SoundInside(device)
    ensures r in Primary(device) <==> OfPrimaryUser(device, r)
  {
    var pre := device.name + "/";
    assert |device.name + "/data/"| == |device.name| + 6;
    forall data | data in device.entries && data.name == "data"
      ensures Child(device.entries, "data") == Some(data)
      ensures r in AllPackages(pre, data) <==> PackageCache(device.name + "/data/", data, r)
    {
      ChildIs(device.entries, data);
      if data.Directory? { SoundBelow(device, data); }
      assert pre + data.name + "/" == device.name + "/data/";
      AllPackagesAre(pre, data, device.name + "/data/", r);
    }
  }

  lemma {:induction false} UsersAre(base: string, es: seq<Entry>, n: nat, r: Entry)
    requires n <= |es| && r in UserRoots(base, es, n)
    ensures exists k :: 0 <= k < n && r in AllPackages(base, es[k])
  {
    var before, last := UserRoots(base, es, n - 1), AllPackages(base, es[n - 1]);
    assert UserRoots(base, es, n) == before + last;
    if r !in last { UsersAre(base, es, n - 1, r); }
  }

  /** Of the users in the directory `users` with path `base`. */
  lemma {:induction false} SomeUser(base: string, users: Entry, r: Entry)
    requires users.Directory? && SoundInside(users)
    ensures r in UserRoots(base, users.entries, |users.entries|) ==>
              exists u :: u in users.entries && PackageCache(base + u.name + "/", u, r)
    ensures (exists u :: u in users.entries && PackageCache(base + u.name + "/", u, r)) ==>
              r in UserRoots(base, users.entries, |users.entries|)
  {
    var es := users.entries;
    forall u | u in es
      ensures r in AllPackages(base, u) <==> PackageCache(base + u.name + "/", u, r)
    {
      if u.Directory? { SoundBelow(users, u); }
      AllPackagesAre(base, u, base + u.name + "/", r);
    }
    if r in UserRoots(base, es, |es|) {
      UsersAre(base, es, |es|, r);
      var k :| 0 <= k < |es| && r in AllPackages(base, es[k]);
      assert es[k] in es;
    }
    if u :| u in es && PackageCache(base + u.name + "/", u, r) {
      var k :| 0 <= k < |es| && es[k] == u;
      AmongUsers(base, es, |es|, k, r);
    }
  }

  lemma {:induction false} SecondaryAre(device: Entry, r: Entry)
    requires device.Directory? && SoundInside(device)
    ensures r in Secondary(device) <==> OfOtherUser(device, r)
  {
    var base := device.name + "/user/";
    forall users | users in device.entries && users.name == "user"
      ensures Child(device.entries, "user") == Some(users)
    {
      ChildIs(device.entries, users);
    }
    var child := Child(device.entries, "user");
    if child.Some? && child.value.Directory? && child.value.opens {
      var users := child.value;
      SoundBelow(device, users);
      SomeUser(base, users, r);
      UserDirIs(device, users);
    }
  }

  lemma UserDirIs(device: Entry, users: Entry)
    requires device.Directory? && Child(device.entries, "user") == Some(users) && users.Directory? && users.opens
    ensures Secondary(device) == UserRoots(device.name + "/user/", users.entries, |users.entries|)
  {
    assert device.name + "/" + "user" + "/" == device.name + "/user/";
  }

  lemma {:induction false} MediaOfIs(base: string, u: Entry, r: Entry)
    requires u.Directory? ==> SoundInside(u)
    ensures r in MediaOf(base, u) <==> OfMediaUser(base, u, r)
  {
    if u.Directory? && u.name != "" {
      var c := u.name[0];
      assert '0' <= c <= '9' <==> c in "0123456789";
      forall android
        ensures Lookup(u, "Android") == Some(android) <==> StandsFor(u, "Android", android)
      {
        LookupIs(u, "Android", android);
      }
      var found := Lookup(u, "Android");
      if found.Some? && found.value.Directory? {
        var android := found.value;
        SoundBelow(u, android);
        MediaDataIs(base + u.name + "/", android, r);
      }
    }
  }

  lemma {:induction false} MediaDataIs(inner: string, android: Entry, r: Entry)
    requires android.Directory? && SoundInside(android)
    ensures forall data :: StandsFor(android, "data", data) <==> Lookup(android, "data") == Some(data)
    ensures forall data :: Lookup(android, "data") == Some(data) ==>
              (r in AllPackages(inner + android.name + "/", data) <==>
               PackageCache(inner + android.name + "/" + data.name + "/", data, r))
  {
    forall data
      ensures Lookup(android, "data") == Some(data) <==> StandsFor(android, "data", data)
    {
      LookupIs(android, "data", data);
    }
    var found := Lookup(android, "data");
    if found.Some? {
      if found.value.Directory? { SoundBelow(android, found.value); }
      AllPackagesAre(inner + android.name + "/", found.value, inner + android.name + "/" + found.value.name + "/", r);
    }
  }

  lemma {:induction false} MediasAre(base: string, es: seq<Entry>, n: nat, r: Entry)
    requires n <= |es| && r in MediaRoots(base, es, n)
    ensures exists k :: 0 <= k < n && r in MediaOf(base, es[k])
  {
    if r !in MediaOf(base, es[n - 1]) { MediasAre(base, es, n - 1, r); }
  }

  lemma InJoined(a: seq<Entry>, b: seq<Entry>, c: seq<Entry>, r: Entry)
    requires c == a + b && (r in a || r in b)
    ensures r in c
  {
  }

  lemma {:induction false} AmongMedia(base: string, es: seq<Entry>, n: nat, k: nat, r: Entry)
    requires k < n <= |es| && r in MediaOf(base, es[k])
    ensures r in MediaRoots(base, es, n)
  {
    var sums := seq(n + 1, i requires 0 <= i <= n => MediaRoots(base, es, i));
    var parts := seq(n, i requires 0 <= i < n => MediaOf(base, es[i]));
    MediaSums(base, es, n, sums, parts);
    InSum(sums, parts, n, k, r);
  }

  lemma {:induction false} MediaSums(base: string, es: seq<Entry>, n: nat, sums: seq<seq<Entry>>,
                                     parts: seq<seq<Entry>>)
    requires n <= |es| && |sums| == n + 1 && |parts| == n
    requires forall i :: 0 <= i <= n ==> sums[i] == MediaRoots(base, es, i)
    requires forall i :: 0 <= i < n ==> parts[i] == MediaOf(base, es[i])
    ensures forall j :: 0 <= j < n ==> sums[j + 1] == sums[j] + parts[j]
  {
    forall j | 0 <= j < n
      ensures sums[j + 1] == sums[j] + parts[j]
    {
      MediaMore(base, es, j);
    }
  }

  /** What is in one of the parts is in their sum. */
  lemma {:induction false} InSum(sums: seq<seq<Entry>>, parts: seq<seq<Entry>>, n: nat, k: nat, r: Entry)
    requires k < n <= |parts| && |sums| == |parts| + 1 && r in parts[k]
    requires forall j :: 0 <= j < |parts| ==> sums[j + 1] == sums[j] + parts[j]
    ensures r in sums[n]
  {
    if k < n - 1 { InSum(sums, parts, n - 1, k, r); }
    InJoined(sums[n - 1], parts[n - 1], sums[n], r);
  }

  lemma {:induction false} SomeMediaUser(base: string, media: Entry, r: Entry)
    requires media.Directory? && SoundInside(media)
    ensures r in MediaRoots(base, media.entries, |media.entries|) ==>
              exists u :: u in media.entries && OfMediaUser(base, u, r)
    ensures (exists u :: u in media.entries && OfMediaUser(base, u, r)) ==>
              r in MediaRoots(base, media.entries, |media.entries|)
  {
    var es := media.entries;
    forall u | u in es
      ensures r in MediaOf(base, u) <==> OfMediaUser(base, u, r)
    {
      if u.Directory? { SoundBelow(media, u); }
      MediaOfIs(base, u, r);
    }
    if r in MediaRoots(base, es, |es|) {
      MediasAre(base, es, |es|, r);
      var k :| 0 <= k < |es| && r in MediaOf(base, es[k]);
      assert es[k] in es;
    }
    if u :| u in es && OfMediaUser(base, u, r) {
      var k :| 0 <= k < |es| && es[k] == u;
      AmongMedia(base, es, |es|, k, r);
    }
  }

  lemma {:induction false} MediaIs(device: Entry, r: Entry)
    requires device.Directory? && SoundInside(device)
    ensures r in Media(device) <==> OnExternalStorage(device, r)
  {
    var base := device.name + "/media/";
    forall media | media in device.entries && media.name == "media"
      ensures Child(device.entries, "media") == Some(media)
    {
      ChildIs(device.entries, media);
    }
    var child := Child(device.entries, "media");
    if child.Some? && child.value.Directory? && child.value.opens {
      var media := child.value;
      SoundBelow(device, media);
      SomeMediaUser(base, media, r);
      MediaDirIs(device, media);
    }
  }

  lemma MediaDirIs(device: Entry, media: Entry)
    requires device.Directory? && Child(device.entries, "media") == Some(media) && media.Directory? && media.opens
    ensures Media(device) == MediaRoots(device.name + "/media/", media.entries, |media.entries|)
  {
    assert device.name + "/" + "media" + "/" == device.name + "/media/";
  }

  /** On every device the scan finds exactly the cache directories of these three kinds. */
  lemma {:induction false} RootsAre(device: Entry, r: Entry)
    requires device.Directory? && SoundInside(device)
    ensures r in Roots(device) <==> IsCacheDir(device, r)
  {
    PrimaryIs(device, r);
    SecondaryAre(device, r);
    MediaIs(device, r);
  }

  /** The primary user's, for example: /data/data/com.a/cache. */
  lemma {:induction false} PrimaryCacheFound(device: Entry, data: Entry, p: Entry, c: Entry)
    requires device.Directory? && SoundInside(device) && |device.name| + 6 < 256
    requires data in device.entries && data.name == "data" && data.Directory? && data.opens
    requires p in data.entries && p.Directory? && c in p.entries && c.Directory? && c.name == "cache"
    ensures Directory(device.name + "/data/" + p.name + "/cache", c.opens, c.entries) in Roots(device)
  {
    var r := Directory(device.name + "/data/" + p.name + "/cache", c.opens, c.entries);
    assert CacheOf(device.name + "/data/", data.entries, p, c, r);
    RootsAre(device, r);
  }

  /** On external storage, for example: /data/media/0/Android/data/com.a/cache. */
  lemma {:induction false} MediaCacheFound(device: Entry, media: Entry, u: Entry, android: Entry, data: Entry, p: Entry,
                                           c: Entry)
    requires device.Directory? && SoundInside(device)
    requires media in device.entries && media.name == "media" && media.Directory? && media.opens
    requires u in media.entries && u.Directory? && u.name != "" && u.name[0] in "0123456789"
    requires android in u.entries && android.Directory? && android.name == "Android"
    requires data in android.entries && data.Directory? && data.name == "data" && data.opens
    requires p in data.entries && p.Directory? && c in p.entries && c.Directory? && c.name == "cache"
    ensures Directory(device.name + "/media/" + u.name + "/Android/data/" + p.name + "/cache", c.opens, c.entries)
            in Roots(device)
  {
    var base := device.name + "/media/";
    var path := base + u.name + "/Android/data/";
    var r := Directory(path + p.name + "/cache", c.opens, c.entries);
    assert path == base + u.name + "/" + android.name + "/" + data.name + "/";
    assert CacheOf(path, data.entries, p, c, r);
    assert OfMediaUser(base, u, r);
    RootsAre(device, r);
  }
}
