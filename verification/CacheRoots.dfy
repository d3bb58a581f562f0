/**
 * The scan of /data for cache directories: the part of `free_cache` that looks for users,
 * `lookup_media_dir`, and the loop of `add_cache_files`.
 *
 * The device is one directory tree, listed like those that `_add_cache_files` walks.
 */
module CacheRoots {
  import opened Wrappers
  import opened Limits
  import opened CacheTree
  import opened CacheCollect

  const CACHE := "cache"

  // ---------------------------------------------------------------- looking up a name

  /** The entry called `name`, as the kernel finds it. */
  function Child(es: seq<Entry>, name: string): (r: Option<Entry>)
    ensures r.Some? ==> r.value in es && r.value.name == name
    ensures r.None? ==> forall e :: e in es ==> e.name != name
  {
    if es == [] then None
    else if es[0].name == name then Some(es[0])
    else Child(es[1..], name)
  }

  function Lower(c: char): char {
    if 'A' <= c <= 'Z' then c - 'A' + 'a' else c
  }

  /** `strcasecmp(a, b) == 0`. */
  predicate Alike(a: string, b: string) {
    |a| == |b| && forall i :: 0 <= i < |a| ==> Lower(a[i]) == Lower(b[i])
  }

  /** The first entry, from entry `i` on, whose name differs from `dir` at most in case. */
  function FirstAlike(es: seq<Entry>, dir: string, i: nat): (r: Option<Entry>)
    requires i <= |es|
    ensures r.Some? ==> r.value in es
    decreases |es| - i
  {
    if i == |es| then None
    else if Alike(es[i].name, dir) then Some(es[i])
    else FirstAlike(es, dir, i + 1)
  }

  /** What `lookup_media_dir` settles on: the entry with the very name, else the first that is alike. */
  function Lookup(e: Entry, dir: string): (r: Option<Entry>)
    requires e.Directory?
    ensures r.Some? ==> r.value in e.entries
  {
    var exact := Child(e.entries, dir);
    if exact.Some? && !exact.value.Other? then exact
    else if e.opens then FirstAlike(e.entries, dir, 0)
    else None
  }

  lemma {:induction false} FirstIsAlike(es: seq<Entry>, dir: string, i: nat)
    requires i <= |es|
    ensures match FirstAlike(es, dir, i)
            case Some(c) => Alike(c.name, dir)
            case None => forall j :: i <= j < |es| ==> !Alike(es[j].name, dir)
    decreases |es| - i
  {
    if i < |es| { FirstIsAlike(es, dir, i + 1); }
  }

  /** The very name is preferred; otherwise a directory that can be read gives an entry that is alike
      if there is one, and nothing else is ever found. */
  lemma LookupFinds(e: Entry, dir: string, c: Entry)
    requires e.Directory? && DistinctNames(e.entries) && c in e.entries
    ensures c.name == dir && !c.Other? ==> Lookup(e, dir) == Some(c)
    ensures Alike(c.name, dir) && e.opens ==> Lookup(e, dir).Some?
    ensures Lookup(e, dir).Some? ==> Alike(Lookup(e, dir).value.name, dir)
  {
    FirstIsAlike(e.entries, dir, 0);
    if c.name == dir { ChildIs(e.entries, c); }
  }

  /** `lookup_media_dir`. */
  method LookupMediaDir(e: Entry, dir: string) returns (r: Option<Entry>)
    requires e.Directory?
    ensures r == Lookup(e, dir)
  {
    r := Child(e.entries, dir);
    if r.Some? && !r.value.Other? { return; }
    if !e.opens { return None; }
    var i := 0;
    while i < |e.entries|
      invariant 0 <= i <= |e.entries| && FirstAlike(e.entries, dir, 0) == FirstAlike(e.entries, dir, i)
    {
      if Alike(e.entries[i].name, dir) { return Some(e.entries[i]); }
      i := i + 1;
    }
    r := None;
  }

  // ---------------------------------------------------------------- the cache directories of a device

  function Renamed(c: Entry, name: string): Entry
    requires c.Directory?
  {
    Directory(name, c.opens, c.entries)
  }

  /** The cache directory of package `e` of the directory `base`, by its full path. */
  function Own(base: string, e: Entry): (r: seq<Entry>) {
    if !e.Directory? then []
    else match Child(e.entries, CACHE)
      case Some(Directory(name, opens, es)) => [Directory(base + e.name + "/" + name, opens, es)]
      case _ => []
  }

  /** Those of the first `n` packages in `base`. */
  function PackageRoots(base: string, es: seq<Entry>, n: nat): seq<Entry>
    requires n <= |es|
  {
    if n == 0 then [] else PackageRoots(base, es, n - 1) + Own(base, es[n - 1])
  }

  function AllPackages(base: string, e: Entry): seq<Entry> {
    if e.Directory? && e.opens then PackageRoots(base + e.name + "/", e.entries, |e.entries|) else []
  }

  /** Those of the first `n` users in `base`. */
  function UserRoots(base: string, es: seq<Entry>, n: nat): seq<Entry>
    requires n <= |es|
  {
    if n == 0 then [] else UserRoots(base, es, n - 1) + AllPackages(base, es[n - 1])
  }

  predicate StartsWithDigit(s: string) {
    s != [] && '0' <= s[0] <= '9'
  }

  /** Those in the media directory of user `e`. */
  function MediaOf(base: string, e: Entry): seq<Entry> {
    if !e.Directory? || !StartsWithDigit(e.name) then [] else
      var android := Lookup(e, "Android");
      if android.None? || !android.value.Directory? then [] else
        var data := Lookup(android.value, "data");
        if data.None? then [] else AllPackages(base + e.name + "/" + android.value.name + "/", data.value)
  }

  function MediaRoots(base: string, es: seq<Entry>, n: nat): seq<Entry>
    requires n <= |es|
  {
    if n == 0 then [] else MediaRoots(base, es, n - 1) + MediaOf(base, es[n - 1])
  }

  /** The path of the primary user's packages fits its buffer. */
  predicate PrimaryFits(device: Entry) {
    |device.name + "/data/"| < PKG_PATH_MAX
  }

  function Primary(device: Entry): seq<Entry>
    requires device.Directory?
  {
    var data := Child(device.entries, "data");
    if data.Some? && PrimaryFits(device) then AllPackages(device.name + "/", data.value) else []
  }

  function Secondary(device: Entry): seq<Entry>
    requires device.Directory?
  {
    match Child(device.entries, "user")
    case Some(Directory(name, true, es)) => UserRoots(device.name + "/" + name + "/", es, |es|)
    case _ => []
  }

  function Media(device: Entry): seq<Entry>
    requires device.Directory?
  {
    match Child(device.entries, "media")
    case Some(Directory(name, true, es)) => MediaRoots(device.name + "/" + name + "/", es, |es|)
    case _ => []
  }

  /** All cache directories that `free_cache` finds, in the order in which it finds them. */
  function Roots(device: Entry): seq<Entry>
    requires device.Directory?
  {
    Primary(device) + Secondary(device) + Media(device)
  }

  // ---------------------------------------------------------------- the loops

  /** The loop of `add_cache_files`. */
  method AddCacheFiles(base: string, e: Entry) returns (roots: seq<Entry>)
    ensures roots == AllPackages(base, e)
  {
    roots := [];
    if !e.Directory? || !e.opens { return; }
    var i := 0;
    while i < |e.entries|
      invariant 0 <= i <= |e.entries| && roots == PackageRoots(base + e.name + "/", e.entries, i)
    {
      var package := e.entries[i];
      if package.Directory? {
        var sub := Child(package.entries, CACHE);
        if sub.Some? && sub.value.Directory? {
          roots := roots + [Renamed(sub.value, base + e.name + "/" + package.name + "/" + CACHE)];
        }
      }
      i := i + 1;
    }
  }

  /** The loop over the other users. */
  method AddUsers(base: string, es: seq<Entry>) returns (roots: seq<Entry>)
    ensures roots == UserRoots(base, es, |es|)
  {
    roots := [];
    var i := 0;
    while i < |es|
      invariant 0 <= i <= |es| && roots == UserRoots(base, es, i)
    {
      var more := [];
      if es[i].Directory? { more := AddCacheFiles(base, es[i]); }
      i, roots := i + 1, roots + more;
    }
  }

  /** One turn of the loop over the media directories. */
  method AddMediaOf(base: string, user: Entry) returns (roots: seq<Entry>)
    ensures roots == MediaOf(base, user)
  {
    roots := [];
    if user.Directory? && StartsWithDigit(user.name) {
      var android := LookupMediaDir(user, "Android");
      if android.Some? && android.value.Directory? {
        var data := LookupMediaDir(android.value, "data");
        if data.Some? {
          roots := AddCacheFiles(base + user.name + "/" + android.value.name + "/", data.value);
        }
      }
    }
  }

  lemma MediaMore(base: string, es: seq<Entry>, i: nat)
    requires i < |es|
    ensures MediaRoots(base, es, i + 1) == MediaRoots(base, es, i) + MediaOf(base, es[i])
  {
  }

  /** The loop over the media directories. */
  method AddMedia(base: string, es: seq<Entry>) returns (roots: seq<Entry>)
    ensures roots == MediaRoots(base, es, |es|)
  {
    roots := [];
    var i := 0;
    while i < |es|
      invariant 0 <= i <= |es| && roots == MediaRoots(base, es, i)
    {
      var more := AddMediaOf(base, es[i]);
      MediaMore(base, es, i);
      i, roots := i + 1, roots + more;
    }
  }

  /** For the primary user. */
  method FindPrimary(device: Entry) returns (roots: seq<Entry>)
    requires device.Directory?
    ensures roots == Primary(device)
  {
    var data := Child(device.entries, "data");
    roots := [];
    if data.Some? && PrimaryFits(device) { roots := AddCacheFiles(device.name + "/", data.value); }
  }

  /** For the other users. */
  method FindSecondary(device: Entry) returns (roots: seq<Entry>)
    requires device.Directory?
    ensures roots == Secondary(device)
  {
    var users := Child(device.entries, "user");
    roots := [];
    if users.Some? && users.value.Directory? && users.value.opens {
      roots := AddUsers(device.name + "/" + users.value.name + "/", users.value.entries);
    }
  }

  /** On external storage. */
  method FindMedia(device: Entry) returns (roots: seq<Entry>)
    requires device.Directory?
    ensures roots == Media(device)
  {
    var media := Child(device.entries, "media");
    roots := [];
    if media.Some? && media.value.Directory? && media.value.opens {
      roots := AddMedia(device.name + "/" + media.value.name + "/", media.value.entries);
    }
  }

  /** The scan in `free_cache`. */
  method FindRoots(device: Entry) returns (roots: seq<Entry>)
    requires device.Directory?
    ensures roots == Roots(device)
  {
    var primary := FindPrimary(device);
    var secondary := FindSecondary(device);
    var media := FindMedia(device);
    roots := primary + secondary + media;
  }

  // ---------------------------------------------------------------- none lies in another

  ghost predicate SoundEntries(es: seq<Entry>) {
    DistinctNames(es) && forall k :: 0 <= k < |es| ==> Sound(es[k])
  }

  ghost predicate AllAgree(pre: string, es: seq<Entry>, nodes: set<string>) {
    forall k :: 0 <= k < |es| ==> Agrees(pre, es[k], nodes)
  }

  predicate EndsInCache(path: string) {
    |path| >= 6 && path[|path| - 6..] == "/" + CACHE
  }

  /** Directories called cache by their full paths, none of which lies in another; if `agree`, the disk
      agrees with each. */
  ghost predicate Good(rs: seq<Entry>, nodes: set<string>, agree: bool) {
    && (forall i :: 0 <= i < |rs| ==> && rs[i].Directory? && SoundInside(rs[i]) && EndsInCache(rs[i].name)
                                      && (agree ==> Agrees("", rs[i], nodes)))
    && (forall i, j :: 0 <= i < |rs| && 0 <= j < |rs| && i != j ==> !(rs[i].name + "/" <= rs[j].name + "/"))
  }

  /** All lie below the directory with path `p`. */
  ghost predicate Beneath(p: string, rs: seq<Entry>) {
    forall i :: 0 <= i < |rs| ==> p <= rs[i].name + "/"
  }

  ghost predicate LiesIn(base: string, es: seq<Entry>, n: nat, r: Entry)
    requires n <= |es|
  {
    exists k :: 0 <= k < n && base + es[k].name + "/" <= r.name + "/"
  }

  /** Each lies below one of the first `n` entries of `base`. */
  ghost predicate Spread(base: string, es: seq<Entry>, n: nat, rs: seq<Entry>)
    requires n <= |es|
  {
    forall i :: 0 <= i < |rs| ==> LiesIn(base, es, n, rs[i])
  }

  lemma SpreadAt(base: string, es: seq<Entry>, n: nat, rs: seq<Entry>, i: nat) returns (k: nat)
    requires n <= |es| && Spread(base, es, n, rs) && i < |rs|
    ensures k < n && base + es[k].name + "/" <= rs[i].name + "/"
  {
    assert LiesIn(base, es, n, rs[i]);
    var j :| 0 <= j < n && base + es[j].name + "/" <= rs[i].name + "/";
    k := j;
  }

  lemma SpreadIsBeneath(base: string, es: seq<Entry>, n: nat, rs: seq<Entry>, p: string)
    requires n <= |es| && Spread(base, es, n, rs) && p <= base
    ensures Beneath(p, rs)
  {
    forall i | 0 <= i < |rs|
      ensures p <= rs[i].name + "/"
    {
      var k := SpreadAt(base, es, n, rs, i);
    }
  }

  lemma BelowOther(base: string, a: string, b: string, m: string, n: string)
    requires SlashFree(a) && SlashFree(b) && a != b && base + a + "/" <= m && base + b + "/" <= n
    ensures !(m <= n)
  {
    if m <= n { EntriesApart(base, a, b, n); }
  }

  /** Directories below different entries of one directory are apart. */
  lemma Apart(base: string, a: string, b: string, rs: seq<Entry>, qs: seq<Entry>, nodes: set<string>, agree: bool)
    requires SlashFree(a) && SlashFree(b) && a != b && Beneath(base + a + "/", rs) && Beneath(base + b + "/", qs)
    requires Good(rs, nodes, agree) && Good(qs, nodes, agree)
    ensures Good(rs + qs, nodes, agree)
  {
    var all := rs + qs;
    forall i, j | 0 <= i < |all| && 0 <= j < |all| && i != j
      ensures !(all[i].name + "/" <= all[j].name + "/")
    {
      if i < |rs| <= j {
        BelowOther(base, a, b, all[i].name + "/", all[j].name + "/");
      } else if j < |rs| <= i {
        BelowOther(base, b, a, all[i].name + "/", all[j].name + "/");
      }
    }
  }

  /** The directories of one more entry. */
  lemma OneMore(base: string, es: seq<Entry>, n: nat, rs: seq<Entry>, qs: seq<Entry>, nodes: set<string>, agree: bool)
    requires SoundEntries(es) && 0 < n <= |es|
    requires Spread(base, es, n - 1, rs) && Beneath(base + es[n - 1].name + "/", qs)
    requires Good(rs, nodes, agree) && Good(qs, nodes, agree)
    ensures Good(rs + qs, nodes, agree) && Spread(base, es, n, rs + qs)
  {
    var all := rs + qs;
    forall i, j | 0 <= i < |all| && 0 <= j < |all| && i != j
      ensures !(all[i].name + "/" <= all[j].name + "/")
    {
      if i < |rs| <= j {
        var k := SpreadAt(base, es, n - 1, rs, i);
        BelowOther(base, es[k].name, es[n - 1].name, all[i].name + "/", all[j].name + "/");
      } else if j < |rs| <= i {
        var k := SpreadAt(base, es, n - 1, rs, j);
        BelowOther(base, es[n - 1].name, es[k].name, all[i].name + "/", all[j].name + "/");
      }
    }
    forall i | 0 <= i < |all|
      ensures LiesIn(base, es, n, all[i])
    {
      if i < |rs| {
        var k := SpreadAt(base, es, n - 1, rs, i);
      } else {
        assert base + es[n - 1].name + "/" <= all[i].name + "/";
      }
    }
  }

  /** A disk that agrees with a directory's listing agrees with each entry's. */
  lemma {:induction false} EntriesAgree(pre: string, e: Entry, nodes: set<string>)
    requires e.Directory? && SoundInside(e) && Agrees(pre, e, nodes)
    ensures AllAgree(pre + e.name + "/", e.entries, nodes)
  {
    var inner, es := pre + e.name + "/", e.entries;
    forall k, n | 0 <= k < |es| && InEntry(inner, es[k], n)
      ensures n in nodes
    {
      assert InEntry(pre, e, n);
    }
    forall k, n | 0 <= k < |es| && n in nodes && OfEntry(inner, es[k].name, n)
      ensures InEntry(inner, es[k], n)
    {
      assert inner < n && OfEntry(pre, e.name, n) && InEntry(pre, e, n);
      var j :| 0 <= j < |es| && InEntry(inner, es[j], n);
      InEntryIsOfEntry(inner, es[j], n);
      EntriesApart(inner, es[j].name, es[k].name, n);
    }
  }

  /** A directory called by its full path is the same directory. */
  lemma {:induction false} ByFullPath(pre: string, c: Entry, r: Entry, nodes: set<string>)
    requires c.Directory? && r == Renamed(c, pre + c.name)
    ensures SoundInside(c) ==> SoundInside(r)
    ensures Agrees(pre, c, nodes) ==> Agrees("", r, nodes)
  {
    assert "" + r.name == pre + c.name;
    forall n
      ensures InEntry("", r, n) <==> InEntry(pre, c, n)
      ensures OfEntry("", r.name, n) <==> OfEntry(pre, c.name, n)
    {
    }
  }

  lemma {:induction false} OwnGood(base: string, e: Entry, nodes: set<string>, agree: bool)
    requires Sound(e) && (agree ==> Agrees(base, e, nodes))
    ensures Good(Own(base, e), nodes, agree) && Beneath(base + e.name + "/", Own(base, e))
  {
    var rs := Own(base, e);
    if rs != [] {
      var c := Child(e.entries, CACHE).value;
      assert rs == [Renamed(c, base + e.name + "/" + c.name)];
      var k :| 0 <= k < |e.entries| && e.entries[k] == c;
      assert Sound(e.entries[k]);
      if agree {
        EntriesAgree(base, e, nodes);
        assert Agrees(base + e.name + "/", e.entries[k], nodes);
      }
      ByFullPath(base + e.name + "/", c, rs[0], nodes);
      assert rs[0].name + "/" == base + e.name + "/" + (c.name + "/");
      assert rs[0].name == base + e.name + ("/" + CACHE);
    }
  }

  lemma {:induction false} PackagesGood(base: string, es: seq<Entry>, n: nat, nodes: set<string>, agree: bool)
    requires SoundEntries(es) && n <= |es| && (agree ==> AllAgree(base, es, nodes))
    ensures Good(PackageRoots(base, es, n), nodes, agree) && Spread(base, es, n, PackageRoots(base, es, n))
  {
    if n > 0 {
      PackagesGood(base, es, n - 1, nodes, agree);
      OwnGood(base, es[n - 1], nodes, agree);
      OneMore(base, es, n, PackageRoots(base, es, n - 1), Own(base, es[n - 1]), nodes, agree);
    }
  }

  lemma {:induction false} AllPackagesGood(base: string, e: Entry, nodes: set<string>, agree: bool)
    requires Sound(e) && (agree ==> Agrees(base, e, nodes))
    ensures Good(AllPackages(base, e), nodes, agree) && Beneath(base + e.name + "/", AllPackages(base, e))
  {
    if e.Directory? && e.opens {
      if agree { EntriesAgree(base, e, nodes); }
      PackagesGood(base + e.name + "/", e.entries, |e.entries|, nodes, agree);
      SpreadIsBeneath(base + e.name + "/", e.entries, |e.entries|, AllPackages(base, e), base + e.name + "/");
    }
  }

  lemma {:induction false} UsersGood(base: string, es: seq<Entry>, n: nat, nodes: set<string>, agree: bool)
    requires SoundEntries(es) && n <= |es| && (agree ==> AllAgree(base, es, nodes))
    ensures Good(UserRoots(base, es, n), nodes, agree) && Spread(base, es, n, UserRoots(base, es, n))
  {
    if n > 0 {
      UsersGood(base, es, n - 1, nodes, agree);
      AllPackagesGood(base, es[n - 1], nodes, agree);
      OneMore(base, es, n, UserRoots(base, es, n - 1), AllPackages(base, es[n - 1]), nodes, agree);
    }
  }

  lemma {:induction false} EntryGood(pre: string, e: Entry, c: Entry, nodes: set<string>, agree: bool)
    requires e.Directory? && SoundInside(e) && (agree ==> Agrees(pre, e, nodes)) && c in e.entries
    ensures Sound(c) && (agree ==> Agrees(pre + e.name + "/", c, nodes))
  {
    var k :| 0 <= k < |e.entries| && e.entries[k] == c;
    assert Sound(e.entries[k]);
    if agree {
      EntriesAgree(pre, e, nodes);
      assert Agrees(pre + e.name + "/", e.entries[k], nodes);
    }
  }

  lemma {:induction false} MediaOfGood(base: string, e: Entry, nodes: set<string>, agree: bool)
    requires Sound(e) && (agree ==> Agrees(base, e, nodes))
    ensures Good(MediaOf(base, e), nodes, agree) && Beneath(base + e.name + "/", MediaOf(base, e))
  {
    if e.Directory? && Lookup(e, "Android").Some? {
      var android := Lookup(e, "Android").value;
      EntryGood(base, e, android, nodes, agree);
      if android.Directory? && Lookup(android, "data").Some? {
        var data, inner := Lookup(android, "data").value, base + e.name + "/";
        EntryGood(inner, android, data, nodes, agree);
        AllPackagesGood(inner + android.name + "/", data, nodes, agree);
        assert inner <= inner + android.name + "/" + data.name + "/";
      }
    }
  }

  lemma {:induction false} MediaGood(base: string, es: seq<Entry>, n: nat, nodes: set<string>, agree: bool)
    requires SoundEntries(es) && n <= |es| && (agree ==> AllAgree(base, es, nodes))
    ensures Good(MediaRoots(base, es, n), nodes, agree) && Spread(base, es, n, MediaRoots(base, es, n))
  {
    if n > 0 {
      MediaGood(base, es, n - 1, nodes, agree);
      MediaOfGood(base, es[n - 1], nodes, agree);
      OneMore(base, es, n, MediaRoots(base, es, n - 1), MediaOf(base, es[n - 1]), nodes, agree);
    }
  }

  lemma {:induction false} PrimaryGood(device: Entry, nodes: set<string>, agree: bool)
    requires device.Directory? && SoundInside(device) && (agree ==> Agrees("", device, nodes))
    ensures Good(Primary(device), nodes, agree) && Beneath(device.name + "/" + "data" + "/", Primary(device))
  {
    var data, pre := Child(device.entries, "data"), device.name + "/";
    if data.Some? && PrimaryFits(device) {
      assert "" + device.name + "/" == pre;
      EntryGood("", device, data.value, nodes, agree);
      AllPackagesGood(pre, data.value, nodes, agree);
    }
  }

  lemma {:induction false} SecondaryGood(device: Entry, nodes: set<string>, agree: bool)
    requires device.Directory? && SoundInside(device) && (agree ==> Agrees("", device, nodes))
    ensures Good(Secondary(device), nodes, agree) && Beneath(device.name + "/" + "user" + "/", Secondary(device))
  {
    var users, base := Child(device.entries, "user"), device.name + "/" + "user" + "/";
    if users.Some? && users.value.Directory? && users.value.opens {
      var e := users.value;
      assert "" + device.name + "/" == device.name + "/";
      EntryGood("", device, e, nodes, agree);
      if agree { EntriesAgree(device.name + "/", e, nodes); }
      UsersGood(base, e.entries, |e.entries|, nodes, agree);
      SpreadIsBeneath(base, e.entries, |e.entries|, Secondary(device), base);
    }
  }

  lemma {:induction false} MediaDirGood(device: Entry, nodes: set<string>, agree: bool)
    requires device.Directory? && SoundInside(device) && (agree ==> Agrees("", device, nodes))
    ensures Good(Media(device), nodes, agree) && Beneath(device.name + "/" + "media" + "/", Media(device))
  {
    var media, base := Child(device.entries, "media"), device.name + "/" + "media" + "/";
    if media.Some? && media.value.Directory? && media.value.opens {
      var e := media.value;
      assert "" + device.name + "/" == device.name + "/";
      EntryGood("", device, e, nodes, agree);
      if agree { EntriesAgree(device.name + "/", e, nodes); }
      MediaGood(base, e.entries, |e.entries|, nodes, agree);
      SpreadIsBeneath(base, e.entries, |e.entries|, Media(device), base);
    }
  }

  /** No cache directory lies in another, whatever users and packages there are, and a disk that agrees
      with the whole tree agrees with each cache directory. */
  lemma {:induction false} RootsGood(device: Entry, nodes: set<string>, agree: bool)
    requires device.Directory? && SoundInside(device) && (agree ==> Agrees("", device, nodes))
    ensures Good(Roots(device), nodes, agree) && Beneath(device.name + "/", Roots(device))
  {
    var pre := device.name + "/";
    PrimaryGood(device, nodes, agree);
    SecondaryGood(device, nodes, agree);
    MediaDirGood(device, nodes, agree);
    Apart(pre, "data", "user", Primary(device), Secondary(device), nodes, agree);
    ThreeApart(pre, Primary(device), Secondary(device), Media(device), nodes, agree);
  }

  lemma ThreeApart(pre: string, a: seq<Entry>, b: seq<Entry>, c: seq<Entry>, nodes: set<string>, agree: bool)
    requires Good(a + b, nodes, agree) && Good(c, nodes, agree)
    requires Beneath(pre + "data" + "/", a) && Beneath(pre + "user" + "/", b) && Beneath(pre + "media" + "/", c)
    ensures Good(a + b + c, nodes, agree) && Beneath(pre, a + b + c)
  {
    var all := a + b + c;
    forall i, j | 0 <= i < |all| && 0 <= j < |all| && i != j
      ensures !(all[i].name + "/" <= all[j].name + "/")
    {
      var x := if i < |a| then "data" else if i < |a + b| then "user" else "media";
      var y := if j < |a| then "data" else if j < |a + b| then "user" else "media";
      if i < |a + b| && j < |a + b| {
        assert (a + b)[i] == all[i] && (a + b)[j] == all[j];
      } else if x != y {
        BelowOther(pre, x, y, all[i].name + "/", all[j].name + "/");
      }
    }
  }

  // ---------------------------------------------------------------- all are found

  lemma {:induction false} ChildIs(es: seq<Entry>, c: Entry)
    requires DistinctNames(es) && c in es
    ensures Child(es, c.name) == Some(c)
  {
    if es[0] != c {
      assert c in es[1..];
      assert forall i :: 0 <= i < |es| - 1 ==> es[1..][i] == es[i + 1];
      ChildIs(es[1..], c);
    }
  }

  lemma InEither(a: seq<Entry>, b: seq<Entry>, r: Entry)
    requires r in a || r in b
    ensures r in a + b
  {
  }

  lemma {:induction false} AmongPackages(base: string, es: seq<Entry>, n: nat, k: nat, r: Entry)
    requires k < n <= |es| && r in Own(base, es[k])
    ensures r in PackageRoots(base, es, n)
  {
    if k < n - 1 { AmongPackages(base, es, n - 1, k, r); }
    InEither(PackageRoots(base, es, n - 1), Own(base, es[n - 1]), r);
  }

  lemma {:induction false} AmongUsers(base: string, es: seq<Entry>, n: nat, k: nat, r: Entry)
    requires k < n <= |es| && r in AllPackages(base, es[k])
    ensures r in UserRoots(base, es, n)
  {
    if k < n - 1 { AmongUsers(base, es, n - 1, k, r); }
    InEither(UserRoots(base, es, n - 1), AllPackages(base, es[n - 1]), r);
  }

  /** The cache directory of package `p` is found in the directory `e` of packages. */
  lemma PackageFound(base: string, e: Entry, p: Entry, c: Entry)
    requires e.Directory? && e.opens && p in e.entries && p.Directory? && DistinctNames(p.entries)
    requires c in p.entries && c.Directory? && c.name == CACHE
    ensures Renamed(c, base + e.name + "/" + p.name + "/" + CACHE) in AllPackages(base, e)
  {
    ChildIs(p.entries, c);
    var k :| 0 <= k < |e.entries| && e.entries[k] == p;
    AmongPackages(base + e.name + "/", e.entries, |e.entries|, k,
                  Renamed(c, base + e.name + "/" + p.name + "/" + CACHE));
  }

  /** Of every user but the primary one, the cache directory of every package is found. */
  lemma {:induction false} UserCacheFound(device: Entry, users: Entry, u: Entry, p: Entry, c: Entry)
    requires device.Directory? && SoundInside(device) && users in device.entries && users.name == "user"
    requires users.Directory? && users.opens && u in users.entries && u.Directory? && u.opens
    requires p in u.entries && p.Directory? && c in p.entries && c.Directory? && c.name == CACHE
    ensures Renamed(c, device.name + "/user/" + u.name + "/" + p.name + "/" + CACHE) in Roots(device)
  {
    SoundBelow(device, users);
    SoundBelow(users, u);
    SoundBelow(u, p);
    SecondaryIs(device, users);
    AmongAll(device.name + "/user/", users, u, p, c);
    SecondaryAmongRoots(device, Renamed(c, device.name + "/user/" + u.name + "/" + p.name + "/" + CACHE));
  }

  lemma {:induction false} SoundBelow(e: Entry, c: Entry)
    requires e.Directory? && SoundInside(e) && c in e.entries && c.Directory?
    ensures SoundInside(c)
  {
    var k :| 0 <= k < |e.entries| && e.entries[k] == c;
    assert Sound(e.entries[k]);
  }

  lemma {:induction false} AmongAll(base: string, users: Entry, u: Entry, p: Entry, c: Entry)
    requires users.Directory? && u in users.entries && u.Directory? && u.opens
    requires p in u.entries && p.Directory? && DistinctNames(p.entries) && c in p.entries && c.Directory?
    requires c.name == CACHE
    ensures Renamed(c, base + u.name + "/" + p.name + "/" + CACHE) in UserRoots(base, users.entries, |users.entries|)
  {
    PackageFound(base, u, p, c);
    var k :| 0 <= k < |users.entries| && users.entries[k] == u;
    AmongUsers(base, users.entries, |users.entries|, k, Renamed(c, base + u.name + "/" + p.name + "/" + CACHE));
  }

  lemma SecondaryIs(device: Entry, users: Entry)
    requires device.Directory? && DistinctNames(device.entries) && users in device.entries && users.name == "user"
    requires users.Directory? && users.opens
    ensures Secondary(device) == UserRoots(device.name + "/user/", users.entries, |users.entries|)
  {
    ChildIs(device.entries, users);
    assert device.name + "/" + "user" + "/" == device.name + "/user/";
  }

  lemma SecondaryAmongRoots(device: Entry, r: Entry)
    requires device.Directory? && r in Secondary(device)
    ensures r in Roots(device)
  {
  }
}
