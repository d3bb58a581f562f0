/**
 * The path builders of installd: they write into buffers of fixed size, and distinct packages or
 * sources must not end up at the same path.
 */
module PathBuilders {
  import opened Limits

  newtype uint32 = x: int | 0 <= x < 0x1_0000_0000

  const PRIMARY_USER_PREFIX: string := "data/"
  const SECONDARY_USER_PREFIX: string := "user/"
  const DALVIK_CACHE_PREFIX: string := "/data/dalvik-cache/"
  const DALVIK_CACHE_POSTFIX: string := "/classes.dex"
  const NUL: char := '\0'

  /** The suffixes that installd appends to package directories. */
  const POSTFIXES: set<string> := {"", "/lib", "/cache", "/code_cache"}

  predicate CString(s: string) {
    NUL !in s
  }

  /** The buffer has the string at `at`, with its end mark. */
  ghost predicate TextAt(a: array<char>, at: nat, s: string)
    reads a
  {
    at + |s| < a.Length && a[at..at + |s|] == s && a[at + |s|] == NUL
  }

  // ---------------------------------------------------------------- appending

  /** `append_and_increment`: copies with strlcpy and moves on, or fails when it had to cut. */
  method AppendAndIncrement(a: array<char>, dst: nat, src: string) returns (ok: bool, next: nat)
    requires dst < a.Length
    modifies a
    ensures ok <==> dst + |src| < a.Length
    ensures ok ==> next == dst + |src| && TextAt(a, dst, src)
    ensures !ok ==> next == dst && TextAt(a, dst, src[..a.Length - dst - 1])
    ensures a[..dst] == old(a[..dst])
    ensures ok ==> a[..next] == old(a[..dst]) + src
  {
    var n := if |src| < a.Length - dst then |src| else a.Length - dst - 1;
    var i := 0;
    while i < n
      invariant 0 <= i <= n
      invariant a[dst..dst + i] == src[..i]
      invariant a[..dst] == old(a[..dst])
    {
      a[dst + i] := src[i];
      i := i + 1;
    }
    a[dst + n] := NUL;
    assert a[dst..dst + n] == src[..n];
    ok := |src| < a.Length - dst;
    next := if ok then dst + |src| else dst;
    if ok {
      assert src[..n] == src;
      assert a[..next] == a[..dst] + a[dst..next];
    }
  }

  // ---------------------------------------------------------------- user numbers

  function Digit(n: nat): char
    requires n < 10
  {
    '0' + n as char
  }

  function Digits(n: nat): (s: string)
    ensures s != [] && forall c :: c in s ==> '0' <= c <= '9'
  {
    if n < 10 then [Digit(n)] else Digits(n / 10) + [Digit(n % 10)]
  }

  /** What "%d" prints for an unsigned 32-bit user number. */
  function UserText(user: uint32): (s: string)
    ensures '/' !in s && NUL !in s && s != []
  {
    var n := user as nat;
    if n < 0x8000_0000 then Digits(n) else ['-'] + Digits(0x1_0000_0000 - n)
  }

  function Value(s: string): nat {
    if s == [] || !('0' <= s[|s| - 1] <= '9') then 0 else 10 * Value(s[..|s| - 1]) + (s[|s| - 1] - '0') as nat
  }

  lemma {:induction false} ValueOfDigits(n: nat)
    ensures Value(Digits(n)) == n
  {
    if n >= 10 {
      ValueOfDigits(n / 10);
      var s := Digits(n);
      assert s[..|s| - 1] == Digits(n / 10);
    }
  }

  /** Decimal digits, the first of which is 0 only for the number 0. */
  lemma DigitsOfTen(n: nat, d: nat)
    requires d < 10
    ensures Digits(d) == ["0123456789"[d]]
    ensures n > 0 ==> Digits(10 * n + d) == Digits(n) + ["0123456789"[d]]
  {
    assert (10 * n + d) / 10 == n && (10 * n + d) % 10 == d;
  }

  /** "%d" takes the number for a signed one. */
  lemma {:induction false} UserTextIs(user: uint32)
    ensures user as int < 2147483648 ==> UserText(user) == Digits(user as nat)
    ensures user as int >= 2147483648 ==> UserText(user) == "-" + Digits(4294967296 - user as nat)
  {
  }

  lemma UserTextInjective(u: uint32, v: uint32)
    requires UserText(u) == UserText(v)
    ensures u == v
  {
    var m, n := u as nat, v as nat;
    SignOf(u);
    SignOf(v);
    if m < 0x8000_0000 {
      ValueOfDigits(m);
      ValueOfDigits(n);
    } else {
      var a, b := Digits(0x1_0000_0000 - m), Digits(0x1_0000_0000 - n);
      assert (['-'] + a)[1..] == a && (['-'] + b)[1..] == b;
      ValueOfDigits(0x1_0000_0000 - m);
      ValueOfDigits(0x1_0000_0000 - n);
    }
  }

  lemma SignOf(u: uint32)
    ensures UserText(u)[0] == '-' <==> u >= 0x8000_0000
  {
    if u < 0x8000_0000 { assert Digits(u as nat)[0] in Digits(u as nat); }
  }

  // ---------------------------------------------------------------- package names

  predicate Alnum(c: char) {
    '0' <= c <= '9' || 'A' <= c <= 'Z' || 'a' <= c <= 'z'
  }

  /** A dot is neither first nor last nor doubled. */
  predicate DotOk(name: string, i: nat)
    requires i < |name|
  {
    name[i] == '.' ==> 0 < i < |name| - 1 && name[i + 1] != '.'
  }

  predicate LegalAt(name: string, i: nat)
    requires i < |name|
  {
    (Alnum(name[i]) || name[i] == '_' || name[i] == '.' || name[i] == '-') && DotOk(name, i)
  }

  predicate Legal(name: string) {
    forall i :: 0 <= i < |name| ==> LegalAt(name, i)
  }

  /** A name of letters, digits, underscores, dashes and dots, where each dot has something other than
      a dot before and after it. */
  ghost predicate Proper(name: string) {
    && (forall i :: 0 <= i < |name| ==>
                      || 'a' <= name[i] <= 'z' || 'A' <= name[i] <= 'Z' || '0' <= name[i] <= '9' || name[i] in "_-.")
    && (forall i :: 0 <= i < |name| && name[i] == '.' ==>
                      && 0 < i < |name| - 1 && name[i - 1] != '.' && name[i + 1] != '.')
  }

  lemma LegalIs(name: string)
    ensures Legal(name) <==> Proper(name)
  {
    if Legal(name) {
      forall i | 0 <= i < |name| && name[i] == '.'
        ensures 0 < i < |name| - 1 && name[i - 1] != '.' && name[i + 1] != '.'
      {
        assert LegalAt(name, i);
        if i > 0 { assert LegalAt(name, i - 1); }
      }
      forall i | 0 <= i < |name|
        ensures 'a' <= name[i] <= 'z' || 'A' <= name[i] <= 'Z' || '0' <= name[i] <= '9' || name[i] in "_-."
      {
        assert LegalAt(name, i);
      }
    }
    if Proper(name) {
      forall i | 0 <= i < |name|
        ensures LegalAt(name, i)
      {
      }
    }
  }

  /**
   * `is_valid_package_name`.  After a name with a '-' the code goes on reading past the end of the
   * string, so there the answer is anything.
   */
  method IsValidPackageName(name: string) returns (ok: bool)
    ensures ok ==> Legal(name) && Proper(name)
    ensures '-' !in name ==> (ok <==> Legal(name)) && (ok <==> Proper(name))
  {
    LegalIs(name);
    var i, alpha := 0, false;
    while i < |name|
      invariant 0 <= i <= |name|
      invariant forall j :: 0 <= j < i ==> LegalAt(name, j)
      invariant alpha ==> '-' in name
    {
      if Alnum(name[i]) || name[i] == '_' {
      } else if name[i] == '.' {
        if i == 0 || i + 1 == |name| || name[i + 1] == '.' {
          assert !LegalAt(name, i);
          return false;
        }
      } else if name[i] == '-' {
        alpha := true;
      } else {
        assert !LegalAt(name, i);
        return false;
      }
      i := i + 1;
    }
    ok := true;
    if alpha { ok := *; }
  }

  // ---------------------------------------------------------------- package paths

  function UserDir(dataDir: string, user: uint32): string {
    if user == 0 then dataDir + PRIMARY_USER_PREFIX
    else dataDir + SECONDARY_USER_PREFIX + (UserText(user) + ['/'])
  }

  function PkgPath(dataDir: string, user: uint32, name: string, postfix: string): string {
    UserDir(dataDir, user) + name + postfix
  }

  /** The length that the code reckons with; for the first user it counts a slash too many. */
  function Reckoned(dataDir: string, user: uint32): nat {
    |dataDir| + 5 + (if user == 0 then 0 else |UserText(user)|) + 1
  }

  /** `create_pkg_path_in_dir`. */
  method CreatePkgPathInDir(path: array<char>, dir: string, dirLen: nat, name: string, postfix: string)
    returns (r: int)
    requires path.Length == PKG_PATH_MAX && |dir| <= dirLen
    modifies path
    ensures r == 0 || r == -1
    ensures r == 0 ==> |name| <= PKG_NAME_MAX && Legal(name) && |name| + dirLen + |postfix| < PKG_PATH_MAX
    ensures |name| <= PKG_NAME_MAX && Legal(name) && '-' !in name && |name| + dirLen + |postfix| < PKG_PATH_MAX ==>
              r == 0
    ensures r == 0 ==> TextAt(path, 0, dir + name + postfix)
    ensures r != 0 ==> path[..] == old(path[..])
  {
    if |name| > PKG_NAME_MAX { return -1; }
    var valid := IsValidPackageName(name);
    if !valid { return -1; }
    if |name| + dirLen + |postfix| >= PKG_PATH_MAX { return -1; }
    var ok1, d1 := AppendAndIncrement(path, 0, dir);
    var ok2, d2 := AppendAndIncrement(path, d1, name);
    var ok3, d3 := AppendAndIncrement(path, d2, postfix);
    assert path[0..d3] == dir + name + postfix;
    r := 0;
  }

  /** `create_pkg_path`: the prefix is built in a buffer of its own, and always fits. */
  method CreatePkgPath(path: array<char>, dataDir: string, name: string, postfix: string, user: uint32)
    returns (r: int)
    requires path.Length == PKG_PATH_MAX && CString(dataDir)
    modifies path
    ensures r == 0 || r == -1
    ensures r == 0 ==>
              && |name| <= PKG_NAME_MAX && Legal(name)
              && |name| + Reckoned(dataDir, user) + |postfix| < PKG_PATH_MAX
    ensures '-' !in name && |name| <= PKG_NAME_MAX && Legal(name) ==>
              (r == 0 <==> |name| + Reckoned(dataDir, user) + |postfix| < PKG_PATH_MAX)
    ensures r == 0 ==> TextAt(path, 0, PkgPath(dataDir, user, name, postfix))
    ensures r != 0 ==> path[..] == old(path[..])
    // spelled out
    ensures r == 0 ==> TextAt(path, 0, dataDir + (if user == 0 then "data/" else "user/" + UserText(user) + "/")
                                       + name + postfix)
    ensures '-' !in name && |name| <= 128 && Proper(name) ==>
              (r == 0 <==> |dataDir| + 6 + (if user == 0 then 0 else |UserText(user)|) + |name| + |postfix| < 256)
    ensures |name| > 128 || !Proper(name) ==> r == -1
  {
    var dir, prefixLen := BuildPrefix(dataDir, user);
    r := CreatePkgPathInDir(path, dir, prefixLen, name, postfix);
    LegalIs(name);
    PathIs(dataDir, user, name, postfix);
  }

  lemma PathIs(dataDir: string, user: uint32, name: string, postfix: string)
    ensures PkgPath(dataDir, user, name, postfix) ==
            dataDir + (if user == 0 then "data/" else "user/" + UserText(user) + "/") + name + postfix
  {
    if user != 0 { Assoc(dataDir, "user/", UserText(user) + "/"); }
    assert "user/" + UserText(user) + "/" == "user/" + (UserText(user) + "/");
  }

  /** The user's directory, built in a buffer just long enough for it. */
  method BuildPrefix(dataDir: string, user: uint32) returns (dir: string, prefixLen: nat)
    ensures dir == UserDir(dataDir, user) && prefixLen == Reckoned(dataDir, user)
    ensures |dir| <= prefixLen
  {
    var userPrefix := if user == 0 then PRIMARY_USER_PREFIX else SECONDARY_USER_PREFIX;
    var number := if user == 0 then [] else UserText(user) + ['/'];
    var userLen := if user == 0 then 0 else |UserText(user)|;
    prefixLen := |dataDir| + |userPrefix| + userLen + 1;
    var prefix := new char[prefixLen + 1];
    var _, d1 := AppendAndIncrement(prefix, 0, dataDir);
    var _, d2 := AppendAndIncrement(prefix, d1, userPrefix);
    var _, d3 := AppendAndIncrement(prefix, d2, number);
    dir := prefix[..d3];
  }

  // ---------------------------------------------------------------- different packages, different paths

  function FirstSlash(s: string): nat {
    if s == [] || s[0] == '/' then 0 else 1 + FirstSlash(s[1..])
  }

  lemma {:induction false} FirstSlashIs(a: string, x: string)
    requires '/' !in a && (x == [] || x[0] == '/')
    ensures FirstSlash(a + x) == |a|
  {
    if a == [] {
      assert a + x == x;
    } else {
      assert (a + x)[1..] == a[1..] + x;
      FirstSlashIs(a[1..], x);
    }
  }

  /** What comes before the first slash is determined by the whole. */
  lemma SplitAtSlash(a: string, x: string, b: string, y: string)
    requires '/' !in a && '/' !in b && a + x == b + y
    requires x == [] || x[0] == '/'
    requires y == [] || y[0] == '/'
    ensures a == b && x == y
  {
    FirstSlashIs(a, x);
    FirstSlashIs(b, y);
    var s := a + x;
    assert s[..|a|] == a && s[..|b|] == b && s[|a|..] == x && s[|b|..] == y;
  }

  lemma PrefixCancel(p: string, x: string, y: string)
    requires p + x == p + y
    ensures x == y
  {
    assert (p + x)[|p|..] == x && (p + y)[|p|..] == y;
  }

  lemma LegalHasNoSlash(name: string)
    requires Legal(name)
    ensures '/' !in name
  {
    forall i | 0 <= i < |name|
      ensures name[i] != '/'
    {
      assert LegalAt(name, i);
    }
  }

  /** The user, the package and the suffix can be read off the path. */
  lemma PkgPathInjective(dataDir: string, u: uint32, n: string, p: string, u': uint32, n': string, p': string)
    requires Legal(n) && Legal(n') && p in POSTFIXES && p' in POSTFIXES
    requires PkgPath(dataDir, u, n, p) == PkgPath(dataDir, u', n', p')
    ensures u == u' && n == n' && p == p'
  {
    LegalHasNoSlash(n);
    LegalHasNoSlash(n');
    var a, b := AfterData(u, n, p), AfterData(u', n', p');
    AfterDataIs(dataDir, u, n, p);
    AfterDataIs(dataDir, u', n', p');
    PrefixCancel(dataDir, a, b);
    assert (a[0] == 'd' <==> u == 0) && (b[0] == 'd' <==> u' == 0);
    if u == 0 {
      PrefixCancel(PRIMARY_USER_PREFIX, n + p, n' + p');
    } else {
      var x, y := ['/'] + (n + p), ['/'] + (n' + p');
      PrefixCancel(SECONDARY_USER_PREFIX, UserText(u) + x, UserText(u') + y);
      SplitAtSlash(UserText(u), x, UserText(u'), y);
      UserTextInjective(u, u');
      PrefixCancel(['/'], n + p, n' + p');
    }
    SplitAtSlash(n, p, n', p');
  }

  function AfterData(user: uint32, name: string, postfix: string): string {
    if user == 0 then PRIMARY_USER_PREFIX + (name + postfix)
    else SECONDARY_USER_PREFIX + (UserText(user) + (['/'] + (name + postfix)))
  }

  lemma AfterDataIs(dataDir: string, user: uint32, name: string, postfix: string)
    ensures PkgPath(dataDir, user, name, postfix) == dataDir + AfterData(user, name, postfix)
  {
    var rest := name + postfix;
    Assoc(UserDir(dataDir, user), name, postfix);
    if user == 0 {
      Assoc(dataDir, PRIMARY_USER_PREFIX, rest);
    } else {
      var number := UserText(user) + ['/'];
      Assoc(dataDir + SECONDARY_USER_PREFIX, number, rest);
      Assoc(dataDir, SECONDARY_USER_PREFIX, number + rest);
      Assoc(UserText(user), ['/'], rest);
    }
  }

  lemma Assoc(a: string, b: string, c: string)
    ensures a + b + c == a + (b + c)
  {
  }

  // ---------------------------------------------------------------- cache paths

  /** What the postfix looks like in the file name. */
  const CACHE_LEAF: string := "@classes.dex"

  predicate HasDotDot(s: string) {
    exists i :: 0 <= i < |s| - 1 && s[i] == '.' && s[i + 1] == '.'
  }

  function Flat(s: string): (r: string)
    ensures |r| == |s| && forall i :: 0 <= i < |s| ==> r[i] == if s[i] == '/' then '@' else s[i]
  {
    seq(|s|, i requires 0 <= i < |s| => if s[i] == '/' then '@' else s[i])
  }

  function CacheDir(isa: string): string {
    DALVIK_CACHE_PREFIX + isa + ['/']
  }

  function CacheFile(src: string): string
    requires src != []
  {
    Flat(src[1..]) + CACHE_LEAF
  }

  predicate CacheAccepted(src: string, isa: string) {
    && src != [] && src[0] == '/' && !HasDotDot(src)
    && |src| + |DALVIK_CACHE_PREFIX| + |isa| + |DALVIK_CACHE_POSTFIX| + 2 <= PKG_PATH_MAX
  }

  /** The loop of `create_cache_path`: from `start` on, every slash becomes an '@'. */
  method Flatten(path: array<char>, start: nat, ghost text: string)
    requires TextAt(path, start, text) && CString(text)
    modifies path
    ensures path[..start + |text|] == old(path[..start]) + Flat(text) && path[start + |text|] == NUL
  {
    var tmp := start;
    ghost var end := start + |text|;
    assert forall j :: start <= j < end ==> path[j] == path[start..end][j - start];
    assert forall j :: 0 <= j < |text| ==> text[j] != NUL;
    while path[tmp] != NUL
      invariant start <= tmp <= end < path.Length
      invariant path[..start] == old(path[..start])
      invariant forall j :: start <= j < tmp ==> path[j] == Flat(text)[j - start]
      invariant forall j :: tmp <= j < end ==> path[j] == text[j - start]
      invariant path[end] == NUL
      decreases end - tmp
    {
      if path[tmp] == '/' { path[tmp] := '@'; }
      tmp := tmp + 1;
    }
    assert path[start..end] == Flat(text);
    assert path[..end] == path[..start] + path[start..end];
  }

  /** `sprintf` of the pieces, which fit, and then every slash of the last part becomes an '@'. */
  method CreateCachePath(path: array<char>, src: string, isa: string) returns (r: int)
    requires path.Length == PKG_PATH_MAX && CString(src) && CString(isa)
    modifies path
    ensures r == if CacheAccepted(src, isa) then 0 else -1
    ensures r == 0 ==> TextAt(path, 0, CacheDir(isa) + CacheFile(src))
    ensures r != 0 ==> path[..] == old(path[..])
    // spelled out
    ensures r == 0 <==>
              && src != [] && src[0] == '/' && |src| + |isa| + 33 <= 256
              && (forall i :: 0 <= i < |src| - 1 && src[i] == '.' ==> src[i + 1] != '.')
    ensures r == 0 ==> TextAt(path, 0, "/data/dalvik-cache/" + isa + "/" + Flat(src[1..]) + "@classes.dex")
  {
    if CacheAccepted(src, isa) { Assoc("/data/dalvik-cache/" + isa + "/", Flat(src[1..]), "@classes.dex"); }
    if src == [] || src[0] != '/' || HasDotDot(src) { return -1; }
    if |src| > PKG_PATH_MAX { return -1; }
    if |src| + |DALVIK_CACHE_PREFIX| + |isa| + |DALVIK_CACHE_POSTFIX| + 2 > PKG_PATH_MAX { return -1; }
    var dir := DALVIK_CACHE_PREFIX + isa + ['/'];
    var tail := src[1..] + DALVIK_CACHE_POSTFIX;
    var _, start := AppendAndIncrement(path, 0, dir);
    assert path[..start] == dir;
    var _, end := AppendAndIncrement(path, start, tail);
    Flatten(path, start, tail);
    assert path[..end] == path[0..end];
    FlatTail(src[1..]);
    r := 0;
  }

  lemma FlatTail(s: string)
    ensures Flat(s + DALVIK_CACHE_POSTFIX) == Flat(s) + CACHE_LEAF
  {
    assert Flat(DALVIK_CACHE_POSTFIX) == CACHE_LEAF;
  }

  /** There is one directory level below the instruction set's, and no more. */
  lemma CachePathIsFlat(src: string, isa: string)
    requires CacheAccepted(src, isa)
    ensures '/' !in CacheFile(src)
    ensures |CacheDir(isa) + CacheFile(src)| < PKG_PATH_MAX
  {
  }

  lemma SuffixCancel(x: string, y: string, post: string)
    requires x + post == y + post
    ensures x == y
  {
    assert |x| == |y|;
    assert (x + post)[..|x|] == x && (y + post)[..|y|] == y;
  }

  lemma FlatHead(s: string)
    requires s != [] && s[0] == '/'
    ensures Flat(s) == ['@'] + Flat(s[1..])
  {
  }

  /** Two sources get the same file exactly when they differ in nothing but '/' for '@'. */
  lemma CachePathSame(a: string, b: string, isa: string)
    requires CacheAccepted(a, isa) && CacheAccepted(b, isa)
    ensures CacheDir(isa) + CacheFile(a) == CacheDir(isa) + CacheFile(b) <==> Flat(a) == Flat(b)
  {
    FlatHead(a);
    FlatHead(b);
    if CacheDir(isa) + CacheFile(a) == CacheDir(isa) + CacheFile(b) {
      PrefixCancel(CacheDir(isa), CacheFile(a), CacheFile(b));
      SuffixCancel(Flat(a[1..]), Flat(b[1..]), CACHE_LEAF);
    }
    if Flat(a) == Flat(b) {
      PrefixCancel(['@'], Flat(a[1..]), Flat(b[1..]));
    }
  }

  /** So sources without an '@' never share a file. */
  lemma CachePathInjective(a: string, b: string, isa: string)
    requires CacheAccepted(a, isa) && CacheAccepted(b, isa) && '@' !in a && '@' !in b
    requires CacheDir(isa) + CacheFile(a) == CacheDir(isa) + CacheFile(b)
    ensures a == b
  {
    CachePathSame(a, b, isa);
    forall i | 0 <= i < |a|
      ensures a[i] == b[i]
    {
      assert Flat(a)[i] == Flat(b)[i] && a[i] in a && b[i] in b;
    }
  }
}
