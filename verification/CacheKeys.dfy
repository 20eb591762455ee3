/** Cache keys and file paths of app/modules/judge/file_cache.py, as strings.

    CacheProtocol names entries by request; these lemmas say when the strings and paths the code
    uses keep entries apart, and when a scan over meta files finds its way back to the key. */
module CacheKeys {
  import opened Wrappers

  const SHA_PREFIX := "sha256:"
  const NAME_PREFIX := "name:"
  const META_SUFFIX := ".meta.json"

  function CacheKey(sha: string, name: string): string {
    if sha != "" then SHA_PREFIX + sha else NAME_PREFIX + name
  }

  function DataPath(root: string, key: string): string {
    root + "/" + key[..if |key| < 2 then |key| else 2] + "/" + key
  }

  function MetaPath(root: string, key: string): string {
    DataPath(root, key) + META_SUFFIX
  }

  /** The last component of a path. */
  function FileName(path: string): string {
    if path == [] || path[|path| - 1] == '/' then "" else FileName(path[..|path| - 1]) + [path[|path| - 1]]
  }

  predicate HasSuffix(s: string, suffix: string) {
    |s| >= |suffix| && s[|s| - |suffix|..] == suffix
  }

  /** What a scan takes for the key of a meta file; an empty key is skipped by its callers. */
  function KeyFromMetaPath(path: string): Option<string> {
    var name := FileName(path);
    if HasSuffix(name, META_SUFFIX) then Some(name[..|name| - |META_SUFFIX|]) else None
  }

  /** Two requests share an entry exactly when they give the same hash, or no hash and the same
      name: the prefixes keep the two kinds apart. */
  lemma {:induction false} CacheKeyInjective(sha: string, name: string, sha': string, name': string)
    ensures CacheKey(sha, name) == CacheKey(sha', name') <==> sha == sha' && (sha != "" || name == name')
  {
    var a, b := CacheKey(sha, name), CacheKey(sha', name');
    assert a[0] == if sha != "" then 's' else 'n';
    assert b[0] == if sha' != "" then 's' else 'n';
    if a == b {
      if sha != "" {
        assert a[7..] == sha && b[7..] == sha';
      } else {
        assert a[5..] == name && b[5..] == name';
      }
    }
  }

  lemma {:induction false} FileNameOfTail(prefix: string, tail: string)
    requires '/' !in tail
    ensures FileName(prefix + "/" + tail) == tail
  {
    var path := prefix + "/" + tail;
    if tail != "" {
      var init := tail[..|tail| - 1];
      FileNameOfTail(prefix, init);
      assert path[..|path| - 1] == prefix + "/" + init;
      assert tail == init + [tail[|tail| - 1]];
    }
  }

  lemma {:induction false} FileNameHasNoSlash(path: string)
    ensures '/' !in FileName(path)
  {
    if path != [] && path[|path| - 1] != '/' {
      FileNameHasNoSlash(path[..|path| - 1]);
    }
  }

  /** A scan recovers the key of an entry exactly when the key has no slash.  For an object name
      such as "oj/1.in" it comes up with the last component instead, so purge and eviction then
      work on another entry. */
  lemma {:induction false} ScanRecoversKey(root: string, key: string)
    ensures KeyFromMetaPath(MetaPath(root, key)) == Some(key) <==> '/' !in key
  {
    var path := MetaPath(root, key);
    if '/' !in key {
      var dir := root + "/" + key[..if |key| < 2 then |key| else 2];
      assert path == dir + "/" + (key + META_SUFFIX);
      FileNameOfTail(dir, key + META_SUFFIX);
      assert (key + META_SUFFIX)[|key|..] == META_SUFFIX;
    } else {
      var found := KeyFromMetaPath(path);
      FileNameHasNoSlash(path);
      assert found.Some? ==> forall c :: c in found.value ==> c in FileName(path);
    }
  }

  // ---- Paths as the path library reads them ----

  /** A component that is empty or a single dot does not count. */
  function Component(name: string): seq<string> {
    if name == "" || name == "." then [] else [name]
  }

  /** The components of a path: two strings name the same file when these agree. */
  function Parts(path: string): seq<string> {
    var name := FileName(path);
    if |name| >= |path| then Component(path)
    else Parts(path[..|path| - |name| - 1]) + Component(name)
  }

  lemma {:induction false} FileNameOfSuffix(prefix: string, tail: string)
    requires '/' in tail
    ensures FileName(prefix + tail) == FileName(tail) && |FileName(tail)| < |tail|
  {
    var c := tail[|tail| - 1];
    if c != '/' {
      var init := tail[..|tail| - 1];
      assert tail == init + [c] && (prefix + tail)[..|prefix + tail| - 1] == prefix + init;
      FileNameOfSuffix(prefix, init);
    }
  }

  lemma {:induction false} FileNameIsWhole(path: string)
    requires '/' !in path
    ensures FileName(path) == path && Parts(path) == Component(path)
  {
    if path != "" {
      FileNameIsWhole(path[..|path| - 1]);
    }
  }

  /** Joining two paths joins their components. */
  lemma {:induction false} PartsOfJoin(a: string, b: string)
    ensures Parts(a + "/" + b) == Parts(a) + Parts(b)
    decreases |b|
  {
    if '/' !in b {
      FileNameIsWhole(b);
      SplitAtName(a + "/" + b, a, b);
    } else {
      FileNameOfSuffix(a + "/", b);
      var name := FileName(b);
      SlashBeforeName(b);
      var dir := b[..|b| - |name| - 1];
      FileNameEnds(b);
      FileNameHasNoSlash(b);
      assert b == dir + "/" + name;
      SplitAtName(b, dir, name);
      assert a + "/" + b == a + "/" + dir + "/" + name;
      SplitAtName(a + "/" + b, a + "/" + dir, name);
      PartsOfJoin(a, dir);
    }
  }

  lemma {:induction false} SplitAtName(path: string, dir: string, name: string)
    requires path == dir + "/" + name && '/' !in name
    ensures Parts(path) == Parts(dir) + Component(name)
  {
    FileNameOfTail(dir, name);
    assert path[..|path| - |name| - 1] == dir;
  }

  lemma {:induction false} FileNameEnds(path: string)
    ensures |FileName(path)| <= |path| && path[|path| - |FileName(path)|..] == FileName(path)
  {
    if path != [] && path[|path| - 1] != '/' {
      FileNameEnds(path[..|path| - 1]);
    }
  }

  /** What every key starts with: two letters, which also name its directory. */
  ghost predicate Prefixed(key: string) {
    |key| >= 2 && '/' !in key[..2]
  }

  lemma {:induction false} FirstPart(key: string)
    requires Prefixed(key)
    ensures Parts(key) != [] && |Parts(key)[0]| >= 2 && Parts(key)[0][..2] == key[..2]
    decreases |key|
  {
    if '/' !in key {
      FileNameIsWhole(key);
    } else {
      var n := LastSlash(key);
      assert n >= 2 && key[..n][..2] == key[..2];
      FirstPart(key[..n]);
    }
  }

  lemma {:induction false} LastSlash(path: string) returns (n: nat)
    requires '/' in path
    ensures n < |path| && path[n] == '/' && Parts(path) == Parts(path[..n]) + Component(FileName(path))
    ensures Prefixed(path) ==> n >= 2
  {
    FileNameIsShort(path);
    SlashBeforeName(path);
    n := |path| - |FileName(path)| - 1;
    if Prefixed(path) {
      SlashAfterPrefix(path, n);
    }
  }

  lemma {:induction false} FileNameIsShort(path: string)
    requires '/' in path
    ensures |FileName(path)| < |path|
  {
    FileNameOfSuffix("", path);
  }

  lemma {:induction false} SlashAfterPrefix(path: string, n: nat)
    requires Prefixed(path) && n < |path| && path[n] == '/'
    ensures n >= 2
  {
  }

  lemma {:induction false} SlashBeforeName(path: string)
    requires |FileName(path)| < |path|
    ensures path[|path| - |FileName(path)| - 1] == '/'
  {
    if path[|path| - 1] != '/' {
      SlashBeforeName(path[..|path| - 1]);
    }
  }

  lemma {:induction false} PartsOfEntry(root: string, key: string, suffix: string)
    requires Prefixed(key)
    ensures Parts(root + "/" + key[..2] + "/" + (key + suffix)) == Parts(root) + [key[..2]] + Parts(key + suffix)
  {
    PartsOfJoin(root + "/" + key[..2], key + suffix);
    PartsOfJoin(root, key[..2]);
    FileNameIsWhole(key[..2]);
  }

  /** Two file names are the same file exactly when the keys, with their suffixes, have the same
      components: the directory adds nothing. */
  lemma {:induction false} SameFile(root: string, key: string, suffix: string, key': string, suffix': string)
    requires Prefixed(key) && Prefixed(key')
    ensures Parts(root + "/" + key[..2] + "/" + (key + suffix))
            == Parts(root + "/" + key'[..2] + "/" + (key' + suffix'))
            <==> Parts(key + suffix) == Parts(key' + suffix')
  {
    PartsOfEntry(root, key, suffix);
    PartsOfEntry(root, key', suffix');
    var n := |Parts(root)|;
    var a, b := Parts(root) + [key[..2]] + Parts(key + suffix), Parts(root) + [key'[..2]] + Parts(key' + suffix');
    assert a[n + 1..] == Parts(key + suffix) && b[n + 1..] == Parts(key' + suffix');
    assert (key + suffix)[..2] == key[..2] && (key' + suffix')[..2] == key'[..2];
    FirstPart(key + suffix);
    FirstPart(key' + suffix');
  }

  /** Entries share their files exactly when their keys have the same components.  Keys without
      slashes have files of their own. */
  lemma {:induction false} EntriesShareFiles(root: string, key: string, key': string)
    requires Prefixed(key) && Prefixed(key')
    ensures Parts(DataPath(root, key)) == Parts(DataPath(root, key')) <==> Parts(key) == Parts(key')
    ensures Parts(MetaPath(root, key)) == Parts(MetaPath(root, key')) <==>
            Parts(key + META_SUFFIX) == Parts(key' + META_SUFFIX)
    ensures '/' !in key && '/' !in key' ==>
              (Parts(key) == Parts(key') <==> key == key') &&
              (Parts(key + META_SUFFIX) == Parts(key' + META_SUFFIX) <==> key == key')
  {
    assert key + "" == key && key' + "" == key';
    SameFile(root, key, "", key', "");
    MetaPathIs(root, key);
    MetaPathIs(root, key');
    SameFile(root, key, META_SUFFIX, key', META_SUFFIX);
    if '/' !in key && '/' !in key' {
      FileNameIsWhole(key);
      FileNameIsWhole(key');
      FileNameIsWhole(key + META_SUFFIX);
      FileNameIsWhole(key' + META_SUFFIX);
      assert (key + META_SUFFIX)[..|key|] == key && (key' + META_SUFFIX)[..|key'|] == key';
    }
  }

  lemma {:induction false} MetaPathIs(root: string, key: string)
    requires |key| >= 2
    ensures MetaPath(root, key) == root + "/" + key[..2] + "/" + (key + META_SUFFIX)
  {
  }

  /** The data file of one entry is the meta file of another exactly when its key has the
      components of the other key with the meta suffix. */
  lemma {:induction false} DataMeetsMeta(root: string, key: string, key': string)
    requires Prefixed(key) && Prefixed(key')
    ensures Parts(DataPath(root, key)) == Parts(MetaPath(root, key')) <==> Parts(key) == Parts(key' + META_SUFFIX)
  {
    assert key + "" == key;
    MetaPathIs(root, key');
    SameFile(root, key, "", key', META_SUFFIX);
  }

  /** Any two objects whose names differ in a doubled slash have two keys, and so two locks, but
      share one data file and one meta file. */
  lemma {:induction false} DoubledSlashAliases(root: string, a: string, b: string)
    ensures var key, key' := CacheKey("", a + "//" + b), CacheKey("", a + "/" + b);
            && key != key'
            && Parts(DataPath(root, key)) == Parts(DataPath(root, key'))
            && Parts(MetaPath(root, key)) == Parts(MetaPath(root, key'))
  {
    NameKeys(a, "//", b);
    NameKeys(a, "/", b);
    DoubledSlash(NAME_PREFIX + a, b);
    DoubledSlash(NAME_PREFIX + a, b + META_SUFFIX);
    EntriesShareFiles(root, CacheKey("", a + "//" + b), CacheKey("", a + "/" + b));
  }

  lemma {:induction false} NameKeys(a: string, slash: string, b: string)
    ensures var key, prefix := CacheKey("", a + slash + b), NAME_PREFIX + a;
            && Prefixed(key) && |key| == |NAME_PREFIX| + |a| + |slash| + |b|
            && key == prefix + slash + b && key + META_SUFFIX == prefix + slash + (b + META_SUFFIX)
  {
    Regroup(NAME_PREFIX, a, slash, b, META_SUFFIX);
    assert CacheKey("", a + slash + b)[..2] == NAME_PREFIX[..2] == "na";
  }

  lemma {:induction false} Regroup<T>(x: seq<T>, a: seq<T>, s: seq<T>, b: seq<T>, m: seq<T>)
    ensures x + (a + s + b) == x + a + s + b
    ensures x + (a + s + b) + m == x + a + s + (b + m)
  {
  }

  lemma {:induction false} DoubledSlash(a: string, b: string)
    ensures Parts(a + "//" + b) == Parts(a + "/" + b)
  {
    EmptyBetween(a, b);
    PartsOfJoin(a + "/", b);
    PartsOfJoin(a, "");
    PartsOfJoin(a, b);
    FileNameIsWhole("");
    assert a + "/" + "" == a + "/";
  }

  lemma {:induction false} EmptyBetween(a: string, b: string)
    ensures a + "//" + b == a + "/" + "/" + b
  {
  }
}
