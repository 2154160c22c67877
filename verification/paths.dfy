/**
 Path handling used to name executables, outputs and shards: `os.path.join` and
 `os.path.basename` (posix rules, with the separator as a parameter), the
 extension strip `'.'.join(p.split('.')[:-1])`, the executable lookup of the suite,
 and the shard file filter both applications apply to a directory listing.
 */
module Paths {
  import opened Wrappers
  import opened PyStr

  /** The two path separators the applications can run with. */
  predicate IsSeparator(sep: char) { sep == '/' || sep == '\\' }

  /**
   `os.path.join(a, b)`: an absolute `b` replaces `a`; otherwise `b` is appended, with a
   separator unless `a` is empty or already ends with one.
   */
  function PathJoin(a: string, b: string, sep: char): (r: string)
    ensures EndsWith(r, b)
    ensures |b| > 0 && b[0] == sep ==> r == b
    ensures !(|b| > 0 && b[0] == sep) && |a| > 0 && a[|a| - 1] != sep ==> r == a + [sep] + b
    ensures !(|b| > 0 && b[0] == sep) && (|a| == 0 || a[|a| - 1] == sep) ==> r == a + b
  {
    if |b| > 0 && b[0] == sep then b
    else if |a| == 0 || a[|a| - 1] == sep then a + b
    else a + [sep] + b
  }

  /** `os.path.basename(p)`: the text after the last separator. */
  function Basename(p: string, sep: char): (r: string)
    ensures sep !in r && EndsWith(p, r)
    ensures sep !in p ==> r == p
    ensures sep in p ==> |r| < |p| && p[|p| - |r| - 1] == sep
  {
    LastField(p, sep)
  }

  /** The base name of a joined path is the joined name, for any name without a separator. */
  lemma BasenameOfJoin(a: string, b: string, sep: char)
    requires sep !in b
    ensures Basename(PathJoin(a, b, sep), sep) == b
  {
    if |a| == 0 {
      SplitNoSeparator(b, sep);
    } else if a[|a| - 1] == sep {
      assert a + b == a[..|a| - 1] + [sep] + b;
      LastFieldAfterSeparator(a[..|a| - 1], b, sep);
    } else {
      LastFieldAfterSeparator(a, b, sep);
    }
  }

  /**
   `'.'.join(p.split('.')[:-1])`: the path without its last `.`-suffix. With a dot,
   prefix + "." + last field restores the path; without one the prefix is empty. The dot
   found may belong to a directory name: the whole path is split, not its base name.
   */
  function StripExtension(p: string): (r: string)
    ensures '.' in p ==> r + "." + LastField(p, '.') == p
    ensures '.' !in p ==> r == ""
  {
    DropLastField(p, '.')
  }

  /** Dropping the extension of `<stem>.gguf` gives the stem, whatever dots the stem holds. */
  lemma StripGguf(stem: string)
    ensures StripExtension(stem + ".gguf") == stem
  {
    assert stem + ".gguf" == stem + ['.'] + "gguf";
    LastFieldAfterSeparator(stem, "gguf", '.');
  }

  /** Appending to a relative name appends to the joined path. */
  lemma PathJoinAppend(a: string, b: string, x: string, sep: char)
    requires |b| > 0 && b[0] != sep
    ensures PathJoin(a, b + x, sep) == PathJoin(a, b, sep) + x
  {
    assert (b + x)[0] == b[0];
  }

  /**
   The split prefix of a file joined into a directory, taken as base name of the
   extension-stripped path, is the file's stem, whatever dots the directory holds.
   */
  lemma BaseStemOfJoin(dir: string, stem: string, sep: char)
    requires |stem| > 0 && sep !in stem
    ensures Basename(StripExtension(PathJoin(dir, stem + ".gguf", sep)), sep) == stem
  {
    var p := PathJoin(dir, stem, sep);
    var path := PathJoin(dir, stem + ".gguf", sep);
    PathJoinAppend(dir, stem, ".gguf", sep);
    assert path == p + ['.'] + "gguf";
    LastFieldAfterSeparator(p, "gguf", '.');
    assert StripExtension(path) == p;
    BasenameOfJoin(dir, stem, sep);
  }

  /**
   `get_platform_executable(base)`: `./llama.cpp/<base>` joined with the platform separator,
   where `.exe` is appended to the base name exactly on win32.
   */
  function PlatformExecutable(base: string, platform: string, sep: char): (r: string)
    requires IsSeparator(sep)
    ensures sep !in base ==> r == "." + [sep] + "llama.cpp" + [sep] + (if platform == "win32" then base + ".exe" else base)
    ensures sep !in base ==> Basename(r, sep) == (if platform == "win32" then base + ".exe" else base)
  {
    var executable := if platform == "win32" then base + ".exe" else base;
    var dir := PathJoin(".", "llama.cpp", sep);
    assert dir == "." + [sep] + "llama.cpp";
    if sep !in base then
      assert sep !in executable;
      BasenameOfJoin(dir, executable, sep);
      PathJoin(dir, executable, sep)
    else
      PathJoin(dir, executable, sep)
  }

  /** On a posix host the suite's executable paths are the literal paths hard-coded by gguf-my-repo. */
  lemma PosixExecutableIsLiteral(base: string, platform: string)
    requires platform != "win32" && '/' !in base
    ensures PlatformExecutable(base, platform, '/') == "./llama.cpp/" + base
  {
    var dir := "." + ['/'] + "llama.cpp" + ['/'];
    assert dir == "./llama.cpp/";
    assert PlatformExecutable(base, platform, '/') == dir + base;
  }

  // ---------------------------------------------------------------------------
  // shard selection

  /** The listing filter `f.startswith(prefix) and f.endswith(".gguf")`. */
  predicate IsShard(f: string, prefix: string) {
    StartsWith(f, prefix) && EndsWith(f, ".gguf")
  }

  /**
   The comprehension `[f for f in listing if IsShard(f, prefix)]`: exactly the entries that
   pass the filter, each as often as it is listed, none that fail it.
   */
  function SelectShards(listing: seq<string>, prefix: string): (r: seq<string>)
    ensures |r| <= |listing|
    ensures forall f :: f in r <==> f in listing && IsShard(f, prefix)
    ensures forall f :: multiset(r)[f] == (if IsShard(f, prefix) then multiset(listing)[f] else 0)
    decreases |listing|
  {
    if |listing| == 0 then []
    else
      var rest := SelectShards(listing[1..], prefix);
      assert listing == [listing[0]] + listing[1..];
      if IsShard(listing[0], prefix) then [listing[0]] + rest else rest
  }

  /**
   The shards to upload after a split: the filtered listing, or the application's
   "No sharded files found" error when no listed file passes the filter.
   */
  function ShardsToUpload<E>(listing: seq<string>, prefix: string, noShards: E): (r: Result<seq<string>, E>)
    ensures r.Err? <==> forall f :: f in listing ==> !IsShard(f, prefix)
    ensures r.Err? ==> r.error == noShards
    ensures r.Ok? ==> |r.value| > 0 && forall f :: f in r.value <==> f in listing && IsShard(f, prefix)
  {
    var shards := SelectShards(listing, prefix);
    if |shards| == 0 then Err(noShards) else Ok(shards)
  }
}
