/**
 * The POSIX path-string helpers of net/FileUtils.hpp.  Paths are character sequences; the
 * Windows branches and the helpers that ask the operating system (`normalizePath`,
 * `getFileSize`, `fileExists`, directory creation and removal, the working directory) are not
 * part of this model.
 */
module FileUtils {
  import opened Wrappers
  import opened Bytes

  /**
   * The files the transfer classes open through `std::ifstream`/`std::ofstream`: a path either
   * names a file's bytes or is absent (opening it for reading fails), and the paths in
   * `unwritable` cannot be created for writing.
   */
  class Disk {
    var files: map<string, seq<Byte>>
    var unwritable: set<string>

    constructor (files: map<string, seq<Byte>>, unwritable: set<string>)
      ensures this.files == files && this.unwritable == unwritable
    {
      this.files, this.unwritable := files, unwritable;
    }

    /** Every file fits the `uint64_t` sizes the transfers report. */
    predicate Bounded()
      reads this
    {
      forall p :: p in files ==> |files[p]| < 0x1_0000_0000_0000_0000
    }
  }

  /** One step of `joinPath`: a '/' goes in unless the result so far is empty or already ends in '/'. */
  function Glue(result: string, part: string): string
  {
    if result != [] && result[|result| - 1] != '/' then result + "/" + part else result + part
  }

  /** What `joinPath` builds, one part at a time from the left. */
  function Joined(parts: seq<string>): string
    decreases |parts|
  {
    if parts == [] then ""
    else if |parts| == 1 then parts[0]
    else Glue(Joined(parts[..|parts| - 1]), parts[|parts| - 1])
  }

  /** `joinPath`. */
  method JoinPath(parts: seq<string>) returns (result: string)
    ensures result == Joined(parts)
  {
    if parts == [] {
      return "";
    }
    result := parts[0];
    var i := 1;
    while i < |parts|
      invariant 1 <= i <= |parts|
      invariant result == Joined(parts[..i])
    {
      assert parts[..i + 1][..i] == parts[..i];
      if result != [] && result[|result| - 1] != '/' {
        result := result + "/";
      }
      result := result + parts[i];
      i := i + 1;
    }
    assert parts[..i] == parts;
  }

  /** Joining one part gives it back unchanged; two parts meet at exactly one separator when needed. */
  lemma JoinFewParts(a: string, b: string)
    ensures Joined([a]) == a
    ensures a != "" && a[|a| - 1] != '/' ==> Joined([a, b]) == a + "/" + b
    ensures (a == "" || a[|a| - 1] == '/') ==> Joined([a, b]) == a + b
  {
    assert [a, b][..1] == [a];
  }

  /** Joining more parts only extends the result: each earlier join is a prefix of the later one. */
  lemma {:induction false} JoinExtends(parts: seq<string>, k: nat)
    requires k <= |parts|
    ensures Joined(parts[..k]) <= Joined(parts)
    decreases |parts| - k
  {
    if k < |parts| {
      JoinExtends(parts, k + 1);
      var init := parts[..k + 1];
      assert init[..|init| - 1] == parts[..k];
      if k > 0 {
        assert Joined(init) == Glue(Joined(parts[..k]), parts[k]);
      }
    } else {
      assert parts[..k] == parts;
    }
  }

  /** The joined path ends with the last part. */
  lemma JoinEndsWithLast(parts: seq<string>)
    requires parts != []
    ensures var r := Joined(parts); var last := parts[|parts| - 1];
      |last| <= |r| && r[|r| - |last|..] == last
  {
  }

  /** `find_last_of(c)`: the index of the last occurrence of `c`, if any. */
  function LastIndexOf(s: string, c: char): (r: Option<nat>)
    ensures r.None? ==> c !in s
    ensures r.Some? ==> r.value < |s| && s[r.value] == c && c !in s[r.value + 1..]
  {
    if s == [] then None
    else if s[|s| - 1] == c then Some(|s| - 1)
    else
      var r := LastIndexOf(s[..|s| - 1], c);
      assert s == s[..|s| - 1] + [s[|s| - 1]];
      r
  }

  /** `getFileName`: the whole path when it has no '/', else what follows the last '/'. */
  function GetFileName(path: string): (name: string)
    ensures '/' !in name
    ensures |name| <= |path| && name == path[|path| - |name|..]
    ensures '/' !in path ==> name == path
  {
    match LastIndexOf(path, '/')
    case None => path
    case Some(i) => path[i + 1..]
  }

  /** `getFileExtension`: "" when there is no '.', else the suffix from the last '.' on. */
  function GetFileExtension(path: string): (ext: string)
    ensures ext == "" || (ext[0] == '.' && '.' !in ext[1..])
    ensures |ext| <= |path| && ext == path[|path| - |ext|..]
    ensures '.' in path ==> |ext| > 0
    ensures '.' !in path ==> ext == ""
  {
    match LastIndexOf(path, '.')
    case None => ""
    case Some(i) => path[i..]
  }

  /** `getFileDirectory`: "" when there is no '/', else what precedes the last '/'. */
  function GetFileDirectory(path: string): (dir: string)
    ensures dir <= path
    ensures '/' !in path ==> dir == ""
  {
    match LastIndexOf(path, '/')
    case None => ""
    case Some(i) => path[..i]
  }

  /** A path with a '/' is its directory, a '/', and its file name. */
  lemma DirectoryAndName(path: string)
    requires '/' in path
    ensures GetFileDirectory(path) + "/" + GetFileName(path) == path
  {
    var i := LastIndexOf(path, '/').value;
    assert path == path[..i] + [path[i]] + path[i + 1..];
  }
}
