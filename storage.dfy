/**
 * Local media storage (backend/app/services/storage.py): validation of the
 * relative path, containment in the media root and the public URL. Paths
 * are sequences of segments; the media root is given already resolved, and
 * resolution is lexical (`.` and empty segments dropped, `..` climbs one
 * level and stops at the filesystem root). The file writes are not modelled.
 */
module Storage {
  import opened Wrappers
  import opened Strings

  datatype StorageError = StorageError(message: string)
  datatype StoredObject = StoredObject(url: string, path: seq<string>)

  /** str.rstrip("/"). */
  function RStripSlash(s: string): (r: string)
    ensures |r| <= |s| && r == s[..|r|]
    ensures r == [] || r[|r| - 1] != '/'
    ensures forall i :: |r| <= i < |s| ==> s[i] == '/'
  {
    if s != [] && s[|s| - 1] == '/' then RStripSlash(s[..|s| - 1]) else s
  }

  /** Lexical resolution of the segments segs below the directory dir. */
  function Resolve(dir: seq<string>, segs: seq<string>): seq<string>
    decreases |segs|
  {
    if segs == [] then dir
    else if segs[0] == "" || segs[0] == "." then Resolve(dir, segs[1..])
    else if segs[0] == ".." then Resolve(if dir == [] then [] else dir[..|dir| - 1], segs[1..])
    else Resolve(dir + [segs[0]], segs[1..])
  }

  /** The segments a path keeps when none of them is "..". */
  function Named(segs: seq<string>): seq<string> {
    if segs == [] then []
    else if segs[0] == "" || segs[0] == "." then Named(segs[1..])
    else [segs[0]] + Named(segs[1..])
  }

  /** LocalMediaStorage: the resolved media root and the base URL without trailing '/'. */
  datatype LocalMediaStorage = LocalMediaStorage(root: seq<string>, baseUrl: string) {

    /** save_bytes, up to the write: the checks and the returned object. */
    function SaveBytes(relPath: string): Result<StoredObject, StorageError> {
      if relPath == [] || relPath[0] == '/' then Failure(StorageError("rel_path must be a relative path"))
      else
        var abs := Resolve(root, SplitOn(relPath, '/'));
        if !(root <= abs) then Failure(StorageError("rel_path escapes media_root"))
        else Success(StoredObject(baseUrl + "/" + relPath, abs))
    }
  }

  /** __init__: keeps the root and strips every trailing '/' from the base URL. */
  function NewStorage(root: seq<string>, mediaBaseUrl: string): (s: LocalMediaStorage)
    ensures s.root == root
    ensures s.baseUrl == [] || s.baseUrl[|s.baseUrl| - 1] != '/'
    ensures s.baseUrl <= mediaBaseUrl
    ensures forall i :: |s.baseUrl| <= i < |mediaBaseUrl| ==> mediaBaseUrl[i] == '/'
  {
    LocalMediaStorage(root, RStripSlash(mediaBaseUrl))
  }

  /**
   * An empty path or one starting with '/' is refused first; any accepted
   * path lies within the root, and its URL is the base URL, '/', and the
   * path as given.
   */
  lemma SaveBytesOutcome(s: LocalMediaStorage, relPath: string)
    ensures relPath == [] || relPath[0] == '/' ==>
      s.SaveBytes(relPath) == Failure(StorageError("rel_path must be a relative path"))
    ensures s.SaveBytes(relPath).Success? ==>
      && relPath != [] && relPath[0] != '/'
      && s.root <= s.SaveBytes(relPath).value.path
      && s.SaveBytes(relPath).value.url == s.baseUrl + "/" + relPath
    ensures s.SaveBytes(relPath).Failure? && relPath != [] && relPath[0] != '/' ==>
      s.SaveBytes(relPath) == Failure(StorageError("rel_path escapes media_root"))
  {
  }

  lemma {:induction false} ResolveNamed(dir: seq<string>, segs: seq<string>)
    requires forall k :: 0 <= k < |segs| ==> segs[k] != ".."
    ensures Resolve(dir, segs) == dir + Named(segs)
    decreases |segs|
  {
    if segs != [] {
      if segs[0] == "" || segs[0] == "." {
        ResolveNamed(dir, segs[1..]);
      } else {
        ResolveNamed(dir + [segs[0]], segs[1..]);
        assert dir + [segs[0]] + Named(segs[1..]) == dir + ([segs[0]] + Named(segs[1..]));
      }
    }
  }

  /**
   * A relative path with no ".." segment is accepted: it is stored at the
   * root followed by its named segments.
   */
  lemma PlainPathAccepted(s: LocalMediaStorage, relPath: string)
    requires relPath != [] && relPath[0] != '/'
    requires forall k :: 0 <= k < |SplitOn(relPath, '/')| ==> SplitOn(relPath, '/')[k] != ".."
    ensures s.SaveBytes(relPath)
         == Success(StoredObject(s.baseUrl + "/" + relPath, s.root + Named(SplitOn(relPath, '/'))))
  {
    ResolveNamed(s.root, SplitOn(relPath, '/'));
  }

  /**
   * "../name" climbs out of a non-empty root and is refused, unless name is
   * the root's own last segment (then it resolves to the root itself).
   */
  lemma ParentPathRejected(s: LocalMediaStorage, name: string)
    requires |s.root| > 0 && '/' !in name && name != "" && name != "." && name != ".."
    requires s.root[|s.root| - 1] != name
    ensures s.SaveBytes("../" + name) == Failure(StorageError("rel_path escapes media_root"))
  {
    var rel := "../" + name;
    assert rel[0] == '.' && rel[1] == '.' && rel[2] == '/' && rel[3..] == name;
    SplitOnNoSep(name, '/');
    assert rel[2..][1..] == rel[3..];
    assert SplitOn(rel[2..], '/') == [[], name];
    assert rel[1..][1..] == rel[2..] && rel[1..][0] == '.';
    var r1 := SplitOn(rel[2..], '/');
    assert SplitOn(rel[1..], '/') == [['.'] + r1[0]] + r1[1..];
    assert r1[0] == [] && r1[1..] == [name] && ['.'] + r1[0] == ".";
    assert SplitOn(rel[1..], '/') == [".", name];
    var r0 := SplitOn(rel[1..], '/');
    assert SplitOn(rel, '/') == [['.'] + r0[0]] + r0[1..];
    assert r0[0] == "." && r0[1..] == [name] && ['.'] + r0[0] == "..";
    var segs := SplitOn(rel, '/');
    assert segs == ["..", name];
    var up := s.root[..|s.root| - 1];
    assert Resolve(s.root, segs) == Resolve(up, [name]);
    assert Resolve(up, [name]) == up + [name] by {
      assert [name][1..] == [];
    }
    assert (up + [name])[|s.root| - 1] == name;
  }

  /** A text without the separator splits into itself. */
  lemma {:induction false} SplitOnNoSep(t: string, c: char)
    requires c !in t
    ensures SplitOn(t, c) == [t]
  {
    if t != [] {
      SplitOnNoSep(t[1..], c);
      assert [t[0]] + t[1..] == t;
    }
  }

  /** Segments that are all names are kept as they are. */
  lemma {:induction false} NamedOfPlain(segs: seq<string>)
    requires forall k :: 0 <= k < |segs| ==> segs[k] != "" && segs[k] != "."
    ensures Named(segs) == segs
  {
    if segs != [] {
      NamedOfPlain(segs[1..]);
      assert [segs[0]] + segs[1..] == segs;
    }
  }
}
