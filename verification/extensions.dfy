/** `correctFileExtensions`, with `os.path.splitext` for POSIX paths. */
module Extensions {

  /** Position of the last `c` in `s`, or -1 (Python's `str.rfind`). */
  function LastIndex(s: string, c: char): (r: int)
    ensures -1 <= r < |s|
    ensures r >= 0 ==> s[r] == c
    ensures forall k :: r < k < |s| ==> s[k] != c
  {
    if s == [] then -1
    else if s[|s| - 1] == c then |s| - 1
    else LastIndex(s[..|s| - 1], c)
  }

  /**
   * The path has an extension to split off: a dot in its last component with some
   * character other than a dot before it in that component (".bashrc" has none).
   */
  predicate HasSplittableDot(path: string) {
    exists i, j :: 0 <= i < j < |path| && path[j] == '.' && path[i] != '.' && NoSlashFrom(path, i)
  }

  predicate NoSlashFrom(path: string, i: int)
    requires 0 <= i <= |path|
  {
    forall k :: i <= k < |path| ==> path[k] != '/'
  }

  /**
   * `ext` is what `splitext` returns as the extension of `path`: the suffix from the last
   * dot when there is one to split off, otherwise the empty string.
   */
  predicate IsExtensionOf(ext: string, path: string) {
    if HasSplittableDot(path) then
      && 0 < |ext| <= |path|
      && path[|path| - |ext|..] == ext
      && ext[0] == '.'
      && forall k :: 0 < k < |ext| ==> ext[k] != '.' && ext[k] != '/'
    else ext == ""
  }

  /** A path has only one extension. */
  lemma ExtensionUnique(a: string, b: string, path: string)
    requires IsExtensionOf(a, path) && IsExtensionOf(b, path)
    ensures a == b
  {
  }

  method SplitExt(path: string) returns (root: string, ext: string)
    ensures root + ext == path
    ensures IsExtensionOf(ext, path)
  {
    var sepIndex := LastIndex(path, '/');
    var dotIndex := LastIndex(path, '.');
    if dotIndex > sepIndex {
      // skip all leading dots of the last component
      var filenameIndex := sepIndex + 1;
      while filenameIndex < dotIndex
        invariant sepIndex + 1 <= filenameIndex <= dotIndex
        invariant forall k :: sepIndex + 1 <= k < filenameIndex ==> path[k] == '.'
      {
        if path[filenameIndex] != '.' {
          assert NoSlashFrom(path, filenameIndex);
          assert HasSplittableDot(path);
          return path[..dotIndex], path[dotIndex..];
        }
        filenameIndex := filenameIndex + 1;
      }
    }
    assert !HasSplittableDot(path) by {
      if i, j :| 0 <= i < j < |path| && path[j] == '.' && path[i] != '.' && NoSlashFrom(path, i) {
      }
    }
    return path, "";
  }

  /** True exactly when every file name carries the configured extension. */
  method CorrectFileExtensions(fileNames: seq<string>, extension: string) returns (ok: bool)
    ensures ok <==> forall i :: 0 <= i < |fileNames| ==> IsExtensionOf(extension, fileNames[i])
  {
    for i := 0 to |fileNames|
      invariant forall k :: 0 <= k < i ==> IsExtensionOf(extension, fileNames[k])
    {
      var _, fileNameExtension := SplitExt(fileNames[i]);
      if fileNameExtension != extension {
        if IsExtensionOf(extension, fileNames[i]) {
          ExtensionUnique(extension, fileNameExtension, fileNames[i]);
        }
        return false;
      }
    }
    return true;
  }
}
