/** Prefixing public asset paths with the site's base path. */
module BasePath {
  import opened Wrappers
  import opened Strings

  /** `withBasePath(path)`, `basePath` being `NEXT_PUBLIC_BASE_PATH` (`None`
      when unset). */
  function WithBasePath(basePath: Option<string>, path: string): (r: string)
    ensures EndsWith(r, path)
    ensures basePath.GetOr("") == "" ==> r == path
    ensures basePath.GetOr("") != "" ==> StartsWith(r, basePath.value)
    ensures basePath.GetOr("") != "" && StartsWith(path, "/") ==> |r| == |basePath.value| + |path|
    ensures basePath.GetOr("") != "" && !StartsWith(path, "/") ==>
      |r| == |basePath.value| + 1 + |path| && r[|basePath.value|] == '/'
  {
    var base := basePath.GetOr("");
    if base == "" then path
    else if !StartsWith(path, "/") then
      var r := base + "/" + path;
      assert r[|r| - |path|..] == path && r[..|base|] == base;
      r
    else
      var r := base + path;
      assert r[|r| - |path|..] == path && r[..|base|] == base;
      r
  }

  /** Whatever the path, the result has exactly one separator between a set
      base path and the rest of the path: the text after the base path is the
      path made absolute. */
  lemma WithBasePathAbsolute(basePath: Option<string>, path: string)
    requires basePath.GetOr("") != ""
    ensures var r := WithBasePath(basePath, path);
      r == basePath.value + (if StartsWith(path, "/") then path else "/" + path)
  {
    if !StartsWith(path, "/") {
      assert basePath.value + "/" + path == basePath.value + ("/" + path);
    }
  }
}
