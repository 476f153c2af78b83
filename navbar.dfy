/** The navigation bar's active-link test. */
module Navbar {
  import opened Strings

  const Root := "/"

  /**
   * `isActive(path)` on the current `pathname`: the root link only on the root itself,
   * any other link whenever the pathname starts with its path.
   */
  function IsActive(pathname: string, path: string): (r: bool)
    ensures path == Root ==> (r <==> pathname == Root)
    ensures path != Root ==> (r <==> StartsWith(pathname, path))
  {
    if path == Root then pathname == Root else StartsWith(pathname, path)
  }

  /** Every link is active on its own path. */
  lemma ActiveOnItself(path: string)
    ensures IsActive(path, path)
  {
    assert path[..|path|] == path;
  }

  /** Every pathname starts with `/`, yet the root link is active on no other pathname. */
  lemma RootOnlyOnRoot(pathname: string)
    requires pathname != Root
    ensures !IsActive(pathname, Root)
    ensures |pathname| >= 1 && pathname[0] == '/' ==> StartsWith(pathname, Root)
  {
    if |pathname| >= 1 && pathname[0] == '/' {
      assert pathname[..1] == [pathname[0]];
    }
  }

  /** The test is a raw prefix test with no segment boundary: `/games` is active on `/gamesX`. */
  lemma NoSegmentCheck()
    ensures IsActive("/gamesX", "/games")
  {
    assert "/gamesX"[..|"/games"|] == "/games";
  }

  /** A link stays active on every deeper pathname. */
  lemma ActiveOnExtension(pathname: string, path: string, more: string)
    requires path != Root && IsActive(pathname, path)
    ensures IsActive(pathname + more, path)
  {
    assert (pathname + more)[..|path|] == pathname[..|path|];
  }
}
