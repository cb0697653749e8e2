/** Joining filesystem paths the way `dir / p` does on POSIX systems. */
module Paths {

  predicate IsAbsolute(p: string)
  {
    |p| > 0 && p[0] == '/'
  }

  /**
   * An absolute `p` replaces `dir`; otherwise a separator is inserted
   * unless `dir` is empty or already ends in one.
   */
  function Join(dir: string, p: string): (r: string)
    ensures IsAbsolute(p) ==> r == p
    ensures !IsAbsolute(p) ==> |dir| <= |r| <= |dir| + 1 + |p| && r[..|dir|] == dir
    ensures |r| >= |p| && r[|r| - |p|..] == p
    ensures !IsAbsolute(p) && (|dir| == 0 || dir[|dir| - 1] == '/') ==> r == dir + p
    ensures !IsAbsolute(p) && |dir| > 0 && dir[|dir| - 1] != '/' ==> r == dir + "/" + p
  {
    if IsAbsolute(p) then p
    else if |dir| > 0 && dir[|dir| - 1] != '/' then dir + "/" + p
    else dir + p
  }
}
