/** Slash-separated paths: splitting one, and prefixing one with a link name. */
module Paths {

  ghost predicate SlashFree(name: string) {
    '/' !in name
  }

  /** A link name that survives `path.Join`, which drops or resolves the others. */
  ghost predicate ValidName(name: string) {
    name != "" && name != "." && name != ".." && SlashFree(name)
  }

  function FirstSlash(p: string): (i: nat)
    requires '/' in p
    ensures i < |p| && p[i] == '/' && '/' !in p[..i]
  {
    if p[0] == '/' then 0
    else
      assert p == [p[0]] + p[1..];
      var i := FirstSlash(p[1..]);
      assert p[..i + 1] == [p[0]] + p[1..][..i];
      i + 1
  }

  /** The path components; the empty path has one, which is empty. */
  function SplitList(p: string): seq<string>
    decreases |p|
  {
    if '/' !in p then [p]
    else var i := FirstSlash(p); [p[..i]] + SplitList(p[i + 1..])
  }

  /** `path.Join` on a link name and a path of link names. */
  function JoinPath(name: string, sub: string): string {
    if sub == "" then name else name + "/" + sub
  }

  /** Joining and then splitting gives the name in front of the other components. */
  lemma {:induction false} SplitJoin(name: string, sub: string)
    requires SlashFree(name)
    ensures SplitList(JoinPath(name, sub)) == if sub == "" then [name] else [name] + SplitList(sub)
  {
    if sub != "" {
      var p := name + "/" + sub;
      assert p[|name|] == '/' && p[..|name|] == name && p[|name| + 1..] == sub;
    }
  }
}
