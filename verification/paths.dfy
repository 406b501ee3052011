/** POSIX path helpers with the meaning Node's `path` module gives them, for
    the path shapes the service builds (a normalised directory joined with a
    single file name). */
module Paths {
  import opened Wrappers

  /** Index of the last `/` in `p`, if any. */
  function LastSlash(p: string): (r: Option<nat>)
    ensures r.Some? ==> r.value < |p| && p[r.value] == '/'
    ensures r.Some? ==> forall k :: r.value < k < |p| ==> p[k] != '/'
    ensures r.None? ==> forall k :: 0 <= k < |p| ==> p[k] != '/'
  {
    if |p| == 0 then None
    else if p[|p| - 1] == '/' then Some(|p| - 1)
    else LastSlash(p[..|p| - 1])
  }

  /** `path.join(dir, name)` for a normalised directory and one file name. */
  function JoinPath(dir: string, name: string): string {
    dir + "/" + name
  }

  /** `path.basename(p)` for a path that does not end in `/`: the text after the last `/`. */
  function Basename(p: string): (b: string)
    ensures '/' !in b
    ensures |b| <= |p| && b == p[|p| - |b|..]
  {
    match LastSlash(p)
    case None => p
    case Some(k) => p[k + 1..]
  }

  /** `path.dirname(p)` for a path that does not end in `/`. */
  function Dirname(p: string): string {
    match LastSlash(p)
    case None => "."
    case Some(k) => if k == 0 then "/" else p[..k]
  }

  /** The last slash of `dir/name` is the one the join inserted. */
  lemma LastSlashOfJoin(dir: string, name: string)
    requires '/' !in name
    ensures LastSlash(JoinPath(dir, name)) == Some(|dir|)
  {
    var p := JoinPath(dir, name);
    assert p[|dir|] == '/';
  }

  /** The base name of `dir/name` is `name`. */
  lemma BasenameOfJoin(dir: string, name: string)
    requires '/' !in name
    ensures Basename(JoinPath(dir, name)) == name
  {
    LastSlashOfJoin(dir, name);
  }

  /** The directory part of `dir/name` is `dir`. */
  lemma DirnameOfJoin(dir: string, name: string)
    requires |dir| > 0 && '/' !in name
    ensures Dirname(JoinPath(dir, name)) == dir
  {
    LastSlashOfJoin(dir, name);
  }

  /** `p` is `dir` itself or lies somewhere below it. */
  predicate Under(p: string, dir: string) {
    p == dir || (|p| > |dir| && p[..|dir|] == dir && p[|dir|] == '/')
  }

  /** Whatever the name, `dir/name` lies below `dir`. */
  lemma UnderJoin(dir: string, name: string)
    ensures Under(JoinPath(dir, name), dir)
  {
    var p := JoinPath(dir, name);
    assert p[..|dir|] == dir;
  }
}
