/** Catalog and filesystem paths as sequences of segments. Only absolute,
    normalised paths are expressible: the empty sequence is the root "/",
    and `Dirname` is `os.path.dirname` on such paths. */
module Paths {

  type Path = seq<string>

  const Root: Path := []

  /** The parent of `p`; the parent of the root is the root itself. */
  function Dirname(p: Path): (d: Path)
    ensures p == Root ==> d == Root
    ensures p != Root ==> d < p && |d| + 1 == |p|
  {
    if p == Root then Root else p[..|p| - 1]
  }
}
