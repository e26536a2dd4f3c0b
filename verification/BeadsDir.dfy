/** Finding the `.beads` directory: the walk up from a directory, and its use in a monorepo. */
module BeadsDir {
  import opened Wrappers

  /** A resolved absolute path, as its components from the filesystem root. */
  type Path = seq<string>

  /** The directories the walk may consider: ancestors of `start`, none above `stop` if it is one of them. */
  predicate InRange(p: Path, start: Path, stop: Option<Path>) {
    p <= start && (stop.Some? && stop.value <= start ==> stop.value <= p)
  }

  lemma PrefixesNest(p: Path, q: Path, whole: Path)
    requires p <= whole && q <= whole && |p| <= |q|
    ensures p <= q
  {
  }

  /**
   The walk: the directory of the nearest `.beads`, which is the longest one in range; none
   only if no directory in range holds one.
   */
  method FindNearestBeadsDir(start: Path, stop: Option<Path>, hasBeads: set<Path>) returns (found: Option<Path>)
    ensures found.Some? ==>
              && found.value in hasBeads && InRange(found.value, start, stop)
              && forall p :: p in hasBeads && InRange(p, start, stop) ==> |p| <= |found.value|
    ensures found.None? ==> forall p :: p in hasBeads ==> !InRange(p, start, stop)
  {
    var current := start;
    while true
      invariant InRange(current, start, stop)
      invariant forall p :: p in hasBeads && InRange(p, start, stop) ==> |p| <= |current|
      decreases |current|
    {
      if current in hasBeads {
        return Some(current);
      }
      forall p | p in hasBeads && InRange(p, start, stop)
        ensures |p| < |current|
      {
        PrefixesNest(p, current, start);
        assert |p| == |current| ==> p == current;
      }
      if (stop.Some? && current == stop.value) || current == [] {
        return None;
      }
      current := current[..|current| - 1];
    }
  }

  /**
   The tracker a bd call is pointed at. In host mode it always lies in the project; for a
   working directory inside the project it is the nearest one, or the project's own.
   */
  method ResolveBeadsDir(org: Path, projectRoot: Option<Path>, cwd: Path, hasBeads: set<Path>) returns (dir: Path)
    ensures projectRoot.None? ==> dir == org
    ensures projectRoot.Some? ==>
              var root := projectRoot.value;
              && root <= dir
              && (!(root <= cwd) ==> dir == root)
              && (root <= cwd ==>
                    && dir <= cwd
                    && (forall p :: p in hasBeads && root <= p <= cwd ==> |p| <= |dir|)
                    && (dir in hasBeads || (dir == root && forall p :: p in hasBeads ==> !(root <= p <= cwd))))
  {
    if projectRoot.None? {
      return org;
    }
    var root := projectRoot.value;
    if !(root <= cwd) {
      return root;
    }
    var found := FindNearestBeadsDir(cwd, Some(root), hasBeads);
    assert forall p :: root <= p <= cwd ==> InRange(p, cwd, Some(root));
    dir := if found.Some? then found.value else root;
  }
}
