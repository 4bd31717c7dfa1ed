/**
 * Discovery: the walk of the input tree is given as the sequence of the
 * files `os.walk` visits, each with the directory it was found in.
 */
module Discovery {
  import opened Naming

  /** One `(root, file)` pair of the walk. */
  datatype Entry = Entry(root: Path, name: string)

  /** `Path(root) / file` */
  function FullPath(e: Entry): Path {
    e.root + [e.name]
  }

  /** The full paths of the SVG entries of `walk`, in visit order. */
  function SvgPaths(walk: seq<Entry>): (r: seq<Path>)
    ensures |r| <= |walk|
    decreases |walk|
  {
    if walk == [] then []
    else
      var e := walk[|walk| - 1];
      SvgPaths(walk[..|walk| - 1]) + (if IsSvgName(e.name) then [FullPath(e)] else [])
  }

  /** The number of entries of `walk` that are not SVG files. */
  function SkippedCount(walk: seq<Entry>): nat
    decreases |walk|
  {
    if walk == [] then 0
    else SkippedCount(walk[..|walk| - 1]) + (if IsSvgName(walk[|walk| - 1].name) then 0 else 1)
  }

  /** Every visited file is classified exactly once. */
  lemma {:induction false} DiscoveryComplete(walk: seq<Entry>)
    ensures |SvgPaths(walk)| + SkippedCount(walk) == |walk|
    decreases |walk|
  {
    if walk != [] {
      DiscoveryComplete(walk[..|walk| - 1]);
    }
  }

  /** Discovering a concatenated walk gives the results for its parts in
      order: the list keeps the order of the walk. */
  lemma {:induction false} SvgPathsAppend(a: seq<Entry>, b: seq<Entry>)
    ensures SvgPaths(a + b) == SvgPaths(a) + SvgPaths(b)
    decreases |b|
  {
    if b != [] {
      var b' := b[..|b| - 1];
      assert (a + b)[..|a + b| - 1] == a + b';
      assert (a + b)[|a + b| - 1] == b[|b| - 1];
      SvgPathsAppend(a, b');
    } else {
      assert a + b == a;
    }
  }

  /** A path is in the list exactly when some visited SVG file has it. */
  lemma {:induction false} SvgPathsMembership(walk: seq<Entry>, p: Path)
    ensures p in SvgPaths(walk) <==>
      exists i :: 0 <= i < |walk| && IsSvgName(walk[i].name) && FullPath(walk[i]) == p
    decreases |walk|
  {
    if walk != [] {
      var w := walk[..|walk| - 1];
      SvgPathsMembership(w, p);
      if p in SvgPaths(walk) && p !in SvgPaths(w) {
        assert IsSvgName(walk[|walk| - 1].name) && FullPath(walk[|walk| - 1]) == p;
      }
      if exists i :: 0 <= i < |walk| && IsSvgName(walk[i].name) && FullPath(walk[i]) == p {
        var i :| 0 <= i < |walk| && IsSvgName(walk[i].name) && FullPath(walk[i]) == p;
        if i < |w| {
          assert w[i] == walk[i];
        }
      }
    }
  }

  /** Every entry of the walk lies under the input root, as `os.walk` guarantees. */
  predicate UnderRoot(inputDir: Path, walk: seq<Entry>) {
    forall i :: 0 <= i < |walk| ==> inputDir <= walk[i].root
  }

  /** Under that guarantee every discovered path lies under the root. */
  lemma {:induction false} DiscoveredUnderRoot(inputDir: Path, walk: seq<Entry>)
    requires UnderRoot(inputDir, walk)
    ensures forall p :: p in SvgPaths(walk) ==> inputDir <= p
    decreases |walk|
  {
    if walk != [] {
      var w := walk[..|walk| - 1];
      assert UnderRoot(inputDir, w);
      DiscoveredUnderRoot(inputDir, w);
    }
  }
}
