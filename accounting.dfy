/**
 * The per-file and per-size bookkeeping of `convert_files`, as functions of
 * the file-system snapshot and the rasterizer's answers. The converter's
 * methods are proved to follow these functions; the lemmas here state what
 * the counters mean.
 */
module Accounting {
  import opened Wrappers
  import opened Naming
  import opened Staleness
  import opened Discovery

  /** The rasterizer as an oracle: `convert_svg_to_png(svg, png, size)`,
      true when the PNG was written. */
  type Renderer = (Path, Path, int) -> bool

  /** Everything outside the converter that a run consults. */
  datatype Env = Env(fs: Mtimes, render: Renderer)

  /** One invocation of the rasterizer. */
  datatype Call = Call(svg: Path, png: Path, size: int)

  /** What `convert_files` computes for one SVG before its size loop: the
      source path and, from `rel_dir` and `base_name`, the PNG path of each size. */
  datatype Job = Job(svg: Path, png: int -> Path)

  /** `rel_path = svg_path.relative_to(input_dir)`, then its parent and stem;
      None when `relative_to` raises. */
  function JobFor(inputDir: Path, outputDir: Path, svg: Path): (r: Option<Job>)
    ensures r.Some? <==> inputDir <= svg
    ensures r.Some? ==> r.value.svg == svg
  {
    match RelativeTo(svg, inputDir)
    case None => None
    case Some(rel) => Some(JobOf(svg, outputDir, Parent(rel), Stem(Name(rel))))
  }

  /** The job whose PNG for each size lies in the mirrored directory `relDir`
      under the output root and is named after `baseName` and the size. */
  function JobOf(svg: Path, outputDir: Path, relDir: Path, baseName: string): (j: Job)
    ensures j.svg == svg
    ensures forall size :: j.png(size) == OutputPath(outputDir, relDir, baseName, size)
  {
    Job(svg, size => OutputPath(outputDir, relDir, baseName, size))
  }

  /** A file the walk found, under a root that lies below the input root,
      gets the PNG paths that mirror the walk's directory under the output root. */
  lemma DiscoveredJob(inputDir: Path, outputDir: Path, e: Entry, size: int)
    requires inputDir <= e.root
    ensures JobFor(inputDir, outputDir, FullPath(e)).Some?
    ensures JobFor(inputDir, outputDir, FullPath(e)).value.png(size) ==
      OutputPath(outputDir, e.root[|inputDir|..], Stem(e.name), size)
  {
    var rel := FullPath(e)[|inputDir|..];
    assert rel == e.root[|inputDir|..] + [e.name];
    assert Parent(rel) == e.root[|inputDir|..];
  }

  /** When the walk stays under the input root, no discovered file makes
      `relative_to` raise. */
  lemma DiscoveredJobsExist(inputDir: Path, outputDir: Path, walk: seq<Entry>)
    requires UnderRoot(inputDir, walk)
    ensures forall j :: j in Jobs(inputDir, outputDir, SvgPaths(walk)) ==> j.Some?
  {
    DiscoveredUnderRoot(inputDir, walk);
  }

  /** The number of calls the rasterizer answered with success. */
  function Successes(render: Renderer, calls: seq<Call>): (n: nat)
    ensures n <= |calls|
    decreases |calls|
  {
    if calls == [] then 0
    else
      var c := calls[|calls| - 1];
      Successes(render, calls[..|calls| - 1]) + (if render(c.svg, c.png, c.size) then 1 else 0)
  }

  lemma {:induction false} SuccessesAppend(render: Renderer, a: seq<Call>, b: seq<Call>)
    ensures Successes(render, a + b) == Successes(render, a) + Successes(render, b)
    decreases |b|
  {
    if b == [] {
      assert a + b == a;
    } else {
      var b' := b[..|b| - 1];
      assert (a + b)[..|a + b| - 1] == a + b';
      assert (a + b)[|a + b| - 1] == b[|b| - 1];
      SuccessesAppend(render, a, b');
    }
  }

  /** The state of the size loop for one file: the rasterizer calls made,
      `png_files_created` gained, the flag `file_converted`, the counter
      `file_errors`, and whether an exception left the loop. */
  datatype SizeTally = SizeTally(calls: seq<Call>, created: nat, fileConverted: bool,
                                 fileErrors: nat, aborted: bool)

  const Untouched := SizeTally([], 0, false, 0, false)

  /** One pass of the loop body, for one size. */
  function SizeStep(env: Env, job: Job, size: int, t: SizeTally): SizeTally {
    var png := job.png(size);
    match Decide(env.fs, job.svg, png)
    case StatFails => t.(aborted := true)
    case Skip => t
    case Convert =>
      var t' := t.(calls := t.calls + [Call(job.svg, png, size)]);
      if env.render(job.svg, png, size) then t'.(created := t.created + 1, fileConverted := true)
      else t'.(fileErrors := t.fileErrors + 1)
  }

  /** The loop over `sizes`, left to right, stopping at an exception. */
  function SizesTally(env: Env, job: Job, sizes: seq<int>): SizeTally
    decreases |sizes|
  {
    if sizes == [] then Untouched
    else
      var t := SizesTally(env, job, sizes[..|sizes| - 1]);
      if t.aborted then t else SizeStep(env, job, sizes[|sizes| - 1], t)
  }

  /** One more pass of the size loop. */
  lemma SizesTallyStep(env: Env, job: Job, sizes: seq<int>, i: nat)
    requires i < |sizes| && !SizesTally(env, job, sizes[..i]).aborted
    ensures SizesTally(env, job, sizes[..i + 1]) == SizeStep(env, job, sizes[i], SizesTally(env, job, sizes[..i]))
  {
    assert sizes[..i + 1][..i] == sizes[..i];
  }

  /** Once the loop has been left by an exception, later sizes change nothing. */
  lemma {:induction false} SizesTallyAbortSticky(env: Env, job: Job, sizes: seq<int>, k: nat)
    requires k <= |sizes| && SizesTally(env, job, sizes[..k]).aborted
    ensures SizesTally(env, job, sizes) == SizesTally(env, job, sizes[..k])
    decreases |sizes|
  {
    if k == |sizes| {
      assert sizes[..k] == sizes;
    } else {
      var w := sizes[..|sizes| - 1];
      assert w[..k] == sizes[..k];
      SizesTallyAbortSticky(env, job, w, k);
    }
  }

  /** Every call succeeds or fails: successes are `png_files_created`,
      failures are `file_errors`, and `file_converted` is "some call succeeded". */
  lemma {:induction false} SizesTallyAccounting(env: Env, job: Job, sizes: seq<int>)
    ensures var t := SizesTally(env, job, sizes);
      && t.created + t.fileErrors == |t.calls| <= |sizes|
      && t.created == Successes(env.render, t.calls)
      && (t.fileConverted <==> t.created > 0)
    decreases |sizes|
  {
    if sizes != [] {
      var w := sizes[..|sizes| - 1];
      SizesTallyAccounting(env, job, w);
      var t := SizesTally(env, job, w);
      var size := sizes[|sizes| - 1];
      var png := job.png(size);
      if !t.aborted && Decide(env.fs, job.svg, png) == Convert {
        SuccessesAppend(env.render, t.calls, [Call(job.svg, png, size)]);
      }
    }
  }

  /** The loop is left by an exception exactly when some size finds its PNG
      present and its SVG missing. */
  lemma {:induction false} SizesTallyAborts(env: Env, job: Job, sizes: seq<int>)
    ensures SizesTally(env, job, sizes).aborted <==>
      exists i :: 0 <= i < |sizes| && Decide(env.fs, job.svg, job.png(sizes[i])) == StatFails
    decreases |sizes|
  {
    if sizes != [] {
      var w := sizes[..|sizes| - 1];
      SizesTallyAborts(env, job, w);
      if exists i :: 0 <= i < |w| && Decide(env.fs, job.svg, job.png(w[i])) == StatFails {
        var i :| 0 <= i < |w| && Decide(env.fs, job.svg, job.png(w[i])) == StatFails;
        assert sizes[i] == w[i];
      }
      if exists i :: 0 <= i < |sizes| && Decide(env.fs, job.svg, job.png(sizes[i])) == StatFails {
        var i :| 0 <= i < |sizes| && Decide(env.fs, job.svg, job.png(sizes[i])) == StatFails;
        if i < |w| {
          assert w[i] == sizes[i];
        }
      }
    }
  }

  /** The rasterizer is called for a (file, size) pair exactly when the staleness
      test asks for conversion: every call is such a pair, and, unless the loop
      was left early, every such pair is called. */
  lemma {:induction false} SizesTallyCalls(env: Env, job: Job, sizes: seq<int>)
    ensures var t := SizesTally(env, job, sizes);
      && (forall c :: c in t.calls ==>
            && c.svg == job.svg && c.png == job.png(c.size) && c.size in sizes
            && Decide(env.fs, job.svg, c.png) == Convert)
      && (!t.aborted ==> forall i :: 0 <= i < |sizes| && Decide(env.fs, job.svg, job.png(sizes[i])) == Convert ==>
            Call(job.svg, job.png(sizes[i]), sizes[i]) in t.calls)
    decreases |sizes|
  {
    if sizes != [] {
      var w := sizes[..|sizes| - 1];
      SizesTallyCalls(env, job, w);
      var t := SizesTally(env, job, sizes);
      var tw := SizesTally(env, job, w);
      forall c | c in t.calls
        ensures c.svg == job.svg && c.png == job.png(c.size) && c.size in sizes
      {
        if c in tw.calls {
          assert c.size in w;
        }
      }
      if !t.aborted {
        forall i | 0 <= i < |sizes| && Decide(env.fs, job.svg, job.png(sizes[i])) == Convert
          ensures Call(job.svg, job.png(sizes[i]), sizes[i]) in t.calls
        {
          if i < |w| {
            assert w[i] == sizes[i];
          }
        }
      }
    }
  }

  /** When no output of the file is up to date and every one can be decided,
      each size is converted, once, in the configured order. */
  lemma {:induction false} ForcedReconversion(env: Env, job: Job, sizes: seq<int>)
    requires forall i :: 0 <= i < |sizes| ==> Decide(env.fs, job.svg, job.png(sizes[i])) == Convert
    ensures var t := SizesTally(env, job, sizes);
      && !t.aborted
      && |t.calls| == |sizes|
      && forall k :: 0 <= k < |sizes| ==> t.calls[k] == Call(job.svg, job.png(sizes[k]), sizes[k])
    decreases |sizes|
  {
    if sizes != [] {
      var w := sizes[..|sizes| - 1];
      ForcedReconversion(env, job, w);
    }
  }

  /** When every output of the file is up to date, the loop touches nothing. */
  lemma {:induction false} AllSizesSkipped(env: Env, job: Job, sizes: seq<int>)
    requires forall i :: 0 <= i < |sizes| ==> UpToDate(env.fs, job.svg, job.png(sizes[i]))
    ensures SizesTally(env, job, sizes) == Untouched
    decreases |sizes|
  {
    if sizes != [] {
      AllSizesSkipped(env, job, sizes[..|sizes| - 1]);
    }
  }

  /** What one source file adds to the run's counters. */
  datatype Tally = Tally(converted: nat, errors: nat, created: nat, calls: seq<Call>) {
    function Plus(other: Tally): Tally {
      Tally(converted + other.converted, errors + other.errors, created + other.created,
            calls + other.calls)
    }
  }

  /** The job of every discovered file, in order. */
  function Jobs(inputDir: Path, outputDir: Path, svgs: seq<Path>): (r: seq<Option<Job>>)
    ensures |r| == |svgs|
    ensures forall i :: 0 <= i < |svgs| ==> r[i] == JobFor(inputDir, outputDir, svgs[i])
  {
    seq(|svgs|, i requires 0 <= i < |svgs| => JobFor(inputDir, outputDir, svgs[i]))
  }

  /** The body of the per-file `try` (None: `relative_to` raised): the size
      loop, then `converted` when a size succeeded and `errors` when every size
      failed; an exception adds to `errors` alone, keeping what earlier sizes
      added to `png_files_created`. */
  function FileTally(env: Env, sizes: seq<int>, job: Option<Job>): Tally {
    match job
    case None => Tally(0, 1, 0, [])
    case Some(j) =>
      var t := SizesTally(env, j, sizes);
      if t.aborted then Tally(0, 1, t.created, t.calls)
      else Tally(if t.fileConverted then 1 else 0, if t.fileErrors == |sizes| then 1 else 0,
                 t.created, t.calls)
  }

  /** A file counts as converted when some size succeeded, as an error when
      every size was attempted and failed (or the file was aborted), and never
      as both; `png_files_created` gains the successful calls. */
  lemma FileTallyOutcome(env: Env, sizes: seq<int>, job: Option<Job>)
    ensures var r := FileTally(env, sizes, job);
      && r.converted <= 1 && r.errors <= 1 && r.converted + r.errors <= 1
      && r.created == Successes(env.render, r.calls)
      && match job
         case None => r == Tally(0, 1, 0, [])
         case Some(j) =>
           var t := SizesTally(env, j, sizes);
           && r.calls == t.calls
           && (r.converted == 1 <==> !t.aborted && r.created > 0)
           && (r.errors == 1 <==> t.aborted || (|t.calls| == |sizes| && r.created == 0))
  {
    match job
    case None =>
    case Some(j) =>
      SizesTallyAccounting(env, j, sizes);
  }

  /** A file whose sizes were partly skipped and otherwise all failed counts
      neither as converted nor as an error. */
  lemma SkippedAndFailedCountsNeither(env: Env, sizes: seq<int>, job: Job)
    requires var t := SizesTally(env, job, sizes);
      !t.aborted && |t.calls| < |sizes| && Successes(env.render, t.calls) == 0
    ensures var r := FileTally(env, sizes, Some(job));
      r.converted == 0 && r.errors == 0
  {
    FileTallyOutcome(env, sizes, Some(job));
  }

  /** The loop of `convert_files` over the discovered files, in order. */
  function FilesTally(env: Env, sizes: seq<int>, jobs: seq<Option<Job>>): Tally
    decreases |jobs|
  {
    if jobs == [] then Tally(0, 0, 0, [])
    else FilesTally(env, sizes, jobs[..|jobs| - 1]).Plus(FileTally(env, sizes, jobs[|jobs| - 1]))
  }

  /** One more pass of the file loop. */
  lemma FilesTallyStep(env: Env, sizes: seq<int>, jobs: seq<Option<Job>>, k: nat)
    requires k < |jobs|
    ensures FilesTally(env, sizes, jobs[..k + 1]) == FilesTally(env, sizes, jobs[..k]).Plus(FileTally(env, sizes, jobs[k]))
  {
    assert jobs[..k + 1][..k] == jobs[..k];
  }

  /** Over a whole run each file counts at most once, as converted or as an
      error, and `png_files_created` is the number of successful calls. */
  lemma {:induction false} FilesTallyBounds(env: Env, sizes: seq<int>, jobs: seq<Option<Job>>)
    ensures var r := FilesTally(env, sizes, jobs);
      r.converted + r.errors <= |jobs| && r.created == Successes(env.render, r.calls)
    decreases |jobs|
  {
    if jobs != [] {
      var w := jobs[..|jobs| - 1];
      var last := jobs[|jobs| - 1];
      FilesTallyBounds(env, sizes, w);
      FileTallyOutcome(env, sizes, last);
      SuccessesAppend(env.render, FilesTally(env, sizes, w).calls, FileTally(env, sizes, last).calls);
    }
  }

  /** Files are processed independently: the counters of a run over `a + b`
      are those of `a` plus those of `b`, so one failing file changes nothing
      for the others. */
  lemma {:induction false} FilesTallyAppend(env: Env, sizes: seq<int>, a: seq<Option<Job>>, b: seq<Option<Job>>)
    ensures FilesTally(env, sizes, a + b) == FilesTally(env, sizes, a).Plus(FilesTally(env, sizes, b))
    decreases |b|
  {
    var x := FilesTally(env, sizes, a);
    if b == [] {
      assert a + b == a;
      PlusZero(x);
    } else {
      var b' := b[..|b| - 1];
      var ab := a + b;
      var z := FileTally(env, sizes, b[|b| - 1]);
      assert ab[..|ab| - 1] == a + b' && ab[|ab| - 1] == b[|b| - 1];
      assert FilesTally(env, sizes, ab) == FilesTally(env, sizes, a + b').Plus(z);
      assert FilesTally(env, sizes, b) == FilesTally(env, sizes, b').Plus(z);
      FilesTallyAppend(env, sizes, a, b');
      PlusAssoc(x, FilesTally(env, sizes, b'), z);
    }
  }

  lemma PlusZero(x: Tally)
    ensures x.Plus(Tally(0, 0, 0, [])) == x
  {
    assert x.calls + [] == x.calls;
  }

  lemma PlusAssoc(x: Tally, y: Tally, z: Tally)
    ensures x.Plus(y).Plus(z) == x.Plus(y.Plus(z))
  {
    assert (x.calls + y.calls) + z.calls == x.calls + (y.calls + z.calls);
  }

  /** Every output of the file exists strictly newer than its source. */
  predicate FileUpToDate(fs: Mtimes, sizes: seq<int>, job: Option<Job>) {
    match job
    case None => false
    case Some(j) => forall i :: 0 <= i < |sizes| ==> UpToDate(fs, j.svg, j.png(sizes[i]))
  }

  /** A file whose outputs are all up to date adds nothing to the counters. */
  lemma UpToDateFileDoesNothing(env: Env, sizes: seq<int>, job: Option<Job>)
    requires |sizes| > 0 && FileUpToDate(env.fs, sizes, job)
    ensures FileTally(env, sizes, job) == Tally(0, 0, 0, [])
  {
    AllSizesSkipped(env, job.value, sizes);
  }

  /** A run over files whose outputs are all up to date calls the rasterizer
      never and leaves `converted`, `errors` and `png_files_created` alone.
      (With no sizes at all, every file would have as many failures as sizes
      and count as an error; the converter's defaulting rules that out.) */
  lemma {:induction false} UpToDateRunDoesNothing(env: Env, sizes: seq<int>, jobs: seq<Option<Job>>)
    requires |sizes| > 0
    requires forall job :: job in jobs ==> FileUpToDate(env.fs, sizes, job)
    ensures FilesTally(env, sizes, jobs) == Tally(0, 0, 0, [])
    decreases |jobs|
  {
    if jobs != [] {
      var w := jobs[..|jobs| - 1];
      var last := jobs[|jobs| - 1];
      assert jobs == w + [last];
      UpToDateRunDoesNothing(env, sizes, w);
      UpToDateFileDoesNothing(env, sizes, last);
    }
  }
}
