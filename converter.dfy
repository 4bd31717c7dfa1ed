/**
 * `SVGToPNGConverter`: its configuration, its statistics dictionary, and
 * the two loops that update them. The file-system snapshot and the
 * rasterizer are parameters; a ghost log records every rasterizer call in
 * order so that contracts can speak about the calls made.
 */
module Converter {
  import opened Wrappers
  import opened Naming
  import opened Staleness
  import opened Sizes
  import opened Discovery
  import opened Accounting

  /** The `stats` dictionary: six counters, all zero at the start. */
  class Stats {
    var totalFiles: nat
    var svgFiles: nat
    var converted: nat
    var skipped: nat
    var errors: nat
    var pngFilesCreated: nat

    constructor ()
      ensures totalFiles == 0 && svgFiles == 0 && converted == 0
      ensures skipped == 0 && errors == 0 && pngFilesCreated == 0
    {
      totalFiles, svgFiles, converted := 0, 0, 0;
      skipped, errors, pngFilesCreated := 0, 0, 0;
    }

    /** Every scanned file was classified as SVG or as skipped. */
    ghost predicate Classified()
      reads this
    {
      svgFiles + skipped == totalFiles
    }
  }

  class SvgToPngConverter {
    const inputDir: Path
    const outputDir: Path
    const sizes: seq<int>
    const stats: Stats
    /** The rasterizer calls made so far, in order. */
    ghost var calls: seq<Call>

    /** The conversion counters and the call log, as one tally. */
    ghost function Totals(): Tally
      reads this, stats
    {
      Tally(stats.converted, stats.errors, stats.pngFilesCreated, calls)
    }

    constructor (inputDir: Path, outputDir: Path, sizes: Option<seq<int>>)
      ensures this.inputDir == inputDir && this.outputDir == outputDir
      ensures this.sizes == DefaultSizes(sizes) && |this.sizes| > 0
      ensures fresh(stats)
      ensures stats.totalFiles == 0 && stats.svgFiles == 0 && stats.converted == 0
      ensures stats.skipped == 0 && stats.errors == 0 && stats.pngFilesCreated == 0
      ensures calls == []
    {
      this.inputDir := inputDir;
      this.outputDir := outputDir;
      this.sizes := DefaultSizes(sizes);
      this.stats := new Stats();
      this.calls := [];
    }

    /** `find_svg_files`: classifies every file of the walk, keeps the SVG
        paths in visit order and bumps the three scan counters. */
    method FindSvgFiles(walk: seq<Entry>) returns (svgFiles: seq<Path>)
      modifies stats
      ensures svgFiles == SvgPaths(walk)
      ensures stats.totalFiles == old(stats.totalFiles) + |walk|
      ensures stats.svgFiles == old(stats.svgFiles) + |svgFiles|
      ensures stats.skipped == old(stats.skipped) + SkippedCount(walk)
      ensures old(stats.Classified()) ==> stats.Classified()
      ensures stats.converted == old(stats.converted) && stats.errors == old(stats.errors)
      ensures stats.pngFilesCreated == old(stats.pngFilesCreated)
    {
      svgFiles := [];
      var i := 0;
      while i < |walk|
        invariant 0 <= i <= |walk|
        invariant svgFiles == SvgPaths(walk[..i])
        invariant stats.totalFiles == old(stats.totalFiles) + i
        invariant stats.svgFiles == old(stats.svgFiles) + |svgFiles|
        invariant stats.skipped == old(stats.skipped) + SkippedCount(walk[..i])
        invariant stats.converted == old(stats.converted) && stats.errors == old(stats.errors)
        invariant stats.pngFilesCreated == old(stats.pngFilesCreated)
      {
        var e := walk[i];
        assert walk[..i + 1][..i] == walk[..i];
        stats.totalFiles := stats.totalFiles + 1;
        if IsSvgName(e.name) {
          svgFiles := svgFiles + [FullPath(e)];
          stats.svgFiles := stats.svgFiles + 1;
        } else {
          stats.skipped := stats.skipped + 1;
        }
        i := i + 1;
      }
      assert walk[..i] == walk;
      DiscoveryComplete(walk);
    }

    /** The size loop of `convert_files` for one file: skips the up-to-date
        sizes, calls the rasterizer for the others and counts each success in
        `png_files_created`. Returns `file_converted`, `file_errors`, and
        whether `svg_path.stat()` raised and so ended the loop early. */
    method ConvertSizes(job: Job, fs: Mtimes, render: Renderer)
      returns (fileConverted: bool, fileErrors: nat, aborted: bool)
      modifies stats`pngFilesCreated, this`calls
      ensures var t := SizesTally(Env(fs, render), job, sizes);
        && fileConverted == t.fileConverted && fileErrors == t.fileErrors && aborted == t.aborted
        && stats.pngFilesCreated == old(stats.pngFilesCreated) + t.created
        && calls == old(calls) + t.calls
    {
      ghost var env := Env(fs, render);
      ghost var t := Untouched;
      fileConverted, fileErrors, aborted := false, 0, false;
      var i := 0;
      while i < |sizes|
        invariant 0 <= i <= |sizes|
        invariant t == SizesTally(env, job, sizes[..i]) && !t.aborted
        invariant fileConverted == t.fileConverted && fileErrors == t.fileErrors
        invariant stats.pngFilesCreated == old(stats.pngFilesCreated) + t.created
        invariant calls == old(calls) + t.calls
      {
        var size := sizes[i];
        var png := job.png(size);
        SizesTallyStep(env, job, sizes, i);
        match Decide(fs, job.svg, png) {
        case StatFails =>
          SizesTallyAbortSticky(env, job, sizes, i + 1);
          aborted := true;
          return;
        case Skip =>
        case Convert =>
          calls := calls + [Call(job.svg, png, size)];
          var ok := render(job.svg, png, size);
          if ok {
            stats.pngFilesCreated := stats.pngFilesCreated + 1;
            fileConverted := true;
          } else {
            fileErrors := fileErrors + 1;
          }
        }
        t := SizeStep(env, job, size, t);
        i := i + 1;
      }
      assert sizes[..i] == sizes;
    }

    /** One pass of the per-file loop of `convert_files`, its `try` included:
        an exception (from `relative_to` or from `stat`) counts one error.
        `expected` names the job the file's paths give, for the contract. */
    method ConvertFile(svg: Path, fs: Mtimes, render: Renderer, ghost expected: Option<Job>)
      requires expected == JobFor(inputDir, outputDir, svg)
      modifies stats`converted, stats`errors, stats`pngFilesCreated, this`calls
      ensures Totals() == old(Totals()).Plus(FileTally(Env(fs, render), sizes, expected))
    {
      var rel := RelativeTo(svg, inputDir);
      if rel.None? {
        stats.errors := stats.errors + 1;
        return;
      }
      var job := JobOf(svg, outputDir, Parent(rel.value), Stem(Name(rel.value)));
      assert expected == Some(job);
      var fileConverted, fileErrors, aborted := ConvertSizes(job, fs, render);
      if aborted {
        stats.errors := stats.errors + 1;
        return;
      }
      if fileConverted {
        stats.converted := stats.converted + 1;
      }
      if fileErrors == |sizes| {
        stats.errors := stats.errors + 1;
      }
    }

    /** The per-file loop of `convert_files` over the discovered files, in order. */
    method ConvertAll(svgFiles: seq<Path>, fs: Mtimes, render: Renderer)
      modifies stats`converted, stats`errors, stats`pngFilesCreated, this`calls
      ensures Totals() == old(Totals()).Plus(FilesTally(Env(fs, render), sizes, Jobs(inputDir, outputDir, svgFiles)))
    {
      ghost var env := Env(fs, render);
      ghost var jobs := Jobs(inputDir, outputDir, svgFiles);
      var k := 0;
      while k < |svgFiles|
        invariant 0 <= k <= |svgFiles|
        invariant Totals() == old(Totals()).Plus(FilesTally(env, sizes, jobs[..k]))
      {
        FilesTallyStep(env, sizes, jobs, k);
        PlusAssoc(old(Totals()), FilesTally(env, sizes, jobs[..k]), FileTally(env, sizes, jobs[k]));
        ConvertFile(svgFiles[k], fs, render, jobs[k]);
        k := k + 1;
      }
      assert jobs[..k] == jobs;
      PlusZero(old(Totals()));
    }

    /** `convert_files`: raises when the input directory is missing (reported
        here as `missingInput`); otherwise discovers the SVG files and, unless
        there are none, converts each in turn. */
    method ConvertFiles(inputExists: bool, walk: seq<Entry>, fs: Mtimes, render: Renderer)
      returns (missingInput: bool)
      modifies stats, this`calls
      ensures missingInput <==> !inputExists
      ensures missingInput ==> unchanged(stats) && calls == old(calls)
      ensures !missingInput ==>
        && stats.totalFiles == old(stats.totalFiles) + |walk|
        && stats.svgFiles == old(stats.svgFiles) + |SvgPaths(walk)|
        && stats.skipped == old(stats.skipped) + SkippedCount(walk)
      ensures !missingInput ==>
        var r := FilesTally(Env(fs, render), sizes, Jobs(inputDir, outputDir, SvgPaths(walk)));
        && stats.converted == old(stats.converted) + r.converted
        && stats.errors == old(stats.errors) + r.errors
        && stats.pngFilesCreated == old(stats.pngFilesCreated) + r.created
        && calls == old(calls) + r.calls
      ensures SvgPaths(walk) == [] ==>
        && stats.converted == old(stats.converted) && stats.errors == old(stats.errors)
        && stats.pngFilesCreated == old(stats.pngFilesCreated) && calls == old(calls)
    {
      if !inputExists {
        return true;
      }
      missingInput := false;
      var svgFiles := FindSvgFiles(walk);
      if svgFiles == [] {
        return;
      }
      ConvertAll(svgFiles, fs, render);
    }
  }

  /** The path through `main` once the arguments are parsed: reject an
      out-of-range size (exit status 1), build the converter, run
      `convert_files`, and exit with 1 when it raised. */
  method RunMain(inputDir: Path, outputDir: Path, sizes: seq<int>,
                 inputExists: bool, walk: seq<Entry>, fs: Mtimes, render: Renderer)
    returns (exitCode: int, converter: SvgToPngConverter?)
    ensures exitCode == 0 || exitCode == 1
    ensures exitCode == 1 <==> !inputExists || exists i :: 0 <= i < |sizes| && !InRange(sizes[i])
    ensures (exists i :: 0 <= i < |sizes| && !InRange(sizes[i])) ==> converter == null
    ensures exitCode == 0 ==>
      && converter != null && fresh(converter) && fresh(converter.stats)
      && converter.sizes == DefaultSizes(Some(sizes))
      && converter.stats.totalFiles == |walk|
      && converter.stats.svgFiles == |SvgPaths(walk)|
      && converter.stats.skipped == SkippedCount(walk)
      && converter.stats.Classified()
      && var r := FilesTally(Env(fs, render), converter.sizes, Jobs(inputDir, outputDir, SvgPaths(walk)));
         && converter.stats.converted == r.converted
         && converter.stats.errors == r.errors
         && converter.stats.pngFilesCreated == r.created
         && converter.calls == r.calls
  {
    var bad := CheckSizes(sizes);
    if bad.Some? {
      return 1, null;
    }
    converter := new SvgToPngConverter(inputDir, outputDir, Some(sizes));
    var missingInput := converter.ConvertFiles(inputExists, walk, fs, render);
    exitCode := if missingInput then 1 else 0;
    if !missingInput {
      DiscoveryComplete(walk);
    }
  }
}
