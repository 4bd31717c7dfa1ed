/**
 * Names and paths: which files count as SVG, the stem pathlib gives a file
 * name, the PNG file name for a size and the output path that mirrors the
 * source's directory under the output root.
 *
 * A path is its sequence of components, so `a / b` is concatenation.
 */
module Naming {
  import opened Wrappers
  import opened Text

  type Path = seq<string>

  /** A file is an SVG when its lower-cased name ends in `.svg`. */
  predicate IsSvgName(name: string) {
    EndsWith(Lower(name), ".svg")
  }

  /** The SVG test character by character: a dot, then s, v, g in either case. */
  lemma IsSvgNameChars(name: string)
    ensures IsSvgName(name) <==>
      |name| >= 4 && name[|name| - 4] == '.' &&
      name[|name| - 3] in "sS" && name[|name| - 2] in "vV" && name[|name| - 1] in "gG"
  {
    var n := |name|;
    if n >= 4 {
      var tail := Lower(name)[n - 4..];
      assert tail == [LowerChar(name[n - 4]), LowerChar(name[n - 3]), LowerChar(name[n - 2]), LowerChar(name[n - 1])];
    }
  }

  /** `Path(name).stem`: the name without its final suffix, where a suffix
      is a last dot that neither starts nor ends the name. */
  function Stem(name: string): (r: string)
    ensures r <= name
  {
    match LastIndexOf(name, '.')
    case Some(i) => if 0 < i < |name| - 1 then name[..i] else name
    case None => name
  }

  /** The stem of a discovered SVG is its name without the four-character
      extension, unless the name is the extension alone. */
  lemma SvgStem(name: string)
    requires IsSvgName(name)
    ensures |name| > 4 ==> Stem(name) + name[|name| - 4..] == name && |Stem(name)| == |name| - 4
    ensures |name| == 4 ==> Stem(name) == name
  {
    IsSvgNameChars(name);
    var n := |name|;
    assert name == name[..n - 4] + ['.'] + name[n - 3..];
    LastIndexOfSplit(name[..n - 4], '.', name[n - 3..]);
  }

  /** Two SVG names that differ only in the case of their extension (`a.svg`
      and `a.SVG`) have the same stem, so they share their output paths. */
  lemma SvgStemIgnoresExtensionCase(name1: string, name2: string)
    requires IsSvgName(name1) && IsSvgName(name2)
    requires |name1| > 4 && |name2| > 4 && name1[..|name1| - 4] == name2[..|name2| - 4]
    ensures Stem(name1) == Stem(name2)
  {
    SvgStem(name1);
    SvgStem(name2);
    assert Stem(name1) == (Stem(name1) + name1[|name1| - 4..])[..|name1| - 4];
    assert Stem(name2) == (Stem(name2) + name2[|name2| - 4..])[..|name2| - 4];
  }

  /** The PNG file name: the stem, an underscore, the size twice around an `x`, then `.png`. */
  function PngFileName(stem: string, size: int): string {
    stem + "_" + IntToDecimal(size) + "x" + IntToDecimal(size) + ".png"
  }

  /** The PNG path: the output root, then the source's relative directory, then the file name. */
  function OutputPath(outputDir: Path, relDir: Path, stem: string, size: int): Path {
    outputDir + relDir + [PngFileName(stem, size)]
  }

  /** `path.relative_to(root)`: the components after `root`; pathlib raises
      (None here) when `root` is not a prefix of `path`. */
  function RelativeTo(path: Path, root: Path): (r: Option<Path>)
    ensures r.Some? <==> root <= path
    ensures r.Some? ==> root + r.value == path
  {
    if root <= path then Some(path[|root|..]) else None
  }

  /** `.parent` of a relative path (the empty path is its own parent). */
  function Parent(rel: Path): Path {
    if rel == [] then [] else rel[..|rel| - 1]
  }

  /** `.name` of a relative path (empty for the empty path). */
  function Name(rel: Path): string {
    if rel == [] then "" else rel[|rel| - 1]
  }

  /** Reads a PNG file name back into its stem and size; the inverse of `PngFileName`. */
  function ParsePngFileName(name: string): Option<(string, int)> {
    if EndsWith(name, ".png") then ParseStemAndSize(name[..|name| - 4]) else None
  }

  /** Splits `stem_NxN` at its last underscore. */
  function ParseStemAndSize(body: string): Option<(string, int)> {
    match LastIndexOf(body, '_')
    case None => None
    case Some(u) =>
      match ParseDimensions(body[u + 1..])
      case None => None
      case Some(n) => Some((body[..u], n))
  }

  /** Reads `NxN`, both sides the same decimal number. */
  function ParseDimensions(dims: string): Option<int> {
    match IndexOf(dims, 'x')
    case None => None
    case Some(x) => if dims[..x] == dims[x + 1..] then ParseInt(dims[..x]) else None
  }

  lemma DecimalHasNoSeparators(n: int)
    ensures '_' !in IntToDecimal(n) && 'x' !in IntToDecimal(n) && '.' !in IntToDecimal(n)
  {
    IntDecimalChars(n);
  }

  /** The last `c` of `a + [c] + b` is the one after `a` when `b` has none. */
  lemma LastIndexOfSplit(a: string, c: char, b: string)
    requires c !in b
    ensures LastIndexOf(a + [c] + b, c) == Some(|a|)
  {
    var s := a + [c] + b;
    assert s[|a|] == c;
  }

  /** The first `c` of `a + [c] + b` is the one after `a` when `a` has none. */
  lemma IndexOfSplit(a: string, c: char, b: string)
    requires c !in a
    ensures IndexOf(a + [c] + b, c) == Some(|a|)
  {
    var s := a + [c] + b;
    assert s[|a|] == c;
  }

  lemma ParseDimensionsRoundTrip(size: int)
    ensures ParseDimensions(IntToDecimal(size) + "x" + IntToDecimal(size)) == Some(size)
  {
    var d := IntToDecimal(size);
    var dims := d + "x" + d;
    DecimalHasNoSeparators(size);
    IndexOfSplit(d, 'x', d);
    assert dims[..|d|] == d && dims[|d| + 1..] == d;
    IntDecimalRoundTrip(size);
  }

  lemma ParseStemAndSizeRoundTrip(stem: string, size: int)
    ensures ParseStemAndSize(stem + "_" + IntToDecimal(size) + "x" + IntToDecimal(size)) == Some((stem, size))
  {
    var d := IntToDecimal(size);
    var dims := d + "x" + d;
    var body := stem + "_" + dims;
    assert body == stem + "_" + IntToDecimal(size) + "x" + IntToDecimal(size);
    DecimalHasNoSeparators(size);
    assert '_' !in dims;
    LastIndexOfSplit(stem, '_', dims);
    assert body[|stem| + 1..] == dims && body[..|stem|] == stem;
    ParseDimensionsRoundTrip(size);
  }

  lemma PngFileNameRoundTrip(stem: string, size: int)
    ensures ParsePngFileName(PngFileName(stem, size)) == Some((stem, size))
  {
    var body := stem + "_" + IntToDecimal(size) + "x" + IntToDecimal(size);
    var name := PngFileName(stem, size);
    assert name == body + ".png";
    assert name[..|name| - 4] == body;
    ParseStemAndSizeRoundTrip(stem, size);
  }

  /** Distinct (stem, size) pairs never share a PNG file name. */
  lemma PngFileNameInjective(stem1: string, size1: int, stem2: string, size2: int)
    requires PngFileName(stem1, size1) == PngFileName(stem2, size2)
    ensures stem1 == stem2 && size1 == size2
  {
    PngFileNameRoundTrip(stem1, size1);
    PngFileNameRoundTrip(stem2, size2);
  }

  /** The PNG sits under the output root, at the source's relative directory,
      and its name starts with the stem and an underscore. */
  lemma OutputPathLayout(outputDir: Path, relDir: Path, stem: string, size: int)
    ensures var p := OutputPath(outputDir, relDir, stem, size);
      |p| == |outputDir| + |relDir| + 1 &&
      p[..|outputDir|] == outputDir &&
      p[|outputDir|..|p| - 1] == relDir &&
      stem + "_" <= p[|p| - 1] &&
      EndsWith(p[|p| - 1], ".png")
  {
    var p := OutputPath(outputDir, relDir, stem, size);
    assert p == (outputDir + relDir) + [PngFileName(stem, size)];
    assert p[..|outputDir|] == outputDir;
    assert p[|outputDir|..|p| - 1] == relDir;
    var f := PngFileName(stem, size);
    assert f == (stem + "_") + (IntToDecimal(size) + "x" + IntToDecimal(size) + ".png");
    assert f[|f| - 4..] == ".png";
  }

  /** Changing only the size keeps the directory and the `stem_` prefix and
      changes the path exactly when the size differs. */
  lemma SizeOnlyChangesSuffix(outputDir: Path, relDir: Path, stem: string, size1: int, size2: int)
    ensures var p1 := OutputPath(outputDir, relDir, stem, size1);
      var p2 := OutputPath(outputDir, relDir, stem, size2);
      p1[..|p1| - 1] == p2[..|p2| - 1] == outputDir + relDir &&
      stem + "_" <= p1[|p1| - 1] && stem + "_" <= p2[|p2| - 1] &&
      (p1 == p2 <==> size1 == size2)
  {
    OutputPathLayout(outputDir, relDir, stem, size1);
    OutputPathLayout(outputDir, relDir, stem, size2);
    var p1 := OutputPath(outputDir, relDir, stem, size1);
    var p2 := OutputPath(outputDir, relDir, stem, size2);
    if p1 == p2 {
      assert p1[|p1| - 1] == p2[|p2| - 1];
      PngFileNameInjective(stem, size1, stem, size2);
    }
  }

  /** Under one output root, the relative directory, the stem and the size
      determine the output path and are determined by it. */
  lemma OutputPathInjective(outputDir: Path, relDir1: Path, stem1: string, size1: int,
                            relDir2: Path, stem2: string, size2: int)
    requires OutputPath(outputDir, relDir1, stem1, size1) == OutputPath(outputDir, relDir2, stem2, size2)
    ensures relDir1 == relDir2 && stem1 == stem2 && size1 == size2
  {
    OutputPathLayout(outputDir, relDir1, stem1, size1);
    OutputPathLayout(outputDir, relDir2, stem2, size2);
    var p := OutputPath(outputDir, relDir1, stem1, size1);
    assert p[|p| - 1] == PngFileName(stem1, size1) == PngFileName(stem2, size2);
    PngFileNameInjective(stem1, size1, stem2, size2);
  }
}
