/** Loading and filtering the icon files (`generateSprite` in plugin/generator.ts), over files the
    XML parser has already read. */
module Loader {
  import opened Wrappers
  import opened Text
  import opened Dict
  import opened Xml
  import opened Sprite

  /** A source file: its path and the root element of its parsed document, `None` when the parser
      found no root element (an empty file, a file that is not XML). */
  datatype SourceFile = SourceFile(path: string, root: Option<Node>)

  /** What aborts the whole load: reading `name` off the missing root of a document without one,
      or reading `viewBox` off an `svg` root that has none. */
  datatype LoadError = NoRootElement(path: string) | MissingViewBox(path: string)

  /** A `console.warn` about a skipped file: a root that is not `svg` (with its name), or a
      `viewBox` whose width or height is not a number (with the `viewBox`). */
  datatype Warning = InvalidRoot(path: string, name: string) | InvalidBounds(path: string, viewBox: string)

  /** What loading makes of a file it does not throw on. */
  datatype Verdict = Keep(size: Size) | Skip(warning: Warning)

  /** The index of the last `c` in `s`. */
  function LastIndexOf(s: string, c: char): (r: Option<nat>)
    ensures r.Some? ==> r.value < |s| && s[r.value] == c && c !in s[r.value + 1..]
    ensures r.None? ==> c !in s
  {
    if |s| == 0 then None
    else if s[|s| - 1] == c then Some(|s| - 1)
    else
      var r := LastIndexOf(s[..|s| - 1], c);
      assert r.Some? ==> s[r.value + 1..] == s[..|s| - 1][r.value + 1..] + [s[|s| - 1]];
      assert r.None? ==> s == s[..|s| - 1] + [s[|s| - 1]];
      r
  }

  /** `path.basename(p)`: the part after the last `/`. */
  function BaseName(p: string): (r: string)
    ensures '/' !in r && EndsWith(p, r)
  {
    match LastIndexOf(p, '/')
    case None => p
    case Some(i) => p[i + 1..]
  }

  /** `path.extname(p)`: from the last `.` of the base name, unless that dot starts the name. */
  function ExtName(p: string): (r: string)
    ensures EndsWith(BaseName(p), r) && (r != "" ==> |r| < |BaseName(p)|)
    ensures r != "" ==> r[0] == '.' && '.' !in r[1..]
  {
    var base := BaseName(p);
    match LastIndexOf(base, '.')
    case Some(i) =>
      if i > 0 then
        var r := base[i..];
        assert r[1..] == base[i + 1..];
        r
      else ""
    case None => ""
  }

  /** `path.basename(p, path.extname(p))`: the icon name. */
  function Stem(p: string): (r: string)
    ensures r + ExtName(p) == BaseName(p)
    ensures '/' !in r
  {
    var base := BaseName(p);
    var ext := ExtName(p);
    DropSuffix(base, ext, '/');
    base[..|base| - |ext|]
  }

  /** Dropping a suffix leaves a prefix that, put back together with it, is the whole string. */
  lemma DropSuffix(s: string, suffix: string, c: char)
    requires EndsWith(s, suffix) && c !in s
    ensures s[..|s| - |suffix|] + suffix == s && c !in s[..|s| - |suffix|]
  {
    var n := |s| - |suffix|;
    assert s == s[..n] + s[n..];
    assert forall i :: 0 <= i < n ==> s[..n][i] == s[i];
  }

  /** The last `c` is found wherever it is. */
  lemma {:induction false} LastIndexOfIs(s: string, c: char, i: nat)
    requires i < |s| && s[i] == c && c !in s[i + 1..]
    ensures LastIndexOf(s, c) == Some(i)
    decreases |s|
  {
    if i != |s| - 1 {
      assert s[|s| - 1] in s[i + 1..];
      assert s[..|s| - 1][i + 1..] == s[i + 1..|s| - 1];
      LastIndexOfIs(s[..|s| - 1], c, i);
    }
  }

  /** An icon in `dir/name.ext` is called `name`: everything after the last `/` up to the last
      dot, even when the name itself holds dots. */
  lemma StemOf(dir: string, name: string, ext: string)
    requires '/' !in name && '/' !in ext && '.' !in ext && |name| > 0
    ensures Stem(dir + "/" + name + "." + ext) == name
  {
    var base := name + "." + ext;
    var p := dir + "/" + base;
    assert p == dir + "/" + name + "." + ext;
    assert p[|dir| + 1..] == base;
    assert '/' !in base;
    LastIndexOfIs(p, '/', |dir|);
    assert BaseName(p) == base;
    assert base[|name| + 1..] == ext;
    LastIndexOfIs(base, '.', |name|);
    assert ExtName(p) == base[|name|..];
    assert base[..|name|] == name;
  }

  /** Item `i` of the split `viewBox`, through `parseFloat`; a missing item reads as `NaN`. */
  function ViewBoxItem(js: Foreign, parts: seq<string>, i: nat): Option<real> {
    if i < |parts| then js.parseFloat(parts[i]) else None
  }

  /** The width and height items (third and fourth) of a `viewBox`. */
  function ViewBoxSize(js: Foreign, viewBox: string): (Option<real>, Option<real>) {
    var parts := Split(viewBox, ' ');
    (ViewBoxItem(js, parts, 2), ViewBoxItem(js, parts, 3))
  }

  /** What loading does with one file: keep it with its size, skip it with a warning, or throw. */
  function Classify(js: Foreign, f: SourceFile): Result<Verdict, LoadError> {
    match f.root
    case None => Failure(NoRootElement(f.path))
    case Some(root) =>
      if root.name != "svg" then Success(Skip(InvalidRoot(f.path, root.name)))
      else
        match Get(root.attributes, "viewBox")
        case None => Failure(MissingViewBox(f.path))
        case Some(viewBox) =>
          var (w, h) := ViewBoxSize(js, viewBox);
          if w.None? || h.None? then Success(Skip(InvalidBounds(f.path, viewBox)))
          else Success(Keep(Size(w.value, h.value)))
  }

  /** The file aborts the load. */
  predicate Throws(f: SourceFile) {
    f.root.None? || (f.root.value.name == "svg" && "viewBox" !in Keys(f.root.value.attributes))
  }

  /** The error a throwing file aborts the load with. */
  function ThrowError(f: SourceFile): LoadError {
    if f.root.None? then NoRootElement(f.path) else MissingViewBox(f.path)
  }

  /** The size the file is kept with, or `None` when it is skipped or throws. */
  function KeptSize(js: Foreign, f: SourceFile): (r: Option<Size>)
    ensures r.Some? ==> f.root.Some?
  {
    match Classify(js, f)
    case Success(Keep(size)) => Some(size)
    case _ => None
  }

  /** The warning the file is skipped with, or `None` when it is kept or throws. */
  function WarningOf(js: Foreign, f: SourceFile): Option<Warning> {
    match Classify(js, f)
    case Success(Skip(w)) => Some(w)
    case _ => None
  }

  /** A file throws exactly when it has no root element or its root is `svg` without a `viewBox`,
      and then with the matching error; every other file is either kept or warned about, never
      both. It is kept exactly when its root is `svg` and the third and fourth `viewBox` items are
      numbers, whatever their sign; a root of another name is reported with that name, and an
      `svg` root with a non-numeric width or height with its `viewBox`. */
  lemma ClassifyCases(js: Foreign, f: SourceFile)
    ensures Classify(js, f).Failure? <==> Throws(f)
    ensures Throws(f) ==> Classify(js, f) == Failure(ThrowError(f))
    ensures !Throws(f) ==> (KeptSize(js, f).Some? <==> WarningOf(js, f).None?)
    ensures KeptSize(js, f).Some? <==>
              && f.root.Some?
              && f.root.value.name == "svg"
              && "viewBox" in Keys(f.root.value.attributes)
              && ViewBoxSize(js, Get(f.root.value.attributes, "viewBox").value).0.Some?
              && ViewBoxSize(js, Get(f.root.value.attributes, "viewBox").value).1.Some?
    ensures KeptSize(js, f).Some? ==>
              var size := ViewBoxSize(js, Get(f.root.value.attributes, "viewBox").value);
              KeptSize(js, f).value == Size(size.0.value, size.1.value)
    ensures f.root.Some? && f.root.value.name != "svg" ==>
              WarningOf(js, f) == Some(InvalidRoot(f.path, f.root.value.name))
    ensures WarningOf(js, f).Some? && WarningOf(js, f).value.InvalidBounds? ==>
              && f.root.Some? && f.root.value.name == "svg"
              && "viewBox" in Keys(f.root.value.attributes)
              && WarningOf(js, f).value == InvalidBounds(f.path, Get(f.root.value.attributes, "viewBox").value)
  {
  }

  /** The files the load keeps, with their sizes, in input order (a reference definition: the
      files for which `KeptSize` yields a size). */
  function Survivors(js: Foreign, files: seq<SourceFile>): (r: seq<(SourceFile, Size)>)
    ensures forall j :: 0 <= j < |r| ==> r[j].0.root.Some?
    decreases |files|
  {
    if |files| == 0 then []
    else
      var last := files[|files| - 1];
      Survivors(js, files[..|files| - 1]) +
      if KeptSize(js, last).Some? then [(last, KeptSize(js, last).value)] else []
  }

  /** The positions of the kept files, in input order. */
  function KeptIndices(js: Foreign, files: seq<SourceFile>): (r: seq<nat>)
    ensures forall j :: 0 <= j < |r| ==> r[j] < |files|
    decreases |files|
  {
    if |files| == 0 then []
    else
      var n := |files| - 1;
      KeptIndices(js, files[..n]) + if KeptSize(js, files[n]).Some? then [n] else []
  }

  /** The survivors are exactly the kept files, each with its own size, in input order; nothing
      is merged, so two files with the same name both survive. */
  lemma SurvivorOrigins(js: Foreign, files: seq<SourceFile>) returns (origin: seq<nat>)
    ensures |origin| == |Survivors(js, files)|
    ensures forall j :: 0 <= j < |origin| ==>
              && origin[j] < |files|
              && KeptSize(js, files[origin[j]]).Some?
              && Survivors(js, files)[j] == (files[origin[j]], KeptSize(js, files[origin[j]]).value)
    ensures forall j, k :: 0 <= j < k < |origin| ==> origin[j] < origin[k]
    ensures forall i :: 0 <= i < |files| && KeptSize(js, files[i]).Some? ==> i in origin
  {
    origin := KeptIndices(js, files);
    KeptIndicesSurvivors(js, files);
    KeptIndicesSorted(js, files);
    KeptIndicesComplete(js, files);
  }

  /** The `j`-th survivor is the file at the `j`-th kept position, with its size. */
  lemma {:induction false} KeptIndicesSurvivors(js: Foreign, files: seq<SourceFile>)
    ensures var origin := KeptIndices(js, files);
            && |origin| == |Survivors(js, files)|
            && forall j :: 0 <= j < |origin| ==>
                 && KeptSize(js, files[origin[j]]).Some?
                 && Survivors(js, files)[j] == (files[origin[j]], KeptSize(js, files[origin[j]]).value)
    decreases |files|
  {
    if |files| != 0 {
      var n := |files| - 1;
      var front := files[..n];
      KeptIndicesSurvivors(js, front);
      var o := KeptIndices(js, front);
      var before := Survivors(js, front);
      var origin := KeptIndices(js, files);
      var after := Survivors(js, files);
      forall j | 0 <= j < |o|
        ensures files[o[j]] == front[o[j]]
      {
      }
      if KeptSize(js, files[n]).Some? {
        assert origin == o + [n];
        assert after == before + [(files[n], KeptSize(js, files[n]).value)];
        forall j | 0 <= j < |origin|
          ensures && KeptSize(js, files[origin[j]]).Some?
                  && after[j] == (files[origin[j]], KeptSize(js, files[origin[j]]).value)
        {
          if j < |o| {
            assert origin[j] == o[j] && after[j] == before[j];
          }
        }
      } else {
        assert origin == o && after == before;
      }
    }
  }

  /** The kept positions increase. */
  lemma {:induction false} KeptIndicesSorted(js: Foreign, files: seq<SourceFile>)
    ensures forall j, k :: 0 <= j < k < |KeptIndices(js, files)| ==> KeptIndices(js, files)[j] < KeptIndices(js, files)[k]
    decreases |files|
  {
    if |files| != 0 {
      var n := |files| - 1;
      var o := KeptIndices(js, files[..n]);
      KeptIndicesSorted(js, files[..n]);
      if KeptSize(js, files[n]).Some? {
        var origin := o + [n];
        assert KeptIndices(js, files) == origin;
        forall j, k | 0 <= j < k < |origin|
          ensures origin[j] < origin[k]
        {
          assert origin[j] == o[j];
        }
      } else {
        assert KeptIndices(js, files) == o;
      }
    }
  }

  /** Every kept file's position is listed. */
  lemma {:induction false} KeptIndicesComplete(js: Foreign, files: seq<SourceFile>)
    ensures forall i :: 0 <= i < |files| && KeptSize(js, files[i]).Some? ==> i in KeptIndices(js, files)
    decreases |files|
  {
    if |files| != 0 {
      var n := |files| - 1;
      var front := files[..n];
      KeptIndicesComplete(js, front);
      forall i | 0 <= i < n
        ensures files[i] == front[i]
      {
      }
    }
  }

  /** The warnings the load writes, one per skipped file, in input order (a reference
      definition). */
  function Warnings(js: Foreign, files: seq<SourceFile>): seq<Warning>
    decreases |files|
  {
    if |files| == 0 then []
    else
      var last := files[|files| - 1];
      Warnings(js, files[..|files| - 1]) +
      if WarningOf(js, last).Some? then [WarningOf(js, last).value] else []
  }

  /** When nothing throws, every file is accounted for exactly once: kept or warned about. */
  lemma {:induction false} EveryFileAccounted(js: Foreign, files: seq<SourceFile>)
    requires forall i :: 0 <= i < |files| ==> !Throws(files[i])
    ensures |Survivors(js, files)| + |Warnings(js, files)| == |files|
    decreases |files|
  {
    if |files| != 0 {
      var n := |files| - 1;
      EveryFileAccounted(js, files[..n]);
      ClassifyCases(js, files[n]);
    }
  }

  /** The sizes handed to the packer, one per survivor. */
  function Boxes(kept: seq<(SourceFile, Size)>): (r: seq<Size>)
    ensures |r| == |kept| && forall j :: 0 <= j < |kept| ==> r[j] == kept[j].1
  {
    seq(|kept|, j requires 0 <= j < |kept| => kept[j].1)
  }

  /** `generateSprite(files)`: the icons of the files with an `svg` root and a numeric `viewBox`
      width and height, in input order, named after their files and placed by the packer, on a
      sheet of the size the packer reports, with one warning per skipped file; the load fails at
      the first file without a root element or with an `svg` root without a `viewBox`, after the
      warnings about the files before it. */
  method GenerateSprite(js: Foreign, pack: Packer, files: seq<SourceFile>)
    returns (r: Result<GeneratedSprite, LoadError>, warnings: seq<Warning>)
    ensures r.Failure? <==> exists i :: 0 <= i < |files| && Throws(files[i])
    ensures r.Failure? ==>
              exists i :: && 0 <= i < |files| && Throws(files[i])
                          && r.error == ThrowError(files[i])
                          && warnings == Warnings(js, files[..i])
                          && forall k :: 0 <= k < i ==> !Throws(files[k])
    ensures r.Success? ==> warnings == Warnings(js, files)
    ensures r.Success? ==>
              var kept := Survivors(js, files);
              var packing := pack(Boxes(kept));
              && r.value.width == packing.w && r.value.height == packing.h
              && |r.value.entries| == |kept|
              && forall j :: 0 <= j < |kept| ==>
                   r.value.entries[j] == SvgFile(Bounds(kept[j].1.w, kept[j].1.h,
                                                        packing.positions[j].x, packing.positions[j].y),
                                                 Stem(kept[j].0.path), kept[j].0.root.value)
  {
    var kept: seq<(SourceFile, Size)> := [];
    warnings := [];
    var i := 0;
    while i < |files|
      invariant 0 <= i <= |files|
      invariant forall k :: 0 <= k < i ==> !Throws(files[k])
      invariant kept == Survivors(js, files[..i])
      invariant warnings == Warnings(js, files[..i])
    {
      var c := Classify(js, files[i]);
      ClassifyCases(js, files[i]);
      if c.Failure? {
        return Failure(c.error), warnings;
      }
      assert files[..i + 1][..i] == files[..i];
      match c.value {
        case Keep(size) =>
          kept := kept + [(files[i], size)];
        case Skip(w) =>
          warnings := warnings + [w];
      }
      i := i + 1;
    }
    assert files[..i] == files;
    var packing := pack(Boxes(kept));
    var entries := seq(|kept|, j requires 0 <= j < |kept| =>
      SvgFile(Bounds(kept[j].1.w, kept[j].1.h, packing.positions[j].x, packing.positions[j].y),
              Stem(kept[j].0.path), kept[j].0.root.value));
    return Success(GeneratedSprite(packing.w, packing.h, entries)), warnings;
  }
}
