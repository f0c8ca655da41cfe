/** The command sequences one merge task runs: the bodies of the
    `exe.execute` lambdas in `runImageMagickMergeVertically`,
    `runImageMagickMergeHorizontally` and `runFourWayMerge`, in the order
    they are issued, and what their argument vectors read, write and
    remove. */
module Recipes {
  import opened Wrappers
  import opened Decimal
  import opened JavaString
  import opened TilePaths
  import opened Matcher
  import opened Commands

  /** `runImageMagickMergeVertically(north, south, zoom, dirNum, tileNumber)`. */
  function VerticalRecipe(root: string, north: nat, south: nat, at: Coordinates): seq<string> {
    [ OneSidedTrimCommand(root, Digits(north), at, "North", "0x2"),
      OneSidedTrimCommand(root, Digits(south), at, "South", "0x2"),
      ChopVerticalCommand(TmpImagePath(root, at, "North"), "South"),
      ChopVerticalCommand(TmpImagePath(root, at, "South"), "North"),
      AppendVerticallyCommand(root, at),
      RemoveCommand(TmpImagePath(root, at, "North")),
      RemoveCommand(TmpImagePath(root, at, "South")) ]
  }

  /** `runImageMagickMergeHorizontally(west, east, zoom, dirNum, tileNumber)`. */
  function HorizontalRecipe(root: string, west: nat, east: nat, at: Coordinates): seq<string> {
    [ OneSidedTrimCommand(root, Digits(west), at, "West", "2x0"),
      OneSidedTrimCommand(root, Digits(east), at, "East", "2x0"),
      ChopHorizontalCommand(TmpImagePath(root, at, "East"), "West"),
      ChopHorizontalCommand(TmpImagePath(root, at, "West"), "East"),
      AppendHorizontallyCommand(root, at),
      RemoveCommand(TmpImagePath(root, at, "West")),
      RemoveCommand(TmpImagePath(root, at, "East")) ]
  }

  /** `getImagePath.apply(direction)` in `runFourWayMerge`: the north-western
      tile moved under `tmp`, with `direction` inserted before ".png". */
  function ImagePath(northWest: string, b: nat, direction: string): string {
    Replace(Replace(northWest, ImageSegment(b), NamedSegment(TmpDir)), Png, direction + Png)
  }

  /** `runFourWayMerge(b, northWest, northEast, southWest, southEast)`:
      trims, then joins, then removals. */
  function FourWayRecipe(b: nat, northWest: string, northEast: string, southWest: string, southEast: string): seq<string> {
    FourWayTrims(b, northWest, northEast, southWest, southEast) + FourWayJoins(b, northWest) + FourWayRemovals(b, northWest)
  }

  /** One trim per corner, each told its own base image. */
  function FourWayTrims(b: nat, northWest: string, northEast: string, southWest: string, southEast: string): seq<string> {
    [ SimpleTrimCommand(northWest, b, "_NW"),
      SimpleTrimCommand(northEast, b + 1, "_NE"),
      SimpleTrimCommand(southWest, b + 6, "_SW"),
      SimpleTrimCommand(southEast, b + 7, "_SE") ]
  }

  /** Chops and appends, every file named through `getImagePath`. */
  function FourWayJoins(b: nat, northWest: string): seq<string> {
    [ ChopHorizontalCommand(ImagePath(northWest, b, "_NW"), "East"),
      ChopHorizontalCommand(ImagePath(northWest, b, "_NE"), "West"),
      ChopHorizontalCommand(ImagePath(northWest, b, "_SW"), "East"),
      ChopHorizontalCommand(ImagePath(northWest, b, "_SE"), "West"),
      AppendHCommand(ImagePath(northWest, b, "_NW"), ImagePath(northWest, b, "_NE"), ImagePath(northWest, b, "_N")),
      AppendHCommand(ImagePath(northWest, b, "_SW"), ImagePath(northWest, b, "_SE"), ImagePath(northWest, b, "_S")),
      ChopVerticalCommand(ImagePath(northWest, b, "_N"), "South"),
      ChopVerticalCommand(ImagePath(northWest, b, "_S"), "North"),
      AppendVCommand(ImagePath(northWest, b, "_N"), ImagePath(northWest, b, "_S"),
        Replace(northWest, ImageSegment(b), NamedSegment(TmpDir))) ]
  }

  function FourWayRemovals(b: nat, northWest: string): seq<string> {
    [ RemoveCommand(ImagePath(northWest, b, "_NW")),
      RemoveCommand(ImagePath(northWest, b, "_NE")),
      RemoveCommand(ImagePath(northWest, b, "_SW")),
      RemoveCommand(ImagePath(northWest, b, "_SE")),
      RemoveCommand(ImagePath(northWest, b, "_N")),
      RemoveCommand(ImagePath(northWest, b, "_S")) ]
  }

  /** The commands a submitted task runs. */
  function Recipe(root: string, t: Task): seq<string> {
    match t
    case Horizontal(west, east, at) => HorizontalRecipe(root, west, east, at)
    case Vertical(north, south, at) => VerticalRecipe(root, north, south, at)
    case FourWay(b, northWest, northEast, southWest, southEast) =>
      FourWayRecipe(b, northWest, northEast, southWest, southEast)
  }

  // ---------------------------------------------------------------------
  // Reading, writing and removing files

  /** The argument vectors of a command sequence. */
  function Argvs(commands: seq<string>): seq<seq<string>> {
    seq(|commands|, k requires 0 <= k < |commands| => Tokenize(commands[k]))
  }

  /** A `convert` run: it writes its last argument. */
  predicate IsWrite(args: seq<string>) {
    |args| >= 2 && args[0] == "convert"
  }

  function Output(args: seq<string>): string
    requires IsWrite(args)
  {
    args[|args| - 1]
  }

  lemma ArgvsOf(commands: seq<string>, argvs: seq<seq<string>>)
    requires |commands| == |argvs|
    requires forall k :: 0 <= k < |argvs| ==> Tokenize(commands[k]) == argvs[k]
    ensures Argvs(commands) == argvs
  {
  }

  lemma ArgvsAppend(a: seq<string>, b: seq<string>)
    ensures Argvs(a + b) == Argvs(a) + Argvs(b)
  {
  }

  /** An `rm` run: it removes its one argument. */
  predicate IsRemove(args: seq<string>) {
    |args| == 2 && args[0] == "rm"
  }

  /** The files a command leaves among those the sequence made, starting
      from `files`: a conversion adds its output; `rm` takes away a file
      made before and not yet removed, and is a mistake (`None`) for any
      other file. */
  function Step(files: set<string>, args: seq<string>): Option<set<string>> {
    if IsWrite(args) then Some(files + {Output(args)})
    else if IsRemove(args) then
      if args[1] in files then Some(files - {args[1]}) else None
    else Some(files)
  }

  function Run(files: set<string>, argvs: seq<seq<string>>): Option<set<string>>
    decreases |argvs|
  {
    if |argvs| == 0 then Some(files)
    else match Step(files, argvs[0])
      case None => None
      case Some(next) => Run(next, argvs[1..])
  }

  /** A command sequence cleans up after itself when every `rm` removes a
      file it made and the only file it leaves is the result. */
  predicate CleansUp(argvs: seq<seq<string>>, result: string) {
    Run({}, argvs) == Some({result})
  }

  lemma {:induction false} RunAppend(files: set<string>, a: seq<seq<string>>, b: seq<seq<string>>)
    ensures Run(files, a + b) == match Run(files, a) case None => None case Some(f) => Run(f, b)
    decreases |a|
  {
    if |a| == 0 {
      assert a + b == b;
    } else {
      assert (a + b)[0] == a[0] && (a + b)[1..] == a[1..] + b;
      match Step(files, a[0])
      case None =>
      case Some(next) => RunAppend(next, a[1..], b);
    }
  }

  /** Conversions only add their outputs. */
  lemma {:induction false} RunWrites(files: set<string>, argvs: seq<seq<string>>, outs: seq<string>)
    requires |argvs| == |outs|
    requires forall k :: 0 <= k < |argvs| ==> IsWrite(argvs[k]) && Output(argvs[k]) == outs[k]
    ensures Run(files, argvs) == Some(files + Elements(outs))
    decreases |argvs|
  {
    if |argvs| > 0 {
      assert Step(files, argvs[0]) == Some(files + {outs[0]});
      assert Run(files, argvs) == Run(files + {outs[0]}, argvs[1..]);
      RunWrites(files + {outs[0]}, argvs[1..], outs[1..]);
      ElementsCons(outs);
      assert files + {outs[0]} + Elements(outs[1..]) == files + Elements(outs);
    } else {
      assert Elements(outs) == {};
      assert files + Elements(outs) == files;
    }
  }

  function Elements(s: seq<string>): set<string> {
    set e | e in s
  }

  lemma ElementsCons(s: seq<string>)
    requires |s| > 0
    ensures Elements(s) == {s[0]} + Elements(s[1..])
  {
    forall e ensures e in s <==> e == s[0] || e in s[1..] {
      if e in s {
        var k :| 0 <= k < |s| && s[k] == e;
        if k > 0 {
          assert s[1..][k - 1] == e;
        }
      }
    }
  }

  /** The removal of each of `names` in turn. */
  function Removals(names: seq<string>): seq<seq<string>> {
    seq(|names|, i requires 0 <= i < |names| => RemoveArgs(names[i]))
  }

  predicate Distinct(names: seq<string>) {
    forall i, j :: 0 <= i < j < |names| ==> names[i] != names[j]
  }

  /** Removing distinct files that are all present takes exactly them
      away. */
  lemma {:induction false} RunRemovals(files: set<string>, names: seq<string>)
    requires Distinct(names)
    requires forall i :: 0 <= i < |names| ==> names[i] in files
    ensures Run(files, Removals(names)) == Some(files - Elements(names))
    decreases |names|
  {
    var r := Removals(names);
    if |names| == 0 {
      assert Elements(names) == {};
      assert files - Elements(names) == files;
    } else {
      assert r[0] == RemoveArgs(names[0]) && r[1..] == Removals(names[1..]);
      assert Step(files, r[0]) == Some(files - {names[0]});
      forall i | 0 <= i < |names[1..]|
        ensures names[1..][i] in files - {names[0]}
      {
        assert names[1..][i] == names[i + 1] != names[0];
      }
      assert Run(files, r) == Run(files - {names[0]}, r[1..]);
      RunRemovals(files - {names[0]}, names[1..]);
      ElementsCons(names);
      assert files - {names[0]} - Elements(names[1..]) == files - Elements(names);
    }
  }

  // ---------------------------------------------------------------------
  // Paths the pairwise merges use

  /** The file a merge at tile (z, x, y) leaves its result in: that tile
      under `tmp`. */
  function MergedTile(root: string, z: nat, x: nat, y: nat): string {
    PathOf(root, TmpDir, Digits(z), Digits(x), Digits(y))
  }

  /** Equal paths that differ only in a dot-free part before ".png" differ
      nowhere. */
  lemma SuffixCancel(p: string, d1: string, d2: string)
    requires Free(d1, '.') && Free(d2, '.')
    requires p + d1 + Png == p + d2 + Png
    ensures d1 == d2
  {
    var a, b := d1 + Png, d2 + Png;
    assert a == (p + d1 + Png)[|p|..] && b == (p + d2 + Png)[|p|..];
    assert a == b;
    assert d1 == a[..|d1|] && d2 == b[..|d2|];
  }

  lemma ScratchDistinct(root: string, at: Coordinates, d1: string, d2: string)
    requires Free(d1, '.') && Free(d2, '.') && d1 != d2
    ensures ScratchFile(root, at, d1) != ScratchFile(root, at, d2)
  {
    var p := BaseDir(root) + "/" + TmpDir + "/" + at.zoom + "/" + at.column + "/" + at.row + "_";
    assert ScratchFile(root, at, d1) == p + d1 + Png;
    assert ScratchFile(root, at, d2) == p + d2 + Png;
    if p + d1 + Png == p + d2 + Png {
      SuffixCancel(p, d1, d2);
    }
  }

  /** A scratch file lies in `root//tmp`, the result in `root/tmp`. */
  lemma ScratchNotMerged(root: string, z: nat, x: nat, y: nat, d: string)
    ensures ScratchFile(root, At(z, x, y), d) != MergedTile(root, z, x, y)
  {
    var k := |root| + 1;
    assert ScratchFile(root, At(z, x, y), d)[k] == '/';
    assert MergedTile(root, z, x, y)[k] == 't';
  }

  lemma DigitsWord(n: nat)
    ensures Word(Digits(n))
  {
    DigitsFree(Digits(n));
  }

  lemma PlainAt(z: nat, x: nat, y: nat)
    ensures PlainCoordinates(At(z, x, y))
  {
    DigitsWord(z);
    DigitsWord(x);
    DigitsWord(y);
  }

  /** The fixed names and geometries are single dot-free arguments. */
  lemma LiteralWords()
    ensures Word("North") && Word("South") && Word("West") && Word("East")
    ensures Word("0x2") && Word("2x0") && Word(TmpDir)
    ensures Free("_NW", '.') && Free("_NE", '.') && Free("_SW", '.') && Free("_SE", '.')
    ensures Free("_N", '.') && Free("_S", '.') && Free(TmpDir, '.')
    ensures Free("North", '.') && Free("South", '.') && Free("West", '.') && Free("East", '.')
  {
  }

  // ---------------------------------------------------------------------
  // runImageMagickMergeHorizontally and runImageMagickMergeVertically

  /** What a horizontal merge at tile (z, x, y) runs: one-sided trims of the
      western and eastern row files into two scratch files, a chop of the
      inner pixel column of each, a side-by-side append into the tile under
      `tmp`, and the removal of both scratch files. */
  function HorizontalArgs(root: string, west: nat, east: nat, z: nat, x: nat, y: nat): seq<seq<string>> {
    var w := ScratchFile(root, At(z, x, y), "West");
    var e := ScratchFile(root, At(z, x, y), "East");
    [ TrimArgs(TilePath(root, west, z, x, y), "West", "2x0", w),
      TrimArgs(TilePath(root, east, z, x, y), "East", "2x0", e),
      ChopArgs(e, "West", "2x0"),
      ChopArgs(w, "East", "2x0"),
      AppendArgs("+append", w, e, MergedTile(root, z, x, y)),
      RemoveArgs(w),
      RemoveArgs(e) ]
  }

  /** The same top to bottom, through the "North" and "South" scratch
      files. */
  function VerticalArgs(root: string, north: nat, south: nat, z: nat, x: nat, y: nat): seq<seq<string>> {
    var n := ScratchFile(root, At(z, x, y), "North");
    var s := ScratchFile(root, At(z, x, y), "South");
    [ TrimArgs(TilePath(root, north, z, x, y), "North", "0x2", n),
      TrimArgs(TilePath(root, south, z, x, y), "South", "0x2", s),
      ChopArgs(n, "South", "0x2"),
      ChopArgs(s, "North", "0x2"),
      AppendArgs("-append", n, s, MergedTile(root, z, x, y)),
      RemoveArgs(n),
      RemoveArgs(s) ]
  }

  /** The trims of a pairwise merge at tile (z, x, y), and the paths its
      later commands name. */
  lemma PairTokens(root: string, first: nat, second: nat, z: nat, x: nat, y: nat, d1: string, d2: string, splice: string)
    requires PlainRoot(root) && Word(d1) && Word(d2) && Word(splice)
    ensures Tokenize(OneSidedTrimCommand(root, Digits(first), At(z, x, y), d1, splice))
         == TrimArgs(TilePath(root, first, z, x, y), d1, splice, ScratchFile(root, At(z, x, y), d1))
    ensures Tokenize(OneSidedTrimCommand(root, Digits(second), At(z, x, y), d2, splice))
         == TrimArgs(TilePath(root, second, z, x, y), d2, splice, ScratchFile(root, At(z, x, y), d2))
    ensures Tokenize(TmpImagePath(root, At(z, x, y), d1)) == [ScratchFile(root, At(z, x, y), d1)]
    ensures Tokenize(TmpImagePath(root, At(z, x, y), d2)) == [ScratchFile(root, At(z, x, y), d2)]
    ensures Tokenize(FullImagePath(root, TmpDir, At(z, x, y))) == [MergedTile(root, z, x, y)]
  {
    PlainAt(z, x, y);
    LiteralWords();
    DigitsWord(first);
    DigitsWord(second);
    OneSidedTrimArgv(root, Digits(first), At(z, x, y), d1, splice);
    OneSidedTrimArgv(root, Digits(second), At(z, x, y), d2, splice);
    PathArguments(root, TmpDir, At(z, x, y), d1);
    PathArguments(root, TmpDir, At(z, x, y), d2);
  }

  /** The argument vectors of a horizontal merge's command lines. */
  lemma HorizontalArgv(root: string, west: nat, east: nat, z: nat, x: nat, y: nat)
    requires PlainRoot(root)
    ensures Argvs(HorizontalRecipe(root, west, east, At(z, x, y))) == HorizontalArgs(root, west, east, z, x, y)
  {
    var at := At(z, x, y);
    var w := ScratchFile(root, at, "West");
    var e := ScratchFile(root, at, "East");
    PairTokens(root, west, east, z, x, y, "West", "East", "2x0");
    HorizontalTokens(root, west, east, at, w, e, MergedTile(root, z, x, y),
      TrimArgs(TilePath(root, west, z, x, y), "West", "2x0", w),
      TrimArgs(TilePath(root, east, z, x, y), "East", "2x0", e));
  }

  /** The argument vectors of a horizontal merge, given those of its trims
      and the single arguments its paths are. */
  lemma HorizontalTokens(root: string, west: nat, east: nat, at: Coordinates, w: string, e: string, merged: string,
                         trimWest: seq<string>, trimEast: seq<string>)
    requires Tokenize(OneSidedTrimCommand(root, Digits(west), at, "West", "2x0")) == trimWest
    requires Tokenize(OneSidedTrimCommand(root, Digits(east), at, "East", "2x0")) == trimEast
    requires Tokenize(TmpImagePath(root, at, "West")) == [w] && Tokenize(TmpImagePath(root, at, "East")) == [e]
    requires Tokenize(FullImagePath(root, TmpDir, at)) == [merged]
    ensures Argvs(HorizontalRecipe(root, west, east, at))
         == [ trimWest, trimEast,
              ChopArgs(e, "West", "2x0"), ChopArgs(w, "East", "2x0"),
              AppendArgs("+append", w, e, merged),
              RemoveArgs(w), RemoveArgs(e) ]
  {
    LiteralWords();
    ChopArgv(TmpImagePath(root, at, "East"), e, "West");
    ChopArgv(TmpImagePath(root, at, "West"), w, "East");
    AppendHArgv(TmpImagePath(root, at, "West"), w, TmpImagePath(root, at, "East"), e,
      FullImagePath(root, TmpDir, at), merged);
    RemoveArgv(TmpImagePath(root, at, "West"), w);
    RemoveArgv(TmpImagePath(root, at, "East"), e);
    ArgvsOf(HorizontalRecipe(root, west, east, at),
      [ trimWest, trimEast,
        ChopArgs(e, "West", "2x0"), ChopArgs(w, "East", "2x0"),
        AppendArgs("+append", w, e, merged),
        RemoveArgs(w), RemoveArgs(e) ]);
  }

  /** The argument vectors of a vertical merge's command lines. */
  lemma VerticalArgv(root: string, north: nat, south: nat, z: nat, x: nat, y: nat)
    requires PlainRoot(root)
    ensures Argvs(VerticalRecipe(root, north, south, At(z, x, y))) == VerticalArgs(root, north, south, z, x, y)
  {
    var at := At(z, x, y);
    var n := ScratchFile(root, at, "North");
    var s := ScratchFile(root, at, "South");
    PairTokens(root, north, south, z, x, y, "North", "South", "0x2");
    VerticalTokens(root, north, south, at, n, s, MergedTile(root, z, x, y),
      TrimArgs(TilePath(root, north, z, x, y), "North", "0x2", n),
      TrimArgs(TilePath(root, south, z, x, y), "South", "0x2", s));
  }

  /** The same for a vertical merge. */
  lemma VerticalTokens(root: string, north: nat, south: nat, at: Coordinates, n: string, s: string, merged: string,
                       trimNorth: seq<string>, trimSouth: seq<string>)
    requires Tokenize(OneSidedTrimCommand(root, Digits(north), at, "North", "0x2")) == trimNorth
    requires Tokenize(OneSidedTrimCommand(root, Digits(south), at, "South", "0x2")) == trimSouth
    requires Tokenize(TmpImagePath(root, at, "North")) == [n] && Tokenize(TmpImagePath(root, at, "South")) == [s]
    requires Tokenize(FullImagePath(root, TmpDir, at)) == [merged]
    ensures Argvs(VerticalRecipe(root, north, south, at))
         == [ trimNorth, trimSouth,
              ChopArgs(n, "South", "0x2"), ChopArgs(s, "North", "0x2"),
              AppendArgs("-append", n, s, merged),
              RemoveArgs(n), RemoveArgs(s) ]
  {
    LiteralWords();
    ChopArgv(TmpImagePath(root, at, "North"), n, "South");
    ChopArgv(TmpImagePath(root, at, "South"), s, "North");
    AppendVArgv(TmpImagePath(root, at, "North"), n, TmpImagePath(root, at, "South"), s,
      FullImagePath(root, TmpDir, at), merged);
    RemoveArgv(TmpImagePath(root, at, "North"), n);
    RemoveArgv(TmpImagePath(root, at, "South"), s);
    ArgvsOf(VerticalRecipe(root, north, south, at),
      [ trimNorth, trimSouth,
        ChopArgs(n, "South", "0x2"), ChopArgs(s, "North", "0x2"),
        AppendArgs("-append", n, s, merged),
        RemoveArgs(n), RemoveArgs(s) ]);
  }

  /** A pairwise merge removes both scratch files it writes and keeps its
      result. */
  lemma HorizontalCleansUp(root: string, west: nat, east: nat, z: nat, x: nat, y: nat)
    requires PlainRoot(root)
    ensures CleansUp(Argvs(HorizontalRecipe(root, west, east, At(z, x, y))), MergedTile(root, z, x, y))
  {
    HorizontalArgv(root, west, east, z, x, y);
    HorizontalArgsCleanUp(root, west, east, z, x, y);
  }

  lemma HorizontalArgsCleanUp(root: string, west: nat, east: nat, z: nat, x: nat, y: nat)
    ensures CleansUp(HorizontalArgs(root, west, east, z, x, y), MergedTile(root, z, x, y))
  {
    LiteralWords();
    ScratchDistinct(root, At(z, x, y), "West", "East");
    ScratchNotMerged(root, z, x, y, "West");
    ScratchNotMerged(root, z, x, y, "East");
    PairCleansUp(HorizontalArgs(root, west, east, z, x, y), MergedTile(root, z, x, y),
      ScratchFile(root, At(z, x, y), "West"), ScratchFile(root, At(z, x, y), "East"));
  }

  lemma VerticalCleansUp(root: string, north: nat, south: nat, z: nat, x: nat, y: nat)
    requires PlainRoot(root)
    ensures CleansUp(Argvs(VerticalRecipe(root, north, south, At(z, x, y))), MergedTile(root, z, x, y))
  {
    VerticalArgv(root, north, south, z, x, y);
    VerticalArgsCleanUp(root, north, south, z, x, y);
  }

  lemma VerticalArgsCleanUp(root: string, north: nat, south: nat, z: nat, x: nat, y: nat)
    ensures CleansUp(VerticalArgs(root, north, south, z, x, y), MergedTile(root, z, x, y))
  {
    LiteralWords();
    ScratchDistinct(root, At(z, x, y), "North", "South");
    ScratchNotMerged(root, z, x, y, "North");
    ScratchNotMerged(root, z, x, y, "South");
    PairCleansUp(VerticalArgs(root, north, south, z, x, y), MergedTile(root, z, x, y),
      ScratchFile(root, At(z, x, y), "North"), ScratchFile(root, At(z, x, y), "South"));
  }

  /** The shape both pairwise merges share: conversions into `a`, `b`, `a`
      or `b` twice more, and the result, then the removal of `a` and `b`. */
  lemma PairCleansUp(argvs: seq<seq<string>>, result: string, a: string, b: string)
    requires |argvs| == 7 && a != b && a != result && b != result
    requires forall k :: 0 <= k < 5 ==> IsWrite(argvs[k])
    requires Output(argvs[0]) == a && Output(argvs[1]) == b
    requires Output(argvs[2]) in {a, b} && Output(argvs[3]) in {a, b}
    requires Output(argvs[4]) == result
    requires argvs[5] == RemoveArgs(a) && argvs[6] == RemoveArgs(b)
    ensures CleansUp(argvs, result)
  {
    var outs := [a, b, Output(argvs[2]), Output(argvs[3]), result];
    RunWrites({}, argvs[..5], outs);
    assert Elements(outs) == {a, b, result} by {
      forall e ensures e in outs <==> e in {a, b, result} {
        if e in {a, b, result} {
          assert e == outs[0] || e == outs[1] || e == outs[4];
        }
      }
    }
    assert argvs[5..] == Removals([a, b]);
    RunRemovals({a, b, result}, [a, b]);
    assert Elements([a, b]) == {a, b} by {
      assert [a, b][0] == a && [a, b][1] == b;
    }
    assert {a, b, result} - {a, b} == {result};
    assert {} + Elements(outs) == {a, b, result};
    assert argvs == argvs[..5] + argvs[5..];
    RunAppend({}, argvs[..5], argvs[5..]);
  }

  // ---------------------------------------------------------------------
  // Paths the four-way merge uses

  /** The column segment of tile (from, z, x, y) once `/from/` has become
      `/tmp/`: the column is renamed too when it is named like the image. */
  function TmpColumn(from: nat, x: nat): string {
    if x == from then TmpDir else Digits(x)
  }

  /** Tile (i, z, x, y) moved under `tmp`, with `direction` before ".png". */
  function MovedTile(root: string, i: nat, z: nat, x: nat, y: nat, direction: string): string {
    PathOf(root, TmpDir, Digits(z), TmpColumn(i, x), Digits(y) + direction)
  }

  /** ".png" occurs in a path of dot-free segments only as its extension. */
  lemma PngAtEnd(root: string, image: string, zoom: string, column: string, row: string, rep: string)
    requires PlainRoot(root)
    requires Free(image, '.') && Free(zoom, '.') && Free(column, '.') && Free(row, '.')
    ensures Replace(PathOf(root, image, zoom, column, row), Png, rep + Png) == PathOf(root, image, zoom, column, row + rep)
  {
    PngOnlyAtEnd(root, image, zoom, column, row);
    ExtensionReplaced(root + "/" + image + "/" + zoom + "/" + column + "/" + row, rep);
    RowSuffix(root + "/" + image + "/" + zoom + "/" + column + "/", row, rep);
  }

  lemma ExtensionReplaced(pre: string, rep: string)
    requires NoneBefore(pre + Png + "", Png, |pre|)
    ensures Replace(pre + Png, Png, rep + Png) == pre + rep + Png
  {
    ReplaceSingle(pre, Png, "", rep + Png);
    assert pre + Png + "" == pre + Png;
    assert pre + (rep + Png) + "" == pre + rep + Png;
  }

  lemma RowSuffix(head: string, row: string, rep: string)
    ensures head + (row + rep) + Png == head + row + rep + Png
  {
  }

  lemma PngOnlyAtEnd(root: string, image: string, zoom: string, column: string, row: string)
    requires PlainRoot(root)
    requires Free(image, '.') && Free(zoom, '.') && Free(column, '.') && Free(row, '.')
    ensures var pre := root + "/" + image + "/" + zoom + "/" + column + "/" + row;
      NoneBefore(pre + Png + "", Png, |pre|)
  {
    var pre := root + "/" + image + "/" + zoom + "/" + column + "/" + row;
    forall i | 0 <= i < |pre|
      ensures i < |root| ==> pre[i] == root[i]
      ensures i >= |root| ==> pre[i] != '.'
    {
      PathPrefix(root, image, zoom, column, row, i);
    }
    PngAfterRoot(root, pre);
  }

  /** No ".png" starts in a plain root or in a dot-free part after it. */
  lemma PngAfterRoot(root: string, pre: string)
    requires PlainRoot(root) && |pre| > |root| && pre[|root|] == '/'
    requires forall i :: 0 <= i < |root| ==> pre[i] == root[i]
    requires forall i :: |root| <= i < |pre| ==> pre[i] != '.'
    ensures NoneBefore(pre + Png + "", Png, |pre|)
  {
    var s := pre + Png + "";
    forall j | 0 <= j < |pre|
      ensures !OccursAt(s, Png, j)
    {
      if j + |Png| <= |root| {
        assert s[j..j + |Png|] == root[j..j + |Png|];
        assert !OccursAt(root, Png, j);
      } else if j < |root| {
        assert s[|root|] == '/';
      } else {
        assert s[j] == pre[j];
      }
    }
  }

  /** The characters of a path before its extension: the root, then
      separators and dot-free segments. */
  lemma PathPrefix(root: string, image: string, zoom: string, column: string, row: string, i: int)
    requires Free(image, '.') && Free(zoom, '.') && Free(column, '.') && Free(row, '.')
    requires 0 <= i < |root + "/" + image + "/" + zoom + "/" + column + "/" + row|
    ensures i < |root| ==> (root + "/" + image + "/" + zoom + "/" + column + "/" + row)[i] == root[i]
    ensures i >= |root| ==> (root + "/" + image + "/" + zoom + "/" + column + "/" + row)[i] != '.'
  {
    var t := root + "/" + image + "/" + zoom + "/" + column + "/" + row;
    var a := |root| + 1 + |image|;
    var b := a + 1 + |zoom|;
    var c := b + 1 + |column|;
    if i < |root| {
      assert t[i] == root[i];
    } else if |root| < i < a {
      assert t[i] == image[i - |root| - 1];
    } else if a < i < b {
      assert t[i] == zoom[i - a - 1];
    } else if b < i < c {
      assert t[i] == column[i - b - 1];
    } else if c < i {
      assert t[i] == row[i - c - 1];
    }
  }

  /** `getImagePath` and `constructSimpleTrimCommand` move a tile under
      `tmp` and rename it. */
  lemma MoveToTmp(root: string, i: nat, z: nat, x: nat, y: nat, direction: string)
    requires PlainRoot(root) && Free(direction, '.')
    ensures Replace(TilePath(root, i, z, x, y), ImageSegment(i), NamedSegment(TmpDir))
         == MovedTile(root, i, z, x, y, "")
    ensures Replace(Replace(TilePath(root, i, z, x, y), ImageSegment(i), NamedSegment(TmpDir)), Png, direction + Png)
         == MovedTile(root, i, z, x, y, direction)
  {
    RetargetTilePath(root, i, z, x, y, TmpDir);
    assert Digits(y) + "" == Digits(y);
    DigitsFree(Digits(z));
    DigitsFree(Digits(x));
    DigitsFree(Digits(y));
    LiteralWords();
    PngAtEnd(root, TmpDir, Digits(z), TmpColumn(i, x), Digits(y), direction);
  }

  /** A moved tile is one argument. */
  lemma MovedWord(root: string, i: nat, z: nat, x: nat, y: nat, direction: string)
    requires PlainRoot(root) && Blankless(direction)
    ensures Word(MovedTile(root, i, z, x, y, direction))
  {
    LiteralWords();
    DigitsWord(z);
    DigitsWord(x);
    DigitsWord(y);
    BlanklessJoin(Digits(y), direction);
    PathWord(root, TmpDir, Coordinates(Digits(z), TmpColumn(i, x), Digits(y) + direction));
  }

  /** Two moved tiles whose column segments are `tmp` and a number differ. */
  lemma ColumnsDiffer(root: string, z: nat, n: nat, r1: string, r2: string)
    ensures PathOf(root, TmpDir, Digits(z), TmpDir, r1) != PathOf(root, TmpDir, Digits(z), Digits(n), r2)
  {
    var p := root + "/" + TmpDir + "/" + Digits(z) + "/";
    assert PathOf(root, TmpDir, Digits(z), TmpDir, r1)[|p|] == 't';
    assert PathOf(root, TmpDir, Digits(z), Digits(n), r2)[|p|] == Digits(n)[0];
  }

  /** Two moved tiles with different dot-free suffixes differ. */
  lemma SuffixesDiffer(root: string, i: nat, z: nat, x: nat, y: nat, d1: string, d2: string)
    requires Free(d1, '.') && Free(d2, '.') && d1 != d2
    ensures MovedTile(root, i, z, x, y, d1) != MovedTile(root, i, z, x, y, d2)
  {
    var p := root + "/" + TmpDir + "/" + Digits(z) + "/" + TmpColumn(i, x) + "/" + Digits(y);
    assert MovedTile(root, i, z, x, y, d1) == p + d1 + Png;
    assert MovedTile(root, i, z, x, y, d2) == p + d2 + Png;
    if p + d1 + Png == p + d2 + Png {
      SuffixCancel(p, d1, d2);
    }
  }

  // ---------------------------------------------------------------------
  // runFourWayMerge

  /** Where a four-way merge through tile (b, z, x, y) leaves its result:
      the north-western tile moved under `tmp`. */
  function FourWayResult(root: string, b: nat, z: nat, x: nat, y: nat): string {
    MovedTile(root, b, z, x, y, "")
  }

  /** The file the trim of corner `b + d` writes: that corner moved under
      `tmp` and suffixed. */
  function TrimmedCorner(root: string, b: nat, d: nat, z: nat, x: nat, y: nat, suffix: string): string {
    MovedTile(root, b + d, z, RetargetedColumn(b, b + d, x), y, suffix)
  }

  /** What a four-way merge through tile (b, z, x, y) runs: a trim of each
      corner, chops of the inner pixel column of the four scratch files the
      later commands name, the northern and southern halves appended side
      by side, the inner pixel row of each half chopped, the halves stacked
      into the result, and six removals. The later commands name every
      scratch file after the north-western tile. */
  function FourWayArgs(root: string, b: nat, z: nat, x: nat, y: nat): seq<seq<string>> {
    FourWayTrimArgs(root, b, z, x, y) + FourWayJoinArgs(root, b, z, x, y) + FourWayRemoveArgs(root, b, z, x, y)
  }

  function FourWayTrimArgs(root: string, b: nat, z: nat, x: nat, y: nat): seq<seq<string>> {
    [ SimpleTrimArgs(Corner(root, b, 0, z, x, y), TrimmedCorner(root, b, 0, z, x, y, "_NW")),
      SimpleTrimArgs(Corner(root, b, 1, z, x, y), TrimmedCorner(root, b, 1, z, x, y, "_NE")),
      SimpleTrimArgs(Corner(root, b, 6, z, x, y), TrimmedCorner(root, b, 6, z, x, y, "_SW")),
      SimpleTrimArgs(Corner(root, b, 7, z, x, y), TrimmedCorner(root, b, 7, z, x, y, "_SE")) ]
  }

  function FourWayJoinArgs(root: string, b: nat, z: nat, x: nat, y: nat): seq<seq<string>> {
    var nw := MovedTile(root, b, z, x, y, "_NW");
    var ne := MovedTile(root, b, z, x, y, "_NE");
    var sw := MovedTile(root, b, z, x, y, "_SW");
    var se := MovedTile(root, b, z, x, y, "_SE");
    var n := MovedTile(root, b, z, x, y, "_N");
    var s := MovedTile(root, b, z, x, y, "_S");
    [ ChopArgs(nw, "East", "2x0"),
      ChopArgs(ne, "West", "2x0"),
      ChopArgs(sw, "East", "2x0"),
      ChopArgs(se, "West", "2x0"),
      AppendArgs("+append", nw, ne, n),
      AppendArgs("+append", sw, se, s),
      ChopArgs(n, "South", "0x2"),
      ChopArgs(s, "North", "0x2"),
      AppendArgs("-append", n, s, FourWayResult(root, b, z, x, y)) ]
  }

  function FourWayRemoveArgs(root: string, b: nat, z: nat, x: nat, y: nat): seq<seq<string>> {
    [ RemoveArgs(MovedTile(root, b, z, x, y, "_NW")),
      RemoveArgs(MovedTile(root, b, z, x, y, "_NE")),
      RemoveArgs(MovedTile(root, b, z, x, y, "_SW")),
      RemoveArgs(MovedTile(root, b, z, x, y, "_SE")),
      RemoveArgs(MovedTile(root, b, z, x, y, "_N")),
      RemoveArgs(MovedTile(root, b, z, x, y, "_S")) ]
  }

  /** The trim of corner `b + d` reads the corner and writes it, moved and
      suffixed. */
  lemma CornerTrim(root: string, b: nat, d: nat, z: nat, x: nat, y: nat, suffix: string)
    requires PlainRoot(root) && Free(suffix, '.') && Blankless(suffix)
    ensures Tokenize(SimpleTrimCommand(Corner(root, b, d, z, x, y), b + d, suffix))
         == SimpleTrimArgs(Corner(root, b, d, z, x, y), TrimmedCorner(root, b, d, z, x, y, suffix))
  {
    var x' := RetargetedColumn(b, b + d, x);
    PlainAt(z, x', y);
    DigitsWord(b + d);
    PathWord(root, Digits(b + d), At(z, x', y));
    MoveToTmp(root, b + d, z, x', y, suffix);
    MovedWord(root, b + d, z, x', y, suffix);
    SimpleTrimArgv(Corner(root, b, d, z, x, y), b + d, suffix, TrimmedCorner(root, b, d, z, x, y, suffix));
  }

  /** `getImagePath.apply(suffix)` is the north-western tile moved and
      suffixed, one argument. */
  lemma ImagePathMoved(root: string, b: nat, z: nat, x: nat, y: nat, suffix: string)
    requires PlainRoot(root) && Free(suffix, '.') && Blankless(suffix)
    ensures ImagePath(TilePath(root, b, z, x, y), b, suffix) == MovedTile(root, b, z, x, y, suffix)
    ensures Tokenize(MovedTile(root, b, z, x, y, suffix)) == [MovedTile(root, b, z, x, y, suffix)]
  {
    MoveToTmp(root, b, z, x, y, suffix);
    MovedWord(root, b, z, x, y, suffix);
    TokenizeWord(MovedTile(root, b, z, x, y, suffix));
  }

  lemma SuffixWords()
    ensures Free("_NW", '.') && Free("_NE", '.') && Free("_SW", '.') && Free("_SE", '.')
    ensures Free("_N", '.') && Free("_S", '.')
    ensures Blankless("_NW") && Blankless("_NE") && Blankless("_SW") && Blankless("_SE")
    ensures Blankless("_N") && Blankless("_S") && Blankless("")
  {
  }

  lemma NorthernTrims(root: string, b: nat, z: nat, x: nat, y: nat)
    requires PlainRoot(root)
    ensures Tokenize(SimpleTrimCommand(TilePath(root, b, z, x, y), b, "_NW"))
         == SimpleTrimArgs(Corner(root, b, 0, z, x, y), TrimmedCorner(root, b, 0, z, x, y, "_NW"))
    ensures Tokenize(SimpleTrimCommand(Corner(root, b, 1, z, x, y), b + 1, "_NE"))
         == SimpleTrimArgs(Corner(root, b, 1, z, x, y), TrimmedCorner(root, b, 1, z, x, y, "_NE"))
  {
    SuffixWords();
    assert Corner(root, b, 0, z, x, y) == TilePath(root, b, z, x, y);
    CornerTrim(root, b, 0, z, x, y, "_NW");
    CornerTrim(root, b, 1, z, x, y, "_NE");
  }

  lemma SouthernTrims(root: string, b: nat, z: nat, x: nat, y: nat)
    requires PlainRoot(root)
    ensures Tokenize(SimpleTrimCommand(Corner(root, b, 6, z, x, y), b + 6, "_SW"))
         == SimpleTrimArgs(Corner(root, b, 6, z, x, y), TrimmedCorner(root, b, 6, z, x, y, "_SW"))
    ensures Tokenize(SimpleTrimCommand(Corner(root, b, 7, z, x, y), b + 7, "_SE"))
         == SimpleTrimArgs(Corner(root, b, 7, z, x, y), TrimmedCorner(root, b, 7, z, x, y, "_SE"))
  {
    SuffixWords();
    CornerTrim(root, b, 6, z, x, y, "_SW");
    CornerTrim(root, b, 7, z, x, y, "_SE");
  }

  /** The names `getImagePath` gives, and the result's. */
  lemma ScratchNames(root: string, b: nat, z: nat, x: nat, y: nat)
    requires PlainRoot(root)
    ensures ImagePath(TilePath(root, b, z, x, y), b, "_NW") == MovedTile(root, b, z, x, y, "_NW")
    ensures Tokenize(MovedTile(root, b, z, x, y, "_NW")) == [MovedTile(root, b, z, x, y, "_NW")]
    ensures ImagePath(TilePath(root, b, z, x, y), b, "_NE") == MovedTile(root, b, z, x, y, "_NE")
    ensures Tokenize(MovedTile(root, b, z, x, y, "_NE")) == [MovedTile(root, b, z, x, y, "_NE")]
    ensures ImagePath(TilePath(root, b, z, x, y), b, "_SW") == MovedTile(root, b, z, x, y, "_SW")
    ensures Tokenize(MovedTile(root, b, z, x, y, "_SW")) == [MovedTile(root, b, z, x, y, "_SW")]
    ensures ImagePath(TilePath(root, b, z, x, y), b, "_SE") == MovedTile(root, b, z, x, y, "_SE")
    ensures Tokenize(MovedTile(root, b, z, x, y, "_SE")) == [MovedTile(root, b, z, x, y, "_SE")]
    ensures ImagePath(TilePath(root, b, z, x, y), b, "_N") == MovedTile(root, b, z, x, y, "_N")
    ensures Tokenize(MovedTile(root, b, z, x, y, "_N")) == [MovedTile(root, b, z, x, y, "_N")]
    ensures ImagePath(TilePath(root, b, z, x, y), b, "_S") == MovedTile(root, b, z, x, y, "_S")
    ensures Tokenize(MovedTile(root, b, z, x, y, "_S")) == [MovedTile(root, b, z, x, y, "_S")]
    ensures Replace(TilePath(root, b, z, x, y), ImageSegment(b), NamedSegment(TmpDir)) == FourWayResult(root, b, z, x, y)
    ensures Tokenize(FourWayResult(root, b, z, x, y)) == [FourWayResult(root, b, z, x, y)]
  {
    SuffixWords();
    ImagePathMoved(root, b, z, x, y, "_NW");
    ImagePathMoved(root, b, z, x, y, "_NE");
    ImagePathMoved(root, b, z, x, y, "_SW");
    ImagePathMoved(root, b, z, x, y, "_SE");
    ImagePathMoved(root, b, z, x, y, "_N");
    ImagePathMoved(root, b, z, x, y, "_S");
    MoveToTmp(root, b, z, x, y, "");
    MovedWord(root, b, z, x, y, "");
    TokenizeWord(FourWayResult(root, b, z, x, y));
  }

  /** The first four command lines: the corner trims. */
  lemma FourWayTrimArgv(root: string, b: nat, z: nat, x: nat, y: nat)
    requires PlainRoot(root)
    ensures Argvs(FourWayTrims(b, TilePath(root, b, z, x, y), Corner(root, b, 1, z, x, y),
                               Corner(root, b, 6, z, x, y), Corner(root, b, 7, z, x, y)))
         == FourWayTrimArgs(root, b, z, x, y)
  {
    NorthernTrims(root, b, z, x, y);
    SouthernTrims(root, b, z, x, y);
    ArgvsOf(FourWayTrims(b, TilePath(root, b, z, x, y), Corner(root, b, 1, z, x, y),
                         Corner(root, b, 6, z, x, y), Corner(root, b, 7, z, x, y)),
            FourWayTrimArgs(root, b, z, x, y));
  }

  /** The chops and appends. */
  lemma FourWayJoinArgv(root: string, b: nat, z: nat, x: nat, y: nat)
    requires PlainRoot(root)
    ensures Argvs(FourWayJoins(b, TilePath(root, b, z, x, y))) == FourWayJoinArgs(root, b, z, x, y)
  {
    ScratchNames(root, b, z, x, y);
    JoinTokens(TilePath(root, b, z, x, y), b,
      MovedTile(root, b, z, x, y, "_NW"), MovedTile(root, b, z, x, y, "_NE"),
      MovedTile(root, b, z, x, y, "_SW"), MovedTile(root, b, z, x, y, "_SE"),
      MovedTile(root, b, z, x, y, "_N"), MovedTile(root, b, z, x, y, "_S"),
      FourWayResult(root, b, z, x, y));
  }

  /** The joins of `runFourWayMerge` for any north-western path whose
      scratch names and result are single arguments. */
  lemma JoinTokens(northWest: string, b: nat, nw: string, ne: string, sw: string, se: string,
                   n: string, s: string, result: string)
    requires ImagePath(northWest, b, "_NW") == nw && ImagePath(northWest, b, "_NE") == ne
    requires ImagePath(northWest, b, "_SW") == sw && ImagePath(northWest, b, "_SE") == se
    requires ImagePath(northWest, b, "_N") == n && ImagePath(northWest, b, "_S") == s
    requires Replace(northWest, ImageSegment(b), NamedSegment(TmpDir)) == result
    requires Tokenize(nw) == [nw] && Tokenize(ne) == [ne] && Tokenize(sw) == [sw] && Tokenize(se) == [se]
    requires Tokenize(n) == [n] && Tokenize(s) == [s] && Tokenize(result) == [result]
    ensures Argvs(FourWayJoins(b, northWest))
         == [ ChopArgs(nw, "East", "2x0"),
              ChopArgs(ne, "West", "2x0"),
              ChopArgs(sw, "East", "2x0"),
              ChopArgs(se, "West", "2x0"),
              AppendArgs("+append", nw, ne, n),
              AppendArgs("+append", sw, se, s),
              ChopArgs(n, "South", "0x2"),
              ChopArgs(s, "North", "0x2"),
              AppendArgs("-append", n, s, result) ]
  {
    LiteralWords();
    ChopArgv(nw, nw, "East");
    ChopArgv(ne, ne, "West");
    ChopArgv(sw, sw, "East");
    ChopArgv(se, se, "West");
    AppendHArgv(nw, nw, ne, ne, n, n);
    AppendHArgv(sw, sw, se, se, s, s);
    ChopArgv(n, n, "South");
    ChopArgv(s, s, "North");
    AppendVArgv(n, n, s, s, result, result);
    ArgvsOf(FourWayJoins(b, northWest),
      [ ChopArgs(nw, "East", "2x0"),
        ChopArgs(ne, "West", "2x0"),
        ChopArgs(sw, "East", "2x0"),
        ChopArgs(se, "West", "2x0"),
        AppendArgs("+append", nw, ne, n),
        AppendArgs("+append", sw, se, s),
        ChopArgs(n, "South", "0x2"),
        ChopArgs(s, "North", "0x2"),
        AppendArgs("-append", n, s, result) ]);
  }

  /** The removals. */
  lemma FourWayRemoveArgv(root: string, b: nat, z: nat, x: nat, y: nat)
    requires PlainRoot(root)
    ensures Argvs(FourWayRemovals(b, TilePath(root, b, z, x, y))) == FourWayRemoveArgs(root, b, z, x, y)
  {
    ScratchNames(root, b, z, x, y);
    RemoveTokens(TilePath(root, b, z, x, y), b,
      MovedTile(root, b, z, x, y, "_NW"), MovedTile(root, b, z, x, y, "_NE"),
      MovedTile(root, b, z, x, y, "_SW"), MovedTile(root, b, z, x, y, "_SE"),
      MovedTile(root, b, z, x, y, "_N"), MovedTile(root, b, z, x, y, "_S"));
  }

  /** The removals of `runFourWayMerge` for any north-western path whose
      scratch names are single arguments. */
  lemma RemoveTokens(northWest: string, b: nat, nw: string, ne: string, sw: string, se: string,
                     n: string, s: string)
    requires ImagePath(northWest, b, "_NW") == nw && ImagePath(northWest, b, "_NE") == ne
    requires ImagePath(northWest, b, "_SW") == sw && ImagePath(northWest, b, "_SE") == se
    requires ImagePath(northWest, b, "_N") == n && ImagePath(northWest, b, "_S") == s
    requires Tokenize(nw) == [nw] && Tokenize(ne) == [ne] && Tokenize(sw) == [sw] && Tokenize(se) == [se]
    requires Tokenize(n) == [n] && Tokenize(s) == [s]
    ensures Argvs(FourWayRemovals(b, northWest))
         == [RemoveArgs(nw), RemoveArgs(ne), RemoveArgs(sw), RemoveArgs(se), RemoveArgs(n), RemoveArgs(s)]
  {
    RemoveArgv(nw, nw);
    RemoveArgv(ne, ne);
    RemoveArgv(sw, sw);
    RemoveArgv(se, se);
    RemoveArgv(n, n);
    RemoveArgv(s, s);
    ArgvsOf(FourWayRemovals(b, northWest),
      [RemoveArgs(nw), RemoveArgs(ne), RemoveArgs(sw), RemoveArgs(se), RemoveArgs(n), RemoveArgs(s)]);
  }

  /** The argument vectors of a four-way merge's command lines, for the
      task the sweep submits through tile (b, z, x, y). */
  lemma FourWayArgv(root: string, b: nat, z: nat, x: nat, y: nat)
    requires PlainRoot(root)
    ensures Argvs(FourWayRecipe(b, TilePath(root, b, z, x, y), Corner(root, b, 1, z, x, y),
                                Corner(root, b, 6, z, x, y), Corner(root, b, 7, z, x, y)))
         == FourWayArgs(root, b, z, x, y)
  {
    var nw := TilePath(root, b, z, x, y);
    var trims := FourWayTrims(b, nw, Corner(root, b, 1, z, x, y), Corner(root, b, 6, z, x, y), Corner(root, b, 7, z, x, y));
    FourWayTrimArgv(root, b, z, x, y);
    FourWayJoinArgv(root, b, z, x, y);
    FourWayRemoveArgv(root, b, z, x, y);
    ArgvsAppend(trims, FourWayJoins(b, nw));
    ArgvsAppend(trims + FourWayJoins(b, nw), FourWayRemovals(b, nw));
  }

  // ---------------------------------------------------------------------
  // The scratch files of a four-way merge

  /** The trim of corner `b + d` writes the file the later commands name
      after the north-western tile, unless the tile's column is named
      `b + d`: then the trim renames the column to `tmp` as well. */
  lemma TrimMatchesName(root: string, b: nat, d: nat, z: nat, x: nat, y: nat, suffix: string)
    ensures TrimmedCorner(root, b, d, z, x, y, suffix) == MovedTile(root, b, z, x, y, suffix)
        <==> d == 0 || x != b + d
  {
    if d > 0 && x == b + d {
      ColumnsDiffer(root, z, x, Digits(y) + suffix, Digits(y) + suffix);
    }
  }

  /** A trim output whose column became `tmp` is none of the files the
      later commands name, nor the result. */
  lemma StrayTrim(root: string, b: nat, d: nat, z: nat, x: nat, y: nat, suffix: string, other: string)
    requires d > 0 && x == b + d
    ensures TrimmedCorner(root, b, d, z, x, y, suffix) != MovedTile(root, b, z, x, y, other)
  {
    ColumnsDiffer(root, z, x, Digits(y) + suffix, Digits(y) + other);
  }

  /** The six scratch files the later commands name, in the order they are
      removed. */
  function FourWayNames(root: string, b: nat, z: nat, x: nat, y: nat): seq<string> {
    [ MovedTile(root, b, z, x, y, "_NW"), MovedTile(root, b, z, x, y, "_NE"),
      MovedTile(root, b, z, x, y, "_SW"), MovedTile(root, b, z, x, y, "_SE"),
      MovedTile(root, b, z, x, y, "_N"), MovedTile(root, b, z, x, y, "_S") ]
  }

  /** The four trim outputs. */
  function TrimOutputs(root: string, b: nat, z: nat, x: nat, y: nat): set<string> {
    { TrimmedCorner(root, b, 0, z, x, y, "_NW"), TrimmedCorner(root, b, 1, z, x, y, "_NE"),
      TrimmedCorner(root, b, 6, z, x, y, "_SW"), TrimmedCorner(root, b, 7, z, x, y, "_SE") }
  }

  /** The scratch names are six different files, none of them the result. */
  lemma FourWayNamesDistinct(root: string, b: nat, z: nat, x: nat, y: nat)
    ensures Distinct(FourWayNames(root, b, z, x, y))
    ensures FourWayResult(root, b, z, x, y) !in Elements(FourWayNames(root, b, z, x, y))
  {
    var suffixes := ["_NW", "_NE", "_SW", "_SE", "_N", "_S"];
    var names := FourWayNames(root, b, z, x, y);
    SuffixWords();
    forall i, j | 0 <= i < j < 6
      ensures names[i] != names[j]
    {
      assert names[i] == MovedTile(root, b, z, x, y, suffixes[i]);
      assert names[j] == MovedTile(root, b, z, x, y, suffixes[j]);
      SuffixesDiffer(root, b, z, x, y, suffixes[i], suffixes[j]);
    }
    forall i | 0 <= i < 6
      ensures names[i] != FourWayResult(root, b, z, x, y)
    {
      assert names[i] == MovedTile(root, b, z, x, y, suffixes[i]);
      SuffixesDiffer(root, b, z, x, y, suffixes[i], "");
    }
  }

  /** The trims only write their four outputs. */
  lemma FourWayTrimWrites(files: set<string>, root: string, b: nat, z: nat, x: nat, y: nat)
    ensures Run(files, FourWayTrimArgs(root, b, z, x, y)) == Some(files + TrimOutputs(root, b, z, x, y))
  {
    var outs := [ TrimmedCorner(root, b, 0, z, x, y, "_NW"), TrimmedCorner(root, b, 1, z, x, y, "_NE"),
                  TrimmedCorner(root, b, 6, z, x, y, "_SW"), TrimmedCorner(root, b, 7, z, x, y, "_SE") ];
    RunWrites(files, FourWayTrimArgs(root, b, z, x, y), outs);
    assert Elements(outs) == TrimOutputs(root, b, z, x, y) by {
      assert outs[0] in Elements(outs) && outs[1] in Elements(outs);
      assert outs[2] in Elements(outs) && outs[3] in Elements(outs);
    }
  }

  /** The joins only write the six scratch names and the result. */
  lemma FourWayJoinWrites(files: set<string>, root: string, b: nat, z: nat, x: nat, y: nat)
    ensures Run(files, FourWayJoinArgs(root, b, z, x, y))
         == Some(files + (Elements(FourWayNames(root, b, z, x, y)) + {FourWayResult(root, b, z, x, y)}))
  {
    var names := FourWayNames(root, b, z, x, y);
    var res := FourWayResult(root, b, z, x, y);
    var outs := names[..4] + [names[4], names[5], names[4], names[5], res];
    RunWrites(files, FourWayJoinArgs(root, b, z, x, y), outs);
    assert Elements(outs) == Elements(names) + {res} by {
      forall e | e in Elements(names)
        ensures e in outs
      {
        var i :| 0 <= i < 6 && names[i] == e;
        assert outs[if i < 4 then i else i + 2] == e;
      }
      assert outs[8] == res;
    }
  }

  /** The trims and joins together. */
  lemma FourWayMade(root: string, b: nat, z: nat, x: nat, y: nat)
    ensures Run({}, FourWayTrimArgs(root, b, z, x, y) + FourWayJoinArgs(root, b, z, x, y))
         == Some(TrimOutputs(root, b, z, x, y) + (Elements(FourWayNames(root, b, z, x, y)) + {FourWayResult(root, b, z, x, y)}))
  {
    var trims := FourWayTrimArgs(root, b, z, x, y);
    FourWayTrimWrites({}, root, b, z, x, y);
    assert {} + TrimOutputs(root, b, z, x, y) == TrimOutputs(root, b, z, x, y);
    FourWayJoinWrites(TrimOutputs(root, b, z, x, y), root, b, z, x, y);
    RunAppend({}, trims, FourWayJoinArgs(root, b, z, x, y));
  }

  /** The removals take the six scratch files away again. */
  lemma FourWayRemoves(files: set<string>, root: string, b: nat, z: nat, x: nat, y: nat)
    requires Elements(FourWayNames(root, b, z, x, y)) <= files
    ensures Run(files, FourWayRemoveArgs(root, b, z, x, y)) == Some(files - Elements(FourWayNames(root, b, z, x, y)))
  {
    var names := FourWayNames(root, b, z, x, y);
    FourWayNamesDistinct(root, b, z, x, y);
    assert FourWayRemoveArgs(root, b, z, x, y) == Removals(names);
    forall i | 0 <= i < |names|
      ensures names[i] in files
    {
      assert names[i] in Elements(names);
    }
    RunRemovals(files, names);
  }

  /** What a four-way merge leaves among the files it made: the result,
      and every trim output the later commands do not name. */
  lemma FourWayLeaves(root: string, b: nat, z: nat, x: nat, y: nat)
    ensures Run({}, FourWayArgs(root, b, z, x, y))
         == Some(TrimOutputs(root, b, z, x, y) - Elements(FourWayNames(root, b, z, x, y)) + {FourWayResult(root, b, z, x, y)})
  {
    var names := Elements(FourWayNames(root, b, z, x, y));
    var res := FourWayResult(root, b, z, x, y);
    var made := TrimOutputs(root, b, z, x, y) + (names + {res});
    FourWayMade(root, b, z, x, y);
    FourWayRemoves(made, root, b, z, x, y);
    RunAppend({}, FourWayTrimArgs(root, b, z, x, y) + FourWayJoinArgs(root, b, z, x, y), FourWayRemoveArgs(root, b, z, x, y));
    FourWayNamesDistinct(root, b, z, x, y);
    assert made - names == TrimOutputs(root, b, z, x, y) - names + {res};
  }

  /** The trim of corner `b + d` is left behind exactly when the tile's
      column is named `b + d`. */
  lemma TrimLeft(root: string, b: nat, d: nat, z: nat, x: nat, y: nat, suffix: string)
    requires d in {0, 1, 6, 7}
    requires suffix == (if d == 0 then "_NW" else if d == 1 then "_NE" else if d == 6 then "_SW" else "_SE")
    ensures TrimmedCorner(root, b, d, z, x, y, suffix) in Elements(FourWayNames(root, b, z, x, y))
        <==> d == 0 || x != b + d
  {
    var names := FourWayNames(root, b, z, x, y);
    var t := TrimmedCorner(root, b, d, z, x, y, suffix);
    TrimMatchesName(root, b, d, z, x, y, suffix);
    if d == 0 || x != b + d {
      var k := if d == 0 then 0 else if d == 1 then 1 else if d == 6 then 2 else 3;
      assert names[k] == t;
    } else {
      forall k | 0 <= k < 6
        ensures names[k] != t
      {
        var other := ["_NW", "_NE", "_SW", "_SE", "_N", "_S"][k];
        assert names[k] == MovedTile(root, b, z, x, y, other);
        StrayTrim(root, b, d, z, x, y, suffix, other);
      }
    }
  }

  /** A four-way merge cleans up after itself exactly when the tile's
      column is none of `b + 1`, `b + 6`, `b + 7`; otherwise the trim of
      that corner is left under `tmp`. */
  lemma FourWayArgsCleanUp(root: string, b: nat, z: nat, x: nat, y: nat)
    ensures CleansUp(FourWayArgs(root, b, z, x, y), FourWayResult(root, b, z, x, y))
        <==> x != b + 1 && x != b + 6 && x != b + 7
  {
    var names := Elements(FourWayNames(root, b, z, x, y));
    var res := FourWayResult(root, b, z, x, y);
    var left := TrimOutputs(root, b, z, x, y) - names + {res};
    FourWayLeaves(root, b, z, x, y);
    TrimLeft(root, b, 0, z, x, y, "_NW");
    TrimLeft(root, b, 1, z, x, y, "_NE");
    TrimLeft(root, b, 6, z, x, y, "_SW");
    TrimLeft(root, b, 7, z, x, y, "_SE");
    if x != b + 1 && x != b + 6 && x != b + 7 {
      assert TrimOutputs(root, b, z, x, y) - names == {};
      assert left == {res};
    } else {
      var d := if x == b + 1 then 1 else if x == b + 6 then 6 else 7;
      var suffix := if d == 1 then "_NE" else if d == 6 then "_SW" else "_SE";
      var t := TrimmedCorner(root, b, d, z, x, y, suffix);
      StrayTrim(root, b, d, z, x, y, suffix, "");
      assert t in left && t != res;
    }
  }

  /** The same, for the commands the sweep submits through tile
      (b, z, x, y). */
  lemma FourWayCleansUp(root: string, b: nat, z: nat, x: nat, y: nat)
    requires PlainRoot(root)
    ensures CleansUp(Argvs(FourWayRecipe(b, TilePath(root, b, z, x, y), Corner(root, b, 1, z, x, y),
                                         Corner(root, b, 6, z, x, y), Corner(root, b, 7, z, x, y))),
                     FourWayResult(root, b, z, x, y))
        <==> x != b + 1 && x != b + 6 && x != b + 7
  {
    FourWayArgv(root, b, z, x, y);
    FourWayArgsCleanUp(root, b, z, x, y);
  }

  // ---------------------------------------------------------------------
  // Where a four-way merge writes

  /** The directory `root/tmp/<z>/tmp/`. The pairwise merges make their
      output directories through `createOutputDir(zoom, dirNum)` with the
      numeric column of a tile, and `runFourWayMerge` makes none, so the
      merger never creates this one. */
  function TmpColumnDir(root: string, z: nat): string {
    root + "/" + TmpDir + "/" + Digits(z) + "/" + TmpDir + "/"
  }

  /** Some conversion in `argvs` writes a file inside `dir`. */
  predicate WritesInto(argvs: seq<seq<string>>, dir: string) {
    exists k :: 0 <= k < |argvs| && IsWrite(argvs[k]) && dir <= Output(argvs[k])
  }

  lemma WritesIntoAppend(a: seq<seq<string>>, b: seq<seq<string>>, dir: string)
    ensures WritesInto(a + b, dir) <==> WritesInto(a, dir) || WritesInto(b, dir)
  {
    if WritesInto(a + b, dir) {
      var k :| 0 <= k < |a + b| && IsWrite((a + b)[k]) && dir <= Output((a + b)[k]);
      if k >= |a| {
        assert (a + b)[k] == b[k - |a|];
      }
    }
    if WritesInto(a, dir) {
      var k :| 0 <= k < |a| && IsWrite(a[k]) && dir <= Output(a[k]);
      assert (a + b)[k] == a[k];
    }
    if WritesInto(b, dir) {
      var k :| 0 <= k < |b| && IsWrite(b[k]) && dir <= Output(b[k]);
      assert (a + b)[|a| + k] == b[k];
    }
  }

  /** A moved tile lies in column `tmp` exactly when its column was named
      like its image. */
  lemma MovedIntoTmpColumn(root: string, i: nat, z: nat, x: nat, y: nat, direction: string)
    ensures TmpColumnDir(root, z) <= MovedTile(root, i, z, x, y, direction) <==> x == i
  {
    var dir := TmpColumnDir(root, z);
    var pre := root + "/" + TmpDir + "/" + Digits(z) + "/";
    var row := Digits(y) + direction + Png;
    var p := MovedTile(root, i, z, x, y, direction);
    assert dir == pre + TmpDir + "/";
    assert p == pre + TmpColumn(i, x) + "/" + row;
    if x == i {
      assert p == dir + row;
    } else {
      assert p[|pre|] == Digits(x)[0];
      assert dir[|pre|] == 't';
    }
  }

  /** The trim of corner `b + d` writes into column `tmp` exactly when the
      tile's column is named `b` or `b + d`. */
  lemma TrimIntoTmpColumn(root: string, b: nat, d: nat, z: nat, x: nat, y: nat, suffix: string)
    ensures TmpColumnDir(root, z) <= TrimmedCorner(root, b, d, z, x, y, suffix) <==> x == b || x == b + d
  {
    MovedIntoTmpColumn(root, b + d, z, RetargetedColumn(b, b + d, x), y, suffix);
  }

  /** A trim writes into column `tmp` exactly when the tile's column is
      named `b`, `b + 1`, `b + 6` or `b + 7`. */
  lemma TrimsTmpWrites(root: string, b: nat, z: nat, x: nat, y: nat)
    ensures WritesInto(FourWayTrimArgs(root, b, z, x, y), TmpColumnDir(root, z))
        <==> x == b || x == b + 1 || x == b + 6 || x == b + 7
  {
    var dir := TmpColumnDir(root, z);
    var trims := FourWayTrimArgs(root, b, z, x, y);
    var corners := [TrimmedCorner(root, b, 0, z, x, y, "_NW"), TrimmedCorner(root, b, 1, z, x, y, "_NE"),
                    TrimmedCorner(root, b, 6, z, x, y, "_SW"), TrimmedCorner(root, b, 7, z, x, y, "_SE")];
    TrimIntoTmpColumn(root, b, 0, z, x, y, "_NW");
    TrimIntoTmpColumn(root, b, 1, z, x, y, "_NE");
    TrimIntoTmpColumn(root, b, 6, z, x, y, "_SW");
    TrimIntoTmpColumn(root, b, 7, z, x, y, "_SE");
    assert forall k :: 0 <= k < 4 ==> IsWrite(trims[k]) && Output(trims[k]) == corners[k];
    if x == b {
      assert IsWrite(trims[0]) && dir <= Output(trims[0]);
    } else if x == b + 1 {
      assert IsWrite(trims[1]) && dir <= Output(trims[1]);
    } else if x == b + 6 {
      assert IsWrite(trims[2]) && dir <= Output(trims[2]);
    } else if x == b + 7 {
      assert IsWrite(trims[3]) && dir <= Output(trims[3]);
    }
  }

  /** The chops and appends write into column `tmp` exactly when the tile's
      column is named `b`. */
  lemma JoinsTmpWrites(root: string, b: nat, z: nat, x: nat, y: nat)
    ensures WritesInto(FourWayJoinArgs(root, b, z, x, y), TmpColumnDir(root, z)) <==> x == b
  {
    var dir := TmpColumnDir(root, z);
    var joins := FourWayJoinArgs(root, b, z, x, y);
    var suffixes := ["_NW", "_NE", "_SW", "_SE", "_N", "_S", "_N", "_S", ""];
    forall k | 0 <= k < 9
      ensures IsWrite(joins[k]) && Output(joins[k]) == MovedTile(root, b, z, x, y, suffixes[k])
      ensures dir <= Output(joins[k]) <==> x == b
    {
      MovedIntoTmpColumn(root, b, z, x, y, suffixes[k]);
    }
    if x == b {
      assert IsWrite(joins[0]) && dir <= Output(joins[0]);
    }
  }

  /** A four-way merge writes into `root/tmp/<z>/tmp/` exactly when the
      tile's column is named `b`, `b + 1`, `b + 6` or `b + 7`. */
  lemma FourWayArgsTmpWrites(root: string, b: nat, z: nat, x: nat, y: nat)
    ensures WritesInto(FourWayArgs(root, b, z, x, y), TmpColumnDir(root, z))
        <==> x == b || x == b + 1 || x == b + 6 || x == b + 7
  {
    var dir := TmpColumnDir(root, z);
    var trims := FourWayTrimArgs(root, b, z, x, y);
    var joins := FourWayJoinArgs(root, b, z, x, y);
    var removes := FourWayRemoveArgs(root, b, z, x, y);
    WritesIntoAppend(trims, joins, dir);
    WritesIntoAppend(trims + joins, removes, dir);
    TrimsTmpWrites(root, b, z, x, y);
    JoinsTmpWrites(root, b, z, x, y);
    assert forall k :: 0 <= k < |removes| ==> !IsWrite(removes[k]);
  }

  /** The same, for the commands the sweep submits through tile
      (b, z, x, y): each such merge has a conversion write into a
      directory the merger never makes. */
  lemma FourWayTmpWrites(root: string, b: nat, z: nat, x: nat, y: nat)
    requires PlainRoot(root)
    ensures WritesInto(Argvs(FourWayRecipe(b, TilePath(root, b, z, x, y), Corner(root, b, 1, z, x, y),
                                           Corner(root, b, 6, z, x, y), Corner(root, b, 7, z, x, y))),
                       TmpColumnDir(root, z))
        <==> x == b || x == b + 1 || x == b + 6 || x == b + 7
  {
    FourWayArgv(root, b, z, x, y);
    FourWayArgsTmpWrites(root, b, z, x, y);
  }
}
