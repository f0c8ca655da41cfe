/** The ImageMagick and `rm` command lines the merger issues, built exactly
    as `createTmpImagePath`, `createFullImagePath` and the `construct*`
    methods build them, and their argument vectors: `Runtime.exec(String)`
    cuts a command line at blanks, so the doubled and trailing blanks the
    builders leave behind disappear there. */
module Commands {
  import opened Decimal
  import opened JavaString
  import opened TilePaths

  // ---------------------------------------------------------------------
  // Argument vectors

  /** A string that `Runtime.exec` passes as one argument. */
  predicate Word(w: string) {
    |w| > 0 && NoSep(w, IsBlank)
  }

  predicate Blankless(s: string) {
    NoSep(s, IsBlank)
  }

  /** Two pieces of a command line one of which has a blank at the seam. */
  predicate BlankSeam(a: string, b: string) {
    (|a| > 0 && IsBlank(a[|a| - 1])) || (|b| > 0 && IsBlank(b[0]))
  }

  lemma BlanklessJoin(a: string, b: string)
    requires Blankless(a) && Blankless(b)
    ensures Blankless(a + b)
  {
    forall i | 0 <= i < |a + b|
      ensures !IsBlank((a + b)[i])
    {
      if i >= |a| {
        assert (a + b)[i] == b[i - |a|];
      }
    }
  }

  lemma TokenizeBlank()
    ensures Tokenize(" ") == []
  {
    TokenizeAtBlank("", ' ', "");
    TokenizeEmpty();
  }

  /** A trailing blank adds no argument. */
  lemma BlankAfter(a: string)
    ensures Tokenize(a + " ") == Tokenize(a)
  {
    TokenizeBlank();
    TokenizeJoin(a, " ");
    assert Tokenize(a) + [] == Tokenize(a);
  }

  /** A word with blanks around it is one argument. */
  lemma Padded(w: string)
    requires Word(w)
    ensures Tokenize(w + " ") == [w]
    ensures Tokenize(" " + w) == [w]
    ensures Tokenize(" " + w + " ") == [w]
  {
    TokenizeBlank();
    TokenizeWord(w);
    TokenizeJoin(w, " ");
    TokenizeJoin(" ", w);
    TokenizeJoin(" " + w, " ");
  }

  lemma TwoWords(a: string, b: string)
    requires Word(a) && Word(b)
    ensures Tokenize(a + " " + b + " ") == [a, b]
  {
    Padded(a);
    Padded(b);
    TokenizeJoin(a + " ", b + " ");
    assert a + " " + b + " " == (a + " ") + (b + " ");
  }

  lemma ThreeWords(a: string, b: string, c: string)
    requires Word(a) && Word(b) && Word(c)
    ensures Tokenize(" " + a + " " + b + " " + c + " ") == [a, b, c]
  {
    Padded(a);
    Padded(b);
    Padded(c);
    TokenizeJoin(" " + a, " " + b + " ");
    assert " " + a + " " + b + " " + c + " " == (" " + a) + (" " + b + " ") + (c + " ");
    TokenizeJoin((" " + a) + (" " + b + " "), c + " ");
  }

  /** The one-word literals of the command lines. */
  lemma CommandWords()
    ensures Tokenize("convert ") == ["convert"]
    ensures Tokenize("rm ") == ["rm"]
    ensures Tokenize(" -gravity ") == ["-gravity"]
    ensures Tokenize(" -trim ") == ["-trim"]
  {
    assert "convert " == "convert" + " ";
    Padded("convert");
    assert "rm " == "rm" + " ";
    Padded("rm");
    assert " -gravity " == " " + "-gravity" + " ";
    Padded("-gravity");
    assert " -trim " == " " + "-trim" + " ";
    Padded("-trim");
  }

  lemma ChopVerticalLiteral()
    ensures Tokenize(" +repage -chop 0x2 ") == ["+repage", "-chop", "0x2"]
  {
    assert " +repage -chop 0x2 " == " " + "+repage" + " " + "-chop" + " " + "0x2" + " ";
    ThreeWords("+repage", "-chop", "0x2");
  }

  lemma ChopHorizontalLiteral()
    ensures Tokenize(" +repage -chop 2x0 ") == ["+repage", "-chop", "2x0"]
  {
    assert " +repage -chop 2x0 " == " " + "+repage" + " " + "-chop" + " " + "2x0" + " ";
    ThreeWords("+repage", "-chop", "2x0");
  }

  lemma WhiteSpliceLiteral()
    ensures Tokenize(" -background white -splice ") == ["-background", "white", "-splice"]
  {
    assert " -background white -splice " == " " + "-background" + " " + "white" + " " + "-splice" + " ";
    ThreeWords("-background", "white", "-splice");
  }

  lemma BlackSpliceLiteral()
    ensures Tokenize(" -background black -splice ") == ["-background", "black", "-splice"]
  {
    assert " -background black -splice " == " " + "-background" + " " + "black" + " " + "-splice" + " ";
    ThreeWords("-background", "black", "-splice");
  }

  lemma TrimChopLiteral()
    ensures Tokenize(" -trim +repage -chop ") == ["-trim", "+repage", "-chop"]
  {
    assert " -trim +repage -chop " == " " + "-trim" + " " + "+repage" + " " + "-chop" + " ";
    ThreeWords("-trim", "+repage", "-chop");
  }

  lemma AppendVerticalLiteral()
    ensures Tokenize("convert -append ") == ["convert", "-append"]
  {
    assert "convert -append " == "convert" + " " + "-append" + " ";
    TwoWords("convert", "-append");
  }

  lemma AppendHorizontalLiteral()
    ensures Tokenize("convert +append ") == ["convert", "+append"]
  {
    assert "convert +append " == "convert" + " " + "+append" + " ";
    TwoWords("convert", "+append");
  }

  // ---------------------------------------------------------------------
  // Paths

  /** The scratch file `createTmpImagePath` names, without its trailing
      blank: `baseDir` is followed by a second separator. */
  function ScratchFile(root: string, at: Coordinates, direction: string): string {
    BaseDir(root) + "/" + TmpDir + "/" + at.zoom + "/" + at.column + "/" + at.row + "_" + direction + Png
  }

  /** `createTmpImagePath(zoom, dirNum, imageNum, direction)`. */
  function TmpImagePath(root: string, at: Coordinates, direction: string): string {
    ScratchFile(root, at, direction) + " "
  }

  /** `createFullImagePath(baseImage, zoom, dirNum, imageNum)`. */
  function FullImagePath(root: string, image: string, at: Coordinates): string {
    BaseDir(root) + image + "/" + at.zoom + "/" + at.column + "/" + at.row + Png + " "
  }

  /** Coordinates whose strings pass through a command line unbroken. */
  predicate PlainCoordinates(at: Coordinates) {
    Word(at.zoom) && Word(at.column) && Word(at.row)
  }

  lemma PlainRootBlankless(root: string)
    requires PlainRoot(root)
    ensures Blankless(root)
  {
  }

  /** A full image path is the row file of `image` at `at`, followed by a
      blank. */
  lemma FullImageFile(root: string, image: string, at: Coordinates)
    ensures FullImagePath(root, image, at) == PathOf(root, image, at.zoom, at.column, at.row) + " "
  {
  }

  lemma PathWord(root: string, image: string, at: Coordinates)
    requires PlainRoot(root) && Word(image) && PlainCoordinates(at)
    ensures Word(PathOf(root, image, at.zoom, at.column, at.row))
  {
    var p := PathOf(root, image, at.zoom, at.column, at.row);
    forall i | 0 <= i < |p|
      ensures !IsBlank(p[i])
    {
      BlanklessJoin(root, "/");
      BlanklessJoin(root + "/", image);
      BlanklessJoin(root + "/" + image, "/");
      BlanklessJoin(root + "/" + image + "/", at.zoom);
      BlanklessJoin(root + "/" + image + "/" + at.zoom, "/");
      BlanklessJoin(root + "/" + image + "/" + at.zoom + "/", at.column);
      BlanklessJoin(root + "/" + image + "/" + at.zoom + "/" + at.column, "/");
      BlanklessJoin(root + "/" + image + "/" + at.zoom + "/" + at.column + "/", at.row);
      BlanklessJoin(root + "/" + image + "/" + at.zoom + "/" + at.column + "/" + at.row, Png);
    }
  }

  lemma ScratchWord(root: string, at: Coordinates, direction: string)
    requires PlainRoot(root) && PlainCoordinates(at) && Word(direction)
    ensures Word(ScratchFile(root, at, direction))
  {
    var p := ScratchFile(root, at, direction);
    forall i | 0 <= i < |p|
      ensures !IsBlank(p[i])
    {
      var d := BaseDir(root) + "/" + TmpDir + "/";
      BlanklessJoin(root, "/");
      BlanklessJoin(root + "/", "/");
      BlanklessJoin(root + "/" + "/", TmpDir);
      BlanklessJoin(root + "/" + "/" + TmpDir, "/");
      assert d == root + "/" + "/" + TmpDir + "/";
      BlanklessJoin(d, at.zoom);
      BlanklessJoin(d + at.zoom, "/");
      BlanklessJoin(d + at.zoom + "/", at.column);
      BlanklessJoin(d + at.zoom + "/" + at.column, "/");
      BlanklessJoin(d + at.zoom + "/" + at.column + "/", at.row);
      BlanklessJoin(d + at.zoom + "/" + at.column + "/" + at.row, "_");
      BlanklessJoin(d + at.zoom + "/" + at.column + "/" + at.row + "_", direction);
      BlanklessJoin(d + at.zoom + "/" + at.column + "/" + at.row + "_" + direction, Png);
    }
  }

  /** Path arguments: a word, or a word followed by a blank. */
  lemma PathArguments(root: string, image: string, at: Coordinates, direction: string)
    requires PlainRoot(root) && Word(image) && PlainCoordinates(at) && Word(direction)
    ensures Tokenize(FullImagePath(root, image, at)) == [PathOf(root, image, at.zoom, at.column, at.row)]
    ensures Tokenize(TmpImagePath(root, at, direction)) == [ScratchFile(root, at, direction)]
  {
    PathWord(root, image, at);
    Padded(PathOf(root, image, at.zoom, at.column, at.row));
    ScratchWord(root, at, direction);
    Padded(ScratchFile(root, at, direction));
  }

  // ---------------------------------------------------------------------
  // Command lines

  /** `constructSimpleTrimCommand(input, b, direction)`. */
  function SimpleTrimCommand(input: string, b: nat, direction: string): string {
    var tmpImagePath := Replace(input, ImageSegment(b), NamedSegment(TmpDir));
    "convert " + input + " -trim " + " " + Replace(tmpImagePath, Png, direction + Png)
  }

  /** `constructChopPixelVerticalCommand(input, direction)`. */
  function ChopVerticalCommand(input: string, direction: string): string {
    "convert " + input + " -gravity " + direction + " +repage -chop 0x2 " + input
  }

  /** `constructChopPixelHorizontalCommand(input, direction)`. */
  function ChopHorizontalCommand(input: string, direction: string): string {
    "convert " + input + " -gravity " + direction + " +repage -chop 2x0 " + input
  }

  /** `constructOneSidedTrimCommand(baseImage, zoom, dirNum, imageNum,
      direction, splice)`. */
  function OneSidedTrimCommand(root: string, image: string, at: Coordinates, direction: string, splice: string): string {
    var input := FullImagePath(root, image, at);
    var tmp := TmpImagePath(root, at, direction);
    "convert " + input + " -gravity " + direction + " -background white -splice " + splice
      + " -background black -splice " + splice + " -trim +repage -chop " + splice + " " + tmp
  }

  /** `constructAppendVCommand(north, south, output)`. */
  function AppendVCommand(north: string, south: string, output: string): string {
    "convert -append " + north + " " + south + " " + output
  }

  /** `constructAppendHCommand(west, east, output)`. */
  function AppendHCommand(west: string, east: string, output: string): string {
    "convert +append " + west + " " + east + " " + output
  }

  /** `constructAppendVerticallyCommand(zoom, dirNum, imageNum)`. */
  function AppendVerticallyCommand(root: string, at: Coordinates): string {
    AppendVCommand(TmpImagePath(root, at, "North"), TmpImagePath(root, at, "South"), FullImagePath(root, TmpDir, at))
  }

  /** `constructAppendHorizontallyCommand(zoom, dirNum, imageNum)`. */
  function AppendHorizontallyCommand(root: string, at: Coordinates): string {
    AppendHCommand(TmpImagePath(root, at, "West"), TmpImagePath(root, at, "East"), FullImagePath(root, TmpDir, at))
  }

  /** `"rm " + path`. */
  function RemoveCommand(path: string): string {
    "rm " + path
  }

  // ---------------------------------------------------------------------
  // What the command lines run

  /** `convert <input> -trim <output>`. */
  function SimpleTrimArgs(input: string, output: string): seq<string> {
    ["convert"] + [input] + ["-trim"] + [output]
  }

  /** A chop: the same file is read and written. */
  function ChopArgs(file: string, direction: string, geometry: string): seq<string> {
    ["convert"] + [file] + ["-gravity"] + [direction] + ["+repage", "-chop", geometry] + [file]
  }

  /** A one-sided trim of `input` into `output`. */
  function TrimArgs(input: string, direction: string, splice: string, output: string): seq<string> {
    ["convert"] + [input] + ["-gravity"] + [direction] + ["-background", "white", "-splice"] + [splice]
      + ["-background", "black", "-splice"] + [splice] + ["-trim", "+repage", "-chop"] + [splice] + [output]
  }

  /** `convert <flag> <first> <second> <output>`. */
  function AppendArgs(flag: string, first: string, second: string, output: string): seq<string> {
    ["convert", flag] + [first] + [second] + [output]
  }

  function RemoveArgs(file: string): seq<string> {
    ["rm"] + [file]
  }

  lemma SimpleTrimArgv(input: string, b: nat, direction: string, output: string)
    requires Word(input) && output == Replace(Replace(input, ImageSegment(b), NamedSegment(TmpDir)), Png, direction + Png)
    requires Word(output)
    ensures Tokenize(SimpleTrimCommand(input, b, direction)) == SimpleTrimArgs(input, output)
  {
    CommandWords();
    TokenizeBlank();
    TokenizeWord(input);
    TokenizeWord(output);
    TokenizeJoin("convert ", input);
    TokenizeJoin("convert " + input, " -trim ");
    TokenizeJoin("convert " + input + " -trim ", " ");
    TokenizeJoin("convert " + input + " -trim " + " ", output);
  }

  /** A chop command line reads and writes the file it is given. */
  lemma ChopArgv(input: string, file: string, direction: string)
    requires Tokenize(input) == [file] && Word(direction)
    ensures Tokenize(ChopVerticalCommand(input, direction)) == ChopArgs(file, direction, "0x2")
    ensures Tokenize(ChopHorizontalCommand(input, direction)) == ChopArgs(file, direction, "2x0")
  {
    CommandWords();
    ChopVerticalLiteral();
    ChopHorizontalLiteral();
    TokenizeWord(direction);
    var a := "convert " + input + " -gravity " + direction;
    TokenizeJoin("convert ", input);
    TokenizeJoin("convert " + input, " -gravity ");
    TokenizeJoin("convert " + input + " -gravity ", direction);
    TokenizeJoin(a, " +repage -chop 0x2 ");
    TokenizeJoin(a + " +repage -chop 0x2 ", input);
    TokenizeJoin(a, " +repage -chop 2x0 ");
    TokenizeJoin(a + " +repage -chop 2x0 ", input);
  }

  /** A one-sided trim reads the row file of `image` and writes the scratch
      file for `direction`. */
  lemma OneSidedTrimArgv(root: string, image: string, at: Coordinates, direction: string, splice: string)
    requires PlainRoot(root) && Word(image) && PlainCoordinates(at) && Word(direction) && Word(splice)
    ensures Tokenize(OneSidedTrimCommand(root, image, at, direction, splice))
         == TrimArgs(PathOf(root, image, at.zoom, at.column, at.row), direction, splice, ScratchFile(root, at, direction))
  {
    var input := FullImagePath(root, image, at);
    var tmp := TmpImagePath(root, at, direction);
    PathArguments(root, image, at, direction);
    var a2 := "convert " + input + " -gravity " + direction + " -background white -splice " + splice;
    TrimHead(input, PathOf(root, image, at.zoom, at.column, at.row), direction, splice);
    BlackSpliceLiteral();
    TrimChopLiteral();
    TokenizeBlank();
    TokenizeWord(splice);
    var a3 := a2 + " -background black -splice " + splice;
    TokenizeJoin(a2, " -background black -splice ");
    TokenizeJoin(a2 + " -background black -splice ", splice);
    var a4 := a3 + " -trim +repage -chop " + splice;
    TokenizeJoin(a3, " -trim +repage -chop ");
    TokenizeJoin(a3 + " -trim +repage -chop ", splice);
    TokenizeJoin(a4, " ");
    TokenizeJoin(a4 + " ", tmp);
  }

  lemma TrimHead(input: string, file: string, direction: string, splice: string)
    requires Tokenize(input) == [file] && Word(direction) && Word(splice)
    ensures Tokenize("convert " + input + " -gravity " + direction + " -background white -splice " + splice)
         == ["convert"] + [file] + ["-gravity"] + [direction] + ["-background", "white", "-splice"] + [splice]
  {
    CommandWords();
    WhiteSpliceLiteral();
    TokenizeWord(direction);
    TokenizeWord(splice);
    var a1 := "convert " + input + " -gravity " + direction;
    TokenizeJoin("convert ", input);
    TokenizeJoin("convert " + input, " -gravity ");
    TokenizeJoin("convert " + input + " -gravity ", direction);
    TokenizeJoin(a1, " -background white -splice ");
    TokenizeJoin(a1 + " -background white -splice ", splice);
  }

  /** An append reads its two inputs in order and writes its output. */
  lemma AppendVArgv(first: string, f: string, second: string, s: string, output: string, o: string)
    requires Tokenize(first) == [f] && Tokenize(second) == [s] && Tokenize(output) == [o]
    ensures Tokenize(AppendVCommand(first, second, output)) == AppendArgs("-append", f, s, o)
  {
    AppendVerticalLiteral();
    var a := "convert -append " + first;
    TokenizeJoin("convert -append ", first);
    BlankAfter(a);
    TokenizeJoin(a + " ", second);
    BlankAfter(a + " " + second);
    TokenizeJoin(a + " " + second + " ", output);
  }

  lemma AppendHArgv(first: string, f: string, second: string, s: string, output: string, o: string)
    requires Tokenize(first) == [f] && Tokenize(second) == [s] && Tokenize(output) == [o]
    ensures Tokenize(AppendHCommand(first, second, output)) == AppendArgs("+append", f, s, o)
  {
    AppendHorizontalLiteral();
    var a := "convert +append " + first;
    TokenizeJoin("convert +append ", first);
    BlankAfter(a);
    TokenizeJoin(a + " ", second);
    BlankAfter(a + " " + second);
    TokenizeJoin(a + " " + second + " ", output);
  }

  lemma RemoveArgv(path: string, file: string)
    requires Tokenize(path) == [file]
    ensures Tokenize(RemoveCommand(path)) == RemoveArgs(file)
  {
    CommandWords();
    TokenizeJoin("rm ", path);
  }
}
