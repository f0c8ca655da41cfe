/** Tile paths as the merger sees them. For a base directory argument
    `root` or `root + "/"`, listing it yields
    `root/<image>/<zoom>/<column>/<row>.png` and the field `baseDir` holds
    `root + "/"`. An argument with more trailing separators is not
    modelled. */
module TilePaths {
  import opened Wrappers
  import opened Decimal
  import opened JavaString

  /** `EXTENSION_PNG`. */
  const Png: string := ".png"

  /** `TMP_DIR`. */
  const TmpDir: string := "tmp"

  /** `separatedImageDir(String)`: an image directory name between separators. */
  function NamedSegment(id: string): string {
    "/" + id + "/"
  }

  /** `separatedImageDir(int)`. */
  function ImageSegment(i: nat): string {
    NamedSegment(Digits(i))
  }

  /** The field `baseDir`: the root with exactly one trailing separator. */
  function BaseDir(root: string): string {
    root + "/"
  }

  /** `root/<image>/<zoom>/<column>/<row>.png` for arbitrary segments. */
  function PathOf(root: string, image: string, zoom: string, column: string, row: string): string {
    root + "/" + image + "/" + zoom + "/" + column + "/" + row + Png
  }

  /** The path of row file `y` of column `x` at zoom `z` of base image `i`. */
  function TilePath(root: string, i: nat, z: nat, x: nat, y: nat): string {
    PathOf(root, Digits(i), Digits(z), Digits(x), Digits(y))
  }

  function ImageDirPath(root: string, i: nat): string {
    root + "/" + Digits(i)
  }

  function ZoomDirPath(root: string, i: nat, z: nat): string {
    ImageDirPath(root, i) + "/" + Digits(z)
  }

  function ColumnDirPath(root: string, i: nat, z: nat, x: nat): string {
    ZoomDirPath(root, i, z) + "/" + Digits(x)
  }

  /** The strings `zoom`, `dirNum` and `tileNumber` a merge is issued for. */
  datatype Coordinates = Coordinates(zoom: string, column: string, row: string)

  /** `removeBaseDir(p)`: every occurrence of `baseDir` is deleted. */
  function RemoveBaseDir(root: string, p: string): string {
    Replace(p, BaseDir(root), "")
  }

  /** `removeBaseDir(p).split("[/\\.]")` followed by `split[1]`, `split[2]`,
      `split[3]`; `None` where Java throws `ArrayIndexOutOfBoundsException`. */
  function SplitCoordinates(root: string, p: string): (c: Option<Coordinates>)
    ensures c.Some? <==> |SplitPath(RemoveBaseDir(root, p))| >= 4
  {
    var parts := SplitPath(RemoveBaseDir(root, p));
    if |parts| < 4 then None else Some(Coordinates(parts[1], parts[2], parts[3]))
  }

  /** The last path segment: `p.substring(p.lastIndexOf("/") + 1)`. */
  function LastSegment(p: string): (name: string)
    ensures '/' !in name
    ensures |name| <= |p| && name == p[|p| - |name|..]
    ensures |name| < |p| ==> p[|p| - |name| - 1] == '/'
  {
    p[LastIndexOf(p, '/') + 1..]
  }

  /** The number `pathComparator` compares a path by: its last segment with
      ".png" removed, parsed; `None` where `parseInt` throws. Signs are not
      modelled: directory entries are named by non-negative numbers. */
  function PathKey(p: string): Option<nat> {
    var name := Replace(LastSegment(p), Png, "");
    if IsDigitString(name) then Some(Parse(name)) else None
  }

  /** `pathComparator().compare(p1, p2)`, computed without 32-bit overflow. */
  function ComparePaths(p1: string, p2: string): Option<int> {
    var x1 :- PathKey(p1);
    var x2 :- PathKey(p2);
    Some(x1 - x2)
  }

  /** A root on which the path arithmetic behaves as its authors assumed:
      non-empty, and free of digits, blanks and the text ".png". */
  predicate PlainRoot(root: string) {
    && |root| > 0
    && (forall i :: 0 <= i < |root| ==> !IsDigit(root[i]) && !IsBlank(root[i]))
    && Absent(root, Png)
  }

  predicate Free(s: string, c: char) {
    forall i :: 0 <= i < |s| ==> s[i] != c
  }

  lemma DigitsFree(s: string)
    requires IsDigitString(s)
    ensures Free(s, '/') && Free(s, '.') && NoSep(s, IsPathSep) && NoSep(s, IsBlank)
  {
  }

  // ---------------------------------------------------------------------
  // pathComparator

  /** The comparator key of a directory or row file named by `n` is `n`. */
  lemma PathKeyOfName(dir: string, n: nat, ext: bool)
    ensures PathKey(dir + "/" + Digits(n) + (if ext then Png else "")) == Some(n)
  {
    var name := Digits(n) + (if ext then Png else "");
    assert dir + "/" + Digits(n) + (if ext then Png else "") == dir + "/" + name;
    DigitsFree(Digits(n));
    assert Free(name, '/');
    LastSegmentAfter(dir, name);
    StripPng(n, ext);
    ParseDigits(n);
  }

  lemma LastSegmentAfter(dir: string, name: string)
    requires Free(name, '/')
    ensures LastSegment(dir + "/" + name) == name
  {
    var p := dir + "/" + name;
    assert p[|dir|] == '/';
    forall j | |dir| < j < |p|
      ensures p[j] != '/'
    {
      assert p[j] == name[j - |dir| - 1];
    }
    LastIndexOfIs(p, '/', |dir|);
    assert p[|dir| + 1..] == name;
  }

  lemma StripPng(n: nat, ext: bool)
    ensures Replace(Digits(n) + (if ext then Png else ""), Png, "") == Digits(n)
  {
    DigitsFree(Digits(n));
    if ext {
      StripFinalPng(Digits(n));
    } else {
      assert Digits(n) + "" == Digits(n);
      NoDotNoPng(Digits(n));
      ReplaceAbsent(Digits(n), Png, "");
    }
  }

  lemma NoDotNoPng(s: string)
    requires Free(s, '.')
    ensures Absent(s, Png)
  {
    forall j | 0 <= j <= |s| - |Png|
      ensures !OccursAt(s, Png, j)
    {
      assert s[j..j + |Png|][0] == s[j];
    }
  }

  /** Removing ".png" from `name.png` gives `name` when `name` has no dot. */
  lemma StripFinalPng(d: string)
    requires Free(d, '.')
    ensures Replace(d + Png, Png, "") == d
  {
    var name := d + Png;
    assert OccursAt(name, Png, |d|);
    forall j | 0 <= j <= |name| - |Png| && j != |d|
      ensures !OccursAt(name, Png, j)
    {
      assert name[j..j + |Png|][0] == name[j];
      assert name[j] != '.';
    }
    ReplaceOnlyOccurrence(name, Png, "", |d|);
    assert name[..|d|] == d;
    assert name[|d| + |Png|..] == "";
  }

  lemma LastIndexOfIs(s: string, c: char, k: nat)
    requires k < |s| && s[k] == c
    requires forall j :: k < j < |s| ==> s[j] != c
    ensures LastIndexOf(s, c) == k
  {
    var r := LastIndexOf(s, c);
    assert r >= k;
  }

  /** The comparator key of a column directory is its number. */
  lemma ColumnDirKey(root: string, i: nat, z: nat, x: nat)
    ensures PathKey(ColumnDirPath(root, i, z, x)) == Some(x)
  {
    PathKeyOfName(ZoomDirPath(root, i, z), x, false);
    assert ColumnDirPath(root, i, z, x) == ZoomDirPath(root, i, z) + "/" + Digits(x) + "";
  }

  /** The comparator key of a row file is its number. */
  lemma RowFileKey(root: string, i: nat, z: nat, x: nat, y: nat)
    ensures PathKey(TilePath(root, i, z, x, y)) == Some(y)
  {
    var dir := ColumnDirPath(root, i, z, x);
    PathKeyOfName(dir, y, true);
    assert TilePath(root, i, z, x, y) == dir + "/" + Digits(y) + Png;
  }

  /** Paths with numeric keys compare by the difference of their keys. */
  lemma CompareKeys(p1: string, p2: string, k1: nat, k2: nat)
    requires PathKey(p1) == Some(k1) && PathKey(p2) == Some(k2)
    ensures ComparePaths(p1, p2) == Some(k1 - k2)
  {
  }

  /** `pathComparator` orders the column directories of one zoom directory
      by their numbers, so that "10" sorts after "9". */
  lemma CompareColumnDirs(root: string, i: nat, z: nat, x1: nat, x2: nat)
    ensures ComparePaths(ColumnDirPath(root, i, z, x1), ColumnDirPath(root, i, z, x2)) == Some(x1 - x2)
  {
    ColumnDirKey(root, i, z, x1);
    ColumnDirKey(root, i, z, x2);
    CompareKeys(ColumnDirPath(root, i, z, x1), ColumnDirPath(root, i, z, x2), x1, x2);
  }

  /** The same for the row files of one column directory. */
  lemma CompareTiles(root: string, i: nat, z: nat, x: nat, y1: nat, y2: nat)
    ensures ComparePaths(TilePath(root, i, z, x, y1), TilePath(root, i, z, x, y2)) == Some(y1 - y2)
  {
    RowFileKey(root, i, z, x, y1);
    RowFileKey(root, i, z, x, y2);
    CompareKeys(TilePath(root, i, z, x, y1), TilePath(root, i, z, x, y2), y1, y2);
  }

  lemma NineBeforeTen(root: string, i: nat, z: nat)
    ensures ComparePaths(ColumnDirPath(root, i, z, 9), ColumnDirPath(root, i, z, 10)) == Some(-1)
  {
    CompareColumnDirs(root, i, z, 9, 10);
  }

  // ---------------------------------------------------------------------
  // Retargeting a tile path to another base image

  /** The part of a tile path after its image segment. */
  function Rest(zoom: string, column: string, row: string): string {
    zoom + "/" + column + "/" + row + Png
  }

  lemma PathOfParts(root: string, image: string, zoom: string, column: string, row: string)
    ensures PathOf(root, image, zoom, column, row) == root + NamedSegment(image) + Rest(zoom, column, row)
  {
  }

  /** The separators of `zoom/column/row.png` sit right after the zoom and
      right after the column. */
  lemma SlashesOfRest(z: string, x: string, y: string)
    requires IsDigitString(z) && IsDigitString(x) && IsDigitString(y)
    ensures forall m :: 0 <= m < |Rest(z, x, y)| ==>
      (Rest(z, x, y)[m] == '/' <==> m == |z| || m == |z| + 1 + |x|)
  {
    var rest := Rest(z, x, y);
    var r := y + Png;
    DigitsFree(z);
    DigitsFree(x);
    DigitsFree(y);
    assert Free(r, '/');
    forall m | 0 <= m < |rest|
      ensures rest[m] == '/' <==> m == |z| || m == |z| + 1 + |x|
    {
      if m < |z| {
        assert rest[m] == z[m];
      } else if |z| < m < |z| + 1 + |x| {
        assert rest[m] == x[m - |z| - 1];
      } else if m > |z| + 1 + |x| {
        assert rest[m] == r[m - |z| - |x| - 2];
      }
    }
  }

  /** An image segment `/w/` can occur in `zoom/column/row.png` only as the
      column, and only when the column is named `w`. */
  lemma SegmentOnlyInColumn(z: string, x: string, y: string, w: string, j: int)
    requires IsDigitString(z) && IsDigitString(x) && IsDigitString(y) && IsDigitString(w)
    requires OccursAt(Rest(z, x, y), NamedSegment(w), j)
    ensures j == |z| && x == w
  {
    var rest := Rest(z, x, y);
    var pat := NamedSegment(w);
    var window := rest[j..j + |pat|];
    assert window == pat;
    assert rest[j] == window[0] == '/';
    var e := j + |w| + 1;
    assert rest[e] == window[|w| + 1] == '/';
    SlashesOfRest(z, x, y);
    assert j == |z| && e == |z| + 1 + |x|;
    assert rest[|z| + 1..|z| + 1 + |x|] == x;
    assert window[1..|w| + 1] == w;
  }

  /** Nothing before the image segment can match an image segment. */
  lemma NoSegmentInRoot(root: string, w: string, tail: string)
    requires PlainRoot(root) && IsDigitString(w)
    ensures NoneBefore(root + NamedSegment(w) + tail, NamedSegment(w), |root|)
  {
    var p := root + NamedSegment(w) + tail;
    var pat := NamedSegment(w);
    forall j | 0 <= j < |root|
      ensures !OccursAt(p, pat, j)
    {
      if j + 1 < |root| {
        assert p[j + 1] == root[j + 1];
      } else {
        assert p[j + 1] == '/';
      }
      assert !IsDigit(p[j + 1]) && IsDigit(pat[1]);
      assert p[j..j + |pat|][1] == p[j + 1];
    }
  }

  /** `tile.toString().replace(separatedImageDir(w), separatedImageDir(s))`
      on the path of tile (w, z, x, y): the image segment becomes `s`, and so
      does the column segment when the column is named like the image;
      nothing else changes. */
  lemma RetargetTilePath(root: string, w: nat, z: nat, x: nat, y: nat, s: string)
    requires PlainRoot(root)
    ensures Replace(TilePath(root, w, z, x, y), ImageSegment(w), NamedSegment(s))
         == PathOf(root, s, Digits(z), if x == w then s else Digits(x), Digits(y))
  {
    var dw, dz, dx, dy := Digits(w), Digits(z), Digits(x), Digits(y);
    var pat := ImageSegment(w);
    var rest := Rest(dz, dx, dy);
    var p := root + pat + rest;
    PathOfParts(root, dw, dz, dx, dy);
    assert TilePath(root, w, z, x, y) == p;
    assert p[|root|..|root| + |pat|] == pat;
    NoSegmentInRoot(root, dw, rest);
    ReplaceAtFirst(p, pat, NamedSegment(s), |root|);
    assert p[..|root|] == root && p[|root| + |pat|..] == rest;
    var newColumn := if x == w then s else dx;
    assert Replace(rest, pat, NamedSegment(s)) == dz + "/" + newColumn + "/" + dy + Png by {
      RetargetRest(dz, dx, dy, x, w, s);
    }
    PathOfParts(root, s, dz, newColumn, dy);
  }

  lemma RetargetRest(dz: string, dx: string, dy: string, x: nat, w: nat, s: string)
    requires IsDigitString(dz) && IsDigitString(dy) && dx == Digits(x)
    ensures Replace(Rest(dz, dx, dy), ImageSegment(w), NamedSegment(s))
         == dz + "/" + (if x == w then s else dx) + "/" + dy + Png
  {
    if x == w {
      RetargetRestColumn(dz, dy, w, s);
    } else {
      var rest := Rest(dz, dx, dy);
      var pat := ImageSegment(w);
      forall j | 0 <= j <= |rest| - |pat|
        ensures !OccursAt(rest, pat, j)
      {
        if OccursAt(rest, pat, j) {
          SegmentOnlyInColumn(dz, dx, dy, Digits(w), j);
          DigitsInjective(x, w);
        }
      }
      ReplaceAbsent(rest, pat, NamedSegment(s));
    }
  }

  /** A column named like the image is retargeted too. */
  lemma RetargetRestColumn(dz: string, dy: string, w: nat, s: string)
    requires IsDigitString(dz) && IsDigitString(dy)
    ensures Replace(Rest(dz, Digits(w), dy), ImageSegment(w), NamedSegment(s))
         == dz + "/" + s + "/" + dy + Png
  {
    var pat := ImageSegment(w);
    var after := dy + Png;
    assert Rest(dz, Digits(w), dy) == dz + pat + after;
    ColumnSegmentFirst(dz, dy, w);
    DigitsFree(dy);
    assert Free(after, '/');
    NoSlashNoSegment(after, Digits(w));
    ReplaceSingle(dz, pat, after, NamedSegment(s));
    SegmentJoin(dz, s, dy);
  }

  lemma SegmentJoin(a: string, s: string, y: string)
    ensures a + NamedSegment(s) + (y + Png) == a + "/" + s + "/" + y + Png
  {
  }

  /** The first image segment of `zoom/w/row.png` is its column. */
  lemma ColumnSegmentFirst(dz: string, dy: string, w: nat)
    requires IsDigitString(dz) && IsDigitString(dy)
    ensures NoneBefore(dz + ImageSegment(w) + (dy + Png), ImageSegment(w), |dz|)
  {
    var rest := dz + ImageSegment(w) + (dy + Png);
    var pat := ImageSegment(w);
    assert rest == Rest(dz, Digits(w), dy);
    forall j | 0 <= j < |dz|
      ensures !OccursAt(rest, pat, j)
    {
      if OccursAt(rest, pat, j) {
        SegmentOnlyInColumn(dz, Digits(w), dy, Digits(w), j);
      }
    }
  }

  lemma NoSlashNoSegment(r: string, w: string)
    requires Free(r, '/')
    ensures Absent(r, NamedSegment(w))
  {
    forall j | 0 <= j <= |r| - |NamedSegment(w)|
      ensures !OccursAt(r, NamedSegment(w), j)
    {
      assert r[j..j + |NamedSegment(w)|][0] == r[j];
    }
  }

  /** The partner of a tile is the same tile of the partner image exactly
      when the tile's column is not named like its own image. */
  lemma RetargetKeepsCoordinates(root: string, w: nat, z: nat, x: nat, y: nat, e: nat)
    requires PlainRoot(root) && w != e
    ensures (Replace(TilePath(root, w, z, x, y), ImageSegment(w), ImageSegment(e)) == TilePath(root, e, z, x, y))
        <==> x != w
  {
    RetargetTilePath(root, w, z, x, y, Digits(e));
    if x == w {
      var asWritten := TilePath(root, e, z, e, y);
      if asWritten == TilePath(root, e, z, x, y) {
        TilePathInjective(root, e, z, e, y, e, z, x, y);
      }
    }
  }

  /** The column a retargeted tile path names: its own, unless that is
      named like the image being replaced. */
  function RetargetedColumn(from: nat, to: nat, x: nat): nat {
    if x == from then to else x
  }

  /** Retargeting tile (w, z, x, y) to image `e` yields the path of tile
      (e, z, x', y), where x' is `e` for a column named `w` and `x`
      otherwise. */
  lemma RetargetTile(root: string, w: nat, z: nat, x: nat, y: nat, e: nat)
    requires PlainRoot(root)
    ensures Replace(TilePath(root, w, z, x, y), ImageSegment(w), ImageSegment(e))
         == TilePath(root, e, z, RetargetedColumn(w, e, x), y)
  {
    RetargetTilePath(root, w, z, x, y, Digits(e));
  }

  // ---------------------------------------------------------------------
  // removeBaseDir and split

  /** Everything after `root/` in a tile path. */
  function Tail(image: string, zoom: string, column: string, row: string): string {
    image + "/" + Rest(zoom, column, row)
  }

  /** Starts with a digit, and every separator follows a digit. */
  predicate SlashAfterDigit(t: string) {
    && |t| > 0 && IsDigit(t[0])
    && forall m :: 0 < m < |t| && t[m] == '/' ==> IsDigit(t[m - 1])
  }

  lemma PrependSegment(a: string, r: string)
    requires IsDigitString(a) && SlashAfterDigit(r)
    ensures SlashAfterDigit(a + "/" + r)
  {
    var t := a + "/" + r;
    forall m | 0 < m < |t|
      ensures t[m] == '/' ==> IsDigit(t[m - 1])
    {
      if m < |a| {
        assert t[m] == a[m];
      } else if m > |a| + 1 {
        assert t[m] == r[m - |a| - 1];
        assert t[m - 1] == r[m - |a| - 2];
      } else if m == |a| + 1 {
        assert t[m] == r[0];
      }
    }
  }

  lemma TailShape(i: string, z: string, x: string, y: string)
    requires IsDigitString(i) && IsDigitString(z) && IsDigitString(x) && IsDigitString(y)
    ensures SlashAfterDigit(Tail(i, z, x, y))
  {
    var last := y + Png;
    forall m | 0 < m < |last|
      ensures last[m] != '/'
    {
    }
    PrependSegment(x, last);
    PrependSegment(z, x + "/" + last);
    PrependSegment(i, z + "/" + (x + "/" + last));
    assert Tail(i, z, x, y) == i + "/" + (z + "/" + (x + "/" + last));
  }

  /** In `root/` followed by such a tail, `root/` occurs only at the start. */
  lemma BaseDirOnlyAtStart(root: string, t: string)
    requires PlainRoot(root) && SlashAfterDigit(t)
    ensures forall j :: (0 < j <= |BaseDir(root) + t| - |BaseDir(root)|
      ==> !OccursAt(BaseDir(root) + t, BaseDir(root), j))
  {
    var b := BaseDir(root);
    var p := b + t;
    var n := |b|;
    forall j | 0 < j <= |p| - n
      ensures !OccursAt(p, b, j)
    {
      var window := p[j..j + n];
      if j <= |root| {
        var o := n - j;
        assert p[n] == t[0];
        assert window[o] == p[n];
        if o < |root| {
          assert b[o] == root[o];
        }
        assert window[o] != b[o];
      } else {
        assert p[j + n - 1] == t[j - 1];
        assert p[j + n - 2] == t[j - 2];
        assert b[n - 2] == root[|root| - 1];
        if p[j + n - 1] == '/' {
          assert window[n - 2] != b[n - 2];
        } else {
          assert window[n - 1] != b[n - 1];
        }
      }
    }
  }

  lemma RemoveBaseDirOfTile(root: string, i: string, z: string, x: string, y: string)
    requires PlainRoot(root)
    requires IsDigitString(i) && IsDigitString(z) && IsDigitString(x) && IsDigitString(y)
    ensures RemoveBaseDir(root, PathOf(root, i, z, x, y)) == Tail(i, z, x, y)
  {
    var t := Tail(i, z, x, y);
    var p := BaseDir(root) + t;
    assert PathOf(root, i, z, x, y) == p;
    TailShape(i, z, x, y);
    BaseDirOnlyAtStart(root, t);
    assert p[0..|BaseDir(root)|] == BaseDir(root);
    ReplaceOnlyOccurrence(p, BaseDir(root), "", 0);
    assert p[|BaseDir(root)|..] == t;
  }

  lemma FieldsOfSegment(a: string, r: string)
    requires IsDigitString(a)
    ensures Fields(a + "/" + r, IsPathSep) == [a] + Fields(r, IsPathSep)
  {
    DigitsFree(a);
    FieldsOfRun(a, IsPathSep);
    FieldsAtSep(a, '/', r, IsPathSep);
  }

  lemma FieldsOfRowFile(y: string)
    requires IsDigitString(y)
    ensures Fields(y + Png, IsPathSep) == [y, "png"]
  {
    DigitsFree(y);
    FieldsOfRun(y, IsPathSep);
    FieldsOfRun("png", IsPathSep);
    assert y + Png == y + ['.'] + "png";
    FieldsAtSep(y, '.', "png", IsPathSep);
  }

  lemma FieldsOfTail(i: string, z: string, x: string, y: string)
    requires IsDigitString(i) && IsDigitString(z) && IsDigitString(x) && IsDigitString(y)
    ensures Fields(Tail(i, z, x, y), IsPathSep) == [i, z, x, y, "png"]
  {
    var r2 := x + "/" + (y + Png);
    var r1 := z + "/" + r2;
    assert Tail(i, z, x, y) == i + "/" + r1;
    FieldsOfRowFile(y);
    FieldsOfSegment(x, y + Png);
    FieldsOfSegment(z, r2);
    FieldsOfSegment(i, r1);
  }

  lemma SplitTail(i: string, z: string, x: string, y: string)
    requires IsDigitString(i) && IsDigitString(z) && IsDigitString(x) && IsDigitString(y)
    ensures SplitPath(Tail(i, z, x, y)) == [i, z, x, y, "png"]
  {
    var t := Tail(i, z, x, y);
    FieldsOfTail(i, z, x, y);
    assert t[|i|] == '/';
    assert !NoSep(t, IsPathSep);
  }

  /** `removeBaseDir(tile).split("[/\\.]")` yields image, zoom, column, row
      and extension, so `split[1..3]` are the zoom, column and row. */
  lemma SplitTilePath(root: string, i: string, z: string, x: string, y: string)
    requires PlainRoot(root)
    requires IsDigitString(i) && IsDigitString(z) && IsDigitString(x) && IsDigitString(y)
    ensures SplitPath(RemoveBaseDir(root, PathOf(root, i, z, x, y))) == [i, z, x, y, "png"]
    ensures SplitCoordinates(root, PathOf(root, i, z, x, y)) == Some(Coordinates(z, x, y))
  {
    RemoveBaseDirOfTile(root, i, z, x, y);
    SplitTail(i, z, x, y);
  }

  /** Distinct tiles have distinct paths. */
  lemma TilePathInjective(root: string, i: nat, z: nat, x: nat, y: nat, i': nat, z': nat, x': nat, y': nat)
    requires PlainRoot(root)
    requires TilePath(root, i, z, x, y) == TilePath(root, i', z', x', y')
    ensures i == i' && z == z' && x == x' && y == y'
  {
    SplitTilePath(root, Digits(i), Digits(z), Digits(x), Digits(y));
    SplitTilePath(root, Digits(i'), Digits(z'), Digits(x'), Digits(y'));
    DigitsInjective(i, i');
    DigitsInjective(z, z');
    DigitsInjective(x, x');
    DigitsInjective(y, y');
  }
}
