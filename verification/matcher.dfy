/** The boundary tile matcher: given the tree, which merges
    `horizontalMerge`, `verticalMerge` and `fourWayMerge` submit. A merge
    task records the arguments the source hands to
    `runImageMagickMergeHorizontally`, `runImageMagickMergeVertically` and
    `runFourWayMerge`. */
module Matcher {
  import opened Wrappers
  import opened Decimal
  import opened JavaString
  import opened TilePaths
  import opened Ordering
  import opened Snapshot

  datatype Task =
    | Horizontal(west: nat, east: nat, at: Coordinates)
    | Vertical(north: nat, south: nat, at: Coordinates)
    | FourWay(anchor: nat, northWest: string, northEast: string, southWest: string, southEast: string)

  /** The exceptions that abort a sweep. */
  datatype Failure =
    | NoEntries(dir: string)      // `get(size - 1)` on an empty listing
    | Unsplittable(path: string)  // `split[1..3]` out of range
    | NoImage(dir: string)        // `Files.list` of a missing base image

  type Outcome = Result<seq<Task>, Failure>

  /** `p.toString().replace(separatedImageDir(from), separatedImageDir(to))`. */
  function Retarget(p: string, from: nat, to: nat): string {
    Replace(p, ImageSegment(from), ImageSegment(to))
  }

  /** The coordinate strings of tile (z, x, y). */
  function At(z: nat, x: nat, y: nat): Coordinates {
    Coordinates(Digits(z), Digits(x), Digits(y))
  }

  /** `forEach` over a listing: the tasks of every entry in order; the first
      exception ends the whole run. */
  function ForEach<T>(s: seq<T>, each: T -> Outcome): Outcome
    decreases |s|
  {
    if |s| == 0 then Success([])
    else
      var first :- each(s[0]);
      var rest :- ForEach(s[1..], each);
      Success(first + rest)
  }

  /** A `forEach` succeeds exactly when every entry does, and then submits
      exactly the tasks of its entries. */
  lemma {:induction false} ForEachOutcome<T>(s: seq<T>, each: T -> Outcome)
    ensures ForEach(s, each).Success? <==> forall k :: 0 <= k < |s| ==> each(s[k]).Success?
    ensures ForEach(s, each).Success? ==>
      forall t :: t in ForEach(s, each).value <==> exists k :: 0 <= k < |s| && t in each(s[k]).value
  {
    if |s| > 0 {
      ForEachOutcome(s[1..], each);
      if ForEach(s, each).Success? {
        var rest := ForEach(s[1..], each).value;
        forall t | t in ForEach(s, each).value
          ensures exists k :: 0 <= k < |s| && t in each(s[k]).value
        {
          if t !in each(s[0]).value {
            var k :| 0 <= k < |s[1..]| && t in each(s[1..][k]).value;
            assert s[1..][k] == s[k + 1];
          }
        }
        forall t, k | 0 <= k < |s| && t in each(s[k]).value
          ensures t in ForEach(s, each).value
        {
          if k > 0 {
            assert s[1..][k - 1] == s[k];
          }
        }
      } else if each(s[0]).Success? {
        var k :| 0 <= k < |s[1..]| && !each(s[1..][k]).Success?;
        assert s[1..][k] == s[k + 1];
      }
      if forall k :: 0 <= k < |s| ==> each(s[k]).Success? {
        assert forall k :: 0 <= k < |s[1..]| ==> s[1..][k] == s[k + 1];
      }
    }
  }

  /** A `forEach` whose entries each submit at most one task submits at most
      one per entry. */
  lemma {:induction false} ForEachAtMostOne<T>(s: seq<T>, each: T -> Outcome)
    requires forall k :: 0 <= k < |s| && each(s[k]).Success? ==> |each(s[k]).value| <= 1
    ensures ForEach(s, each).Success? ==> |ForEach(s, each).value| <= |s|
  {
    if |s| > 0 {
      assert forall k :: 0 <= k < |s[1..]| ==> s[1..][k] == s[k + 1];
      ForEachAtMostOne(s[1..], each);
    }
  }

  /** The same, for membership in the listing. */
  lemma ForEachSucceeds<T>(s: seq<T>, each: T -> Outcome)
    ensures ForEach(s, each).Success? <==> forall e :: e in s ==> each(e).Success?
  {
    ForEachOutcome(s, each);
  }

  /** When every entry succeeds and submits exactly the tasks `due` says, the
      `forEach` submits exactly the tasks due to some entry. */
  lemma ForEachMembers<T>(s: seq<T>, each: T -> Outcome, due: (T, Task) -> bool)
    requires forall e :: e in s ==> each(e).Success?
    requires forall e, t :: e in s && each(e).Success? ==> (t in each(e).value <==> due(e, t))
    ensures ForEach(s, each).Success?
    ensures forall t :: t in ForEach(s, each).value <==> exists e :: e in s && due(e, t)
  {
    ForEachOutcome(s, each);
    forall t
      ensures t in ForEach(s, each).value <==> exists e :: e in s && due(e, t)
    {
      if exists e :: e in s && due(e, t) {
        var e :| e in s && due(e, t);
        var k :| 0 <= k < |s| && s[k] == e;
        assert t in each(s[k]).value;
      }
    }
  }

  // ---------------------------------------------------------------------
  // horizontalMerge

  /** `horizontalMerge(basedir, w)`: nothing unless base images `w` and
      `w + 1` both exist; then every zoom level of `w`. */
  function HorizontalMerge(fs: Tree, w: nat): Outcome {
    if w !in fs.images || w + 1 !in fs.images then Success([])
    else ForEach(fs.images[w], (zl: ZoomLevel) => HorizontalZoom(fs, w, zl))
  }

  /** One zoom level: the column directories sorted by `pathComparator`, the
      second-highest (when there are two) and the highest scanned in that
      order; an empty zoom level throws at `xDirs.get(-1)`. */
  function HorizontalZoom(fs: Tree, w: nat, zl: ZoomLevel): Outcome {
    if |zl.columns| == 0 then Failure(NoEntries(ZoomDirPath(fs.root, w, zl.z)))
    else ForEach(LastTwo(zl.columns, ColumnKey), (c: Column) => HorizontalColumn(fs, w, zl.z, c))
  }

  /** `horizontalMergeOnZoomLevel`: every row file of the column, in
      listing order. */
  function HorizontalColumn(fs: Tree, w: nat, z: nat, c: Column): Outcome {
    ForEach(c.rows, (y: nat) => HorizontalTile(fs, w, z, c.x, y))
  }

  /** One row file: its eastern counterpart is the path with `/w/` replaced
      by `/w+1/`; if that exists, `mergeFilesHorizontally` takes zoom,
      column and row from the EASTERN path. */
  function HorizontalTile(fs: Tree, w: nat, z: nat, x: nat, y: nat): Outcome {
    var eastern := Retarget(TilePath(fs.root, w, z, x, y), w, w + 1);
    if !Exists(fs, eastern) then Success([])
    else match SplitCoordinates(fs.root, eastern)
      case None => Failure(Unsplittable(eastern))
      case Some(at) => Success([Horizontal(w, w + 1, at)])
  }

  /** Row file (w, z, x, y) yields a task exactly when the eastern image has
      the tile at the retargeted column, and the task carries that
      column. */
  lemma HorizontalTileOutcome(fs: Tree, w: nat, z: nat, x: nat, y: nat)
    requires WellFormed(fs)
    ensures HorizontalTile(fs, w, z, x, y)
         == Success(if HasTile(fs, w + 1, z, RetargetedColumn(w, w + 1, x), y)
                    then [Horizontal(w, w + 1, At(z, RetargetedColumn(w, w + 1, x), y))]
                    else [])
  {
    var x' := RetargetedColumn(w, w + 1, x);
    RetargetTile(fs.root, w, z, x, y, w + 1);
    ExistsTile(fs, w + 1, z, x', y);
    SplitTilePath(fs.root, Digits(w + 1), Digits(z), Digits(x'), Digits(y));
  }

  /** The task for row `y` of column `c` at zoom `z`, when it is due. */
  predicate HorizontalDue(fs: Tree, w: nat, z: nat, c: Column, y: nat, t: Task) {
    && HasTile(fs, w + 1, z, RetargetedColumn(w, w + 1, c.x), y)
    && t == Horizontal(w, w + 1, At(z, RetargetedColumn(w, w + 1, c.x), y))
  }

  lemma HorizontalColumnOutcome(fs: Tree, w: nat, z: nat, c: Column)
    requires WellFormed(fs)
    ensures HorizontalColumn(fs, w, z, c).Success?
    ensures forall t :: (t in HorizontalColumn(fs, w, z, c).value
      <==> exists y :: y in c.rows && HorizontalDue(fs, w, z, c, y, t))
  {
    forall y | y in c.rows
      ensures HorizontalTile(fs, w, z, c.x, y).Success?
      ensures forall t :: t in HorizontalTile(fs, w, z, c.x, y).value <==> HorizontalDue(fs, w, z, c, y, t)
    {
      HorizontalTileOutcome(fs, w, z, c.x, y);
    }
    ForEachMembers(c.rows, (y: nat) => HorizontalTile(fs, w, z, c.x, y),
      (y: nat, t: Task) => HorizontalDue(fs, w, z, c, y, t));
  }

  /** A task is due to a zoom level when it is due to a row of a scanned
      column. */
  predicate HorizontalZoomDue(fs: Tree, w: nat, zl: ZoomLevel, t: Task) {
    exists c, y :: c in LastTwo(zl.columns, ColumnKey) && y in c.rows && HorizontalDue(fs, w, zl.z, c, y, t)
  }

  /** A zoom level with columns submits exactly the tasks due to it. */
  lemma HorizontalZoomOutcome(fs: Tree, w: nat, zl: ZoomLevel)
    requires WellFormed(fs)
    ensures HorizontalZoom(fs, w, zl).Success? <==> |zl.columns| > 0
    ensures HorizontalZoom(fs, w, zl).Success? ==>
      forall t :: t in HorizontalZoom(fs, w, zl).value <==> HorizontalZoomDue(fs, w, zl, t)
  {
    if |zl.columns| > 0 {
      var scanned := LastTwo(zl.columns, ColumnKey);
      forall c | c in scanned
        ensures HorizontalColumn(fs, w, zl.z, c).Success?
        ensures forall t :: (t in HorizontalColumn(fs, w, zl.z, c).value
          <==> exists y :: y in c.rows && HorizontalDue(fs, w, zl.z, c, y, t))
      {
        HorizontalColumnOutcome(fs, w, zl.z, c);
      }
      ForEachMembers(scanned, (c: Column) => HorizontalColumn(fs, w, zl.z, c),
        (c: Column, t: Task) => exists y :: y in c.rows && HorizontalDue(fs, w, zl.z, c, y, t));
    }
  }

  /** What `horizontalMerge(w)` submits: for every zoom level of `w`, every
      row file of every column with fewer than two higher-numbered columns
      beside it whose retargeted tile exists in `w + 1`. */
  predicate HorizontalMatch(fs: Tree, w: nat, t: Task)
    requires w in fs.images
  {
    exists zl, c, y :: zl in fs.images[w] && c in zl.columns && y in c.rows
      && !TwoAbove(zl.columns, ColumnKey, c.x)
      && HorizontalDue(fs, w, zl.z, c, y, t)
  }

  /** `horizontalMerge(w)` throws exactly when both images exist and a zoom
      level of `w` has no columns; otherwise it submits exactly the
      matching tasks, and none unless both images exist. */
  lemma HorizontalMergeMatches(fs: Tree, w: nat)
    requires WellFormed(fs)
    ensures HorizontalMerge(fs, w).Failure?
        <==> w in fs.images && w + 1 in fs.images && exists zl :: zl in fs.images[w] && |zl.columns| == 0
    ensures w !in fs.images || w + 1 !in fs.images ==> HorizontalMerge(fs, w) == Success([])
    ensures HorizontalMerge(fs, w).Success? && w in fs.images ==>
      forall t :: t in HorizontalMerge(fs, w).value <==> HorizontalMatch(fs, w, t)
  {
    if w in fs.images && w + 1 in fs.images {
      var zooms := fs.images[w];
      var each := (zl: ZoomLevel) => HorizontalZoom(fs, w, zl);
      forall zl | zl in zooms
        ensures each(zl).Success? <==> |zl.columns| > 0
      {
        HorizontalZoomOutcome(fs, w, zl);
      }
      ForEachSucceeds(zooms, each);
      if HorizontalMerge(fs, w).Success? {
        HorizontalMergeMembers(fs, w);
      }
    }
  }

  lemma HorizontalMergeMembers(fs: Tree, w: nat)
    requires WellFormed(fs) && w in fs.images && w + 1 in fs.images
    requires forall zl :: zl in fs.images[w] ==> |zl.columns| > 0
    ensures HorizontalMerge(fs, w).Success?
    ensures forall t :: t in HorizontalMerge(fs, w).value <==> HorizontalMatch(fs, w, t)
  {
    var zooms := fs.images[w];
    forall zl | zl in zooms
      ensures HorizontalZoom(fs, w, zl).Success?
      ensures forall t :: t in HorizontalZoom(fs, w, zl).value <==> HorizontalZoomDue(fs, w, zl, t)
    {
      HorizontalZoomOutcome(fs, w, zl);
    }
    ForEachMembers(zooms, (zl: ZoomLevel) => HorizontalZoom(fs, w, zl),
      (zl: ZoomLevel, t: Task) => HorizontalZoomDue(fs, w, zl, t));
    forall t
      ensures (exists zl :: zl in zooms && HorizontalZoomDue(fs, w, zl, t)) <==> HorizontalMatch(fs, w, t)
    {
      forall zl | zl in zooms
        ensures HorizontalZoomDue(fs, w, zl, t) <==>
          (exists c, y :: c in zl.columns && y in c.rows
             && !TwoAbove(zl.columns, ColumnKey, c.x) && HorizontalDue(fs, w, zl.z, c, y, t))
      {
        ScannedColumns(fs, w, zl);
      }
    }
  }

  /** The scanned columns of a zoom level are those with fewer than two
      higher-numbered columns beside them. */
  lemma ScannedColumns(fs: Tree, w: nat, zl: ZoomLevel)
    requires WellFormed(fs) && w in fs.images && zl in fs.images[w]
    ensures forall c :: (c in LastTwo(zl.columns, ColumnKey)
      <==> c in zl.columns && !TwoAbove(zl.columns, ColumnKey, c.x))
  {
    assert WellFormedZoom(zl);
    forall c
      ensures c in LastTwo(zl.columns, ColumnKey) <==> c in zl.columns && !TwoAbove(zl.columns, ColumnKey, c.x)
    {
      if c in zl.columns {
        LastTwoChosen(zl.columns, ColumnKey, c);
      } else {
        assert forall d :: d in SortBy(zl.columns, ColumnKey) ==> d in zl.columns;
      }
    }
  }

  // ---------------------------------------------------------------------
  // verticalMerge

  /** `verticalMerge(basedir, n)`: nothing unless base images `n` and
      `n + 6` both exist; then every column directory of every zoom level
      of `n`, in listing order. */
  function VerticalMerge(fs: Tree, n: nat): Outcome {
    if n !in fs.images || n + 6 !in fs.images then Success([])
    else ForEach(fs.images[n], (zl: ZoomLevel) => VerticalZoom(fs, n, zl))
  }

  function VerticalZoom(fs: Tree, n: nat, zl: ZoomLevel): Outcome {
    ForEach(zl.columns, (c: Column) => VerticalColumn(fs, n, zl.z, c))
  }

  /** The row file paths of a column, in listing order. */
  function RowPaths(root: string, i: nat, z: nat, x: nat, rows: seq<nat>): seq<string> {
    seq(|rows|, k requires 0 <= k < |rows| => TilePath(root, i, z, x, rows[k]))
  }

  /** `verticalMergeOnZoomLevel` for one column: the row file paths sorted
      in the natural order of `Path`, the last one taken (an empty column
      throws at `fileList.get(-1)`); its southern counterpart is the path
      with `/n/` replaced by `/n+6/`; if that exists,
      `mergeFilesVertically` takes zoom, column and row from the NORTHERN
      path. */
  function VerticalColumn(fs: Tree, n: nat, z: nat, c: Column): Outcome {
    if |c.rows| == 0 then Failure(NoEntries(ColumnDirPath(fs.root, n, z, c.x)))
    else
      var northern := LexGreatest(RowPaths(fs.root, n, z, c.x, c.rows));
      var southern := Retarget(northern, n, n + 6);
      if !Exists(fs, southern) then Success([])
      else match SplitCoordinates(fs.root, northern)
        case None => Failure(Unsplittable(northern))
        case Some(at) => Success([Vertical(n, n + 6, at)])
  }

  /** Row `y` is the last of `rows` when their file names are sorted as
      strings. */
  predicate LastByName(rows: seq<nat>, y: nat) {
    && y in rows
    && forall y' :: y' in rows ==> !LexLess(RowName(y), RowName(y'))
  }

  /** At most one row of a column is last by name. */
  lemma LastByNameUnique(rows: seq<nat>, y1: nat, y2: nat)
    requires LastByName(rows, y1) && LastByName(rows, y2)
    ensures y1 == y2
  {
    if RowName(y1) == RowName(y2) {
      RowNameInjective(y1, y2);
    } else {
      LexTotal(RowName(y1), RowName(y2));
    }
  }

  /** The northern tile of a non-empty column is its row last by name. */
  lemma NorthernTile(root: string, n: nat, z: nat, x: nat, rows: seq<nat>)
    requires |rows| > 0
    ensures exists y :: LastByName(rows, y) && LexGreatest(RowPaths(root, n, z, x, rows)) == TilePath(root, n, z, x, y)
  {
    var paths := RowPaths(root, n, z, x, rows);
    var g := LexGreatest(paths);
    var k :| 0 <= k < |paths| && paths[k] == g;
    var y := rows[k];
    forall y' | y' in rows
      ensures !LexLess(RowName(y), RowName(y'))
    {
      var k' :| 0 <= k' < |rows| && rows[k'] == y';
      assert paths[k'] == TilePath(root, n, z, x, y');
      RowPathOrder(root, n, z, x, y, y');
    }
    assert LastByName(rows, y);
  }

  /** The outcome of a column whose northern tile is row `y`. */
  function VerticalTask(fs: Tree, n: nat, z: nat, c: Column, y: nat): Outcome {
    if HasTile(fs, n + 6, z, RetargetedColumn(n, n + 6, c.x), y)
    then Success([Vertical(n, n + 6, At(z, c.x, y))])
    else Success([])
  }

  /** A non-empty column yields a task exactly when the southern image has
      its last-by-name row at the retargeted column; the task carries the
      northern coordinates. */
  lemma VerticalColumnOutcome(fs: Tree, n: nat, z: nat, c: Column)
    requires WellFormed(fs) && |c.rows| > 0
    ensures exists y :: LastByName(c.rows, y) && VerticalColumn(fs, n, z, c) == VerticalTask(fs, n, z, c, y)
  {
    NorthernTile(fs.root, n, z, c.x, c.rows);
    var y :| LastByName(c.rows, y) && LexGreatest(RowPaths(fs.root, n, z, c.x, c.rows)) == TilePath(fs.root, n, z, c.x, y);
    RetargetTile(fs.root, n, z, c.x, y, n + 6);
    ExistsTile(fs, n + 6, z, RetargetedColumn(n, n + 6, c.x), y);
    SplitTilePath(fs.root, Digits(n), Digits(z), Digits(c.x), Digits(y));
  }

  /** The task for column `c` at zoom `z` through its row `y`, when due. */
  predicate VerticalDue(fs: Tree, n: nat, z: nat, c: Column, y: nat, t: Task) {
    && LastByName(c.rows, y)
    && HasTile(fs, n + 6, z, RetargetedColumn(n, n + 6, c.x), y)
    && t == Vertical(n, n + 6, At(z, c.x, y))
  }

  /** A column fails exactly when it is empty, and otherwise submits at most
      one task: the one due through its last-by-name row. */
  lemma VerticalColumnMembers(fs: Tree, n: nat, z: nat, c: Column)
    requires WellFormed(fs)
    ensures VerticalColumn(fs, n, z, c).Success? <==> |c.rows| > 0
    ensures VerticalColumn(fs, n, z, c).Success? ==> |VerticalColumn(fs, n, z, c).value| <= 1
    ensures VerticalColumn(fs, n, z, c).Success? ==> forall t :: (t in VerticalColumn(fs, n, z, c).value
      <==> exists y :: VerticalDue(fs, n, z, c, y, t))
  {
    if |c.rows| > 0 {
      VerticalColumnOutcome(fs, n, z, c);
      var y :| LastByName(c.rows, y) && VerticalColumn(fs, n, z, c) == VerticalTask(fs, n, z, c, y);
      var r := VerticalColumn(fs, n, z, c).value;
      forall t
        ensures t in r <==> exists y' :: VerticalDue(fs, n, z, c, y', t)
      {
        if t in r {
          assert VerticalDue(fs, n, z, c, y, t);
        }
        if exists y' :: VerticalDue(fs, n, z, c, y', t) {
          var y' :| VerticalDue(fs, n, z, c, y', t);
          LastByNameUnique(c.rows, y, y');
        }
      }
    }
  }

  /** A zoom level fails exactly when one of its columns is empty, and
      otherwise submits exactly the tasks due to its columns. */
  lemma VerticalZoomMembers(fs: Tree, n: nat, zl: ZoomLevel)
    requires WellFormed(fs)
    ensures VerticalZoom(fs, n, zl).Success? <==> forall c :: c in zl.columns ==> |c.rows| > 0
    ensures VerticalZoom(fs, n, zl).Success? ==> forall t :: (t in VerticalZoom(fs, n, zl).value
      <==> exists c, y :: c in zl.columns && VerticalDue(fs, n, zl.z, c, y, t))
  {
    var each := (c: Column) => VerticalColumn(fs, n, zl.z, c);
    forall c | c in zl.columns
      ensures each(c).Success? <==> |c.rows| > 0
      ensures each(c).Success? ==> forall t :: (t in each(c).value <==> exists y :: VerticalDue(fs, n, zl.z, c, y, t))
    {
      VerticalColumnMembers(fs, n, zl.z, c);
    }
    ForEachSucceeds(zl.columns, each);
    if VerticalZoom(fs, n, zl).Success? {
      ForEachMembers(zl.columns, each, (c: Column, t: Task) => exists y :: VerticalDue(fs, n, zl.z, c, y, t));
    }
  }

  /** What `verticalMerge(n)` submits: for every column of every zoom level
      of `n`, the task through its last-by-name row when the retargeted
      tile exists in `n + 6`. */
  predicate VerticalMatch(fs: Tree, n: nat, t: Task)
    requires n in fs.images
  {
    exists zl, c, y :: zl in fs.images[n] && c in zl.columns && y in c.rows && VerticalDue(fs, n, zl.z, c, y, t)
  }

  /** `verticalMerge(n)` throws exactly when both images exist and a column
      of `n` is empty; otherwise it submits exactly the matching tasks, and
      none unless both images exist. */
  lemma VerticalMergeMatches(fs: Tree, n: nat)
    requires WellFormed(fs)
    ensures VerticalMerge(fs, n).Failure?
        <==> n in fs.images && n + 6 in fs.images
             && exists zl, c :: zl in fs.images[n] && c in zl.columns && |c.rows| == 0
    ensures n !in fs.images || n + 6 !in fs.images ==> VerticalMerge(fs, n) == Success([])
    ensures VerticalMerge(fs, n).Success? && n in fs.images ==>
      forall t :: t in VerticalMerge(fs, n).value <==> VerticalMatch(fs, n, t)
  {
    if n in fs.images && n + 6 in fs.images {
      var zooms := fs.images[n];
      var each := (zl: ZoomLevel) => VerticalZoom(fs, n, zl);
      forall zl | zl in zooms
        ensures each(zl).Success? <==> forall c :: c in zl.columns ==> |c.rows| > 0
        ensures each(zl).Success? ==> forall t :: (t in each(zl).value
          <==> exists c, y :: c in zl.columns && VerticalDue(fs, n, zl.z, c, y, t))
      {
        VerticalZoomMembers(fs, n, zl);
      }
      ForEachSucceeds(zooms, each);
      if VerticalMerge(fs, n).Success? {
        ForEachMembers(zooms, each,
          (zl: ZoomLevel, t: Task) => exists c, y :: c in zl.columns && VerticalDue(fs, n, zl.z, c, y, t));
      }
    }
  }

  // ---------------------------------------------------------------------
  // fourWayMerge

  /** `fourWayMerge(b)`: every zoom level of base image `b`, which must
      exist (`Files.list` throws otherwise). */
  function FourWayMerge(fs: Tree, b: nat): Outcome {
    if b !in fs.images then Failure(NoImage(ImageDirPath(fs.root, b)))
    else ForEach(fs.images[b], (zl: ZoomLevel) => FourWayZoom(fs, b, zl))
  }

  /** One zoom level: the north-western tile is the last row file of the
      last column, both by `getLastEntry`; the other three corners are its
      path with `/b/` replaced by `/b+1/`, `/b+6/` and `/b+7/`. The zoom
      level is skipped unless all four exist. */
  function FourWayZoom(fs: Tree, b: nat, zl: ZoomLevel): Outcome {
    match LastEntry(zl.columns, ColumnKey)
    case None => Failure(NoEntries(ZoomDirPath(fs.root, b, zl.z)))
    case Some(c) =>
      match LastEntry(c.rows, RowKey)
      case None => Failure(NoEntries(ColumnDirPath(fs.root, b, zl.z, c.x)))
      case Some(y) => FourWayTile(fs, b, zl.z, c.x, y)
  }

  /** The four corners through north-western tile (b, z, x, y). */
  function FourWayTile(fs: Tree, b: nat, z: nat, x: nat, y: nat): Outcome {
    var northWest := TilePath(fs.root, b, z, x, y);
    var northEast := Retarget(northWest, b, b + 1);
    var southWest := Retarget(northWest, b, b + 6);
    var southEast := Retarget(northWest, b, b + 7);
    if Exists(fs, northWest) && Exists(fs, northEast) && Exists(fs, southWest) && Exists(fs, southEast)
    then Success([FourWay(b, northWest, northEast, southWest, southEast)])
    else Success([])
  }

  /** Column `c` is the numerically last of zoom level `zl`. */
  predicate LastColumn(zl: ZoomLevel, c: Column) {
    c in zl.columns && forall d :: d in zl.columns ==> d.x <= c.x
  }

  /** Row `y` is the numerically last of column `c`. */
  predicate LastRow(c: Column, y: nat) {
    y in c.rows && forall y' :: y' in c.rows ==> y' <= y
  }

  /** The corner of tile (b, z, x, y) in image `b + d`. */
  function Corner(root: string, b: nat, d: nat, z: nat, x: nat, y: nat): string {
    TilePath(root, b + d, z, RetargetedColumn(b, b + d, x), y)
  }

  /** The four-way task through tile (b, z, x, y), when all three other
      corners are present. */
  predicate FourWayDue(fs: Tree, b: nat, z: nat, x: nat, y: nat, t: Task) {
    && HasTile(fs, b + 1, z, RetargetedColumn(b, b + 1, x), y)
    && HasTile(fs, b + 6, z, RetargetedColumn(b, b + 6, x), y)
    && HasTile(fs, b + 7, z, RetargetedColumn(b, b + 7, x), y)
    && t == FourWay(b, TilePath(fs.root, b, z, x, y),
                    Corner(fs.root, b, 1, z, x, y), Corner(fs.root, b, 6, z, x, y), Corner(fs.root, b, 7, z, x, y))
  }

  /** The zoom level's outcome once its last tile (x, y) is known. */
  function FourWayTask(fs: Tree, b: nat, z: nat, x: nat, y: nat): Outcome {
    if HasTile(fs, b + 1, z, RetargetedColumn(b, b + 1, x), y)
       && HasTile(fs, b + 6, z, RetargetedColumn(b, b + 6, x), y)
       && HasTile(fs, b + 7, z, RetargetedColumn(b, b + 7, x), y)
    then Success([FourWay(b, TilePath(fs.root, b, z, x, y),
                          Corner(fs.root, b, 1, z, x, y), Corner(fs.root, b, 6, z, x, y), Corner(fs.root, b, 7, z, x, y))])
    else Success([])
  }

  /** A zoom level throws exactly when it has no column or its last column
      has no row file; otherwise its outcome is decided by its last tile. */
  lemma FourWayZoomOutcome(fs: Tree, b: nat, zl: ZoomLevel)
    requires WellFormed(fs) && b in fs.images && zl in fs.images[b]
    ensures FourWayZoom(fs, b, zl).Failure? <==> FourWayStuck(zl)
    ensures FourWayZoom(fs, b, zl).Success? ==>
      exists c: Column, y: nat :: LastColumn(zl, c) && LastRow(c, y) && FourWayZoom(fs, b, zl) == FourWayTask(fs, b, zl.z, c.x, y)
  {
    assert WellFormedZoom(zl);
    LastEntryIsGreatest(zl.columns, ColumnKey);
    if |zl.columns| > 0 {
      var c := LastEntry(zl.columns, ColumnKey).value;
      assert LastColumn(zl, c);
      forall c' | c' in zl.columns && LastColumn(zl, c')
        ensures c' == c
      {
        LastEntryUnique(zl.columns, ColumnKey, c');
      }
      LastEntryIsGreatest(c.rows, RowKey);
      if |c.rows| > 0 {
        var y := LastEntry(c.rows, RowKey).value;
        assert LastRow(c, y);
        FourWayTileOutcome(fs, b, zl, c, y);
      }
    }
  }

  /** The tile part decides as the three other corners' presence does. */
  lemma FourWayTileOutcome(fs: Tree, b: nat, zl: ZoomLevel, c: Column, y: nat)
    requires WellFormed(fs) && b in fs.images && zl in fs.images[b] && c in zl.columns && y in c.rows
    ensures FourWayTile(fs, b, zl.z, c.x, y) == FourWayTask(fs, b, zl.z, c.x, y)
  {
    ExistsTile(fs, b, zl.z, c.x, y);
    FourWayCorner(fs, b, zl.z, c.x, y, 1);
    FourWayCorner(fs, b, zl.z, c.x, y, 6);
    FourWayCorner(fs, b, zl.z, c.x, y, 7);
  }

  /** Corner `b + d` of a tile is its retargeted path, present exactly when
      its tile is. */
  lemma FourWayCorner(fs: Tree, b: nat, z: nat, x: nat, y: nat, d: nat)
    requires WellFormed(fs)
    ensures Retarget(TilePath(fs.root, b, z, x, y), b, b + d) == Corner(fs.root, b, d, z, x, y)
    ensures Exists(fs, Corner(fs.root, b, d, z, x, y)) <==> HasTile(fs, b + d, z, RetargetedColumn(b, b + d, x), y)
  {
    CornerPath(fs.root, b, z, x, y, d);
    ExistsTile(fs, b + d, z, RetargetedColumn(b, b + d, x), y);
  }

  lemma CornerPath(root: string, b: nat, z: nat, x: nat, y: nat, d: nat)
    requires PlainRoot(root)
    ensures Retarget(TilePath(root, b, z, x, y), b, b + d) == Corner(root, b, d, z, x, y)
  {
    RetargetTile(root, b, z, x, y, b + d);
  }

  /** A zoom level that does not throw submits at most one task: the one
      due through its numerically last tile. */
  lemma FourWayZoomMembers(fs: Tree, b: nat, zl: ZoomLevel)
    requires WellFormed(fs) && b in fs.images && zl in fs.images[b]
    ensures FourWayZoom(fs, b, zl).Success? ==> |FourWayZoom(fs, b, zl).value| <= 1
    ensures FourWayZoom(fs, b, zl).Success? ==> forall t :: (t in FourWayZoom(fs, b, zl).value
      <==> exists c: Column, y: nat :: LastColumn(zl, c) && LastRow(c, y) && FourWayDue(fs, b, zl.z, c.x, y, t))
  {
    FourWayZoomOutcome(fs, b, zl);
    if FourWayZoom(fs, b, zl).Success? {
      var c: Column, y: nat :| LastColumn(zl, c) && LastRow(c, y) && FourWayZoom(fs, b, zl) == FourWayTask(fs, b, zl.z, c.x, y);
      FourWayTaskMembers(fs, b, zl, c, y);
    }
  }

  /** The task of the last tile is the only one due to the zoom level. */
  lemma FourWayTaskMembers(fs: Tree, b: nat, zl: ZoomLevel, c: Column, y: nat)
    requires WellFormedZoom(zl) && LastColumn(zl, c) && LastRow(c, y)
    ensures |FourWayTask(fs, b, zl.z, c.x, y).value| <= 1
    ensures forall t :: (t in FourWayTask(fs, b, zl.z, c.x, y).value
      <==> exists c': Column, y': nat :: LastColumn(zl, c') && LastRow(c', y') && FourWayDue(fs, b, zl.z, c'.x, y', t))
  {
    var r := FourWayTask(fs, b, zl.z, c.x, y).value;
    forall t
      ensures t in r <==> exists c': Column, y': nat :: LastColumn(zl, c') && LastRow(c', y') && FourWayDue(fs, b, zl.z, c'.x, y', t)
    {
      if t in r {
        assert FourWayDue(fs, b, zl.z, c.x, y, t);
      }
      if exists c': Column, y': nat :: LastColumn(zl, c') && LastRow(c', y') && FourWayDue(fs, b, zl.z, c'.x, y', t) {
        var c': Column, y': nat :| LastColumn(zl, c') && LastRow(c', y') && FourWayDue(fs, b, zl.z, c'.x, y', t);
        LastColumnUnique(zl, c, c');
        assert y' <= y && y <= y';
      }
    }
  }

  lemma LastColumnUnique(zl: ZoomLevel, c: Column, c': Column)
    requires WellFormedZoom(zl) && LastColumn(zl, c) && LastColumn(zl, c')
    ensures c == c'
  {
    LastEntryUnique(zl.columns, ColumnKey, c);
    LastEntryUnique(zl.columns, ColumnKey, c');
  }

  /** What `fourWayMerge(b)` submits: for every zoom level of `b`, the task
      through its numerically last tile when all other corners exist. */
  predicate FourWayMatch(fs: Tree, b: nat, t: Task)
    requires b in fs.images
  {
    exists zl, c, y :: zl in fs.images[b] && c in zl.columns && y in c.rows
      && LastColumn(zl, c) && LastRow(c, y) && FourWayDue(fs, b, zl.z, c.x, y, t)
  }

  /** The zoom levels `fourWayMerge(b)` throws at. */
  predicate FourWayStuck(zl: ZoomLevel) {
    |zl.columns| == 0 || exists c :: c in zl.columns && LastColumn(zl, c) && |c.rows| == 0
  }

  /** `fourWayMerge(b)` throws exactly when `b` is missing or one of its
      zoom levels has no column or an empty last column; otherwise it
      submits exactly the matching tasks, at most one per zoom level. */
  lemma FourWayMergeMatches(fs: Tree, b: nat)
    requires WellFormed(fs)
    ensures FourWayMerge(fs, b).Failure?
        <==> b !in fs.images || exists zl :: zl in fs.images[b] && FourWayStuck(zl)
    ensures FourWayMerge(fs, b).Success? ==> b in fs.images
    ensures FourWayMerge(fs, b).Success? && b in fs.images ==>
      && |FourWayMerge(fs, b).value| <= |fs.images[b]|
      && forall t :: t in FourWayMerge(fs, b).value <==> FourWayMatch(fs, b, t)
  {
    if b in fs.images {
      var zooms := fs.images[b];
      var each := (zl: ZoomLevel) => FourWayZoom(fs, b, zl);
      forall zl | zl in zooms
        ensures each(zl).Success? <==> !FourWayStuck(zl)
        ensures each(zl).Success? ==> |each(zl).value| <= 1
        ensures each(zl).Success? ==> forall t :: (t in each(zl).value
          <==> exists c: Column, y: nat :: LastColumn(zl, c) && LastRow(c, y) && FourWayDue(fs, b, zl.z, c.x, y, t))
      {
        FourWayZoomOutcome(fs, b, zl);
        FourWayZoomMembers(fs, b, zl);
      }
      ForEachSucceeds(zooms, each);
      ForEachAtMostOne(zooms, each);
      if FourWayMerge(fs, b).Success? {
        ForEachMembers(zooms, each,
          (zl: ZoomLevel, t: Task) => exists c: Column, y: nat :: LastColumn(zl, c) && LastRow(c, y) && FourWayDue(fs, b, zl.z, c.x, y, t));
      }
    }
  }
}
