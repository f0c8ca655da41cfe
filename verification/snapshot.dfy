/** The directory tree the merger reads, as data: for every base image
    directory present under the root, its zoom directories in listing order,
    their column directories in listing order, and the row files of every
    column in listing order. Every name is the decimal rendering of its
    number, as the tile generator writes them. */
module Snapshot {
  import opened Decimal
  import opened JavaString
  import opened TilePaths
  import opened Ordering

  datatype Column = Column(x: nat, rows: seq<nat>)

  datatype ZoomLevel = ZoomLevel(z: nat, columns: seq<Column>)

  datatype Tree = Tree(root: string, images: map<nat, seq<ZoomLevel>>)

  function ZoomKey(zl: ZoomLevel): nat {
    zl.z
  }

  function ColumnKey(c: Column): nat {
    c.x
  }

  function RowKey(y: nat): nat {
    y
  }

  /** What any listing of a real directory satisfies: no two entries of one
      directory share a name. The root is one the path arithmetic works on. */
  predicate WellFormed(fs: Tree) {
    && PlainRoot(fs.root)
    && forall i :: i in fs.images ==> WellFormedImage(fs.images[i])
  }

  predicate WellFormedImage(zooms: seq<ZoomLevel>) {
    && DistinctBy(zooms, ZoomKey)
    && forall zl :: zl in zooms ==> WellFormedZoom(zl)
  }

  predicate WellFormedZoom(zl: ZoomLevel) {
    && DistinctBy(zl.columns, ColumnKey)
    && forall c :: c in zl.columns ==> DistinctBy(c.rows, RowKey)
  }

  /** Row file `y` of column `x` at zoom `z` of base image `i` is present. */
  predicate HasTile(fs: Tree, i: nat, z: nat, x: nat, y: nat) {
    && i in fs.images
    && exists zl, c :: zl in fs.images[i] && c in zl.columns && zl.z == z && c.x == x && y in c.rows
  }

  /** `Files.exists(p)`: `p` names the root, a directory or a row file of
      the tree. */
  predicate Exists(fs: Tree, p: string) {
    || p == fs.root
    || (exists i :: i in fs.images && p == ImageDirPath(fs.root, i))
    || (exists i, zl :: i in fs.images && zl in fs.images[i] && p == ZoomDirPath(fs.root, i, zl.z))
    || (exists i, zl, c :: i in fs.images && zl in fs.images[i] && c in zl.columns
          && p == ColumnDirPath(fs.root, i, zl.z, c.x))
    || (exists i, zl, c, y :: i in fs.images && zl in fs.images[i] && c in zl.columns && y in c.rows
          && p == TilePath(fs.root, i, zl.z, c.x, y))
  }

  /** A row file path ends in "png"; a directory path ends in a digit. */
  lemma TilePathEnd(root: string, i: nat, z: nat, x: nat, y: nat)
    ensures |TilePath(root, i, z, x, y)| > |root| + 1
    ensures TilePath(root, i, z, x, y)[|TilePath(root, i, z, x, y)| - 1] == 'g'
  {
  }

  lemma DirectoryPathEnd(dir: string, n: nat)
    ensures IsDigit((dir + "/" + Digits(n))[|dir + "/" + Digits(n)| - 1])
  {
    var s := Digits(n);
    assert (dir + "/" + s)[|dir + "/" + s| - 1] == s[|s| - 1];
  }

  /** On a well-formed tree, `Files.exists` of a row file path holds
      exactly when the tile is present. */
  lemma ExistsTile(fs: Tree, i: nat, z: nat, x: nat, y: nat)
    requires WellFormed(fs)
    ensures Exists(fs, TilePath(fs.root, i, z, x, y)) <==> HasTile(fs, i, z, x, y)
  {
    var p := TilePath(fs.root, i, z, x, y);
    TilePathEnd(fs.root, i, z, x, y);
    forall j | j in fs.images
      ensures p != ImageDirPath(fs.root, j)
    {
      DirectoryPathEnd(fs.root, j);
    }
    forall j, zl | j in fs.images && zl in fs.images[j]
      ensures p != ZoomDirPath(fs.root, j, zl.z)
    {
      DirectoryPathEnd(ImageDirPath(fs.root, j), zl.z);
    }
    forall j, zl, c | j in fs.images && zl in fs.images[j] && c in zl.columns
      ensures p != ColumnDirPath(fs.root, j, zl.z, c.x)
    {
      DirectoryPathEnd(ZoomDirPath(fs.root, j, zl.z), c.x);
    }
    if HasTile(fs, i, z, x, y) {
      var zl, c :| zl in fs.images[i] && c in zl.columns && zl.z == z && c.x == x && y in c.rows;
      assert p == TilePath(fs.root, i, zl.z, c.x, y);
    }
    if Exists(fs, p) {
      var j, zl, c, y' :| j in fs.images && zl in fs.images[j] && c in zl.columns && y' in c.rows
        && p == TilePath(fs.root, j, zl.z, c.x, y');
      TilePathInjective(fs.root, i, z, x, y, j, zl.z, c.x, y');
    }
  }
}
