/** The sweep over the base images. `runMerge` visits the base images of a
    six-wide mosaic one by one; `run` submits a base image's horizontal and
    vertical merges and pushes it on `fourWayStack` when the four images
    meeting at its south-eastern corner exist; `main` then submits
    `fourWayMerge` for every pushed image, bottom of the stack first. */
module Sweep {
  import opened Wrappers
  import opened Decimal
  import opened TilePaths
  import opened Snapshot
  import opened Matcher

  /** What the merger has done so far: the tasks submitted to the pool, in
      submission order, and `fourWayStack`, bottom first. */
  datatype State = State(tasks: seq<Task>, stack: seq<nat>)

  const Start: State := State([], [])

  /** `Files.exists(Paths.get(baseDir, String.valueOf(n)))`. */
  predicate ImageExists(fs: Tree, n: nat) {
    Exists(fs, ImageDirPath(fs.root, n))
  }

  /** `run` pushes `n` when images `n`, `n + 1`, `n + 6` and `n + 7` exist. */
  predicate Pushes(fs: Tree, n: nat) {
    ImageExists(fs, n) && ImageExists(fs, n + 1) && ImageExists(fs, n + 6) && ImageExists(fs, n + 7)
  }

  /** `run(baseDir, n)`: the horizontal merge, the vertical merge, then the
      push. An exception in either merge ends the run. */
  function RunImage(fs: Tree, n: nat, st: State): Result<State, Failure> {
    var horizontal :- HorizontalMerge(fs, n);
    var vertical :- VerticalMerge(fs, n);
    Success(State(st.tasks + horizontal + vertical, if Pushes(fs, n) then st.stack + [n] else st.stack))
  }

  /** `run(baseDir, n)` on the tree, as a step of the sweep. */
  function Step(fs: Tree): (nat, State) -> Result<State, Failure> {
    (n: nat, st: State) => RunImage(fs, n, st)
  }

  /** The step `run` for each of `anchors` in turn; the first exception
      ends the sweep. */
  function SweepFrom(run: (nat, State) -> Result<State, Failure>, anchors: seq<nat>, st: State): Result<State, Failure>
    decreases |anchors|
  {
    if |anchors| == 0 then Success(st)
    else
      var next :- run(anchors[0], st);
      SweepFrom(run, anchors[1..], next)
  }

  // ---------------------------------------------------------------------
  // The images runMerge visits

  /** The images `runMerge` visits from `i` on, in order: the numbers below
      36 that are not multiples of 6. */
  function AnchorsFrom(i: nat): seq<nat>
    decreases 36 - i
  {
    if i >= 36 then []
    else if i % 6 == 0 then AnchorsFrom(i + 1)
    else [i] + AnchorsFrom(i + 1)
  }

  /** The first image `runMerge` visits. */
  const FirstImage: nat := 1

  /** The images `runMerge` visits, in order. */
  function Anchors(): seq<nat> {
    AnchorsFrom(FirstImage)
  }

  predicate IsAnchor(n: nat) {
    1 <= n < 36 && n % 6 != 0
  }

  predicate Ascending(s: seq<nat>) {
    forall j, k :: 0 <= j < k < |s| ==> s[j] < s[k]
  }

  lemma {:induction false} AnchorsFromMembers(i: nat)
    ensures forall n :: n in AnchorsFrom(i) <==> i <= n && IsAnchor(n)
    ensures Ascending(AnchorsFrom(i))
    decreases 36 - i
  {
    if i < 36 {
      AnchorsFromMembers(i + 1);
      var rest := AnchorsFrom(i + 1);
      if i % 6 != 0 {
        assert AnchorsFrom(i) == [i] + rest;
        forall k | 0 <= k < |rest|
          ensures i < rest[k]
        {
          assert rest[k] in rest;
        }
      }
    }
  }

  /** `runMerge` visits exactly the images 1 to 35 that are not multiples
      of 6, each once, in ascending order. */
  lemma AnchorsMembers()
    ensures forall n :: n in Anchors() <==> IsAnchor(n)
    ensures Ascending(Anchors())
  {
    AnchorsFromMembers(FirstImage);
  }

  // ---------------------------------------------------------------------
  // runMerge as written

  /** `runMerge` for the step `run` (`Step(fs)` on a tree `fs`). */
  method RunMerge(run: (nat, State) -> Result<State, Failure>) returns (r: Result<State, Failure>)
    ensures r == SweepFrom(run, Anchors(), Start)
  {
    r := RunMergeFrom(run, FirstImage);
  }

  /** The outer loop of `runMerge`, from image `first` on; the inner loop
      is `RunRow`. */
  method RunMergeFrom(run: (nat, State) -> Result<State, Failure>, first: nat) returns (r: Result<State, Failure>)
    requires first % 6 == 1
    ensures r == SweepFrom(run, AnchorsFrom(first), Start)
  {
    var st := Start;
    var i := first;
    while i < 36
      invariant first <= i && i % 6 == 1
      invariant SweepFrom(run, AnchorsFrom(i), st) == SweepFrom(run, AnchorsFrom(first), Start)
    {
      var row;
      row, i := RunRow(run, i, st);
      if row.Failure? {
        return row;
      }
      st := row.value;
      SweepSkips(run, i, st);
      AfterMultiple(i);
      i := i + 1;
    }
    return Success(st);
  }

  /** The inner loop of `runMerge`: `run` for `i` and the following images
      up to the next multiple of 6. */
  method RunRow(run: (nat, State) -> Result<State, Failure>, i0: nat, st0: State)
    returns (r: Result<State, Failure>, i: nat)
    requires i0 < 36
    ensures i0 <= i <= 36 && (r.Success? ==> i % 6 == 0)
    ensures r.Failure? ==> SweepFrom(run, AnchorsFrom(i0), st0) == r
    ensures r.Success? ==> SweepFrom(run, AnchorsFrom(i0), st0) == SweepFrom(run, AnchorsFrom(i), r.value)
  {
    var st := st0;
    i := i0;
    while i % 6 != 0
      invariant i0 <= i <= 36
      invariant SweepFrom(run, AnchorsFrom(i0), st0) == SweepFrom(run, AnchorsFrom(i), st)
      decreases 36 - i
    {
      var next := run(i, st);
      if next.Failure? {
        SweepStops(run, i, st);
        return next, i;
      }
      SweepVisits(run, i, st);
      st := next.value;
      i := i + 1;
    }
    return Success(st), i;
  }

  lemma AfterMultiple(i: nat)
    requires i % 6 == 0
    ensures (i + 1) % 6 == 1
  {
    assert i == 6 * (i / 6);
    assert i + 1 == 6 * (i / 6) + 1;
  }

  /** At an image `runMerge` visits, the sweep runs it first. */
  lemma SweepVisits(run: (nat, State) -> Result<State, Failure>, i: nat, st: State)
    requires i <= 36 && i % 6 != 0 && run(i, st).Success?
    ensures SweepFrom(run, AnchorsFrom(i), st) == SweepFrom(run, AnchorsFrom(i + 1), run(i, st).value)
  {
    assert AnchorsFrom(i) == [i] + AnchorsFrom(i + 1);
    assert AnchorsFrom(i)[1..] == AnchorsFrom(i + 1);
  }

  /** An exception there ends the sweep. */
  lemma SweepStops(run: (nat, State) -> Result<State, Failure>, i: nat, st: State)
    requires i <= 36 && i % 6 != 0 && run(i, st).Failure?
    ensures SweepFrom(run, AnchorsFrom(i), st) == Failure(run(i, st).error)
  {
    assert AnchorsFrom(i) == [i] + AnchorsFrom(i + 1);
  }

  /** A multiple of 6 is passed over. */
  lemma SweepSkips(run: (nat, State) -> Result<State, Failure>, i: nat, st: State)
    requires i % 6 == 0
    ensures SweepFrom(run, AnchorsFrom(i), st) == SweepFrom(run, AnchorsFrom(i + 1), st)
  {
  }

  // ---------------------------------------------------------------------
  // What a sweep submits and pushes

  /** Both merges of image `n` run through without an exception. */
  predicate Runs(fs: Tree, n: nat) {
    HorizontalMerge(fs, n).Success? && VerticalMerge(fs, n).Success?
  }

  /** Task `t` is one that `run(baseDir, n)` submits. */
  predicate SubmitsAt(fs: Tree, n: nat, t: Task) {
    Runs(fs, n) && (t in HorizontalMerge(fs, n).value || t in VerticalMerge(fs, n).value)
  }

  /** One `run`: it fails exactly when a merge throws; otherwise it adds the
      merges' tasks and pushes `n` as `Pushes` says. */
  lemma RunImageOutcome(fs: Tree, n: nat, st: State)
    ensures RunImage(fs, n, st).Success? <==> Runs(fs, n)
    ensures RunImage(fs, n, st).Success? ==>
      && (forall t :: t in RunImage(fs, n, st).value.tasks <==> t in st.tasks || SubmitsAt(fs, n, t))
      && RunImage(fs, n, st).value.stack == st.stack + (if Pushes(fs, n) then [n] else [])
  {
  }

  /** A sweep fails exactly when one of its runs does. */
  lemma {:induction false} SweepSucceeds(fs: Tree, anchors: seq<nat>, st: State)
    ensures SweepFrom(Step(fs), anchors, st).Success? <==> forall k :: 0 <= k < |anchors| ==> Runs(fs, anchors[k])
    decreases |anchors|
  {
    if |anchors| > 0 {
      RunImageOutcome(fs, anchors[0], st);
      assert forall k :: 0 <= k < |anchors[1..]| ==> anchors[1..][k] == anchors[k + 1];
      if RunImage(fs, anchors[0], st).Success? {
        SweepSucceeds(fs, anchors[1..], RunImage(fs, anchors[0], st).value);
      }
    }
  }

  /** A sweep that succeeds submits exactly the tasks of its runs. */
  lemma {:induction false} SweepTasks(fs: Tree, anchors: seq<nat>, st: State)
    requires SweepFrom(Step(fs), anchors, st).Success?
    ensures forall t ::
      t in SweepFrom(Step(fs), anchors, st).value.tasks
      <==> t in st.tasks || exists k :: 0 <= k < |anchors| && SubmitsAt(fs, anchors[k], t)
    decreases |anchors|
  {
    if |anchors| > 0 {
      var rest := anchors[1..];
      RunImageOutcome(fs, anchors[0], st);
      var next := RunImage(fs, anchors[0], st).value;
      SweepTasks(fs, rest, next);
      var r := SweepFrom(Step(fs), rest, next).value;
      assert SweepFrom(Step(fs), anchors, st).value == r;
      forall t | t in r.tasks
        ensures t in st.tasks || exists k :: 0 <= k < |anchors| && SubmitsAt(fs, anchors[k], t)
      {
        if !(t in st.tasks) && !SubmitsAt(fs, anchors[0], t) {
          var k :| 0 <= k < |rest| && SubmitsAt(fs, rest[k], t);
          assert rest[k] == anchors[k + 1];
        }
      }
      forall t, k | 0 <= k < |anchors| && SubmitsAt(fs, anchors[k], t)
        ensures t in r.tasks
      {
        if k > 0 {
          assert rest[k - 1] == anchors[k];
        }
      }
    }
  }

  /** A sweep that succeeds pushes exactly the images `Pushes` admits. */
  lemma {:induction false} SweepStack(fs: Tree, anchors: seq<nat>, st: State)
    requires SweepFrom(Step(fs), anchors, st).Success?
    ensures forall m :: m in SweepFrom(Step(fs), anchors, st).value.stack <==> m in st.stack || (m in anchors && Pushes(fs, m))
    decreases |anchors|
  {
    if |anchors| > 0 {
      var rest := anchors[1..];
      RunImageOutcome(fs, anchors[0], st);
      var next := RunImage(fs, anchors[0], st).value;
      SweepStack(fs, rest, next);
      assert SweepFrom(Step(fs), anchors, st) == SweepFrom(Step(fs), rest, next);
      assert forall m :: m in anchors <==> m == anchors[0] || m in rest;
    }
  }

  /** Everything in `s` is below everything in `t`. */
  predicate Below(s: seq<nat>, t: seq<nat>) {
    forall j, k :: 0 <= j < |s| && 0 <= k < |t| ==> s[j] < t[k]
  }

  /** Images visited in ascending order, above everything pushed before,
      leave the stack ascending. */
  lemma {:induction false} SweepAscending(fs: Tree, anchors: seq<nat>, st: State)
    requires SweepFrom(Step(fs), anchors, st).Success?
    requires Ascending(st.stack) && Ascending(anchors) && Below(st.stack, anchors)
    ensures Ascending(SweepFrom(Step(fs), anchors, st).value.stack)
    decreases |anchors|
  {
    if |anchors| > 0 {
      var rest := anchors[1..];
      RunImageOutcome(fs, anchors[0], st);
      var next := RunImage(fs, anchors[0], st).value;
      assert forall k :: 0 <= k < |rest| ==> rest[k] == anchors[k + 1];
      PushAscending(st.stack, next.stack, anchors);
      SweepAscending(fs, rest, next);
    }
  }

  lemma PushAscending(stack: seq<nat>, next: seq<nat>, anchors: seq<nat>)
    requires |anchors| > 0 && (next == stack || next == stack + [anchors[0]])
    requires Ascending(stack) && Ascending(anchors) && Below(stack, anchors)
    ensures Ascending(next) && Below(next, anchors[1..])
  {
    forall j, k | 0 <= j < |next| && 0 <= k < |anchors[1..]|
      ensures next[j] < anchors[1..][k]
    {
      assert anchors[1..][k] == anchors[k + 1];
      if j < |stack| {
        assert next[j] == stack[j] < anchors[k + 1];
      } else {
        assert next[j] == anchors[0] < anchors[k + 1];
      }
    }
    forall j, k | 0 <= j < k < |next|
      ensures next[j] < next[k]
    {
      if k >= |stack| {
        assert next[k] == anchors[0] && stack[j] < anchors[0];
      }
    }
  }

  // ---------------------------------------------------------------------
  // Which base images exist

  /** An image directory is not the image directory of another number with
      something appended. */
  lemma NotBelowImage(root: string, n: nat, i: nat, t: string)
    ensures ImageDirPath(root, n) != ImageDirPath(root, i) + "/" + t
  {
    var a := ImageDirPath(root, n);
    var b := ImageDirPath(root, i) + "/" + t;
    var k := |root| + 1 + |Digits(i)|;
    if |a| == |b| {
      assert b[k] == '/';
      assert a[k] == Digits(n)[|Digits(i)|];
      assert a[k] != b[k];
    }
  }

  /** `Files.exists` of an image directory holds exactly when the image is
      present. */
  lemma ExistsImage(fs: Tree, n: nat)
    ensures ImageExists(fs, n) <==> n in fs.images
  {
    var root := fs.root;
    var p := ImageDirPath(root, n);
    assert |p| > |root|;
    forall j, zl | j in fs.images && zl in fs.images[j]
      ensures p != ZoomDirPath(root, j, zl.z)
    {
      NotBelowImage(root, n, j, Digits(zl.z));
    }
    forall j, zl, c | j in fs.images && zl in fs.images[j] && c in zl.columns
      ensures p != ColumnDirPath(root, j, zl.z, c.x)
    {
      assert ColumnDirPath(root, j, zl.z, c.x) == ImageDirPath(root, j) + "/" + (Digits(zl.z) + "/" + Digits(c.x));
      NotBelowImage(root, n, j, Digits(zl.z) + "/" + Digits(c.x));
    }
    forall j, zl, c, y | j in fs.images && zl in fs.images[j] && c in zl.columns && y in c.rows
      ensures p != TilePath(root, j, zl.z, c.x, y)
    {
      var t := Digits(zl.z) + "/" + Digits(c.x) + "/" + Digits(y) + Png;
      assert TilePath(root, j, zl.z, c.x, y) == ImageDirPath(root, j) + "/" + t;
      NotBelowImage(root, n, j, t);
    }
    if ImageExists(fs, n) {
      var j :| j in fs.images && p == ImageDirPath(root, j);
      assert Digits(n) == Digits(j) by {
        assert Digits(n) == p[|root| + 1..] == Digits(j);
      }
      DigitsInjective(n, j);
    }
  }

  /** The four images of a four-way merge through `n`. */
  predicate Quad(fs: Tree, n: nat) {
    n in fs.images && n + 1 in fs.images && n + 6 in fs.images && n + 7 in fs.images
  }

  lemma PushesQuad(fs: Tree, n: nat)
    ensures Pushes(fs, n) <==> Quad(fs, n)
  {
    ExistsImage(fs, n);
    ExistsImage(fs, n + 1);
    ExistsImage(fs, n + 6);
    ExistsImage(fs, n + 7);
  }

  // ---------------------------------------------------------------------
  // One image's outcome in terms of the tree

  /** `run(baseDir, n)` throws: image `n` has a zoom level without columns
      while `n + 1` exists, or an empty column while `n + 6` exists. */
  predicate PairwiseThrows(fs: Tree, n: nat) {
    && n in fs.images
    && (|| (n + 1 in fs.images && exists zl :: zl in fs.images[n] && |zl.columns| == 0)
        || (n + 6 in fs.images && exists zl, c :: zl in fs.images[n] && c in zl.columns && |c.rows| == 0))
  }

  /** Task `t` is a horizontal or vertical merge due at image `n`. */
  predicate PairwiseMatch(fs: Tree, n: nat, t: Task) {
    n in fs.images && (HorizontalMatch(fs, n, t) || VerticalMatch(fs, n, t))
  }

  /** `run(baseDir, n)` in terms of the tree: it throws as
      `PairwiseThrows` says, submits the matching tasks, and pushes `n`
      exactly when the four images exist. */
  lemma ImageOutcome(fs: Tree, n: nat)
    requires WellFormed(fs)
    ensures Runs(fs, n) <==> !PairwiseThrows(fs, n)
    ensures Runs(fs, n) ==> forall t :: SubmitsAt(fs, n, t) <==> PairwiseMatch(fs, n, t)
    ensures Pushes(fs, n) <==> Quad(fs, n)
  {
    HorizontalMergeMatches(fs, n);
    VerticalMergeMatches(fs, n);
    PushesQuad(fs, n);
  }

  // ---------------------------------------------------------------------
  // main

  /** The images `main` has `run` visit: the one named on the command line,
      or every image `runMerge` visits. */
  predicate Visits(only: Option<nat>, n: nat) {
    if only.Some? then n == only.value else IsAnchor(n)
  }

  /** The pairwise phase of `main`: `run(baseDir, n)` for the image named
      on the command line, or `runMerge` over all of them. */
  function Pairwise(fs: Tree, only: Option<nat>): Result<State, Failure> {
    if only.Some? then RunImage(fs, only.value, Start) else SweepFrom(Step(fs), Anchors(), Start)
  }

  /** `fourWayStack.stream().forEach(num -> fourWayMerge(num))`. */
  function FourWayPhase(fs: Tree, stack: seq<nat>): Outcome {
    ForEach(stack, (b: nat) => FourWayMerge(fs, b))
  }

  /** What `main` submits, in order: the pairwise tasks, then the four-way
      tasks. The first exception ends the run. */
  function Merge(fs: Tree, only: Option<nat>): Outcome {
    var st :- Pairwise(fs, only);
    var fourWay :- FourWayPhase(fs, st.stack);
    Success(st.tasks + fourWay)
  }

  /** The pairwise phase fails exactly when a visited image throws;
      otherwise it submits exactly the tasks due at the visited images and
      leaves on the stack, in ascending order, exactly the visited images
      whose four images exist. */
  lemma PairwiseOutcome(fs: Tree, only: Option<nat>)
    requires WellFormed(fs)
    ensures Pairwise(fs, only).Success? <==> forall n :: Visits(only, n) ==> !PairwiseThrows(fs, n)
    ensures Pairwise(fs, only).Success? ==>
      forall t :: t in Pairwise(fs, only).value.tasks <==> exists n :: Visits(only, n) && PairwiseMatch(fs, n, t)
    ensures Pairwise(fs, only).Success? ==>
      && (forall m :: m in Pairwise(fs, only).value.stack <==> Visits(only, m) && Quad(fs, m))
      && Ascending(Pairwise(fs, only).value.stack)
  {
    if only.Some? {
      var n := only.value;
      RunImageOutcome(fs, n, Start);
      ImageOutcome(fs, n);
    } else {
      AnchorsMembers();
      SweepOutcome(fs, Anchors());
    }
  }

  /** The same for a sweep over any ascending list of exactly the anchor
      images. */
  lemma SweepOutcome(fs: Tree, anchors: seq<nat>)
    requires WellFormed(fs)
    requires (forall n :: n in anchors <==> IsAnchor(n)) && Ascending(anchors)
    ensures SweepFrom(Step(fs), anchors, Start).Success? <==> forall n :: IsAnchor(n) ==> !PairwiseThrows(fs, n)
    ensures SweepFrom(Step(fs), anchors, Start).Success? ==>
      forall t :: t in SweepFrom(Step(fs), anchors, Start).value.tasks <==> exists n :: IsAnchor(n) && PairwiseMatch(fs, n, t)
    ensures SweepFrom(Step(fs), anchors, Start).Success? ==>
      && (forall m :: m in SweepFrom(Step(fs), anchors, Start).value.stack <==> IsAnchor(m) && Quad(fs, m))
      && Ascending(SweepFrom(Step(fs), anchors, Start).value.stack)
  {
    SweepSucceeds(fs, anchors, Start);
    forall n | IsAnchor(n)
      ensures Runs(fs, n) <==> !PairwiseThrows(fs, n)
      ensures Runs(fs, n) ==> forall t :: SubmitsAt(fs, n, t) <==> PairwiseMatch(fs, n, t)
      ensures Pushes(fs, n) <==> Quad(fs, n)
    {
      ImageOutcome(fs, n);
    }
    if forall n :: IsAnchor(n) ==> !PairwiseThrows(fs, n) {
      forall k | 0 <= k < |anchors|
        ensures Runs(fs, anchors[k])
      {
        assert anchors[k] in anchors;
      }
    }
    if SweepFrom(Step(fs), anchors, Start).Success? {
      forall n | IsAnchor(n)
        ensures !PairwiseThrows(fs, n)
      {
        var k :| 0 <= k < |anchors| && anchors[k] == n;
      }
      SweepTasks(fs, anchors, Start);
      SweepStack(fs, anchors, Start);
      SweepAscending(fs, anchors, Start);
      var r := SweepFrom(Step(fs), anchors, Start).value;
      forall t
        ensures t in r.tasks <==> exists n :: IsAnchor(n) && PairwiseMatch(fs, n, t)
      {
        if exists n :: IsAnchor(n) && PairwiseMatch(fs, n, t) {
          var n :| IsAnchor(n) && PairwiseMatch(fs, n, t);
          var k :| 0 <= k < |anchors| && anchors[k] == n;
          assert SubmitsAt(fs, anchors[k], t);
        }
      }
    }
  }

  /** The four-way phase over a stack of present images fails exactly when
      one of them has a zoom level `fourWayMerge` throws at; otherwise it
      submits exactly the matching four-way tasks. */
  lemma FourWayPhaseOutcome(fs: Tree, stack: seq<nat>)
    requires WellFormed(fs) && forall b :: b in stack ==> b in fs.images
    ensures FourWayPhase(fs, stack).Success?
        <==> forall b :: b in stack ==> forall zl :: zl in fs.images[b] ==> !FourWayStuck(zl)
    ensures FourWayPhase(fs, stack).Success? ==>
      forall t :: t in FourWayPhase(fs, stack).value <==> exists b :: b in stack && FourWayMatch(fs, b, t)
  {
    var each := (b: nat) => FourWayMerge(fs, b);
    forall b | b in stack
      ensures each(b).Success? <==> forall zl :: zl in fs.images[b] ==> !FourWayStuck(zl)
      ensures each(b).Success? ==> forall t :: t in each(b).value <==> FourWayMatch(fs, b, t)
    {
      FourWayMergeMatches(fs, b);
    }
    ForEachSucceeds(stack, each);
    if FourWayPhase(fs, stack).Success? {
      ForEachMembers(stack, each, (b: nat, t: Task) => b in fs.images && FourWayMatch(fs, b, t));
    }
  }

  /** `main` fails exactly when a visited image throws in the pairwise
      phase or a pushed image has a zoom level `fourWayMerge` throws at;
      otherwise it submits exactly the pairwise tasks due at the visited
      images and the four-way tasks due at the visited images whose four
      images exist. */
  lemma MergeOutcome(fs: Tree, only: Option<nat>)
    requires WellFormed(fs)
    ensures Merge(fs, only).Success?
        <==> && (forall n :: Visits(only, n) ==> !PairwiseThrows(fs, n))
             && (forall n :: Visits(only, n) && Quad(fs, n) ==> forall zl :: zl in fs.images[n] ==> !FourWayStuck(zl))
    ensures Merge(fs, only).Success? ==>
      forall t :: t in Merge(fs, only).value
        <==> exists n :: Visits(only, n) && (PairwiseMatch(fs, n, t) || (Quad(fs, n) && FourWayMatch(fs, n, t)))
  {
    PairwiseOutcome(fs, only);
    if Pairwise(fs, only).Success? {
      var st := Pairwise(fs, only).value;
      FourWayPhaseOutcome(fs, st.stack);
      if Merge(fs, only).Success? {
        var fourWay := FourWayPhase(fs, st.stack).value;
        assert Merge(fs, only).value == st.tasks + fourWay;
        CombineTasks(fs, only, st, fourWay);
      }
    }
  }

  /** The pairwise tasks followed by the four-way tasks of the pushed images
      are the tasks due at the visited images. */
  lemma CombineTasks(fs: Tree, only: Option<nat>, st: State, fourWay: seq<Task>)
    requires forall t :: t in st.tasks <==> exists n :: Visits(only, n) && PairwiseMatch(fs, n, t)
    requires forall m :: m in st.stack <==> Visits(only, m) && Quad(fs, m)
    requires forall m :: m in st.stack ==> m in fs.images
    requires forall t :: t in fourWay <==> exists b :: b in st.stack && FourWayMatch(fs, b, t)
    ensures
      forall t ::
        t in st.tasks + fourWay
        <==> exists n :: Visits(only, n) && (PairwiseMatch(fs, n, t) || (Quad(fs, n) && FourWayMatch(fs, n, t)))
  {
    forall t
      ensures t in st.tasks + fourWay
          <==> exists n :: Visits(only, n) && (PairwiseMatch(fs, n, t) || (Quad(fs, n) && FourWayMatch(fs, n, t)))
    {
      if exists n :: Visits(only, n) && (PairwiseMatch(fs, n, t) || (Quad(fs, n) && FourWayMatch(fs, n, t))) {
        var n :| Visits(only, n) && (PairwiseMatch(fs, n, t) || (Quad(fs, n) && FourWayMatch(fs, n, t)));
        if !PairwiseMatch(fs, n, t) {
          assert n in st.stack;
        }
      }
    }
  }

  /** No horizontal or vertical task follows a four-way task. */
  predicate FourWayAfterPairwise(tasks: seq<Task>) {
    forall j, k :: 0 <= j < k < |tasks| && tasks[j].FourWay? ==> tasks[k].FourWay?
  }

  /** Every four-way task `main` submits comes after every horizontal and
      vertical one. */
  lemma FourWayLast(fs: Tree, only: Option<nat>)
    requires WellFormed(fs) && Merge(fs, only).Success?
    ensures FourWayAfterPairwise(Merge(fs, only).value)
  {
    PairwiseOutcome(fs, only);
    var st := Pairwise(fs, only).value;
    FourWayPhaseOutcome(fs, st.stack);
    var fourWay := FourWayPhase(fs, st.stack).value;
    forall t | t in st.tasks
      ensures !t.FourWay?
    {
      var n :| Visits(only, n) && PairwiseMatch(fs, n, t);
      PairwiseKind(fs, n, t);
    }
    forall t | t in fourWay
      ensures t.FourWay?
    {
      var b :| b in st.stack && FourWayMatch(fs, b, t);
    }
    assert Merge(fs, only).value == st.tasks + fourWay;
    AfterSplit(st.tasks, fourWay);
  }

  /** A list of horizontal and vertical tasks followed by a list of
      four-way tasks has no four-way task before a pairwise one. */
  lemma AfterSplit(pairwise: seq<Task>, fourWay: seq<Task>)
    requires forall t :: t in pairwise ==> !t.FourWay?
    requires forall t :: t in fourWay ==> t.FourWay?
    ensures FourWayAfterPairwise(pairwise + fourWay)
  {
    var all := pairwise + fourWay;
    forall j | 0 <= j < |all|
      ensures all[j].FourWay? <==> |pairwise| <= j
    {
      if j < |pairwise| {
        assert all[j] in pairwise;
      } else {
        assert all[j] == fourWay[j - |pairwise|];
        assert all[j] in fourWay;
      }
    }
  }

  /** Horizontal and vertical merges submit no four-way task. */
  lemma PairwiseKind(fs: Tree, n: nat, t: Task)
    requires PairwiseMatch(fs, n, t)
    ensures !t.FourWay?
  {
  }
}
