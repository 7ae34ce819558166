/** findresource/findresource.go: the search for a directory that holds a file, up to a delimiter. */
module FindResource {
  import opened Sequences

  /** The components of an absolute path; the root has none. */
  type Path = seq<string>

  datatype DirStat = IsDir | NoDir | NotADir | DirError
  datatype FileStat = Present | Absent | FileError

  /** What Stat says of a directory, and of the file in a directory. */
  datatype Tree = Tree(dirs: Path -> DirStat, files: Path -> FileStat)

  /** A delimiter that is no clean absolute path (None) equals no directory. */
  datatype Limits = Limits(sysRoot: Path, delimiter: Option<Path>)

  /** A directory that cannot be read for another reason than its absence has no Stat to ask: the walk panics. */
  datatype Outcome = Found(dir: Path) | NotExist | ReachedTreeRoot | WalkError | Panic

  function Parent(dir: Path): Path {
    if dir == [] then [] else dir[..|dir| - 1]
  }

  predicate IsLimit(limits: Limits, dir: Path) {
    dir == limits.sysRoot || Some(dir) == limits.delimiter
  }

  method WalkToRootDirectory(tree: Tree, limits: Limits, start: Path) returns (r: Outcome)
    ensures r == Walk(tree, limits, start)
  {
    var dir := start;
    while true
      invariant Walk(tree, limits, dir) == Walk(tree, limits, start)
      decreases |dir|
    {
      match tree.dirs(dir) {
        case NoDir => return NotExist;
        case NotADir => return NotExist;
        case DirError => return Panic;
        case IsDir =>
      }
      match tree.files(dir) {
        case Absent =>
          if Some(dir) == limits.delimiter {
            return NotExist;
          }
          var newDir := Parent(dir);
          if dir == newDir {
            return ReachedTreeRoot;
          }
          dir := newDir;
          if !IsLimit(limits, dir) {
            continue;
          }
          return NotExist;
        case FileError => return WalkError;
        case Present =>
      }
      return Found(dir);
    }
  }

  function Walk(tree: Tree, limits: Limits, dir: Path): Outcome
    decreases |dir|
  {
    match tree.dirs(dir)
    case NoDir => NotExist
    case NotADir => NotExist
    case DirError => Panic
    case IsDir =>
      match tree.files(dir)
      case FileError => WalkError
      case Present => Found(dir)
      case Absent =>
        if Some(dir) == limits.delimiter then NotExist
        else if dir == [] then ReachedTreeRoot
        else if IsLimit(limits, Parent(dir)) then NotExist
        else Walk(tree, limits, Parent(dir))
  }

  // ----- What the walk finds -----

  function Ancestor(start: Path, i: nat): Path
    requires i <= |start|
  {
    start[..|start| - i]
  }

  /** The directory i levels up is looked at: the start always, another one when no limit is met on the way to it. */
  ghost predicate Reaches(limits: Limits, start: Path, i: nat)
    requires i <= |start|
  {
    i > 0 ==>
      && Some(start) != limits.delimiter
      && forall j :: 0 < j <= i ==>
           Ancestor(start, j) != limits.sysRoot && Some(Ancestor(start, j)) != limits.delimiter
  }

  /** The walk gets to the directory i levels up: it finds nothing, and nothing wrong, on the way. */
  ghost predicate LooksAt(tree: Tree, limits: Limits, start: Path, i: nat) {
    && i <= |start|
    && Reaches(limits, start, i)
    && forall j :: 0 <= j < i ==> tree.dirs(Ancestor(start, j)).IsDir? && tree.files(Ancestor(start, j)).Absent?
  }

  predicate IsEmptyDir(tree: Tree, dir: Path) {
    tree.dirs(dir).IsDir? && tree.files(dir).Absent?
  }

  /** Nothing above the directory may be looked at. */
  predicate IsLast(limits: Limits, dir: Path) {
    || Some(dir) == limits.delimiter
    || (dir != [] && (Parent(dir) == limits.sysRoot || Some(Parent(dir)) == limits.delimiter))
  }

  predicate GoesUp(tree: Tree, limits: Limits, dir: Path) {
    IsEmptyDir(tree, dir) && dir != [] && !IsLast(limits, dir)
  }

  lemma StartIsLookedAt(tree: Tree, limits: Limits, start: Path)
    ensures LooksAt(tree, limits, start, 0) && Ancestor(start, 0) == start
  {}

  /** Above a directory that the walk leaves upwards, it looks at what it would look at from the parent. */
  lemma LooksAbove(tree: Tree, limits: Limits, start: Path, i: nat)
    requires GoesUp(tree, limits, start) && i < |start|
    ensures LooksAt(tree, limits, Parent(start), i) <==> LooksAt(tree, limits, start, i + 1)
    ensures Ancestor(Parent(start), i) == Ancestor(start, i + 1)
  {
    assert Ancestor(start, 0) == start && Ancestor(start, 1) == Parent(start);
    assert forall j :: 0 <= j <= i ==> Ancestor(Parent(start), j) == Ancestor(start, j + 1);
    if LooksAt(tree, limits, Parent(start), i) {
      forall j | 0 < j <= i + 1 ensures !IsLimit(limits, Ancestor(start, j)) {
        assert Ancestor(start, j) == Ancestor(Parent(start), j - 1);
      }
      forall j | 0 <= j < i + 1 ensures IsEmptyDir(tree, Ancestor(start, j)) {
        assert j > 0 ==> Ancestor(start, j) == Ancestor(Parent(start), j - 1);
      }
    }
    if LooksAt(tree, limits, start, i + 1) {
      forall j | 0 < j <= i ensures !IsLimit(limits, Ancestor(Parent(start), j)) {
        assert !IsLimit(limits, Ancestor(start, j + 1));
      }
      forall j | 0 <= j < i ensures IsEmptyDir(tree, Ancestor(Parent(start), j)) {
        assert IsEmptyDir(tree, Ancestor(start, j + 1));
      }
    }
  }

  lemma LooksNoFurther(tree: Tree, limits: Limits, start: Path, i: nat)
    requires !GoesUp(tree, limits, start) && i > 0
    ensures !LooksAt(tree, limits, start, i)
  {
    assert Ancestor(start, 0) == start;
    assert start != [] ==> Ancestor(start, 1) == Parent(start);
  }

  /** The walk is at its end on one of the directories that it looks at. */
  lemma {:induction false} WalkEnds(tree: Tree, limits: Limits, start: Path) returns (i: nat)
    ensures LooksAt(tree, limits, start, i) && !GoesUp(tree, limits, Ancestor(start, i))
    decreases |start|
  {
    StartIsLookedAt(tree, limits, start);
    if GoesUp(tree, limits, start) {
      var j := WalkEnds(tree, limits, Parent(start));
      LooksAbove(tree, limits, start, j);
      i := j + 1;
    } else {
      i := 0;
    }
  }

  /** There it has the outcome of a walk from that directory. */
  lemma {:induction false} WalkFrom(tree: Tree, limits: Limits, start: Path, i: nat)
    requires LooksAt(tree, limits, start, i)
    ensures Walk(tree, limits, start) == Walk(tree, limits, Ancestor(start, i))
    decreases |start|
  {
    StartIsLookedAt(tree, limits, start);
    if i == 0 {
    } else {
      if !GoesUp(tree, limits, start) {
        LooksNoFurther(tree, limits, start, i);
      }
      LooksAbove(tree, limits, start, i - 1);
      WalkFrom(tree, limits, Parent(start), i - 1);
    }
  }

  ghost predicate Nearest(tree: Tree, limits: Limits, start: Path, i: nat) {
    LooksAt(tree, limits, start, i) && tree.dirs(Ancestor(start, i)).IsDir? && tree.files(Ancestor(start, i)).Present?
  }

  /** In every tree the walk finds a directory iff it is the nearest one with the file,
      no limit lies on the way to it, and every directory on the way can be read and lacks the file. */
  lemma WalkFindsNearest(tree: Tree, limits: Limits, start: Path, dir: Path)
    ensures Walk(tree, limits, start) == Found(dir) <==>
            exists i :: Nearest(tree, limits, start, i) && dir == Ancestor(start, i)
  {
    var last := WalkEnds(tree, limits, start);
    WalkFrom(tree, limits, start, last);
    if Walk(tree, limits, start) == Found(dir) {
      assert Nearest(tree, limits, start, last);
    }
    if i :| Nearest(tree, limits, start, i) && dir == Ancestor(start, i) {
      WalkFrom(tree, limits, start, i);
    }
  }

  /** The walk panics iff it gets to a directory that cannot be read for another reason than its absence. */
  lemma WalkPanics(tree: Tree, limits: Limits, start: Path)
    ensures Walk(tree, limits, start).Panic? <==>
            exists i :: LooksAt(tree, limits, start, i) && tree.dirs(Ancestor(start, i)).DirError?
  {
    var last := WalkEnds(tree, limits, start);
    WalkFrom(tree, limits, start, last);
    if i :| LooksAt(tree, limits, start, i) && tree.dirs(Ancestor(start, i)).DirError? {
      WalkFrom(tree, limits, start, i);
    }
  }

  /** It fails with an error iff it gets to a directory where the file cannot be checked. */
  lemma WalkFails(tree: Tree, limits: Limits, start: Path)
    ensures Walk(tree, limits, start).WalkError? <==>
            exists i :: LooksAt(tree, limits, start, i) &&
                        tree.dirs(Ancestor(start, i)).IsDir? && tree.files(Ancestor(start, i)).FileError?
  {
    var last := WalkEnds(tree, limits, start);
    WalkFrom(tree, limits, start, last);
    if i :| LooksAt(tree, limits, start, i) &&
            tree.dirs(Ancestor(start, i)).IsDir? && tree.files(Ancestor(start, i)).FileError? {
      WalkFrom(tree, limits, start, i);
    }
  }

  /** The delimiter at the start, or a limit anywhere above it. */
  ghost predicate MeetsLimit(limits: Limits, start: Path) {
    || Some(start) == limits.delimiter
    || exists j :: 0 < j <= |start| &&
                   (Ancestor(start, j) == limits.sysRoot || Some(Ancestor(start, j)) == limits.delimiter)
  }

  /** The root of the tree is reported iff there is no limit, and all directories up to the root lack the file. */
  lemma WalkReachesRoot(tree: Tree, limits: Limits, start: Path)
    ensures Walk(tree, limits, start).ReachedTreeRoot? <==>
            && !MeetsLimit(limits, start)
            && forall i :: 0 <= i <= |start| ==> IsEmptyDir(tree, Ancestor(start, i))
  {
    var last := WalkEnds(tree, limits, start);
    WalkFrom(tree, limits, start, last);
    if !MeetsLimit(limits, start) && forall i :: 0 <= i <= |start| ==> IsEmptyDir(tree, Ancestor(start, i)) {
      WalkPasses(tree, limits, start, last);
    } else if Walk(tree, limits, start).ReachedTreeRoot? {
      assert last == |start|;
    }
  }

  lemma WalkPasses(tree: Tree, limits: Limits, start: Path, i: nat)
    requires !MeetsLimit(limits, start) && i <= |start| && IsEmptyDir(tree, Ancestor(start, i))
    requires !GoesUp(tree, limits, Ancestor(start, i))
    ensures i == |start| && Some(Ancestor(start, i)) != limits.delimiter
  {
    if i < |start| {
      assert Ancestor(start, i + 1) == Parent(Ancestor(start, i));
    }
    assert Ancestor(start, 0) == start;
    assert i > 0 ==> !IsLimit(limits, Ancestor(start, i));
  }

  /** Nothing is reported as found iff the walk gets to what is no directory,
      or to the last directory that it may look at, which lacks the file. */
  lemma WalkFindsNothing(tree: Tree, limits: Limits, start: Path)
    ensures Walk(tree, limits, start).NotExist? <==>
            exists i :: LooksAt(tree, limits, start, i) && EndsWithout(tree, limits, Ancestor(start, i))
  {
    var last := WalkEnds(tree, limits, start);
    WalkFrom(tree, limits, start, last);
    if i :| LooksAt(tree, limits, start, i) && EndsWithout(tree, limits, Ancestor(start, i)) {
      WalkFrom(tree, limits, start, i);
    }
  }

  ghost predicate EndsWithout(tree: Tree, limits: Limits, dir: Path) {
    || tree.dirs(dir).NoDir? || tree.dirs(dir).NotADir?
    || (IsEmptyDir(tree, dir) && IsLast(limits, dir))
  }

  /** The common case: the start itself cannot be read, as below a directory without the permission to search it. */
  lemma UnreadableStartPanics()
    ensures var tree := Tree(dir => if |dir| == 2 then DirError else IsDir, dir => Absent);
            Walk(tree, Limits([], None), ["projects", "app"]) == Panic
  {
    var tree := Tree(dir => if |dir| == 2 then DirError else IsDir, dir => Absent);
    assert |["projects", "app"]| == 2;
  }

  /** A start that can be read, below a directory that cannot, as with an input error. */
  lemma UnreadableParentPanics()
    ensures var tree := Tree(dir => if |dir| == 1 then DirError else IsDir, dir => Absent);
            Walk(tree, Limits([], None), ["projects", "app"]) == Panic
  {
    var tree := Tree(dir => if |dir| == 1 then DirError else IsDir, dir => Absent);
    var start: Path := ["projects", "app"];
    assert Parent(start) == ["projects"];
    assert Walk(tree, Limits([], None), start) == Walk(tree, Limits([], None), ["projects"]);
  }
}
