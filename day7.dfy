/**
 * A file system rebuilt from a terminal session (`cd` and `ls` output),
 * and the total size of every directory.
 */
module Day7 {
  import opened Wrappers
  import opened PyOps
  import opened Text

  datatype Kind = Dir | File

  /** A listed object: its kind, the working directory it was listed in, its path and its size. */
  datatype FsObject = FsObject(kind: Kind, parent: Option<FsObject>, path: seq<string>, size: int)

  /** The root, whose path is the single component "..". */
  const Root := FsObject(Dir, None, [".."], 0)

  /** `path_str(levels_up)`: the path joined with "/", or without its last `levels_up` components. */
  function PathStr(o: FsObject, levelsUp: int): string
  {
    if levelsUp == 0 then Join(o.path, "/") else Join(PyTake(o.path, -levelsUp), "/")
  }

  /** Going up `n >= 0` levels drops the last `n` components (all of them when `n` is too large). */
  lemma PathStrLevelsUp(o: FsObject, n: nat)
    ensures PathStr(o, n) == Join(o.path[..Max(0, |o.path| - n)], "/")
  {
    if n == 0 {
      assert o.path[..|o.path|] == o.path;
    }
  }

  lemma {:induction false} JoinAppend(p: seq<string>, name: string)
    requires p != []
    ensures Join(p + [name], "/") == Join(p, "/") + "/" + name
  {
    var q := p + [name];
    assert q[..|q| - 1] == p;
  }

  /** A child's key is its parent's key, a slash and its name: what `cd name` looks up. */
  lemma ChildKey(parent: FsObject, child: FsObject, name: string)
    requires parent.path != [] && child.path == parent.path + [name]
    ensures PathStr(child, 0) == PathStr(parent, 0) + "/" + name
    ensures PathStr(child, 1) == PathStr(parent, 0)
  {
    JoinAppend(parent.path, name);
    assert child.path[..|child.path| - 1] == parent.path;
  }

  lemma {:induction false} JoinLength(p: seq<string>)
    requires p != []
    ensures |Join(p, "/")| >= |p[0]|
  {
    if |p| > 1 {
      JoinLength(p[..|p| - 1]);
    }
  }

  // ---------------------------------------------------------- the tree dict

  /** An insertion-ordered dict from path strings to objects. */
  datatype Tree = Tree(keys: seq<string>, entries: map<string, FsObject>)

  ghost predicate WellKeyed(t: Tree)
  {
    (forall i, j :: 0 <= i < j < |t.keys| ==> t.keys[i] != t.keys[j])
    && (forall k :: k in t.entries <==> k in t.keys)
  }

  /** `tree[key] = obj`: a new key goes last, an existing one keeps its place. */
  function Put(t: Tree, key: string, obj: FsObject): (r: Tree)
    ensures WellKeyed(t) ==> WellKeyed(r)
    ensures r.entries == t.entries[key := obj]
  {
    if key in t.entries then Tree(t.keys, t.entries[key := obj])
    else Tree(t.keys + [key], t.entries[key := obj])
  }

  /** `list(tree.values())`. */
  function Values(t: Tree): (vs: seq<FsObject>)
    requires WellKeyed(t)
    ensures |vs| == |t.keys| && forall i :: 0 <= i < |vs| ==> vs[i] == t.entries[t.keys[i]]
  {
    seq(|t.keys|, i requires 0 <= i < |t.keys| => t.entries[t.keys[i]])
  }

  /** The state of `create_file_tree` between lines: the dict and the working directory. */
  datatype Session = Session(tree: Tree, cwd: FsObject)

  const Start := Session(Tree([".."], map[".." := Root]), Root)

  /** One terminal line, as the `match line.split()` handles it; a `cd` to an unknown key fails. */
  function Command(s: Session, line: string): Result<Session>
  {
    var ws := Words(line);
    var t := s.tree;
    if ws == ["$", "cd", ".."] then
      var key := PathStr(s.cwd, 1);
      if key in t.entries then Ok(Session(t, t.entries[key])) else Err(KeyError)
    else if ws == ["$", "cd", "/"] then
      if ".." in t.entries then Ok(Session(t, t.entries[".."])) else Err(KeyError)
    else if |ws| == 3 && ws[0] == "$" && ws[1] == "cd" then
      var key := PathStr(s.cwd, 0) + "/" + ws[2];
      if key in t.entries then Ok(Session(t, t.entries[key])) else Err(KeyError)
    else if |ws| == 2 && ws[0] == "dir" then
      var obj := FsObject(Dir, Some(s.cwd), s.cwd.path + [ws[1]], 0);
      Ok(Session(Put(t, PathStr(obj, 0), obj), s.cwd))
    else if |ws| == 2 && IsDigits(ws[0]) then
      var obj := FsObject(File, Some(s.cwd), s.cwd.path + [ws[1]], DigitsValue(ws[0]));
      Ok(Session(Put(t, PathStr(obj, 0), obj), s.cwd))
    else Ok(s)
  }

  /** The session after a sequence of lines; the first failing `cd` fails it. */
  function Run(lines: seq<string>): Result<Session>
  {
    if lines == [] then Ok(Start)
    else
      match Run(lines[..|lines| - 1])
      case Err(e) => Err(e)
      case Ok(s) => Command(s, lines[|lines| - 1])
  }

  /** A failure on some line fails every longer session, always with a `KeyError`. */
  lemma {:induction false} RunFailsOnward(lines: seq<string>, i: nat)
    requires i <= |lines| && Run(lines[..i]).Err?
    ensures Run(lines) == Err(KeyError)
    decreases |lines|
  {
    if i == |lines| {
      assert lines[..i] == lines;
      RunErrorIsKeyError(lines);
    } else {
      var front := lines[..|lines| - 1];
      assert front[..i] == lines[..i];
      RunFailsOnward(front, i);
    }
  }

  lemma {:induction false} RunErrorIsKeyError(lines: seq<string>)
    ensures Run(lines).Err? ==> Run(lines).error == KeyError
  {
    if lines != [] {
      var front := lines[..|lines| - 1];
      RunErrorIsKeyError(front);
      if Run(front).Ok? {
        CommandErrorIsKeyError(Run(front).value, lines[|lines| - 1]);
      }
    }
  }

  /** Only a lookup of a missing key fails. */
  lemma CommandErrorIsKeyError(s: Session, line: string)
    ensures Command(s, line).Err? ==> Command(s, line).error == KeyError
  {
    var ws := Words(line);
    if ws == ["$", "cd", ".."] {
    } else if ws == ["$", "cd", "/"] {
    } else if |ws| == 3 && ws[0] == "$" && ws[1] == "cd" {
    } else {
      assert Command(s, line).Ok?;
    }
  }

  /**
   * `create_file_tree`: the dict and the working directory, updated line by
   * line; the result lists the objects in insertion order.
   */
  method CreateFileTree(lines: seq<string>) returns (r: Result<seq<FsObject>>)
    ensures Run(lines).Err? ==> r == Err(KeyError)
    ensures r == Objects(lines)
  {
    var tree := Start.tree;
    var cwd := Root;
    for i := 0 to |lines|
      invariant Run(lines[..i]) == Ok(Session(tree, cwd)) && WellKeyed(tree)
    {
      var line := lines[i];
      assert lines[..i + 1][..i] == lines[..i] && lines[..i + 1][i] == line;
      var ws := Words(line);
      if ws == ["$", "cd", ".."] {
        var key := PathStr(cwd, 1);
        if key !in tree.entries {
          RunFailsOnward(lines, i + 1);
          return Err(KeyError);
        }
        cwd := tree.entries[key];
      } else if ws == ["$", "cd", "/"] {
        if ".." !in tree.entries {
          RunFailsOnward(lines, i + 1);
          return Err(KeyError);
        }
        cwd := tree.entries[".."];
      } else if |ws| == 3 && ws[0] == "$" && ws[1] == "cd" {
        var key := PathStr(cwd, 0) + "/" + ws[2];
        if key !in tree.entries {
          RunFailsOnward(lines, i + 1);
          return Err(KeyError);
        }
        cwd := tree.entries[key];
      } else if |ws| == 2 && ws[0] == "dir" {
        var obj := FsObject(Dir, Some(cwd), cwd.path + [ws[1]], 0);
        tree := Put(tree, PathStr(obj, 0), obj);
      } else if |ws| == 2 && IsDigits(ws[0]) {
        var obj := FsObject(File, Some(cwd), cwd.path + [ws[1]], DigitsValue(ws[0]));
        tree := Put(tree, PathStr(obj, 0), obj);
      }
    }
    assert lines[..|lines|] == lines;
    return Ok(Values(tree));
  }

  // ------------------------------------------------------ shape of the tree

  /**
   * What every session keeps: the root stays under "..", every object sits
   * under its own path string, every path starts at the root, every other
   * object's path is its parent's path plus one component, directories
   * have size 0 and files a size read from digits.
   */
  ghost predicate ValidSession(s: Session)
  {
    var e := s.tree.entries;
    WellKeyed(s.tree)
    && ".." in e && e[".."] == Root
    && (forall k :: k in e ==> PathStr(e[k], 0) == k && e[k].path != [] && e[k].path[0] == "..")
    && (forall k :: k in e && k != ".." ==>
          e[k].parent.Some? && e[k].path == e[k].parent.value.path + [e[k].path[|e[k].path| - 1]])
    && (forall k :: k in e ==> (e[k].kind == Dir ==> e[k].size == 0) && e[k].size >= 0)
    && s.cwd.path != [] && s.cwd.path[0] == ".."
  }

  lemma CommandKeepsValid(s: Session, line: string)
    requires ValidSession(s) && Command(s, line).Ok?
    ensures ValidSession(Command(s, line).value)
  {
    var ws := Words(line);
    var t := s.tree;
    if ws == ["$", "cd", ".."] {
      NavigateKeepsValid(s, PathStr(s.cwd, 1));
    } else if ws == ["$", "cd", "/"] {
      NavigateKeepsValid(s, "..");
    } else if |ws| == 3 && ws[0] == "$" && ws[1] == "cd" {
      NavigateKeepsValid(s, PathStr(s.cwd, 0) + "/" + ws[2]);
    } else if |ws| == 2 && ws[0] == "dir" {
      PutKeepsValid(s, FsObject(Dir, Some(s.cwd), s.cwd.path + [ws[1]], 0), ws[1]);
    } else if |ws| == 2 && IsDigits(ws[0]) {
      PutKeepsValid(s, FsObject(File, Some(s.cwd), s.cwd.path + [ws[1]], DigitsValue(ws[0])), ws[1]);
    }
  }

  lemma NavigateKeepsValid(s: Session, key: string)
    requires ValidSession(s) && key in s.tree.entries
    ensures ValidSession(Session(s.tree, s.tree.entries[key]))
  {
  }

  lemma PutKeepsValid(s: Session, obj: FsObject, name: string)
    requires ValidSession(s)
    requires obj.parent == Some(s.cwd) && obj.path == s.cwd.path + [name]
    requires (obj.kind == Dir ==> obj.size == 0) && obj.size >= 0
    ensures ValidSession(Session(Put(s.tree, PathStr(obj, 0), obj), s.cwd))
  {
    JoinAppend(s.cwd.path, name);
    JoinLength(s.cwd.path);
    assert PathStr(obj, 0) != "..";
  }

  /** Every session the lines reach keeps the shape above. */
  lemma {:induction false} RunValid(lines: seq<string>)
    requires Run(lines).Ok?
    ensures ValidSession(Run(lines).value)
  {
    if lines != [] {
      var front := lines[..|lines| - 1];
      RunValid(front);
      CommandKeepsValid(Run(front).value, lines[|lines| - 1]);
    }
  }

  // ------------------------------------------------------- directory sizes

  /** `[obj for obj in objs if obj.type == "file"]`. */
  function Files(objs: seq<FsObject>): (r: seq<FsObject>)
    ensures forall f :: f in r <==> f in objs && f.kind == File
  {
    if objs == [] then []
    else Files(objs[..|objs| - 1]) + (if objs[|objs| - 1].kind == File then [objs[|objs| - 1]] else [])
  }

  /** `[obj for obj in objs if obj.type == "dir"]`. */
  function Dirs(objs: seq<FsObject>): (r: seq<FsObject>)
    ensures forall d :: d in r <==> d in objs && d.kind == Dir
  {
    if objs == [] then []
    else Dirs(objs[..|objs| - 1]) + (if objs[|objs| - 1].kind == Dir then [objs[|objs| - 1]] else [])
  }

  /** What the first `n` passes of the inner loop add under `key` for file `f`. */
  function Contribution(f: FsObject, key: string, n: nat): int
  {
    if n == 0 then 0
    else Contribution(f, key, n - 1) + (if PathStr(f, n - 1) == key then f.size else 0)
  }

  /** What the whole double loop adds under `key` for the given files. */
  function Total(files: seq<FsObject>, key: string): int
  {
    if files == [] then 0
    else
      var f := files[|files| - 1];
      Total(files[..|files| - 1], key) + Contribution(f, key, |f.path|)
  }

  /** `directory_sizes[key]` of a `defaultdict(int)`: a missing key reads as 0. */
  function Get(ds: map<string, int>, key: string): int
  {
    if key in ds then ds[key] else 0
  }

  /** The joined prefixes of a path grow strictly longer, component by component. */
  lemma {:induction false} JoinPrefixGrows(p: seq<string>, m: nat, m': nat)
    requires 1 <= m < m' <= |p|
    ensures |Join(p[..m], "/")| < |Join(p[..m'], "/")|
    decreases m'
  {
    assert p[..m'][..m' - 1] == p[..m' - 1];
    if m < m' - 1 {
      JoinPrefixGrows(p, m, m' - 1);
    }
  }

  /** Going up different numbers of levels (all but the root kept) gives different keys. */
  lemma AncestorKeysDistinct(f: FsObject, i: nat, j: nat)
    requires i < j < |f.path|
    ensures PathStr(f, i) != PathStr(f, j)
  {
    PathStrLevelsUp(f, i);
    PathStrLevelsUp(f, j);
    JoinPrefixGrows(f.path, |f.path| - j, |f.path| - i);
  }

  /** The key names the file itself or one of its ancestors: some joined prefix of its path. */
  ghost predicate Under(f: FsObject, key: string)
  {
    exists m :: 1 <= m <= |f.path| && Join(f.path[..m], "/") == key
  }

  /** The loop over `k` adds the file's size to each ancestor key at most once. */
  lemma {:induction false} ContributionMeaning(f: FsObject, key: string, n: nat)
    requires n <= |f.path|
    ensures Contribution(f, key, n) == if exists k :: 0 <= k < n && PathStr(f, k) == key then f.size else 0
  {
    if n > 0 {
      ContributionMeaning(f, key, n - 1);
      if PathStr(f, n - 1) == key {
        forall k | 0 <= k < n - 1
          ensures PathStr(f, k) != key
        {
          AncestorKeysDistinct(f, k, n - 1);
        }
      }
    }
  }

  /** Over the whole path, the size lands under exactly the keys the file lies under. */
  lemma FileContribution(f: FsObject, key: string)
    ensures Contribution(f, key, |f.path|) == if Under(f, key) then f.size else 0
  {
    ContributionMeaning(f, key, |f.path|);
    if Under(f, key) {
      var m :| 1 <= m <= |f.path| && Join(f.path[..m], "/") == key;
      PathStrLevelsUp(f, |f.path| - m);
    } else {
      forall k | 0 <= k < |f.path|
        ensures PathStr(f, k) != key
      {
        PathStrLevelsUp(f, k);
      }
    }
  }

  /** The sum of the sizes of the files lying under `key`. */
  ghost function SizeUnder(files: seq<FsObject>, key: string): int
  {
    if files == [] then 0
    else
      var f := files[|files| - 1];
      SizeUnder(files[..|files| - 1], key) + (if Under(f, key) then f.size else 0)
  }

  /**
   * The size recorded under a key is the sum of the sizes of exactly the
   * files whose path has a prefix joining to that key.
   */
  lemma {:induction false} TotalIsSizeUnder(files: seq<FsObject>, key: string)
    ensures Total(files, key) == SizeUnder(files, key)
  {
    if files != [] {
      TotalIsSizeUnder(files[..|files| - 1], key);
      FileContribution(files[|files| - 1], key);
    }
  }

  /** The size of each listed directory, in the order the directories were listed. */
  function SizesOf(files: seq<FsObject>, dirs: seq<FsObject>): (r: seq<int>)
    ensures |r| == |dirs|
  {
    if dirs == [] then []
    else SizesOf(files, dirs[..|dirs| - 1]) + [Total(files, PathStr(dirs[|dirs| - 1], 0))]
  }

  lemma {:induction false} SizesOfMeaning(files: seq<FsObject>, dirs: seq<FsObject>, i: nat)
    requires i < |dirs|
    ensures SizesOf(files, dirs)[i] == SizeUnder(files, PathStr(dirs[i], 0))
  {
    if i < |dirs| - 1 {
      SizesOfMeaning(files, dirs[..|dirs| - 1], i);
    } else {
      TotalIsSizeUnder(files, PathStr(dirs[i], 0));
    }
  }

  /** The inner loop: the file's size is added under each of its `|path|` ancestor keys. */
  method AddFile(ds: map<string, int>, f: FsObject) returns (ds': map<string, int>)
    ensures forall key :: Get(ds', key) == Get(ds, key) + Contribution(f, key, |f.path|)
  {
    ds' := ds;
    for k := 0 to |f.path|
      invariant forall key :: Get(ds', key) == Get(ds, key) + Contribution(f, key, k)
    {
      var key := PathStr(f, k);
      ds' := ds'[key := Get(ds', key) + f.size];
    }
  }

  /** The final comprehension: one lookup per directory object, in order. */
  method ListDirSizes(ds: map<string, int>, objs: seq<FsObject>) returns (sizes: seq<int>)
    ensures |sizes| == |Dirs(objs)|
    ensures forall i :: 0 <= i < |sizes| ==> sizes[i] == Get(ds, PathStr(Dirs(objs)[i], 0))
  {
    sizes := [];
    for j := 0 to |objs|
      invariant |sizes| == |Dirs(objs[..j])|
      invariant forall i :: 0 <= i < |sizes| ==> sizes[i] == Get(ds, PathStr(Dirs(objs[..j])[i], 0))
    {
      assert objs[..j + 1][..j] == objs[..j] && objs[..j + 1][j] == objs[j];
      if objs[j].kind == Dir {
        sizes := sizes + [Get(ds, PathStr(objs[j], 0))];
      }
    }
    assert objs[..|objs|] == objs;
  }

  /**
   * `get_directory_sizes_dfs` after the tree is built: the double loop
   * over the file objects, then one entry per directory object.
   */
  method DirectorySizes(objs: seq<FsObject>) returns (sizes: seq<int>)
    ensures sizes == SizesOf(Files(objs), Dirs(objs))
  {
    var files := Files(objs);
    var ds: map<string, int> := map[];
    for i := 0 to |files|
      invariant forall key :: Get(ds, key) == Total(files[..i], key)
    {
      assert files[..i + 1][..i] == files[..i] && files[..i + 1][i] == files[i];
      ds := AddFile(ds, files[i]);
    }
    assert files[..|files|] == files;
    sizes := ListDirSizes(ds, objs);
    SizesOfLookup(files, Dirs(objs), sizes);
  }

  lemma {:induction false} SizesOfLookup(files: seq<FsObject>, dirs: seq<FsObject>, sizes: seq<int>)
    requires |sizes| == |dirs| && forall i :: 0 <= i < |sizes| ==> sizes[i] == Total(files, PathStr(dirs[i], 0))
    ensures sizes == SizesOf(files, dirs)
  {
    if dirs != [] {
      SizesOfLookup(files, dirs[..|dirs| - 1], sizes[..|sizes| - 1]);
    }
  }

  /** The objects `create_file_tree` returns, when no `cd` fails. */
  function Objects(lines: seq<string>): (r: Result<seq<FsObject>>)
    ensures r.Err? <==> Run(lines).Err?
    ensures r.Err? ==> r.error == KeyError
  {
    match Run(lines)
    case Err(e) => RunErrorIsKeyError(lines); Err(e)
    case Ok(s) => RunValid(lines); Ok(Values(s.tree))
  }

  /** The directory sizes of the session, in listing order. */
  function Sizes(lines: seq<string>): (r: Result<seq<int>>)
    ensures r.Err? <==> Run(lines).Err?
    ensures r.Err? ==> r.error == KeyError
  {
    match Objects(lines)
    case Err(e) => Err(e)
    case Ok(objs) => Ok(SizesOf(Files(objs), Dirs(objs)))
  }

  /** `get_directory_sizes_dfs`: fails only where building the tree fails. */
  method GetDirectorySizesDfs(lines: seq<string>) returns (r: Result<seq<int>>)
    ensures r == Sizes(lines)
  {
    var tree := CreateFileTree(lines);
    if tree.Err? {
      return Err(tree.error);
    }
    var sizes := DirectorySizes(tree.value);
    return Ok(sizes);
  }

  // ------------------------------------------------------------ the answers

  const SmallLimit := 100000
  const DiskSize := 70000000
  const NeededSpace := 30000000

  /** `sum(val for val in sizes if val <= 100000)`. */
  function SmallSum(sizes: seq<int>): int
  {
    if sizes == [] then 0
    else SmallSum(sizes[..|sizes| - 1]) + (if sizes[|sizes| - 1] <= SmallLimit then sizes[|sizes| - 1] else 0)
  }

  /** The small sum splits over concatenation, so it does not depend on how the list is cut. */
  lemma {:induction false} SmallSumAppend(a: seq<int>, b: seq<int>)
    ensures SmallSum(a + b) == SmallSum(a) + SmallSum(b)
    decreases |b|
  {
    if b == [] {
      assert a + b == a;
    } else {
      assert (a + b)[..|a + b| - 1] == a + b[..|b| - 1];
      SmallSumAppend(a, b[..|b| - 1]);
    }
  }

  /** Sizes above the limit are left out; when none is, the small sum is the plain sum. */
  lemma {:induction false} SmallSumBounds(sizes: seq<int>)
    ensures (forall i :: 0 <= i < |sizes| ==> 0 <= sizes[i]) ==> 0 <= SmallSum(sizes) <= SmallLimit * |sizes|
    ensures (forall i :: 0 <= i < |sizes| ==> sizes[i] <= SmallLimit) ==> SmallSum(sizes) == Sum(sizes)
  {
    if sizes != [] {
      SmallSumBounds(sizes[..|sizes| - 1]);
    }
  }

  /** `part1` (dfs). */
  method Part1(lines: seq<string>) returns (r: Result<int>)
    ensures Run(lines).Err? ==> r == Err(KeyError)
    ensures Sizes(lines).Ok? ==> r == Ok(SmallSum(Sizes(lines).value))
  {
    var sizes := GetDirectorySizesDfs(lines);
    if sizes.Err? {
      return Err(sizes.error);
    }
    return Ok(SmallSum(sizes.value));
  }

  /** `max(sizes)` of a non-empty list. */
  function Largest(sizes: seq<int>): (m: int)
    requires sizes != []
    ensures m in sizes && forall v :: v in sizes ==> v <= m
  {
    if |sizes| == 1 then sizes[0]
    else
      var front := sizes[..|sizes| - 1];
      assert forall v :: v in sizes ==> v in front || v == sizes[|sizes| - 1];
      Max(Largest(front), sizes[|sizes| - 1])
  }

  /** `min(val for val in sizes if val >= target)`, `None` when no value qualifies. */
  function LeastAtLeast(sizes: seq<int>, target: int): (r: Option<int>)
    ensures r.None? <==> forall v :: v in sizes ==> v < target
    ensures r.Some? ==> r.value in sizes && r.value >= target
                        && forall v :: v in sizes && v >= target ==> r.value <= v
  {
    if sizes == [] then None
    else
      var front := sizes[..|sizes| - 1];
      var last := sizes[|sizes| - 1];
      assert forall v :: v in sizes <==> v in front || v == last;
      assert last in sizes;
      var rest := LeastAtLeast(front, target);
      if last < target then rest
      else if rest.None? then Some(last)
      else Some(Min(rest.value, last))
  }

  /**
   * The answer of `part2` for given sizes: the smallest size that frees
   * enough space, where the largest size is the used space; `max` and
   * `min` of an empty list fail.
   */
  function Choose(sizes: seq<int>): (r: Result<int>)
    ensures r.Err? <==> sizes == []
    ensures r.Err? ==> r.error == ValueError
    ensures r.Ok? ==> var target := NeededSpace + Largest(sizes) - DiskSize;
                      r.value in sizes && r.value >= target
                      && forall v :: v in sizes && v >= target ==> r.value <= v
  {
    if sizes == [] then Err(ValueError)
    else
      match LeastAtLeast(sizes, NeededSpace + Largest(sizes) - DiskSize)
      case None => assert false; Err(ValueError)
      case Some(v) => Ok(v)
  }

  /** `part2` (dfs). */
  method Part2(lines: seq<string>) returns (r: Result<int>)
    ensures Run(lines).Err? ==> r == Err(KeyError)
    ensures Sizes(lines).Ok? ==> r == Choose(Sizes(lines).value)
  {
    var sizes := GetDirectorySizesDfs(lines);
    if sizes.Err? {
      return Err(sizes.error);
    }
    return Choose(sizes.value);
  }
}
