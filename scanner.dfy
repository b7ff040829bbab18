/**
 * The scan at the start of `main` in scripts/blame.py: it walks the tree
 * below "." and queues every joined path that ends in `.php`. The walk
 * itself is a parameter, the sequence of `(dirpath, dirnames, filenames)`
 * triples that `os.walk('.')` produces; the queue is the sequence of paths
 * put into it, in order.
 */
module Scanner {
  import opened PyText

  /** One triple produced by `os.walk`. */
  datatype WalkStep = WalkStep(path: string, dirs: seq<string>, files: seq<string>)

  const PhpSuffix := ".php"

  /** `os.path.join(path, file)` for each file of one directory, in order. */
  function Joined(path: string, files: seq<string>): (paths: seq<string>)
    ensures |paths| == |files|
  {
    seq(|files|, k requires 0 <= k < |files| => JoinPath(path, files[k]))
  }

  /** The `.php` filter: the paths that end in `.php`, in order. */
  function PhpPaths(paths: seq<string>): seq<string>
  {
    if paths == [] then []
    else
      var last := paths[|paths| - 1];
      PhpPaths(paths[..|paths| - 1]) + (if EndsWith(last, PhpSuffix) then [last] else [])
  }

  /** The paths queued for a prefix of the walk, in order. */
  function PhpFiles(walk: seq<WalkStep>): seq<string>
  {
    if walk == [] then []
    else PhpFiles(walk[..|walk| - 1]) + PhpPaths(Joined(walk[|walk| - 1].path, walk[|walk| - 1].files))
  }

  /** The two nested loops of the scan: every file of every directory, joined
      to its directory, is queued when it ends in `.php`. */
  method ScanPhpFiles(walk: seq<WalkStep>) returns (queued: seq<string>)
    ensures queued == PhpFiles(walk)
  {
    queued := [];
    for i := 0 to |walk|
      invariant queued == PhpFiles(walk[..i])
    {
      var step := walk[i];
      ghost var paths := Joined(step.path, step.files);
      for j := 0 to |step.files|
        invariant queued == PhpFiles(walk[..i]) + PhpPaths(paths[..j])
      {
        var filename := JoinPath(step.path, step.files[j]);
        assert paths[..j + 1][..j] == paths[..j] && paths[j] == filename;
        if EndsWith(filename, PhpSuffix) {
          queued := queued + [filename];
        }
      }
      assert paths[..|step.files|] == paths;
      assert walk[..i + 1][..i] == walk[..i];
    }
    assert walk[..|walk|] == walk;
  }

  /** The filter keeps exactly the paths that end in `.php`. */
  lemma {:induction false} PhpPathsExactly(paths: seq<string>, p: string)
    ensures p in PhpPaths(paths) <==> p in paths && EndsWith(p, PhpSuffix)
  {
    if paths != [] {
      var init := paths[..|paths| - 1];
      PhpPathsExactly(init, p);
      assert paths == init + [paths[|paths| - 1]];
    }
  }

  /** The filter never queues more paths than it is given. */
  lemma {:induction false} PhpPathsShorter(paths: seq<string>)
    ensures |PhpPaths(paths)| <= |paths|
  {
    if paths != [] {
      PhpPathsShorter(paths[..|paths| - 1]);
    }
  }

  /** A path is queued exactly when it is a file of some directory of the walk
      joined to that directory and ends in `.php`. */
  lemma {:induction false} PhpFilesExactly(walk: seq<WalkStep>, p: string)
    ensures p in PhpFiles(walk) <==>
      EndsWith(p, PhpSuffix) && exists i :: 0 <= i < |walk| && p in Joined(walk[i].path, walk[i].files)
  {
    if walk != [] {
      var init, last := walk[..|walk| - 1], walk[|walk| - 1];
      PhpFilesExactly(init, p);
      PhpPathsExactly(Joined(last.path, last.files), p);
      if exists i :: 0 <= i < |walk| && p in Joined(walk[i].path, walk[i].files) {
        var i :| 0 <= i < |walk| && p in Joined(walk[i].path, walk[i].files);
        if i < |init| {
          assert init[i] == walk[i];
        }
      }
      if exists i :: 0 <= i < |init| && p in Joined(init[i].path, init[i].files) {
        var i :| 0 <= i < |init| && p in Joined(init[i].path, init[i].files);
        assert walk[i] == init[i];
      }
    }
  }

  /** Directories `os.walk('.')` visits: "." itself and paths below it. */
  predicate UnderRoot(path: string)
  {
    path == "." || StartsWith(path, "./")
  }

  /** A relative name joined to "." or to a directory below it starts with "./". */
  lemma JoinedUnderRoot(path: string, name: string)
    requires UnderRoot(path) && !StartsWith(name, "/")
    ensures StartsWith(JoinPath(path, name), "./")
  {
    var p := JoinPath(path, name);
    JoinPathShape(path, name);
    if path == "." {
      assert !EndsWith(path, "/");
      assert p[..2] == "./";
    } else {
      assert p[..2] == path[..2];
    }
  }

  /** When every directory of the walk is "." or below it and no file name is
      absolute, every queued path starts with "./". */
  lemma QueuedUnderRoot(walk: seq<WalkStep>, p: string)
    requires forall i :: 0 <= i < |walk| ==> UnderRoot(walk[i].path)
    requires forall i, j :: 0 <= i < |walk| && 0 <= j < |walk[i].files| ==> !StartsWith(walk[i].files[j], "/")
    requires p in PhpFiles(walk)
    ensures StartsWith(p, "./")
  {
    PhpFilesExactly(walk, p);
    var i :| 0 <= i < |walk| && p in Joined(walk[i].path, walk[i].files);
    var j :| 0 <= j < |walk[i].files| && Joined(walk[i].path, walk[i].files)[j] == p;
    JoinedUnderRoot(walk[i].path, walk[i].files[j]);
  }
}
