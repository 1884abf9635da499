/** Instance directories: path.Clean on absolute paths, and which spellings name the same directory. */
module RemoteRoot {
  import opened Text

  predicate Ordinary(segment: string) {
    segment != "" && segment != "." && segment != ".."
  }

  /** path.Clean on the segments of an absolute path: empty and "." segments vanish, ".." drops the one before. */
  function CleanSegments(segments: seq<string>): (r: seq<string>)
    ensures forall i :: 0 <= i < |r| ==> r[i] in segments && Ordinary(r[i])
  {
    if segments == [] then []
    else
      var n := |segments| - 1;
      var before, last := CleanSegments(segments[..n]), segments[n];
      if last == "" || last == "." then before
      else if last == ".." then (if before == [] then [] else before[..|before| - 1])
      else before + [last]
  }

  predicate IsAbs(path: string) {
    path != "" && path[0] == '/'
  }

  /** path.Clean; a relative path never gets a digest, so its clean form does not matter. */
  function Clean(path: string): string {
    if IsAbs(path) then "/" + Join(CleanSegments(Split(path, '/')), '/') else path
  }

  /******* Walking from the root *******/

  /** Where the segments lead, one directory change after the other, from a directory given by its names. */
  function Walk(dir: seq<string>, segments: seq<string>): seq<string>
    decreases |segments|
  {
    if segments == [] then dir
    else if Ordinary(segments[0]) then Walk(dir + [segments[0]], segments[1..])
    else if segments[0] == ".." && dir != [] then Walk(dir[..|dir| - 1], segments[1..])
    else Walk(dir, segments[1..])
  }

  /** The directory an absolute path names. */
  function Directory(path: string): seq<string> {
    Walk([], Split(path, '/'))
  }

  lemma {:induction false} CleanAppend(a: seq<string>, b: seq<string>)
    ensures CleanSegments(a + b) == Walk(CleanSegments(a), b)
    decreases |b|
  {
    if b == [] {
      assert a + b == a;
    } else {
      assert a + b == (a + [b[0]]) + b[1..] && (a + [b[0]])[..|a|] == a;
      CleanAppend(a + [b[0]], b[1..]);
    }
  }

  lemma CleanSegmentsWalk(segments: seq<string>)
    ensures CleanSegments(segments) == Walk([], segments)
  {
    CleanAppend([], segments);
    assert [] + segments == segments;
  }

  /** Two absolute paths have the same clean form exactly if they name the same directory, and it is "/" exactly for the
      root. */
  lemma CleanMeansDirectory(p: string, q: string)
    requires IsAbs(p) && IsAbs(q)
    ensures Clean(p) == Clean(q) <==> Directory(p) == Directory(q)
    ensures Clean(p) == "/" <==> Directory(p) == []
  {
    CleanDirectory(p);
    CleanDirectory(q);
    CleanSegmentsWalk(Split(p, '/'));
    CleanSegmentsWalk(Split(q, '/'));
    RootIsEmpty(Directory(p));
  }

  lemma RootIsEmpty(segments: seq<string>)
    requires forall i :: 0 <= i < |segments| ==> Ordinary(segments[i])
    ensures "/" + Join(segments, '/') == "/" <==> segments == []
  {
    if segments != [] {
      assert |Join(segments, '/')| >= |segments[0]| >= 1;
      assert |"/" + Join(segments, '/')| >= 2;
    }
  }

  /** The clean form is the names of the directory, each after a slash. */
  lemma CleanDirectory(path: string)
    requires IsAbs(path)
    ensures Directory(Clean(path)) == Directory(path)
  {
    var clean := CleanSegments(Split(path, '/'));
    SplitParts(path, '/');
    CleanSegmentsWalk(Split(path, '/'));
    NamesDirectory(clean);
  }

  /** Ordinary names, joined after a slash, name just that directory. */
  lemma NamesDirectory(names: seq<string>)
    requires forall i :: 0 <= i < |names| ==> Ordinary(names[i]) && Free(names[i], '/')
    ensures Directory("/" + Join(names, '/')) == names
  {
    SplitFirst("", Join(names, '/'), '/');
    assert "/" + Join(names, '/') == "" + ['/'] + Join(names, '/');
    if names == [] {
      assert Walk([], ["", ""]) == Walk([], [""]) == Walk([], []);
    } else {
      SplitOfJoin(names, '/');
      assert Walk([], [""] + names) == Walk([], names) by {
        assert ([""] + names)[1..] == names;
      }
      WalkNames([], names);
    }
  }

  lemma {:induction false} WalkNames(dir: seq<string>, names: seq<string>)
    requires forall i :: 0 <= i < |names| ==> Ordinary(names[i])
    ensures Walk(dir, names) == dir + names
    decreases |names|
  {
    if names != [] {
      WalkNames(dir + [names[0]], names[1..]);
    }
  }

  /** Cleaning a path twice is cleaning it once. */
  lemma CleanIsIdempotent(path: string)
    ensures Clean(Clean(path)) == Clean(path)
  {
    if IsAbs(path) {
      CleanDirectory(path);
      CleanMeansDirectory(Clean(path), path);
    }
  }

  /******* Spellings of one directory *******/

  lemma {:induction false} WalkAppend(dir: seq<string>, a: seq<string>, b: seq<string>)
    ensures Walk(dir, a + b) == Walk(Walk(dir, a), b)
    decreases |a|
  {
    if a == [] {
      assert a + b == b;
    } else {
      assert (a + b)[1..] == a[1..] + b && (a + b)[0] == a[0];
      if Ordinary(a[0]) {
        WalkAppend(dir + [a[0]], a[1..], b);
      } else if a[0] == ".." && dir != [] {
        WalkAppend(dir[..|dir| - 1], a[1..], b);
      } else {
        WalkAppend(dir, a[1..], b);
      }
    }
  }

  lemma DirectoryAppend(p: string, q: string)
    ensures Directory(p + "/" + q) == Walk(Directory(p), Split(q, '/'))
  {
    SplitConcat(p, q, '/');
    WalkAppend([], Split(p, '/'), Split(q, '/'));
  }

  /** A piece that leads back to where it started may be left out. */
  lemma DirectorySkips(p: string, piece: string, q: string)
    requires Walk(Directory(p), Split(piece, '/')) == Directory(p)
    ensures Directory(p + "/" + piece + "/" + q) == Directory(p + "/" + q)
  {
    DirectoryAppend(p, q);
    DirectoryAppend(p, piece);
    DirectoryAppend(p + "/" + piece, q);
  }

  /** A trailing slash, a doubled slash, a "." and a name followed by ".." change nothing; nor does ".." at the root. */
  lemma SpellingsOfOneDirectory(p: string, name: string, q: string)
    requires IsAbs(p) && Ordinary(name) && Free(name, '/')
    ensures Clean(p + "/") == Clean(p)
    ensures Clean(p + "//" + q) == Clean(p + "/" + q)
    ensures Clean(p + "/./" + q) == Clean(p + "/" + q)
    ensures Clean(p + "/" + name + "/../" + q) == Clean(p + "/" + q)
    ensures Clean("/../" + q) == Clean("/" + q)
  {
    TrailingSlash(p);
    DoubledSlashAndDot(p, q);
    UpAgain(p, name);
    CleanSkips(p, name + "/..", q, p + "/" + name + "/../" + q);
    UpAtRoot(q);
  }

  lemma DoubledSlashAndDot(p: string, q: string)
    requires IsAbs(p)
    ensures Clean(p + "//" + q) == Clean(p + "/" + q) == Clean(p + "/./" + q)
  {
    CleanSkips(p, "", q, p + "//" + q);
    SplitWhole(".", '/');
    CleanSkips(p, ".", q, p + "/./" + q);
  }

  lemma UpAtRoot(q: string)
    ensures Clean("/../" + q) == Clean("/" + q)
  {
    SplitWhole("..", '/');
    CleanSkips("", "..", q, "/../" + q);
    assert "" + "/" + q == "/" + q;
  }

  /** The same at the end of a path. */
  lemma RespelledRoot(p: string, q: string, name: string)
    requires IsAbs(p) && Ordinary(name) && Free(name, '/')
    requires q == p || q == p + "/" || q == p + "/." || q == p + "/" + name + "/.."
    ensures Directory(q) == Directory(p)
  {
    if q == p + "/" {
      DirectoryAppend(p, "");
      assert p + "/" + "" == q;
    } else if q == p + "/." {
      SplitWhole(".", '/');
      DirectoryAppend(p, ".");
      assert p + "/" + "." == q;
    } else if q == p + "/" + name + "/.." {
      UpAgain(p, name);
      DirectoryAppend(p, name + "/..");
      assert p + "/" + (name + "/..") == q;
    }
  }

  lemma TrailingSlash(p: string)
    requires IsAbs(p)
    ensures Clean(p + "/") == Clean(p)
  {
    DirectoryAppend(p, "");
    assert p + "/" + "" == p + "/";
    CleanMeansDirectory(p + "/", p);
  }

  lemma CleanSkips(p: string, piece: string, q: string, path: string)
    requires IsAbs(p + "/") && Walk(Directory(p), Split(piece, '/')) == Directory(p)
    requires path == p + "/" + piece + "/" + q
    ensures Clean(path) == Clean(p + "/" + q)
  {
    DirectorySkips(p, piece, q);
    CleanMeansDirectory(path, p + "/" + q);
  }

  lemma UpAgain(p: string, name: string)
    requires Ordinary(name) && Free(name, '/')
    ensures Walk(Directory(p), Split(name + "/..", '/')) == Directory(p)
  {
    SplitFirst(name, "..", '/');
    SplitWhole("..", '/');
    assert name + "/.." == name + ['/'] + "..";
    var dir := Directory(p);
    calc {
      Walk(dir, [name] + [".."]);
      { assert ([name] + [".."])[1..] == [".."]; }
      Walk(dir + [name], [".."]);
      { assert (dir + [name])[..|dir|] == dir; }
      Walk(dir, []);
    }
  }
}
