/**
 * The directory walker of walkdir.go: a depth-first, pre-order walk that
 * hands every entry to a visitor and lets the visitor's answer steer it.
 *
 * `Walk` and `WalkRoot` are the specification: they return the visitor
 * calls in the order they are made together with the walk's result.
 * `WalkEntry` and `WalkDir` are the two Go functions statement by statement
 * (including the assignment the code discards and the `break` it can never
 * reach), each proved to compute its specification.  The lemmas state the
 * walker's promises over the trace.
 */
module WalkDir {
  import opened Common
  import opened FileSystem

  /** What a visitor returns: nil, the sentinels fs.SkipDir and fs.SkipAll, or a real error. */
  datatype Outcome = Nil | SkipDir | SkipAll | Fail(err: Error)

  /** fs.WalkDirFunc: (path, entry or nil, error or nil) to an outcome. */
  type Visitor = (string, Option<Node>, Option<Error>) -> Outcome

  /** One call of the visitor, with its three arguments. */
  datatype Call = Call(path: string, entry: Option<Node>, err: Option<Error>)

  /** The visitor calls of a walk, in order, and the error the walk returns. */
  datatype Walked = Walked(trace: seq<Call>, result: Outcome)

  /** What the visitor answered to a recorded call. */
  function Answer(fn: Visitor, c: Call): Outcome {
    fn(c.path, c.entry, c.err)
  }

  /** `p` is `root` itself or a path below it. */
  predicate Within(root: string, p: string) {
    p == root || root + "/" <= p
  }

  // ---------------------------------------------------------------------
  // Specification
  // ---------------------------------------------------------------------

  /**
   * walkDir(name, d, fn), walkdir.go:35-72.  The first call is always the
   * visit of the entry itself, and a non-directory gets no other call.
   */
  function Walk(name: string, d: Node, fn: Visitor): (r: Walked)
    ensures r.trace != [] && r.trace[0] == Call(name, Some(d), None)
    ensures !d.IsDir() ==> |r.trace| == 1 && r.result == Nil
    decreases d, 1
  {
    var visit := Call(name, Some(d), None);
    if fn(name, Some(d), None) != Nil || !d.IsDir() then
      Walked([visit], Nil)
    else
      match d.listing
      case ReadFailed(e) =>
        var again := fn(name, Some(d), Some(e));
        Walked([visit, Call(name, Some(d), Some(e))], if again == SkipDir then Nil else again)
      case Entries(_) =>
        var rest := WalkChildren(name, d, 0, fn);
        Walked([visit] + rest.trace, rest.result)
  }

  /**
   * The children loop of walkDir, from the `i`-th entry ReadDir returned for
   * `dir`: when a child is left, the next call visits it at its joined path.
   */
  function WalkChildren(name: string, dir: Node, i: nat, fn: Visitor): (r: Walked)
    requires dir.Dir? && dir.listing.Entries? && i <= |dir.listing.children|
    ensures i == |dir.listing.children| ==> r == Walked([], Nil)
    ensures i < |dir.listing.children| ==>
              var c := dir.listing.children[i];
              r.trace != [] && r.trace[0] == Call(Join(name, c.name), Some(c), None)
    decreases dir, 0, |dir.listing.children| - i
  {
    var cs := dir.listing.children;
    if i == |cs| then
      Walked([], Nil)
    else
      var w := Walk(Join(name, cs[i].name), cs[i], fn);
      if w.result == SkipDir then
        Walked(w.trace, Nil)
      else if w.result != Nil then
        Walked(w.trace, w.result)
      else
        var rest := WalkChildren(name, dir, i + 1, fn);
        Walked(w.trace + rest.trace, rest.result)
  }

  /**
   * WalkDir(root, fn), walkdir.go:17-30, against the snapshot `fs`: the first
   * call is on `root`, with its entry when it stats and with the stat error
   * otherwise, and neither skip sentinel is ever returned.
   */
  function WalkRoot(fs: FileSystem, root: string, fn: Visitor): (r: Walked)
    ensures r.trace != [] && r.trace[0].path == root
    ensures Stat(fs, root).Ok? ==> r.trace[0] == Call(root, Some(Stat(fs, root).value), None)
    ensures Stat(fs, root).Err? ==> r.trace[0] == Call(root, None, Some(Stat(fs, root).error))
    ensures r.result != SkipDir && r.result != SkipAll
  {
    var w :=
      match Stat(fs, root)
      case Err(e) => Walked([Call(root, None, Some(e))], fn(root, None, Some(e)))
      case Ok(n) => Walk(root, n, fn);
    Walked(w.trace, if w.result == SkipDir || w.result == SkipAll then Nil else w.result)
  }

  // ---------------------------------------------------------------------
  // The code
  // ---------------------------------------------------------------------

  method WalkDir(fs: FileSystem, root: string, fn: Visitor) returns (trace: seq<Call>, err: Outcome)
    ensures Walked(trace, err) == WalkRoot(fs, root, fn)
  {
    var rstat := Stat(fs, root);
    if rstat.Err? {
      trace := [Call(root, None, Some(rstat.error))];
      err := fn(root, None, Some(rstat.error));
    } else {
      trace, err := WalkEntry(root, rstat.value, fn);
    }
    if err == SkipDir || err == SkipAll {
      return trace, Nil;
    }
  }

  method WalkEntry(name: string, d: Node, fn: Visitor) returns (trace: seq<Call>, err: Outcome)
    ensures Walked(trace, err) == Walk(name, d, fn)
    decreases d
  {
    trace := [Call(name, Some(d), None)];
    err := fn(name, Some(d), None);
    if err != Nil || !d.IsDir() {
      if err == SkipDir && d.IsDir() {
        err := Nil;
      }
      return trace, Nil;
    }
    var dentries := d.listing;
    if dentries.ReadFailed? {
      trace := trace + [Call(name, Some(d), Some(dentries.err))];
      err := fn(name, Some(d), Some(dentries.err));
      if err == SkipDir && d.IsDir() {
        err := Nil;
      }
      return;
    }
    var cs := dentries.children;
    var i := 0;
    while i < |cs|
      invariant 0 <= i <= |cs|
      invariant Walk(name, d, fn).trace == trace + WalkChildren(name, d, i, fn).trace
      invariant Walk(name, d, fn).result == WalkChildren(name, d, i, fn).result
    {
      var childTrace;
      childTrace, err := WalkEntry(Join(name, cs[i].name), cs[i], fn);
      trace := trace + childTrace;
      if err != Nil {
        if err == SkipDir {
          break;
        }
        return;
      }
      i := i + 1;
    }
    return trace, Nil;
  }

  // ---------------------------------------------------------------------
  // Properties
  // ---------------------------------------------------------------------

  /** A failed stat of the root means exactly one visitor call, whose skip answers become nil. */
  lemma RootStatFailure(fs: FileSystem, root: string, fn: Visitor)
    requires Stat(fs, root).Err?
    ensures var e := Stat(fs, root).error;
            var answer := fn(root, None, Some(e));
            WalkRoot(fs, root, fn) ==
              Walked([Call(root, None, Some(e))], if answer == SkipDir || answer == SkipAll then Nil else answer)
  {
  }

  /** Any non-nil answer on an entry, or a non-directory entry, ends that entry after one call, and nil is returned. */
  lemma VisitEndsEntry(name: string, d: Node, fn: Visitor)
    requires fn(name, Some(d), None) != Nil || !d.IsDir()
    ensures Walk(name, d, fn) == Walked([Call(name, Some(d), None)], Nil)
  {
  }

  /** A directory whose ReadDir fails is visited again with the read error; SkipDir becomes nil. */
  lemma ReadDirFailure(name: string, d: Node, fn: Visitor)
    requires d.Dir? && d.listing.ReadFailed? && fn(name, Some(d), None) == Nil
    ensures var e := d.listing.err;
            var again := fn(name, Some(d), Some(e));
            Walk(name, d, fn) ==
              Walked([Call(name, Some(d), None), Call(name, Some(d), Some(e))], if again == SkipDir then Nil else again)
  {
  }

  /** walkDir never returns SkipDir, so the `break` of its children loop is never taken. */
  lemma {:induction false} WalkNeverSkipDir(name: string, d: Node, fn: Visitor)
    ensures Walk(name, d, fn).result != SkipDir
    decreases d, 1
  {
    if fn(name, Some(d), None) == Nil && d.IsDir() && d.listing.Entries? {
      ChildrenNeverSkipDir(name, d, 0, fn);
    }
  }

  lemma {:induction false} ChildrenNeverSkipDir(name: string, dir: Node, i: nat, fn: Visitor)
    requires dir.Dir? && dir.listing.Entries? && i <= |dir.listing.children|
    ensures WalkChildren(name, dir, i, fn).result != SkipDir
    decreases dir, 0, |dir.listing.children| - i
  {
    var cs := dir.listing.children;
    if i < |cs| && Walk(Join(name, cs[i].name), cs[i], fn).result == Nil {
      ChildrenNeverSkipDir(name, dir, i + 1, fn);
    }
  }

  /** Every child walk a directory's loop makes answers something other than SkipDir. */
  lemma BreakUnreachable(name: string, dir: Node, fn: Visitor)
    requires dir.Dir? && dir.listing.Entries?
    ensures forall c | c in dir.listing.children :: Walk(Join(name, c.name), c, fn).result != SkipDir
  {
    forall c | c in dir.listing.children
      ensures Walk(Join(name, c.name), c, fn).result != SkipDir
    {
      WalkNeverSkipDir(Join(name, c.name), c, fn);
    }
  }

  /**
   * Pre-order: the first call of a walk is the visit of its own entry, and
   * every call of the walk is on that entry's path or below it.
   */
  lemma {:induction false} WalkPreorder(name: string, d: Node, fn: Visitor)
    ensures var w := Walk(name, d, fn);
            |w.trace| >= 1 && w.trace[0] == Call(name, Some(d), None) &&
            forall j :: 0 <= j < |w.trace| ==> Within(name, w.trace[j].path)
    decreases d, 1
  {
    if fn(name, Some(d), None) == Nil && d.IsDir() && d.listing.Entries? {
      ChildrenWithin(name, d, 0, fn);
      var rest := WalkChildren(name, d, 0, fn).trace;
      var w := Walk(name, d, fn).trace;
      forall j | 1 <= j < |w|
        ensures Within(name, w[j].path)
      {
        assert w[j] == rest[j - 1];
        assert Within(name, rest[j - 1].path);
      }
    }
  }

  lemma {:induction false} ChildrenWithin(name: string, dir: Node, i: nat, fn: Visitor)
    requires dir.Dir? && dir.listing.Entries? && i <= |dir.listing.children|
    ensures forall j :: 0 <= j < |WalkChildren(name, dir, i, fn).trace| ==>
                          Within(name, WalkChildren(name, dir, i, fn).trace[j].path)
    decreases dir, 0, |dir.listing.children| - i
  {
    var cs := dir.listing.children;
    if i < |cs| {
      var child := Join(name, cs[i].name);
      var w := Walk(child, cs[i], fn);
      WalkPreorder(child, cs[i], fn);
      forall j | 0 <= j < |w.trace|
        ensures Within(name, w.trace[j].path)
      {
        WithinChild(name, cs[i].name, w.trace[j].path);
      }
      if w.result == Nil {
        ChildrenWithin(name, dir, i + 1, fn);
        var rest := WalkChildren(name, dir, i + 1, fn).trace;
        forall j | |w.trace| <= j < |w.trace| + |rest|
          ensures Within(name, (w.trace + rest)[j].path)
        {
          assert (w.trace + rest)[j] == rest[j - |w.trace|];
          assert Within(name, rest[j - |w.trace|].path);
        }
      }
    }
  }

  lemma WithinChild(parent: string, child: string, p: string)
    requires Within(Join(parent, child), p)
    ensures Within(parent, p)
  {
    var prefix := parent + "/";
    assert prefix <= Join(parent, child) by {
      assert Join(parent, child)[..|prefix|] == prefix;
    }
    if p != Join(parent, child) {
      assert p[..|prefix|] == (Join(parent, child) + "/")[..|prefix|];
    }
  }

  /** The concatenated walks of `cs`, each child at `Join(name, child.name)`, in ReadDir order. */
  function Traces(name: string, cs: seq<Node>, fn: Visitor): seq<Call> {
    if cs == [] then [] else Walk(Join(name, cs[0].name), cs[0], fn).trace + Traces(name, cs[1..], fn)
  }

  /** The index of the first child whose walk returns non-nil, or |cs| when there is none. */
  function FirstStop(name: string, cs: seq<Node>, fn: Visitor): (k: nat)
    ensures k <= |cs|
    ensures forall j :: 0 <= j < k ==> Walk(Join(name, cs[j].name), cs[j], fn).result == Nil
    ensures k < |cs| ==> Walk(Join(name, cs[k].name), cs[k], fn).result != Nil
  {
    if cs == [] then 0
    else if Walk(Join(name, cs[0].name), cs[0], fn).result != Nil then 0
    else 1 + FirstStop(name, cs[1..], fn)
  }

  /**
   * Children are walked in ReadDir order, each at Join(parent, child name),
   * up to and including the first child whose walk returns non-nil; that
   * result becomes the directory's, and no later sibling is visited.
   */
  lemma ChildrenInOrder(name: string, d: Node, fn: Visitor)
    requires d.Dir? && d.listing.Entries? && fn(name, Some(d), None) == Nil
    ensures var cs := d.listing.children;
            var k := FirstStop(name, cs, fn);
            var w := Walk(name, d, fn);
            && w.trace == [Call(name, Some(d), None)] + Traces(name, cs[..if k < |cs| then k + 1 else k], fn)
            && w.result == if k < |cs| then Walk(Join(name, cs[k].name), cs[k], fn).result else Nil
  {
    ChildrenFrom(name, d, 0, fn);
    assert d.listing.children[0..] == d.listing.children;
  }

  lemma {:induction false} ChildrenFrom(name: string, dir: Node, i: nat, fn: Visitor)
    requires dir.Dir? && dir.listing.Entries? && i <= |dir.listing.children|
    ensures var rest := dir.listing.children[i..];
            var k := FirstStop(name, rest, fn);
            var w := WalkChildren(name, dir, i, fn);
            && w.trace == Traces(name, rest[..if k < |rest| then k + 1 else k], fn)
            && w.result == if k < |rest| then Walk(Join(name, rest[k].name), rest[k], fn).result else Nil
    decreases |dir.listing.children| - i
  {
    var cs := dir.listing.children;
    var rest := cs[i..];
    if i < |cs| {
      var w := Walk(Join(name, cs[i].name), cs[i], fn);
      WalkNeverSkipDir(Join(name, cs[i].name), cs[i], fn);
      assert rest[0] == cs[i];
      var more := cs[i + 1..];
      assert rest[1..] == more;
      if w.result == Nil {
        ChildrenFrom(name, dir, i + 1, fn);
        var k := FirstStop(name, more, fn);
        assert FirstStop(name, rest, fn) == 1 + k;
        TracesStep(name, rest, if k < |more| then k + 1 else k, fn);
        var after := WalkChildren(name, dir, i + 1, fn);
        assert WalkChildren(name, dir, i, fn) == Walked(w.trace + after.trace, after.result);
      } else {
        assert FirstStop(name, rest, fn) == 0;
        TracesStep(name, rest, 0, fn);
        assert more[..0] == [];
        assert WalkChildren(name, dir, i, fn) == Walked(w.trace, w.result);
      }
    }
  }

  /** The walks of the first n + 1 children are the first child's walk, then those of the next n. */
  lemma TracesStep(name: string, cs: seq<Node>, n: nat, fn: Visitor)
    requires n < |cs|
    ensures Traces(name, cs[..n + 1], fn) == Walk(Join(name, cs[0].name), cs[0], fn).trace + Traces(name, cs[1..][..n], fn)
  {
    assert cs[..n + 1][0] == cs[0];
    assert cs[..n + 1][1..] == cs[1..][..n];
  }

  /** A non-nil walk result is an answer the visitor gave to one of the walk's own calls. */
  lemma {:induction false} WalkResultFromVisitor(name: string, d: Node, fn: Visitor)
    ensures var w := Walk(name, d, fn);
            w.result != Nil ==> exists j :: 0 <= j < |w.trace| && Answer(fn, w.trace[j]) == w.result
    decreases d, 1
  {
    var w := Walk(name, d, fn);
    if fn(name, Some(d), None) == Nil && d.IsDir() {
      match d.listing
      case ReadFailed(e) =>
        if w.result != Nil {
          assert Answer(fn, w.trace[1]) == w.result;
        }
      case Entries(_) =>
        ChildrenResultFromVisitor(name, d, 0, fn);
        var rest := WalkChildren(name, d, 0, fn);
        if w.result != Nil {
          var j :| 0 <= j < |rest.trace| && Answer(fn, rest.trace[j]) == rest.result;
          assert w.trace[j + 1] == rest.trace[j];
        }
    }
  }

  lemma {:induction false} ChildrenResultFromVisitor(name: string, dir: Node, i: nat, fn: Visitor)
    requires dir.Dir? && dir.listing.Entries? && i <= |dir.listing.children|
    ensures var w := WalkChildren(name, dir, i, fn);
            w.result != Nil ==> exists j :: 0 <= j < |w.trace| && Answer(fn, w.trace[j]) == w.result
    decreases dir, 0, |dir.listing.children| - i
  {
    var cs := dir.listing.children;
    if i < |cs| {
      var c := Walk(Join(name, cs[i].name), cs[i], fn);
      WalkResultFromVisitor(Join(name, cs[i].name), cs[i], fn);
      if c.result == Nil {
        ChildrenResultFromVisitor(name, dir, i + 1, fn);
        var rest := WalkChildren(name, dir, i + 1, fn);
        if rest.result != Nil {
          var j :| 0 <= j < |rest.trace| && Answer(fn, rest.trace[j]) == rest.result;
          assert (c.trace + rest.trace)[|c.trace| + j] == rest.trace[j];
        }
      }
    }
  }

  /** WalkDir returns nil or a real error, and a real error is one the visitor returned during the walk. */
  lemma RootResult(fs: FileSystem, root: string, fn: Visitor)
    ensures var w := WalkRoot(fs, root, fn);
            && (w.result == Nil || w.result.Fail?)
            && (w.result.Fail? ==> exists j :: 0 <= j < |w.trace| && Answer(fn, w.trace[j]) == w.result)
  {
    var w := WalkRoot(fs, root, fn);
    match Stat(fs, root)
    case Err(e) =>
      if w.result.Fail? {
        assert Answer(fn, w.trace[0]) == w.result;
      }
    case Ok(n) =>
      WalkNeverSkipDir(root, n, fn);
      WalkResultFromVisitor(root, n, fn);
  }

  /** The paths of a trace, in order. */
  function Paths(trace: seq<Call>): (ps: seq<string>)
    ensures |ps| == |trace| && forall j :: 0 <= j < |trace| ==> ps[j] == trace[j].path
  {
    if trace == [] then [] else [trace[0].path] + Paths(trace[1..])
  }

  /** The example tree: src holding a.txt and sub, which holds b.txt. */
  function SampleTree(m: Meta): Node {
    Dir("src", m, Entries([File("a.txt", m), Dir("sub", m, Entries([File("b.txt", m)]))]))
  }

  /**
   * Walking the example tree with a visitor that always continues visits the
   * four entries in pre-order; answering SkipDir for sub drops b.txt and
   * nothing else, and the walk still returns nil.
   */
  lemma SampleWalk(m: Meta)
    ensures var fs := FileSystem(map["/tmp/src" := Ok(SampleTree(m))]);
            var w := WalkRoot(fs, "/tmp/src", (p, e, err) => Nil);
            Paths(w.trace) == ["/tmp/src", "/tmp/src/a.txt", "/tmp/src/sub", "/tmp/src/sub/b.txt"] && w.result == Nil
    ensures var fs := FileSystem(map["/tmp/src" := Ok(SampleTree(m))]);
            var w := WalkRoot(fs, "/tmp/src", (p, e, err) => if p == "/tmp/src/sub" then SkipDir else Nil);
            Paths(w.trace) == ["/tmp/src", "/tmp/src/a.txt", "/tmp/src/sub"] && w.result == Nil
  {
    var fs := FileSystem(map["/tmp/src" := Ok(SampleTree(m))]);
    assert Stat(fs, "/tmp/src") == Ok(SampleTree(m));
    var a, b := File("a.txt", m), File("b.txt", m);
    var sub := Dir("sub", m, Entries([b]));
    var src := SampleTree(m);
    assert src == Dir("src", m, Entries([a, sub]));
    assert Join("/tmp/src", "a.txt") == "/tmp/src/a.txt";
    assert Join("/tmp/src", "sub") == "/tmp/src/sub";
    assert Join("/tmp/src/sub", "b.txt") == "/tmp/src/sub/b.txt";

    var go: Visitor := (p, e, err) => Nil;
    var wa := Walk("/tmp/src/a.txt", a, go);
    assert wa == Walked([Call("/tmp/src/a.txt", Some(a), None)], Nil);
    var wb := Walk("/tmp/src/sub/b.txt", b, go);
    assert wb == Walked([Call("/tmp/src/sub/b.txt", Some(b), None)], Nil);
    assert WalkChildren("/tmp/src/sub", sub, 1, go) == Walked([], Nil);
    assert WalkChildren("/tmp/src/sub", sub, 0, go) == Walked(wb.trace, Nil);
    var wsub := Walk("/tmp/src/sub", sub, go);
    assert wsub == Walked([Call("/tmp/src/sub", Some(sub), None)] + wb.trace, Nil);
    assert WalkChildren("/tmp/src", src, 2, go) == Walked([], Nil);
    assert WalkChildren("/tmp/src", src, 1, go) == Walked(wsub.trace, Nil);
    assert WalkChildren("/tmp/src", src, 0, go) == Walked(wa.trace + wsub.trace, Nil);
    var w := WalkRoot(fs, "/tmp/src", go);
    assert w.trace == [Call("/tmp/src", Some(src), None), Call("/tmp/src/a.txt", Some(a), None),
                       Call("/tmp/src/sub", Some(sub), None), Call("/tmp/src/sub/b.txt", Some(b), None)];

    var skip: Visitor := (p, e, err) => if p == "/tmp/src/sub" then SkipDir else Nil;
    var sa := Walk("/tmp/src/a.txt", a, skip);
    assert sa == Walked([Call("/tmp/src/a.txt", Some(a), None)], Nil);
    var ssub := Walk("/tmp/src/sub", sub, skip);
    assert ssub == Walked([Call("/tmp/src/sub", Some(sub), None)], Nil);
    assert WalkChildren("/tmp/src", src, 2, skip) == Walked([], Nil);
    assert WalkChildren("/tmp/src", src, 1, skip) == Walked(ssub.trace, Nil);
    assert WalkChildren("/tmp/src", src, 0, skip) == Walked(sa.trace + ssub.trace, Nil);
    var v := WalkRoot(fs, "/tmp/src", skip);
    assert v.trace == [Call("/tmp/src", Some(src), None), Call("/tmp/src/a.txt", Some(a), None),
                       Call("/tmp/src/sub", Some(sub), None)];
  }
}
