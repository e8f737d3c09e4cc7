/**
 * `EmptiesWalker` (src/commands/walkers/empties_walker.rs): walks a tree and yields
 * every directory whose whole subtree holds no file, without descending into a
 * directory it has yielded and, unless asked to show them, into hidden directories.
 */
module EmptiesWalker {
  import opened Wrappers
  import opened Text
  import opened WalkDir

  /** Some entry anywhere in the subtree, the entry itself included, is a file. */
  predicate ContainsFile(n: Node)
  {
    match n
    case File(_) => true
    case Dir(_, cs, _) => exists k :: 0 <= k < |cs| && ContainsFile(cs[k])
  }

  /** Every directory in the subtree can be opened. */
  predicate AllReadable(n: Node)
  {
    match n
    case File(_) => true
    case Dir(_, cs, err) => err.None? && forall k :: 0 <= k < |cs| ==> AllReadable(cs[k])
  }

  /** The outcome of a short-circuiting search: a file was met, the walk ended without one, or an error was met first. */
  datatype Probe = Found | NotFound | Failed(error: string)

  /**
   * `WalkDir::new(path).into_iter().any(|e| e is a file)` over the entry's subtree, in
   * walk order: it answers at the first file or at the first opening error.
   */
  function AnyFile(n: Node): (r: Probe)
    ensures r == Found ==> ContainsFile(n)
    ensures r == NotFound ==> !ContainsFile(n) && AllReadable(n)
    ensures r.Failed? ==> !AllReadable(n)
    decreases NodeSize(n), 0
  {
    match n
    case File(_) => Found
    case Dir(_, cs, err) => if err.Some? then Failed(err.value) else AnyFileIn(cs)
  }

  function AnyFileIn(cs: seq<Node>): (r: Probe)
    ensures r == Found ==> exists k :: 0 <= k < |cs| && ContainsFile(cs[k])
    ensures r == NotFound ==> forall k :: 0 <= k < |cs| ==> !ContainsFile(cs[k]) && AllReadable(cs[k])
    ensures r.Failed? ==> exists k :: 0 <= k < |cs| && !AllReadable(cs[k])
    decreases NodesSize(cs), 1
  {
    if cs == [] then NotFound
    else
      var first := AnyFile(cs[0]);
      if first != NotFound then first
      else
        var r := AnyFileIn(cs[1..]);
        assert forall k :: 1 <= k < |cs| ==> cs[k] == cs[1..][k - 1];
        r
  }

  /** The entry's file name starts with a dot; "." and ".." have no file name. */
  predicate Hidden(name: string)
  {
    StartsWith(name, ".") && name != "." && name != ".."
  }

  function ErrorMessage(root: string, error: string): string
  {
    "Exception while searching \"" + root + "\" for empties: " + error
  }

  /**
   * The verdict of `next` on one item. Files are passed over; hidden directories are
   * skipped unless shown; an empty directory is yielded and skipped; a non-empty
   * hidden one is skipped; any walk error, outer or inner, ends the process.
   */
  function Decide(showHidden: bool, root: string, it: Item): (r: Decision<string>)
    ensures it.Visit? && it.node.File? ==> r == Pass(false)
    ensures IsDirVisit(it) && Hidden(it.node.name) && !showHidden ==> r == Pass(true)
    ensures r.Emit? ==>
      (IsDirVisit(it) && r.skip && r.value == PathText(it.path) &&
       !ContainsFile(it.node) && AllReadable(it.node) && (showHidden || !Hidden(it.node.name)))
    ensures IsDirVisit(it) && (showHidden || !Hidden(it.node.name)) && AllReadable(it.node) ==>
      (r.Emit? <==> !ContainsFile(it.node))
    ensures IsDirVisit(it) && (showHidden || !Hidden(it.node.name)) && ContainsFile(it.node) && AllReadable(it.node) ==>
      r == Pass(Hidden(it.node.name))
    ensures r.Abort? ==> it.Broken? || (IsDirVisit(it) && !AllReadable(it.node))
    ensures Skips(r) ==> IsDirVisit(it)
  {
    match it
    case Broken(_, error) => Abort(ErrorMessage(root, error))
    case Visit(n, path, _) =>
      if n.File? then Pass(false)
      else
        var hidden := Hidden(n.name);
        if hidden && !showHidden then Pass(true)
        else
          match AnyFile(n)
          case Failed(e) => Abort(ErrorMessage(root, e))
          case NotFound => Emit(PathText(path), true)
          case Found => if hidden then Pass(true) else Pass(false)
  }

  function Decider(showHidden: bool, root: string): Item -> Decision<string>
  {
    it => Decide(showHidden, root, it)
  }

  /**
   * What a walk yields: only directories with no file anywhere below them and nothing
   * unreadable, each as its own path text, never hidden ones unless they are shown,
   * and in a well-formed tree never one inside another.
   */
  lemma WalkYieldsEmpties(showHidden: bool, root: string, start: Node, parent: string)
    ensures var w := ScanItem(Visit(start, [root], parent), Decider(showHidden, root));
      forall h :: h in w.hits ==>
        IsDirVisit(h.entry) && h.value == PathText(h.entry.path) &&
        !ContainsFile(h.entry.node) && AllReadable(h.entry.node) && (showHidden || !Hidden(h.entry.node.name))
    ensures WellFormed(start) ==> Unnested(ScanItem(Visit(start, [root], parent), Decider(showHidden, root)).hits)
  {
    var d := Decider(showHidden, root);
    ScanItemHits(Visit(start, [root], parent), d);
    if WellFormed(start) {
      ScanNodeUnnested(start, [root], parent, d);
    }
  }

  /** The walker: the root it was given, the hidden-folder switch and the walkdir iterator it drives. */
  class EmptiesWalker {
    const path: string
    const showHidden: bool
    const walker: WalkDirIter

    /** The walk still ahead of this walker. */
    ghost function Pending(): Walk<string>
      reads walker
    {
      ScanList(Flatten(walker.stack), Decider(showHidden, path))
    }

    /** `EmptiesWalker::new`: the whole walk from the root lies ahead. */
    constructor(path: string, showHidden: bool, start: Node, parent: string)
      ensures this.path == path && this.showHidden == showHidden
      ensures fresh(walker)
      ensures Pending() == ScanItem(Visit(start, [path], parent), Decider(showHidden, path))
    {
      this.path := path;
      this.showHidden := showHidden;
      walker := new WalkDirIter(Visit(start, [path], parent));
      new;
      assert Flatten(walker.stack) == [Visit(start, [path], parent)];
      ScanListCons(Flatten(walker.stack), Decider(showHidden, path));
    }

    /**
     * One pass of the loop in `next` on the item just taken: `Some` when `next`
     * returns on it, `None` when the loop goes on, the directory skipped or not.
     */
    method Consider(x: Item, ghost rest: seq<Item>) returns (stop: Option<Step<string>>)
      modifies walker
      requires Flatten(walker.stack) == Expand(x) + rest
      requires IsDirVisit(x) ==> walker.stack != [] && walker.stack[0] == Expand(x) && Flatten(walker.stack[1..]) == rest
      ensures stop.Some? ==> Advanced(Then(ScanItem(x, Decider(showHidden, path)), ScanList(rest, Decider(showHidden, path))), Pending(), stop.value)
      ensures stop.None? ==> Then(ScanItem(x, Decider(showHidden, path)), ScanList(rest, Decider(showHidden, path))) == Pending()
      ensures stop.None? ==> ItemsSize(Flatten(walker.stack)) <= old(ItemsSize(Flatten(walker.stack)))
    {
      ghost var d := Decider(showHidden, path);
      LoopStep(x, rest, d);
      ItemsSizeAppend(Expand(x), rest);
      ghost var dx := d(x);
      assert dx == Decide(showHidden, path, x);
      match x {
        case Broken(_, error) =>
          return Some(Exit(ErrorMessage(path, error)));
        case Visit(n, p, _) =>
          if n.File? {
            assert dx == Pass(false);
            return None;
          }
          var hiddenFolder := Hidden(n.name);
          if hiddenFolder && !showHidden {
            assert dx == Pass(true);
            walker.SkipCurrentDir();
            return None;
          }
          var empties := AnyFile(n);
          match empties {
            case Failed(e) =>
              assert dx == Abort(ErrorMessage(path, e));
              return Some(Exit(ErrorMessage(path, e)));
            case NotFound =>
              assert dx == Emit(PathText(p), true);
              walker.SkipCurrentDir();
              return Some(Yield(PathText(p)));
            case Found =>
              assert dx == Pass(hiddenFolder);
              if hiddenFolder {
                walker.SkipCurrentDir();
              }
              return None;
          }
      }
    }

    /** `Iterator::next`: the next empty directory, with its directory skipped; the end of the walk; or an exit on an error. */
    method Next() returns (r: Step<string>)
      modifies walker
      ensures Advanced(old(Pending()), Pending(), r)
    {
      ghost var d := Decider(showHidden, path);
      ghost var rest: seq<Item> := [];
      var next := walker.Next();
      if next.Some? {
        ScanListCons(old(Flatten(walker.stack)), d);
        rest := old(Flatten(walker.stack))[1..];
      }
      while next.Some?
        invariant next.None? ==> Flatten(walker.stack) == [] && old(Pending()) == Walk([], None)
        invariant next.Some? ==> old(Pending()) == Then(ScanItem(next.value, d), ScanList(rest, d))
        invariant next.Some? ==> Flatten(walker.stack) == Expand(next.value) + rest
        invariant next.Some? && IsDirVisit(next.value) ==>
          walker.stack != [] && walker.stack[0] == Expand(next.value) && Flatten(walker.stack[1..]) == rest
        decreases ItemsSize(Flatten(walker.stack)) + if next.Some? then 1 else 0
      {
        var x := next.value;
        var stop := Consider(x, rest);
        if stop.Some? {
          return stop.value;
        }
        ghost var ahead := Flatten(walker.stack);
        next := walker.Next();
        if next.Some? {
          ScanListCons(ahead, d);
          rest := ahead[1..];
        }
      }
      return Done;
    }
  }
}
