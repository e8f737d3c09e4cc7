/**
 * `ReposWalker` (src/commands/walkers/repos_walker.rs): walks a tree and yields
 * every directory that holds a `.git` directory among its own entries, paired with
 * the result of opening it as a repository, without descending into a directory
 * it has yielded.
 */
module ReposWalker {
  import opened Wrappers
  import opened Text
  import opened WalkDir

  /** The answer of the one-level search for `.git`: found, not found, or the listing error met first. */
  datatype GitProbe = Found | NotFound | Failed(error: string)

  /** One of the entries is a directory named exactly `.git`. */
  predicate HasGitDir(cs: seq<Node>)
  {
    exists k :: 0 <= k < |cs| && cs[k].Dir? && cs[k].name == ".git"
  }

  /** `any(|e| e is a dir named ".git")` over the entries, in listing order. */
  function AnyGitDir(cs: seq<Node>): (r: bool)
    ensures r <==> HasGitDir(cs)
  {
    if cs == [] then false
    else if cs[0].Dir? && cs[0].name == ".git" then true
    else
      var r := AnyGitDir(cs[1..]);
      assert forall k :: 1 <= k < |cs| ==> cs[k] == cs[1..][k - 1];
      r
  }

  /**
   * `is_folder_a_repo`'s search: `WalkDir::new(path).min_depth(1).max_depth(1)`
   * lists only the directory's own entries, so opening the directory is the only
   * thing that can fail.
   */
  function ProbeGit(n: Node): (r: GitProbe)
    requires n.Dir?
    ensures r.Failed? <==> n.readError.Some?
    ensures r.Failed? ==> r.error == n.readError.value
    ensures r == Found <==> n.readError.None? && HasGitDir(n.children)
  {
    if n.readError.Some? then Failed(n.readError.value)
    else if AnyGitDir(n.children) then Found
    else NotFound
  }

  /** The message on an error from the outer walk; it says "empties", as the source writes it. */
  function WalkErrorMessage(root: string, error: string): string
  {
    "Exception while searching \"" + root + "\" for empties: " + error
  }

  /** The message on an error from the one-level search for `.git`. */
  function ProbeErrorMessage(root: string, error: string): string
  {
    "Exception while searching \"" + root + "\" for git repositories: " + error
  }

  /**
   * The verdict of `next` on one item: a directory holding `.git` is yielded with
   * the opened repository and skipped; anything else is passed; an error, from
   * the walk or from the search, ends the process.
   */
  function Decide<R>(open: string -> R, root: string, it: Item): (r: Decision<(R, string)>)
    ensures r.Emit? <==> IsDirVisit(it) && it.node.readError.None? && HasGitDir(it.node.children)
    ensures r.Emit? ==> r.skip && r.value == (open(PathText(it.path)), PathText(it.path))
    ensures r.Pass? ==> !r.skip
    ensures r.Abort? <==> it.Broken? || (IsDirVisit(it) && it.node.readError.Some?)
    ensures it.Broken? ==> r == Abort(WalkErrorMessage(root, it.error))
    ensures IsDirVisit(it) && it.node.readError.Some? ==> r == Abort(ProbeErrorMessage(root, it.node.readError.value))
  {
    match it
    case Broken(_, error) => Abort(WalkErrorMessage(root, error))
    case Visit(n, path, _) =>
      if n.File? then Pass(false)
      else
        match ProbeGit(n)
        case Failed(e) => Abort(ProbeErrorMessage(root, e))
        case Found => Emit((open(PathText(path)), PathText(path)), true)
        case NotFound => Pass(false)
  }

  function Decider<R>(open: string -> R, root: string): Item -> Decision<(R, string)>
  {
    it => Decide(open, root, it)
  }

  /**
   * What a walk yields: only readable directories with a `.git` directory of
   * their own, each paired with the repository opened at its path, and in a
   * well-formed tree never one inside another.
   */
  lemma WalkYieldsRepos<R>(open: string -> R, root: string, start: Node, parent: string)
    ensures var w := ScanItem(Visit(start, [root], parent), Decider(open, root));
      forall h :: h in w.hits ==>
        IsDirVisit(h.entry) && h.entry.node.readError.None? && HasGitDir(h.entry.node.children) &&
        h.value == (open(PathText(h.entry.path)), PathText(h.entry.path))
    ensures WellFormed(start) ==> Unnested(ScanItem(Visit(start, [root], parent), Decider(open, root)).hits)
  {
    var d := Decider(open, root);
    ScanItemHits(Visit(start, [root], parent), d);
    if WellFormed(start) {
      ScanNodeUnnested(start, [root], parent, d);
    }
  }

  /** The walker: the root it was given, `Repository::open` as a function of a path, and the walkdir iterator it drives. */
  class ReposWalker<R> {
    const path: string
    const open: string -> R
    const walker: WalkDirIter

    /** The walk still ahead of this walker. */
    ghost function Pending(): Walk<(R, string)>
      reads walker
    {
      ScanList(Flatten(walker.stack), Decider(open, path))
    }

    /** `ReposWalker::new`: the whole walk from the root lies ahead. */
    constructor(path: string, open: string -> R, start: Node, parent: string)
      ensures this.path == path && this.open == open
      ensures fresh(walker)
      ensures Pending() == ScanItem(Visit(start, [path], parent), Decider(open, path))
    {
      this.path := path;
      this.open := open;
      walker := new WalkDirIter(Visit(start, [path], parent));
      new;
      assert Flatten(walker.stack) == [Visit(start, [path], parent)];
      ScanListCons(Flatten(walker.stack), Decider(open, path));
    }

    /** `Iterator::next`: the next repository folder, with its directory skipped; the end of the walk; or an exit on an error. */
    method Next() returns (r: Step<(R, string)>)
      modifies walker
      ensures Advanced(old(Pending()), Pending(), r)
    {
      ghost var d := Decider(open, path);
      ghost var rest: seq<Item> := [];
      var next := walker.Next();
      if next.Some? {
        ScanListCons(old(Flatten(walker.stack)), d);
        rest := old(Flatten(walker.stack))[1..];
      }
      while next.Some?
        invariant next.None? ==> Flatten(walker.stack) == [] && old(Pending()) == Walk([], None)
        invariant next.Some? ==> old(Pending()) == Then(ScanItem(next.value, d), ScanList(rest, d))
        invariant next.Some? ==> Flatten(walker.stack) == Expand(next.value) + rest
        invariant next.Some? && IsDirVisit(next.value) ==>
          walker.stack != [] && walker.stack[0] == Expand(next.value) && Flatten(walker.stack[1..]) == rest
        decreases ItemsSize(Flatten(walker.stack)) + if next.Some? then 1 else 0
      {
        var x := next.value;
        LoopStep(x, rest, d);
        match x {
          case Broken(_, error) =>
            return Exit(WalkErrorMessage(path, error));
          case Visit(n, p, _) =>
            if n.Dir? {
              var probe := ProbeGit(n);
              match probe {
                case Failed(e) =>
                  return Exit(ProbeErrorMessage(path, e));
                case Found =>
                  walker.SkipCurrentDir();
                  var repoPath := PathText(p);
                  return Yield((open(repoPath), repoPath));
                case NotFound =>
              }
            }
        }
        ghost var ahead := Flatten(walker.stack);
        next := walker.Next();
        if next.Some? {
          ScanListCons(ahead, d);
          rest := ahead[1..];
        }
      }
      return Done;
    }
  }
}
