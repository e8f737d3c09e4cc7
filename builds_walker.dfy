/**
 * `BuildsWalker` (src/commands/walkers/builds_walker.rs): walks a tree and yields
 * every directory that is a build-artifact folder of a selected platform, without
 * descending into a folder it has yielded.
 */
module BuildsWalker {
  import opened Wrappers
  import opened Text
  import opened WalkDir
  import opened Platforms
  import CliAllValues

  /** What `read_dir` gives for a path text: an error, or the entries, each one read or failed. */
  datatype Listing = Unreadable | Entries(entries: seq<Option<string>>)

  /** The platform is selected and lists the (lower-cased) folder name among its build folders. */
  predicate Candidate(filter: CliAllValues.AllValues, p: Platform, folder: string)
  {
    CliAllValues.Matches(filter, p.name) && folder in p.folders
  }

  /** A readable entry whose lower-cased name or lower-cased extension is associated with the platform. */
  predicate Marks(p: Platform, entry: Option<string>)
  {
    entry.Some? && (Lower(entry.value) in p.associated || Lower(Extension(entry.value)) in p.associated)
  }

  /** `files.filter(..).count() > 0` over one listing. */
  function AnyMarks(p: Platform, entries: seq<Option<string>>): (r: bool)
    ensures r <==> exists k :: 0 <= k < |entries| && Marks(p, entries[k])
  {
    entries != [] && (Marks(p, entries[0]) || AnyMarks(p, entries[1..]))
  }

  /** The parent listing holds an entry that marks the platform; an unreadable parent holds none. */
  predicate Evidence(p: Platform, listing: Listing)
  {
    listing.Entries? && AnyMarks(p, listing.entries)
  }

  /** The platform is a selected candidate for the folder and the listing holds evidence for it. */
  predicate Wins(filter: CliAllValues.AllValues, p: Platform, folder: string, listing: Listing)
  {
    Candidate(filter, p, folder) && Evidence(p, listing)
  }

  /** `ps[k]` wins and no platform before it does. */
  predicate FirstWinnerAt(filter: CliAllValues.AllValues, ps: seq<Platform>, k: int, folder: string, listing: Listing)
  {
    0 <= k < |ps| && Wins(filter, ps[k], folder, listing) &&
    forall j :: 0 <= j < k ==> !Wins(filter, ps[j], folder, listing)
  }

  /**
   * The loop over the selected candidates: the first candidate, in platform order,
   * with evidence in the listing wins, unless the parent path already contains the
   * folder name, which ends the search with no match.
   */
  function FirstPlatform(filter: CliAllValues.AllValues, ps: seq<Platform>, folder: string, parent: string, listing: Listing): (r: Option<Platform>)
    ensures r.Some? <==>
      !Contains(parent, folder) && exists k :: 0 <= k < |ps| && Wins(filter, ps[k], folder, listing)
    ensures r.Some? ==> exists k :: FirstWinnerAt(filter, ps, k, folder, listing) && ps[k] == r.value
  {
    if ps == [] then None
    else if Candidate(filter, ps[0], folder) then
      if Contains(parent, folder) then None
      else if Evidence(ps[0], listing) then
        assert FirstWinnerAt(filter, ps, 0, folder, listing);
        Some(ps[0])
      else
        FirstPlatformTail(filter, ps, folder, parent, listing);
        FirstPlatform(filter, ps[1..], folder, parent, listing)
    else
      FirstPlatformTail(filter, ps, folder, parent, listing);
      FirstPlatform(filter, ps[1..], folder, parent, listing)
  }

  /** When the first platform does not win, the winners are those of the rest, one position later. */
  lemma FirstPlatformTail(filter: CliAllValues.AllValues, ps: seq<Platform>, folder: string, parent: string, listing: Listing)
    requires ps != [] && !Wins(filter, ps[0], folder, listing)
    ensures (exists k :: 0 <= k < |ps| && Wins(filter, ps[k], folder, listing)) <==>
      (exists k :: 0 <= k < |ps[1..]| && Wins(filter, ps[1..][k], folder, listing))
    ensures forall k :: FirstWinnerAt(filter, ps[1..], k, folder, listing) ==> FirstWinnerAt(filter, ps, k + 1, folder, listing)
  {
    forall k | FirstWinnerAt(filter, ps[1..], k, folder, listing) ensures FirstWinnerAt(filter, ps, k + 1, folder, listing) {
      forall j | 0 <= j < k + 1 ensures !Wins(filter, ps[j], folder, listing) {
        if j > 0 {
          assert ps[j] == ps[1..][j - 1];
        }
      }
    }
    if exists k :: 0 <= k < |ps| && Wins(filter, ps[k], folder, listing) {
      var k :| 0 <= k < |ps| && Wins(filter, ps[k], folder, listing);
      assert ps[1..][k - 1] == ps[k];
    }
  }

  /**
   * `build_artifacts`: only a directory can match; the folder name and the parent
   * path are lower-cased, and the listing consulted is that of the lower-cased parent
   * path. A match names the winning platform and the directory's own path.
   */
  function ArtifactsOf(filter: CliAllValues.AllValues, platforms: seq<Platform>, readDir: string -> Listing, it: Item): (r: Option<BuildArtifacts>)
    ensures r.Some? ==> IsDirVisit(it) && r.value.folder == PathText(it.path)
    ensures r.Some? <==>
      (IsDirVisit(it) && !Contains(Lower(it.parent), Lower(it.node.name)) &&
        exists k :: 0 <= k < |platforms| && Wins(filter, platforms[k], Lower(it.node.name), readDir(Lower(it.parent))))
    ensures r.Some? ==> exists k ::
      FirstWinnerAt(filter, platforms, k, Lower(it.node.name), readDir(Lower(it.parent))) && platforms[k].name == r.value.name
  {
    if IsDirVisit(it) then
      var folder := Lower(it.node.name);
      var parent := Lower(it.parent);
      match FirstPlatform(filter, platforms, folder, parent, readDir(parent))
      case Some(p) => Some(BuildArtifacts(p.name, PathText(it.path)))
      case None => None
    else None
  }

  /** A directory whose first winning platform is `p` matches as `p`, at its own path. */
  lemma ArtifactsOfWinner(filter: CliAllValues.AllValues, platforms: seq<Platform>, readDir: string -> Listing, it: Item, p: Platform)
    requires IsDirVisit(it)
    requires FirstPlatform(filter, platforms, Lower(it.node.name), Lower(it.parent), readDir(Lower(it.parent))) == Some(p)
    ensures ArtifactsOf(filter, platforms, readDir, it) == Some(BuildArtifacts(p.name, PathText(it.path)))
  {
  }

  function ErrorMessage(root: string, error: string): string
  {
    "Exception while searching \"" + root + "\" for build artifacts: " + error
  }

  /** The verdict of `next` on one item: yield a match and skip its directory, pass anything else, exit on an error. */
  function Decide(filter: CliAllValues.AllValues, platforms: seq<Platform>, root: string, readDir: string -> Listing, it: Item): Decision<BuildArtifacts>
  {
    match it
    case Broken(_, error) => Abort(ErrorMessage(root, error))
    case Visit(_, _, _) =>
      match ArtifactsOf(filter, platforms, readDir, it)
      case Some(a) => Emit(a, true)
      case None => Pass(false)
  }

  function Decider(filter: CliAllValues.AllValues, platforms: seq<Platform>, root: string, readDir: string -> Listing): Item -> Decision<BuildArtifacts>
  {
    it => Decide(filter, platforms, root, readDir, it)
  }

  /**
   * What a walk yields: only directories that `build_artifacts` matches, each with
   * that match as its value, and in a well-formed tree never one inside another.
   */
  lemma WalkYieldsMatches(filter: CliAllValues.AllValues, platforms: seq<Platform>, root: string, readDir: string -> Listing, start: Node, parent: string)
    ensures var w := ScanItem(Visit(start, [root], parent), Decider(filter, platforms, root, readDir));
      forall h :: h in w.hits ==> IsDirVisit(h.entry) && ArtifactsOf(filter, platforms, readDir, h.entry) == Some(h.value)
    ensures WellFormed(start) ==> Unnested(ScanItem(Visit(start, [root], parent), Decider(filter, platforms, root, readDir)).hits)
  {
    var d := Decider(filter, platforms, root, readDir);
    ScanItemHits(Visit(start, [root], parent), d);
    if WellFormed(start) {
      ScanNodeUnnested(start, [root], parent, d);
    }
  }

  /** The walker: the platforms to look for, the root it was given, and the walkdir iterator it drives. */
  class BuildsWalker {
    const filter: CliAllValues.AllValues
    const path: string
    const platforms: seq<Platform>
    const readDir: string -> Listing
    const walker: WalkDirIter

    /** The walk still ahead of this walker. */
    ghost function Pending(): Walk<BuildArtifacts>
      reads walker
    {
      ScanList(Flatten(walker.stack), Decider(filter, platforms, path, readDir))
    }

    /** `BuildsWalker::new`: the whole walk from the root lies ahead. */
    constructor(filter: CliAllValues.AllValues, path: string, platforms: seq<Platform>, readDir: string -> Listing, start: Node, parent: string)
      ensures this.filter == filter && this.path == path && this.platforms == platforms && this.readDir == readDir
      ensures fresh(walker)
      ensures Pending() == ScanItem(Visit(start, [path], parent), Decider(filter, platforms, path, readDir))
    {
      this.filter := filter;
      this.path := path;
      this.platforms := platforms;
      this.readDir := readDir;
      walker := new WalkDirIter(Visit(start, [path], parent));
      new;
      assert Flatten(walker.stack) == [Visit(start, [path], parent)];
      ScanListCons(Flatten(walker.stack), Decider(filter, platforms, path, readDir));
    }

    /** `Iterator::next`: the next match, with its directory skipped; the end of the walk; or an exit on a walk error. */
    method Next() returns (r: Step<BuildArtifacts>)
      modifies walker
      ensures Advanced(old(Pending()), Pending(), r)
    {
      ghost var d := Decider(filter, platforms, path, readDir);
      ghost var rest: seq<Item> := [];
      var next := walker.Next();
      if next.Some? {
        ScanListCons(old(Flatten(walker.stack)), d);
        rest := old(Flatten(walker.stack))[1..];
      }
      while next.Some?
        invariant next.None? ==> Flatten(walker.stack) == [] && old(Pending()) == Walk([], None)
        invariant next.Some? ==> old(Pending()) == Then(ScanItem(next.value, d), ScanList(rest, d))
        invariant next.Some? ==> Flatten(walker.stack) == Expand(next.value) + rest
        invariant next.Some? && IsDirVisit(next.value) ==>
          walker.stack != [] && walker.stack[0] == Expand(next.value) && Flatten(walker.stack[1..]) == rest
        decreases ItemsSize(Flatten(walker.stack)) + if next.Some? then 1 else 0
      {
        var x := next.value;
        LoopStep(x, rest, d);
        match x {
          case Broken(_, error) =>
            return Exit(ErrorMessage(path, error));
          case Visit(_, _, _) =>
            var artifacts := ArtifactsOf(filter, platforms, readDir, x);
            if artifacts.Some? {
              walker.SkipCurrentDir();
              return Yield(artifacts.value);
            }
        }
        ghost var ahead := Flatten(walker.stack);
        next := walker.Next();
        if next.Some? {
          ScanListCons(ahead, d);
          rest := ahead[1..];
        }
      }
      return Done;
    }
  }
}
