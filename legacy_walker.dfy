/**
 * The older `BuildsWalker` (src/commands/walker.rs). It matches entries with the
 * same `build_artifacts` rule as the current walker, but it keeps descending into
 * a folder it has yielded, and on a walk error it prints the message to standard
 * error and ends the iteration instead of ending the process.
 */
module LegacyBuildsWalker {
  import opened Wrappers
  import opened Text
  import opened WalkDir
  import opened Platforms
  import CliAllValues
  import BuildsWalker

  /** The verdict of `next` on one item: yield a match and carry on below it, pass anything else, stop on an error. */
  function Decide(filter: CliAllValues.AllValues, platforms: seq<Platform>, root: string, readDir: string -> BuildsWalker.Listing, it: Item): Decision<BuildArtifacts>
  {
    match it
    case Broken(_, error) => Abort(BuildsWalker.ErrorMessage(root, error))
    case Visit(_, _, _) =>
      match BuildsWalker.ArtifactsOf(filter, platforms, readDir, it)
      case Some(a) => Emit(a, false)
      case None => Pass(false)
  }

  function Decider(filter: CliAllValues.AllValues, platforms: seq<Platform>, root: string, readDir: string -> BuildsWalker.Listing): Item -> Decision<BuildArtifacts>
  {
    it => Decide(filter, platforms, root, readDir, it)
  }

  /**
   * How the older `next` moves through its walk: it yields the next value with
   * nothing printed, or it yields nothing, having printed the message the walk
   * stops on, if any. After `None` the walk is over (a `for` loop over the walker
   * stops at the first `None`), so the state left behind is deliberately not constrained.
   */
  ghost predicate Reported(before: Walk<BuildArtifacts>, after: Walk<BuildArtifacts>, r: Option<BuildArtifacts>, stderr: string)
  {
    match r
    case Some(v) => before.hits != [] && before.hits[0].value == v && after == Walk(before.hits[1..], before.stop) && stderr == ""
    case None => before.hits == [] && stderr == (if before.stop.Some? then before.stop.value else "")
  }

  /** What a walk yields: only directories that `build_artifacts` matches, each with that match as its value. */
  lemma WalkYieldsMatches(filter: CliAllValues.AllValues, platforms: seq<Platform>, root: string, readDir: string -> BuildsWalker.Listing, start: Node, parent: string)
    ensures var w := ScanItem(Visit(start, [root], parent), Decider(filter, platforms, root, readDir));
      forall h :: h in w.hits ==> IsDirVisit(h.entry) && BuildsWalker.ArtifactsOf(filter, platforms, readDir, h.entry) == Some(h.value)
  {
    ScanItemHits(Visit(start, [root], parent), Decider(filter, platforms, root, readDir));
  }

  // A small tree for the nesting example: a Rust folder "tg" inside a Web folder "nm",
  // with every listing holding both marking files.

  const rust := Platform("Rust", ["tg"], ["cargo.toml"])
  const web := Platform("Web", ["nm"], ["package.json"])
  const markers := BuildsWalker.Entries([Some("Cargo.toml"), Some("package.json")])
  const tg := Dir("tg", [], None)
  const nm := Dir("nm", [tg], None)
  const top := Visit(Dir("r", [nm], None), ["r"], "")
  const mid := Visit(nm, ["r", "nm"], "r")
  const low := Visit(tg, ["r", "nm", "tg"], "r/nm")

  function ExampleDecider(): Item -> Decision<BuildArtifacts>
  {
    Decider(CliAllValues.All, [rust, web], "r", _ => markers)
  }

  lemma MarkersLowered()
    ensures Lower("Cargo.toml") == "cargo.toml" && Lower("package.json") == "package.json"
  {
  }

  lemma TopPasses()
    ensures ExampleDecider()(top) == Pass(false)
  {
    assert Lower("r") == "r";
    assert !BuildsWalker.Candidate(CliAllValues.All, rust, "r") && !BuildsWalker.Candidate(CliAllValues.All, web, "r");
  }

  /** Both marking files of the example listing are recognised, each by its own platform. */
  lemma MarkersEvidence()
    ensures BuildsWalker.Evidence(web, markers) && BuildsWalker.Evidence(rust, markers)
  {
    MarkersLowered();
    assert BuildsWalker.Marks(web, markers.entries[1]);
    assert BuildsWalker.Marks(rust, markers.entries[0]);
  }

  /** For "nm" under "r", Rust is no candidate and Web wins. */
  lemma WebFirstForNm()
    ensures BuildsWalker.FirstPlatform(CliAllValues.All, [rust, web], "nm", "r", markers) == Some(web)
  {
    MarkersEvidence();
    assert !BuildsWalker.Candidate(CliAllValues.All, rust, "nm");
    assert BuildsWalker.Candidate(CliAllValues.All, web, "nm");
    assert !Contains("r", "nm");
    assert [rust, web][1..] == [web];
  }

  /** For "tg" under "r/nm", Rust is the first candidate and wins. */
  lemma RustFirstForTg()
    ensures BuildsWalker.FirstPlatform(CliAllValues.All, [rust, web], "tg", "r/nm", markers) == Some(rust)
  {
    MarkersEvidence();
    assert BuildsWalker.Candidate(CliAllValues.All, rust, "tg");
    assert !Contains("r/nm", "tg") by {
      forall i | 0 <= i <= 4 ensures !OccursAt("r/nm", "tg", i) {
        if i + 2 <= 4 {
          assert "r/nm"[i..i + 2][0] == "r/nm"[i] != 't';
        }
      }
    }
  }

  /** The names `build_artifacts` looks at for "nm", and the path it reports. */
  lemma MidNames()
    ensures Lower(mid.parent) == "r" && Lower(mid.node.name) == "nm"
    ensures PathText(mid.path) == "r/nm"
  {
    assert Lower("r") == "r" && Lower("nm") == "nm";
    JoinTwo("r", "nm", "/");
    assert "r" + "/" + "nm" == "r/nm";
  }

  /** The names `build_artifacts` looks at for "tg", and the path it reports. */
  lemma LowNames()
    ensures Lower(low.parent) == "r/nm" && Lower(low.node.name) == "tg"
    ensures PathText(low.path) == "r/nm/tg"
  {
    assert Lower("r/nm") == "r/nm" && Lower("tg") == "tg";
    JoinThree("r", "nm", "tg", "/");
    assert "r" + "/" + "nm" + "/" + "tg" == "r/nm/tg";
  }

  lemma MidEmits()
    ensures ExampleDecider()(mid) == Emit(BuildArtifacts("Web", "r/nm"), false)
  {
    MidNames();
    WebFirstForNm();
    BuildsWalker.ArtifactsOfWinner(CliAllValues.All, [rust, web], _ => markers, mid, web);
  }

  lemma LowEmits()
    ensures ExampleDecider()(low) == Emit(BuildArtifacts("Rust", "r/nm/tg"), false)
  {
    LowNames();
    RustFirstForTg();
    BuildsWalker.ArtifactsOfWinner(CliAllValues.All, [rust, web], _ => markers, low, rust);
  }

  lemma LowWalk()
    ensures ScanItem(low, ExampleDecider()) == Walk([Hit(low, BuildArtifacts("Rust", "r/nm/tg"))], None)
  {
    LowEmits();
    assert Expand(low) == [];
  }

  lemma MidWalk()
    ensures ScanItem(mid, ExampleDecider()) ==
      Walk([Hit(mid, BuildArtifacts("Web", "r/nm")), Hit(low, BuildArtifacts("Rust", "r/nm/tg"))], None)
  {
    MidEmits();
    LowWalk();
    MidExpands();
    ScanItemOneChild(mid, low, ExampleDecider());
  }

  lemma MidExpands()
    ensures Expand(mid) == [low]
  {
    assert ["r", "nm"] + ["tg"] == ["r", "nm", "tg"];
    MidNames();
  }

  /** Without the skip, a folder found inside a folder already found is yielded as well. */
  lemma YieldsNestedFolders()
    ensures var w := ScanItem(top, ExampleDecider());
      |w.hits| == 2 && IsPrefix(w.hits[0].entry.path, w.hits[1].entry.path)
  {
    TopPasses();
    MidWalk();
    assert Expand(top) == [mid] by {
      assert ["r"] + ["nm"] == ["r", "nm"];
      assert PathText(["r"]) == "r";
    }
    ScanItemOneChild(top, mid, ExampleDecider());
  }

  /** The older walker: the platforms to look for, the root it was given, and the walkdir iterator it drives. */
  class LegacyBuildsWalker {
    const filter: CliAllValues.AllValues
    const path: string
    const platforms: seq<Platform>
    const readDir: string -> BuildsWalker.Listing
    const walker: WalkDirIter

    /** The walk still ahead of this walker. */
    ghost function Pending(): Walk<BuildArtifacts>
      reads walker
    {
      ScanList(Flatten(walker.stack), Decider(filter, platforms, path, readDir))
    }

    /** `BuildsWalker::new`: the whole walk from the root lies ahead. */
    constructor(filter: CliAllValues.AllValues, path: string, platforms: seq<Platform>, readDir: string -> BuildsWalker.Listing, start: Node, parent: string)
      ensures this.filter == filter && this.path == path && this.platforms == platforms && this.readDir == readDir
      ensures fresh(walker)
      ensures Pending() == ScanItem(Visit(start, [path], parent), Decider(filter, platforms, path, readDir))
    {
      this.filter := filter;
      this.path := path;
      this.platforms := platforms;
      this.readDir := readDir;
      walker := new WalkDirIter(Visit(start, [path], parent));
      new;
      assert Flatten(walker.stack) == [Visit(start, [path], parent)];
      ScanListCons(Flatten(walker.stack), Decider(filter, platforms, path, readDir));
    }

    /** `Iterator::next`: the next match, the walk going on below it; or nothing, after printing a walk error. */
    method Next() returns (r: Option<BuildArtifacts>, stderr: string)
      modifies walker
      ensures Reported(old(Pending()), Pending(), r, stderr)
    {
      ghost var d := Decider(filter, platforms, path, readDir);
      ghost var rest: seq<Item> := [];
      stderr := "";
      var next := walker.Next();
      if next.Some? {
        ScanListCons(old(Flatten(walker.stack)), d);
        rest := old(Flatten(walker.stack))[1..];
      }
      while next.Some?
        invariant stderr == ""
        invariant next.None? ==> Flatten(walker.stack) == [] && old(Pending()) == Walk([], None)
        invariant next.Some? ==> old(Pending()) == Then(ScanItem(next.value, d), ScanList(rest, d))
        invariant next.Some? ==> Flatten(walker.stack) == Expand(next.value) + rest
        decreases ItemsSize(Flatten(walker.stack)) + if next.Some? then 1 else 0
      {
        var x := next.value;
        LoopStep(x, rest, d);
        match x {
          case Broken(_, error) =>
            stderr := BuildsWalker.ErrorMessage(path, error);
            break;
          case Visit(_, _, _) =>
            var artifacts := BuildsWalker.ArtifactsOf(filter, platforms, readDir, x);
            if artifacts.Some? {
              return Some(artifacts.value), stderr;
            }
        }
        ghost var ahead := Flatten(walker.stack);
        next := walker.Next();
        if next.Some? {
          ScanListCons(ahead, d);
          rest := ahead[1..];
        }
      }
      return None, stderr;
    }
  }
}
