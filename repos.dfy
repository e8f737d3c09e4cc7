/**
 * The repository commands of src/commands/repos.rs, over abstract git facts: what
 * git2 would report for a repository (its head, branches, remotes, status count)
 * is part of the input, and what the commands print is part of the output.
 */
module Repos {
  import opened Wrappers
  import opened Text

  // ---------------------------------------------------------------- git errors

  /** The one error code the commands tell apart from all others. */
  datatype ErrorCode = UnbornBranch | OtherCode

  datatype GitError = GitError(code: ErrorCode, message: string)

  /** What git2 appends to a message about the repository at `path`. */
  function Location(path: string): string
  {
    " at '" + path + "'"
  }

  /**
   * The `output_err!` macro: an unborn branch prints nothing; any other error prints
   * "<path> - Err: <message>", after an optional prefix and a space, with every
   * location suffix for the repository's own path cut out of the message.
   */
  function OutputErr(err: GitError, path: string, prefix: Option<string>): (r: Option<string>)
    ensures r.None? <==> err.code == UnbornBranch
  {
    if err.code == UnbornBranch then None
    else
      var lead := if prefix.Some? then prefix.value + " " else "";
      Some(lead + path + " - Err: " + RemoveAll(err.message, Location(path)))
  }

  /** The lines `output_err!` prints: none or one. */
  function ErrLines(err: GitError, path: string, prefix: Option<string>): (r: seq<string>)
    ensures |r| <= 1 && (r == [] <==> err.code == UnbornBranch)
  {
    match OutputErr(err, path, prefix)
    case None => []
    case Some(line) => [line]
  }

  /** A message that never mentions the repository's location is printed as it is. */
  lemma OutputErrKeepsMessage(err: GitError, path: string)
    requires err.code != UnbornBranch && !Contains(err.message, Location(path))
    ensures OutputErr(err, path, None) == Some(path + " - Err: " + err.message)
  {
    RemoveAllAbsent(err.message, Location(path));
    assert "" + path == path;
  }

  /** A message ending in the repository's location, mentioned nowhere before, loses just that ending. */
  lemma OutputErrDropsLocation(err: GitError, path: string, m: string)
    requires err.code != UnbornBranch && err.message == m + Location(path)
    requires forall i :: 0 <= i < |m| ==> !OccursAt(err.message, Location(path), i)
    ensures OutputErr(err, path, None) == Some(path + " - Err: " + m)
  {
    var pat := Location(path);
    assert err.message == m + pat + "";
    RemoveAllFirst(m, pat, "");
    assert RemoveAll("", pat) == "";
    assert m + "" == m && "" + path == path;
  }

  /** A prefixed line is the plain line after the prefix and a space. */
  lemma OutputErrPrefix(err: GitError, path: string, msg: string)
    ensures OutputErr(err, path, Some(msg)).Some? ==>
      OutputErr(err, path, Some(msg)).value == msg + " " + OutputErr(err, path, None).value
  {
    if err.code != UnbornBranch {
      var tail := path + " - Err: " + RemoveAll(err.message, Location(path));
      assert OutputErr(err, path, None).value == "" + tail;
    }
  }

  // ---------------------------------------------------------------- references and branch names

  /** A git reference: its full name, its shorthand and the object it points at (as hex text), each possibly absent. */
  datatype Reference = Reference(name: Option<string>, shorthand: Option<string>, target: Option<string>)

  /** src/models/branch.rs: a branch by name, or a detached head by object id. */
  datatype BranchName = Branch(name: string) | Head(oid: string)

  /** `get_branch_name`: a "HEAD" shorthand with a target is a detached head; anything else is a branch, "" when the shorthand is absent. */
  function GetBranchName(reference: Reference): (r: BranchName)
    ensures r.Head? <==> reference.shorthand == Some("HEAD") && reference.target.Some?
    ensures r.Head? ==> r.oid == reference.target.value
    ensures r.Branch? ==> r.name == if reference.shorthand.Some? then reference.shorthand.value else ""
  {
    var name := if reference.shorthand.Some? then reference.shorthand.value else "";
    if name == "HEAD" && reference.target.Some? then Head(reference.target.value) else Branch(name)
  }

  /** `BranchName`'s `Display`. */
  function ShowBranchName(b: BranchName): string
  {
    match b
    case Branch(name) => "branch: " + name
    case Head(oid) => "head: " + oid
  }

  /** Different branch names never display alike. */
  lemma ShowBranchNameInjective(x: BranchName, y: BranchName)
    ensures ShowBranchName(x) == ShowBranchName(y) ==> x == y
  {
    if ShowBranchName(x) == ShowBranchName(y) {
      var s := ShowBranchName(x);
      assert s[0] == (if x.Branch? then 'b' else 'h');
      assert s[0] == (if y.Branch? then 'b' else 'h');
      if x.Branch? {
        assert x.name == s[8..] == y.name;
      } else {
        assert x.oid == s[6..] == y.oid;
      }
    }
  }

  // ---------------------------------------------------------------- main or master

  const HeadsPrefix: string := "refs/heads/"

  /** The pattern `^(refs/heads/)?(main|master)$`, written out. */
  function MainOrMaster(name: string): (r: bool)
    ensures r <==> name in {"main", "master", "refs/heads/main", "refs/heads/master"}
  {
    var rest := if StartsWith(name, HeadsPrefix) then name[|HeadsPrefix|..] else name;
    assert StartsWith(name, HeadsPrefix) ==> name == HeadsPrefix + rest;
    assert HeadsPrefix + "main" == "refs/heads/main" && HeadsPrefix + "master" == "refs/heads/master";
    assert StartsWith("refs/heads/main", HeadsPrefix) && StartsWith("refs/heads/master", HeadsPrefix);
    rest == "main" || rest == "master"
  }

  // ---------------------------------------------------------------- head predicates

  /**
   * `repo_is_branched`: with a readable head, whether its name is present and is not
   * main or master; with an unreadable head, nothing, after printing the error.
   */
  function RepoIsBranched(head: Result<Reference, GitError>, path: string): (r: (Option<bool>, seq<string>))
    ensures r.0.None? <==> head.Err?
    ensures r.0 == Some(true) <==> head.Ok? && head.value.name.Some? && !MainOrMaster(head.value.name.value)
    ensures r.1 == if head.Err? then ErrLines(head.error, path, None) else []
  {
    match head
    case Err(e) => (None, ErrLines(e, path, None))
    case Ok(reference) => (Some(reference.name.Some? && !MainOrMaster(reference.name.value)), [])
  }

  /** `repo_is_init_only`: the head cannot be read because the branch is unborn. */
  predicate RepoIsInitOnly(head: Result<Reference, GitError>)
  {
    head.Err? && head.error.code == UnbornBranch
  }

  /** A repository with no commits yet is not branched, and asking prints nothing. */
  lemma InitOnlyIsQuietlyUnbranched(head: Result<Reference, GitError>, path: string)
    requires RepoIsInitOnly(head)
    ensures RepoIsBranched(head, path) == (None, [])
  {
  }

  // ---------------------------------------------------------------- local branches

  /**
   * A local branch: its name (absent when unreadable), the target of its reference,
   * its upstream (absent when it has none, otherwise the upstream's target), and what
   * `graph_ahead_behind` gives for the two targets: commits only on the branch, then
   * commits only on the upstream.
   */
  datatype LocalBranch = LocalBranch(
    name: Option<string>,
    target: Option<string>,
    upstream: Option<Option<string>>,
    aheadBehind: Result<(nat, nat), GitError>)

  /** One entry of `repo.branches(Some(BranchType::Local))`. */
  type BranchEntry = Result<LocalBranch, GitError>

  /** `branch.name().unwrap_or_default().unwrap_or_default()`. */
  function NameOrEmpty(b: LocalBranch): string
  {
    if b.name.Some? then b.name.value else ""
  }

  /** The filter of `filter_main_branches`: errors always pass; with `only_main`, a branch passes iff it is main or master. */
  predicate KeepBranch(e: BranchEntry, onlyMain: bool)
  {
    !onlyMain || e.Err? || MainOrMaster(NameOrEmpty(e.value))
  }

  /** `filter_main_branches`: the entries `KeepBranch` accepts, in their order. */
  function FilterMainBranches(entries: seq<BranchEntry>, onlyMain: bool): (r: seq<BranchEntry>)
    ensures |r| <= |entries|
    ensures forall e :: e in r <==> e in entries && KeepBranch(e, onlyMain)
    ensures !onlyMain ==> r == entries
  {
    if entries == [] then []
    else
      var rest := FilterMainBranches(entries[1..], onlyMain);
      assert entries == [entries[0]] + entries[1..];
      if KeepBranch(entries[0], onlyMain) then [entries[0]] + rest else rest
  }

  /** One entry on its own is kept iff the filter accepts it. */
  lemma FilterMainBranchesOne(e: BranchEntry, onlyMain: bool)
    ensures FilterMainBranches([e], onlyMain) == if KeepBranch(e, onlyMain) then [e] else []
  {
    assert [e][1..] == [];
  }

  /** The filter looks at each entry alone and keeps the order: filtering two runs of entries gives the two results one after the other. */
  lemma {:induction false} FilterMainBranchesAppend(xs: seq<BranchEntry>, ys: seq<BranchEntry>, onlyMain: bool)
    ensures FilterMainBranches(xs + ys, onlyMain) == FilterMainBranches(xs, onlyMain) + FilterMainBranches(ys, onlyMain)
  {
    if xs == [] {
      assert xs + ys == ys;
    } else {
      assert (xs + ys)[0] == xs[0];
      assert (xs + ys)[1..] == xs[1..] + ys;
      FilterMainBranchesAppend(xs[1..], ys, onlyMain);
    }
  }

  /**
   * The counts `check_branch_status` compares for one entry, or nothing when the entry
   * is dropped: an error entry, no upstream, a reference without target, or a failed
   * `graph_ahead_behind`.
   */
  function Counts(e: BranchEntry): (r: Option<(nat, nat)>)
    ensures r.Some? <==>
      e.Ok? && e.value.upstream.Some? && e.value.target.Some? && e.value.upstream.value.Some? && e.value.aheadBehind.Ok?
    ensures r.Some? ==> r.value == e.value.aheadBehind.value
  {
    if e.Err? || e.value.upstream.None? || e.value.target.None? || e.value.upstream.value.None? then None
    else if e.value.aheadBehind.Err? then None
    else Some(e.value.aheadBehind.value)
  }

  /** The lines printed for one entry: only a failed `graph_ahead_behind` is reported. */
  function FailureLines(e: BranchEntry, path: string): seq<string>
  {
    if e.Err? || e.value.upstream.None? || e.value.target.None? || e.value.upstream.value.None? then []
    else if e.value.aheadBehind.Err? then ErrLines(e.value.aheadBehind.error, path, None)
    else []
  }

  /** The counts of every entry that is not dropped, in order. */
  function Considered(entries: seq<BranchEntry>): (r: seq<(nat, nat)>)
    ensures forall c :: c in r <==> exists k :: 0 <= k < |entries| && Counts(entries[k]) == Some(c)
  {
    if entries == [] then []
    else
      var rest := Considered(entries[1..]);
      assert forall k :: 1 <= k < |entries| ==> entries[k] == entries[1..][k - 1];
      match Counts(entries[0])
      case None => rest
      case Some(c) => [c] + rest
  }

  /** Every failure line of the entries, in order. */
  function AllFailureLines(entries: seq<BranchEntry>, path: string): seq<string>
  {
    if entries == [] then [] else FailureLines(entries[0], path) + AllFailureLines(entries[1..], path)
  }

  /**
   * `check_branch_status(..).any(..)`: the statuses are computed lazily, so the
   * search stops at the first branch that passes the test, and only the failures met
   * before it are printed.
   */
  function AnyBranch(entries: seq<BranchEntry>, test: (nat, nat) -> bool, path: string): (r: (bool, seq<string>))
    ensures r.0 <==> exists c :: c in Considered(entries) && test(c.0, c.1)
    ensures !r.0 ==> r.1 == AllFailureLines(entries, path)
  {
    if entries == [] then (false, [])
    else
      match Counts(entries[0])
      case Some(c) =>
        if test(c.0, c.1) then (true, [])
        else AnyBranch(entries[1..], test, path)
      case None =>
        var rest := AnyBranch(entries[1..], test, path);
        (rest.0, FailureLines(entries[0], path) + rest.1)
  }

  /** `check_branch_status(..).all(..)`: stops at the first branch that fails the test; true when no branch is considered. */
  function AllBranches(entries: seq<BranchEntry>, test: (nat, nat) -> bool, path: string): (r: (bool, seq<string>))
    ensures r.0 <==> forall c :: c in Considered(entries) ==> test(c.0, c.1)
    ensures r.0 ==> r.1 == AllFailureLines(entries, path)
  {
    if entries == [] then (true, [])
    else
      match Counts(entries[0])
      case Some(c) =>
        if !test(c.0, c.1) then (false, [])
        else AllBranches(entries[1..], test, path)
      case None =>
        var rest := AllBranches(entries[1..], test, path);
        (rest.0, FailureLines(entries[0], path) + rest.1)
  }

  // ---------------------------------------------------------------- ahead and behind

  datatype OutdatedFilter = Ahead | Either | Behind

  /** The closure `list_outdated_repos` passes, as written: the two counts compared with each other. */
  function CompareAsWritten(filter: OutdatedFilter, branch: nat, upstream: nat): bool
  {
    match filter
    case Ahead => branch > upstream
    case Either => branch != upstream
    case Behind => branch < upstream
  }

  /** The closure `list_up_to_date_repos` passes, as written. */
  function InSyncAsWritten(branch: nat, upstream: nat): bool
  {
    branch == upstream
  }

  /** As written, the filters split the branches by which count is larger, and "up to date" is a tie. */
  lemma AsWrittenComparesCounts(a: nat, b: nat)
    ensures !(CompareAsWritten(Ahead, a, b) && CompareAsWritten(Behind, a, b))
    ensures CompareAsWritten(Either, a, b) <==> CompareAsWritten(Ahead, a, b) || CompareAsWritten(Behind, a, b)
    ensures InSyncAsWritten(a, b) <==> !CompareAsWritten(Either, a, b)
  {
  }

  /** A branch 3 commits ahead and 1 behind is not found by `Behind` as written, though it is behind. */
  lemma DivergedBranchNotBehindAsWritten()
    ensures !CompareAsWritten(Behind, 3, 1) && IsOutdated(Behind, 3, 1)
  {
  }

  /** A branch 1 commit ahead and 1 behind counts as up to date as written, though it is not. */
  lemma DivergedBranchInSyncAsWritten()
    ensures InSyncAsWritten(1, 1) && !IsInSync(1, 1)
  {
  }

  /** The filters as meant: `Ahead` finds local commits, `Behind` upstream commits, `Either` any. */
  function IsOutdated(filter: OutdatedFilter, ahead: nat, behind: nat): bool
  {
    match filter
    case Ahead => ahead > 0
    case Either => ahead > 0 || behind > 0
    case Behind => behind > 0
  }

  /** Up to date as meant: nothing on either side. */
  function IsInSync(ahead: nat, behind: nat): (r: bool)
    ensures r <==> !IsOutdated(Either, ahead, behind)
  {
    ahead == 0 && behind == 0
  }

  /** `Either` is `Ahead` or `Behind`; `Ahead` and `Behind` are independent of each other. */
  lemma OutdatedFilters(ahead: nat, behind: nat)
    ensures IsOutdated(Either, ahead, behind) <==> IsOutdated(Ahead, ahead, behind) || IsOutdated(Behind, ahead, behind)
    ensures IsOutdated(Ahead, ahead, behind) <==> ahead > 0
    ensures IsOutdated(Behind, ahead, behind) <==> behind > 0
  {
  }

  /** A diverged branch, with commits on both sides, is found by every filter and is not up to date. */
  lemma DivergedIsOutdatedEveryWay(ahead: nat, behind: nat)
    requires ahead > 0 && behind > 0
    ensures IsOutdated(Ahead, ahead, behind) && IsOutdated(Behind, ahead, behind) && IsOutdated(Either, ahead, behind)
    ensures !IsInSync(ahead, behind)
  {
  }

  // ---------------------------------------------------------------- remotes

  /** A configured remote: whether `find_remote` finds it, and the errors of connecting and of fetching, if any. */
  datatype Remote = Remote(found: bool, connect: Option<GitError>, fetch: Option<GitError>)

  /** The remote gets as far as a fetch: found and connected. */
  predicate Reached(r: Remote)
  {
    r.found && r.connect.None?
  }

  /** `rs[k]` is the first remote whose fetch is attempted and fails. */
  predicate FirstFetchFailure(rs: seq<Remote>, k: int)
  {
    0 <= k < |rs| && Reached(rs[k]) && rs[k].fetch.Some? &&
    forall j :: 0 <= j < k ==> !(Reached(rs[j]) && rs[j].fetch.Some?)
  }

  /**
   * The loop of `fetch_all_remotes` over `authenticated_remotes`: unknown remotes are
   * passed over silently, a failed connection is printed and passed over, and the
   * first failed fetch is printed with its prefix and ends the loop.
   */
  function FetchEach(rs: seq<Remote>, path: string): (r: (Result<(), GitError>, seq<string>))
    ensures r.0.Err? <==> exists k :: FirstFetchFailure(rs, k)
    ensures r.0.Err? ==> exists k :: FirstFetchFailure(rs, k) && rs[k].fetch.value == r.0.error
  {
    if rs == [] then (Ok(()), [])
    else
      var rest := FetchEach(rs[1..], path);
      FetchEachTail(rs);
      if !rs[0].found then rest
      else if rs[0].connect.Some? then (rest.0, ErrLines(rs[0].connect.value, path, None) + rest.1)
      else if rs[0].fetch.Some? then
        assert FirstFetchFailure(rs, 0);
        (Err(rs[0].fetch.value), ErrLines(rs[0].fetch.value, path, Some("Couldn't fetch remote")))
      else rest
  }

  /** When the first remote does not fail a fetch, the first failure is that of the rest, one position later. */
  lemma FetchEachTail(rs: seq<Remote>)
    requires rs != []
    ensures !(Reached(rs[0]) && rs[0].fetch.Some?) ==>
      forall k :: FirstFetchFailure(rs[1..], k) ==> FirstFetchFailure(rs, k + 1)
    ensures !(Reached(rs[0]) && rs[0].fetch.Some?) ==>
      forall k :: FirstFetchFailure(rs, k) ==> k > 0 && FirstFetchFailure(rs[1..], k - 1)
    ensures forall k :: 0 <= k < |rs| - 1 ==> rs[1..][k] == rs[k + 1]
  {
    if !(Reached(rs[0]) && rs[0].fetch.Some?) {
      forall k | FirstFetchFailure(rs[1..], k) ensures FirstFetchFailure(rs, k + 1) {
        assert forall j :: 0 < j <= k ==> rs[j] == rs[1..][j - 1];
      }
      forall k | FirstFetchFailure(rs, k) ensures k > 0 && FirstFetchFailure(rs[1..], k - 1) {
        assert forall j :: 0 <= j < k - 1 ==> rs[1..][j] == rs[j + 1];
      }
    }
  }

  /** `fetch_all_remotes`: an unreadable remote list is printed with its own prefix and returned. */
  function FetchAll(remotes: Result<seq<Remote>, GitError>, path: string): (r: (Result<(), GitError>, seq<string>))
    ensures remotes.Err? ==> r.0 == Err(remotes.error)
    ensures remotes.Ok? ==> (r.0.Err? <==> exists k :: FirstFetchFailure(remotes.value, k))
  {
    match remotes
    case Err(e) => (Err(e), ErrLines(e, path, Some("Couldn't get remotes")))
    case Ok(rs) => FetchEach(rs, path)
  }

  /** The `for` loop of `fetch_all_remotes`, with its early return. */
  method FetchAllRemotes(remotes: Result<seq<Remote>, GitError>, path: string) returns (result: Result<(), GitError>, printed: seq<string>)
    ensures (result, printed) == FetchAll(remotes, path)
  {
    if remotes.Err? {
      return Err(remotes.error), ErrLines(remotes.error, path, Some("Couldn't get remotes"));
    }
    var rs := remotes.value;
    printed := [];
    var i := 0;
    assert rs[0..] == rs;
    assert printed + FetchEach(rs, path).1 == FetchEach(rs, path).1;
    while i < |rs|
      invariant 0 <= i <= |rs|
      invariant FetchAll(remotes, path) == (FetchEach(rs[i..], path).0, printed + FetchEach(rs[i..], path).1)
    {
      var remote := rs[i];
      ghost var rest := FetchEach(rs[i + 1..], path);
      assert rs[i..][0] == remote && rs[i..][1..] == rs[i + 1..];
      if remote.found {
        if remote.connect.Some? {
          var lines := ErrLines(remote.connect.value, path, None);
          assert FetchEach(rs[i..], path) == (rest.0, lines + rest.1);
          assert printed + (lines + rest.1) == (printed + lines) + rest.1;
          printed := printed + lines;
        } else if remote.fetch.Some? {
          return Err(remote.fetch.value), printed + ErrLines(remote.fetch.value, path, Some("Couldn't fetch remote"));
        } else {
          assert FetchEach(rs[i..], path) == rest;
        }
      } else {
        assert FetchEach(rs[i..], path) == rest;
      }
      i := i + 1;
    }
    assert rs[i..] == [];
    assert printed + [] == printed;
    return Ok(()), printed;
  }

  // ---------------------------------------------------------------- the commands

  /** What git2 reports about an opened repository. */
  datatype RepoFacts = RepoFacts(
    head: Result<Reference, GitError>,
    headDetached: Result<bool, GitError>,
    statuses: Result<nat, GitError>,
    remotes: Result<seq<Remote>, GitError>,
    branches: Result<seq<BranchEntry>, GitError>)

  /** The `list_*` commands of src/commands/repos.rs, each one handler passed to `repos_handler`. */
  datatype Command =
    | ListRepos
    | ListDetached
    | ListWithErrors
    | ListBranched
    | ListInitOnly
    | ListWithBranch(branch: string)
    | ListUncommitted
    | ListWithoutRemotes
    | ListOutdated(filter: OutdatedFilter, onlyMain: bool)
    | ListUpToDate(onlyMain: bool)

  /** A handler's answer for one opened repository: found or not, an optional message, and what it printed. */
  datatype Verdict = Verdict(found: bool, message: Option<string>, printed: seq<string>)

  /** `find_local_branch` over readable branch entries: the first branch with exactly that name. */
  function FindBranch(entries: seq<BranchEntry>, name: string): (r: Option<LocalBranch>)
    ensures r.Some? ==> r.value.name == Some(name) && Ok(r.value) in entries
    ensures r.None? ==> forall e :: e in entries && e.Ok? ==> e.value.name != Some(name)
  {
    if entries == [] then None
    else if entries[0].Ok? && entries[0].value.name == Some(name) then Some(entries[0].value)
    else
      assert forall e :: e in entries ==> e == entries[0] || e in entries[1..];
      FindBranch(entries[1..], name)
  }

  /** `find_local_branch`: an unreadable branch list is the error. */
  function FindLocalBranch(branches: Result<seq<BranchEntry>, GitError>, name: string): (r: Result<Option<LocalBranch>, GitError>)
    ensures r.Err? <==> branches.Err?
    ensures r.Ok? ==> r.value == FindBranch(branches.value, name)
  {
    match branches
    case Err(e) => Err(e)
    case Ok(entries) => Ok(FindBranch(entries, name))
  }

  /** A handler answering "not found" after printing an error. */
  function Failed(err: GitError, path: string): Verdict
  {
    Verdict(false, None, ErrLines(err, path, None))
  }

  /** The branch check shared by `list_outdated_repos` and `list_up_to_date_repos`. */
  function BranchCheck(facts: RepoFacts, path: string, onlyMain: bool, any: bool, test: (nat, nat) -> bool): Verdict
  {
    var fetched := FetchAll(facts.remotes, path);
    if fetched.0.Err? then
      var v := Failed(fetched.0.error, path);
      v.(printed := fetched.1 + v.printed)
    else if facts.branches.Err? then
      var v := Failed(facts.branches.error, path);
      v.(printed := fetched.1 + v.printed)
    else
      var entries := FilterMainBranches(facts.branches.value, onlyMain);
      var r := if any then AnyBranch(entries, test, path) else AllBranches(entries, test, path);
      Verdict(r.0, None, fetched.1 + r.1)
  }

  /** The handler each command passes to `repos_handler`. */
  function Handle(cmd: Command, facts: RepoFacts, path: string): (v: Verdict)
    ensures cmd == ListRepos ==> v.found
    ensures cmd == ListWithErrors ==> !v.found
    ensures cmd == ListInitOnly ==> (v.found <==> RepoIsInitOnly(facts.head))
    ensures cmd == ListWithoutRemotes ==> (v.found <==> facts.remotes == Ok([]) && !RepoIsInitOnly(facts.head))
    ensures cmd.ListBranched? ==> (v.found <==> RepoIsBranched(facts.head, path).0 == Some(true))
    ensures cmd.ListWithBranch? ==>
      (v.found <==> facts.branches.Ok? && exists e :: e in facts.branches.value && e.Ok? && e.value.name == Some(cmd.branch))
    ensures cmd == ListDetached ==> (v.found <==> facts.headDetached == Ok(true))
    ensures cmd.ListUncommitted? ==> (v.found <==> facts.statuses.Ok? && facts.statuses.value > 0)
    ensures cmd.ListOutdated? ==>
      (v.found <==>
        FetchAll(facts.remotes, path).0.Ok? && facts.branches.Ok? &&
        exists c :: c in Considered(FilterMainBranches(facts.branches.value, cmd.onlyMain)) && IsOutdated(cmd.filter, c.0, c.1))
    ensures cmd.ListUpToDate? ==>
      (v.found <==>
        FetchAll(facts.remotes, path).0.Ok? && facts.branches.Ok? &&
        forall c :: c in Considered(FilterMainBranches(facts.branches.value, cmd.onlyMain)) ==> IsInSync(c.0, c.1))
  {
    match cmd
    case ListRepos => Verdict(true, None, [])
    case ListDetached =>
      if facts.headDetached.Err? then Failed(facts.headDetached.error, path)
      else Verdict(facts.headDetached.value, None, [])
    case ListWithErrors => Verdict(false, None, [])
    case ListBranched =>
      var b := RepoIsBranched(facts.head, path);
      Verdict(b.0 == Some(true), None, b.1)
    case ListInitOnly =>
      var initOnly := RepoIsInitOnly(facts.head);
      Verdict(initOnly, None, if initOnly then [path] else [])
    case ListWithBranch(name) =>
      var found := FindLocalBranch(facts.branches, name);
      if found.Err? then Failed(found.error, path) else Verdict(found.value.Some?, None, [])
    case ListUncommitted =>
      if facts.statuses.Err? then Failed(facts.statuses.error, path)
      else
        var changes := facts.statuses.value;
        Verdict(changes > 0, Some("changes: " + NatToString(changes)), [])
    case ListWithoutRemotes =>
      if facts.remotes.Err? then Failed(facts.remotes.error, path)
      else Verdict(facts.remotes.value == [] && !RepoIsInitOnly(facts.head), None, [])
    case ListOutdated(filter, onlyMain) =>
      BranchCheck(facts, path, onlyMain, true, (a: nat, b: nat) => IsOutdated(filter, a, b))
    case ListUpToDate(onlyMain) =>
      BranchCheck(facts, path, onlyMain, false, (a: nat, b: nat) => IsInSync(a, b))
  }

  /**
   * The handler as written: identical to `Handle` except that `list_outdated_repos` and
   * `list_up_to_date_repos` pass the closures that compare the two counts with each other.
   */
  function HandleAsWritten(cmd: Command, facts: RepoFacts, path: string): (v: Verdict)
    ensures !cmd.ListOutdated? && !cmd.ListUpToDate? ==> v == Handle(cmd, facts, path)
    ensures cmd.ListOutdated? ==>
      (v.found <==>
        FetchAll(facts.remotes, path).0.Ok? && facts.branches.Ok? &&
        exists c :: c in Considered(FilterMainBranches(facts.branches.value, cmd.onlyMain)) && CompareAsWritten(cmd.filter, c.0, c.1))
    ensures cmd.ListUpToDate? ==>
      (v.found <==>
        FetchAll(facts.remotes, path).0.Ok? && facts.branches.Ok? &&
        forall c :: c in Considered(FilterMainBranches(facts.branches.value, cmd.onlyMain)) ==> InSyncAsWritten(c.0, c.1))
  {
    match cmd
    case ListOutdated(filter, onlyMain) =>
      BranchCheck(facts, path, onlyMain, true, (a: nat, b: nat) => CompareAsWritten(filter, a, b))
    case ListUpToDate(onlyMain) =>
      BranchCheck(facts, path, onlyMain, false, (a: nat, b: nat) => InSyncAsWritten(a, b))
    case _ => Handle(cmd, facts, path)
  }

  /** A repository with no remotes and one branch whose counts against its upstream are `ahead` and `behind`. */
  function OneBranchRepo(ahead: nat, behind: nat): (facts: RepoFacts)
    ensures facts.remotes == Ok([]) && facts.branches.Ok? && |facts.branches.value| == 1
    ensures Counts(facts.branches.value[0]) == Some((ahead, behind))
  {
    var b := LocalBranch(Some("main"), Some("t"), Some(Some("u")), Ok((ahead, behind)));
    RepoFacts(Err(GitError(OtherCode, "")), Ok(false), Ok(0), Ok([]), Ok([Ok(b)]))
  }

  /** The only considered counts of such a repository are its branch's. */
  lemma OneBranchConsidered(ahead: nat, behind: nat, onlyMain: bool)
    ensures FetchAll(OneBranchRepo(ahead, behind).remotes, "r").0.Ok?
    ensures Considered(FilterMainBranches(OneBranchRepo(ahead, behind).branches.value, onlyMain)) == [(ahead, behind)]
  {
    var entries := OneBranchRepo(ahead, behind).branches.value;
    assert MainOrMaster("main");
    assert FilterMainBranches(entries, onlyMain) == entries;
    assert entries[1..] == [];
  }

  /** As written, `list_outdated_repos --behind` skips a repository whose branch is 3 ahead and 1 behind; as meant, it lists it. */
  lemma HandleAsWrittenMissesDivergedBehind()
    ensures !HandleAsWritten(ListOutdated(Behind, false), OneBranchRepo(3, 1), "r").found
    ensures Handle(ListOutdated(Behind, false), OneBranchRepo(3, 1), "r").found
  {
    OneBranchConsidered(3, 1, false);
  }

  /** As written, `list_up_to_date_repos` lists a repository whose branch is 1 ahead and 1 behind; as meant, it does not. */
  lemma HandleAsWrittenListsDivergedUpToDate()
    ensures HandleAsWritten(ListUpToDate(false), OneBranchRepo(1, 1), "r").found
    ensures !Handle(ListUpToDate(false), OneBranchRepo(1, 1), "r").found
  {
    OneBranchConsidered(1, 1, false);
    assert (1, 1) in Considered(FilterMainBranches(OneBranchRepo(1, 1).branches.value, false));
  }

  /** Only `list_repos_with_uncommitted_changes` attaches a message: the number of changes. */
  lemma HandleMessage(cmd: Command, facts: RepoFacts, path: string)
    ensures cmd.ListUncommitted? && facts.statuses.Ok? ==>
      Handle(cmd, facts, path).message == Some("changes: " + NatToString(facts.statuses.value))
    ensures !(cmd.ListUncommitted? && facts.statuses.Ok?) ==> Handle(cmd, facts, path).message == None
  {
  }

  /**
   * What a handler prints when a git call fails: the error line of that failure, after the
   * lines the remote fetches printed for the two branch checks; nothing otherwise for the
   * commands that print only on failure.
   */
  lemma HandleFailureLines(cmd: Command, facts: RepoFacts, path: string)
    ensures cmd == ListBranched ==> Handle(cmd, facts, path).printed == RepoIsBranched(facts.head, path).1
    ensures cmd == ListBranched && facts.head.Err? ==> Handle(cmd, facts, path).printed == ErrLines(facts.head.error, path, None)
    ensures cmd == ListDetached ==>
      Handle(cmd, facts, path).printed == if facts.headDetached.Err? then ErrLines(facts.headDetached.error, path, None) else []
    ensures cmd.ListWithBranch? ==>
      Handle(cmd, facts, path).printed == if facts.branches.Err? then ErrLines(facts.branches.error, path, None) else []
    ensures cmd == ListUncommitted ==>
      Handle(cmd, facts, path).printed == if facts.statuses.Err? then ErrLines(facts.statuses.error, path, None) else []
    ensures cmd == ListWithoutRemotes ==>
      Handle(cmd, facts, path).printed == if facts.remotes.Err? then ErrLines(facts.remotes.error, path, None) else []
    ensures (cmd.ListOutdated? || cmd.ListUpToDate?) && FetchAll(facts.remotes, path).0.Err? ==>
      var fetched := FetchAll(facts.remotes, path);
      Handle(cmd, facts, path).printed == fetched.1 + ErrLines(fetched.0.error, path, None)
    ensures (cmd.ListOutdated? || cmd.ListUpToDate?) && FetchAll(facts.remotes, path).0.Ok? && facts.branches.Err? ==>
      Handle(cmd, facts, path).printed == FetchAll(facts.remotes, path).1 + ErrLines(facts.branches.error, path, None)
  {
  }

  /** The line each command prints when nothing was found. */
  function NotFoundText(cmd: Command): string
  {
    match cmd
    case ListRepos => "Did not find any repos"
    case ListDetached => "Did not find any detached repos"
    case ListWithErrors => "Did not find any repos with errors"
    case ListBranched => "Did not find any repos that are in branch"
    case ListInitOnly => "Did not find any init only repos"
    case ListWithBranch(name) => "Did not find any repos with a \"" + name + "\" branch"
    case ListUncommitted => "Did not find any repos with uncommitted changes"
    case ListWithoutRemotes => "Did not find any repos with out remotes"
    case ListOutdated(_, _) => "Did not find any outdated repos"
    case ListUpToDate(_) => "Did not find any up-to-date repos"
  }

  /** One item of the repository walk: the result of opening the repository, and its path text. */
  datatype Opened = Opened(repo: Result<RepoFacts, GitError>, path: string)

  /**
   * The body of `repos_handler`'s loop for one repository: whether it sets `found`,
   * and what it prints. An open failure only matters to `list_repos_with_errors`,
   * whose `on_error` prints it and counts it as found; a found repository prints
   * "<path> - <branch name>[; <message>]", or the error of reading its head.
   */
  function Outcome(cmd: Command, item: Opened): (r: (bool, seq<string>))
    ensures item.repo.Err? ==> (r.0 <==> cmd == ListWithErrors)
    ensures item.repo.Ok? ==> (r.0 <==> Handle(cmd, item.repo.value, item.path).found)
  {
    match item.repo
    case Err(e) =>
      if cmd == ListWithErrors then (true, ErrLines(e, item.path, None)) else (false, [])
    case Ok(facts) =>
      var v := Handle(cmd, facts, item.path);
      if !v.found then (false, v.printed)
      else
        match facts.head
        case Err(e) => (true, v.printed + ErrLines(e, item.path, None))
        case Ok(reference) =>
          var suffix := if v.message.Some? then "; " + v.message.value else "";
          (true, v.printed + [item.path + " - " + ShowBranchName(GetBranchName(reference)) + suffix])
  }

  /**
   * The lines one repository prints: an open failure only for the errors listing; an
   * opened repository its handler's lines, then, when found, "<path> - <branch>" with
   * "; <message>" after it if the handler gave one, or the error of a failing `head()`.
   */
  lemma OutcomeLines(cmd: Command, item: Opened)
    ensures item.repo.Err? ==>
      Outcome(cmd, item).1 == if cmd == ListWithErrors then ErrLines(item.repo.error, item.path, None) else []
    ensures item.repo.Ok? && !Handle(cmd, item.repo.value, item.path).found ==>
      Outcome(cmd, item).1 == Handle(cmd, item.repo.value, item.path).printed
    ensures item.repo.Ok? && Handle(cmd, item.repo.value, item.path).found && item.repo.value.head.Err? ==>
      Outcome(cmd, item).1 == Handle(cmd, item.repo.value, item.path).printed + ErrLines(item.repo.value.head.error, item.path, None)
    ensures item.repo.Ok? && Handle(cmd, item.repo.value, item.path).found && item.repo.value.head.Ok? ==>
      var v := Handle(cmd, item.repo.value, item.path);
      Outcome(cmd, item).1 ==
        v.printed + [item.path + " - " + ShowBranchName(GetBranchName(item.repo.value.head.value)) + (if v.message.Some? then "; " + v.message.value else "")]
  {
  }

  /** A repository on branch "main" with two uncommitted changes. */
  function TwoChangesOnMain(): (facts: RepoFacts)
    ensures facts.statuses == Ok(2) && facts.head.Ok?
    ensures GetBranchName(facts.head.value) == Branch("main")
  {
    RepoFacts(Ok(Reference(Some("refs/heads/main"), Some("main"), Some("t"))), Ok(false), Ok(2), Ok([]), Ok([]))
  }

  lemma TwoChangesLine()
    ensures "r" + " - " + ("branch: " + "main") + ("; " + ("changes: " + NatToString(2))) == "r - branch: main; changes: 2"
  {
    assert NatToString(2) == "2";
  }

  /** The uncommitted-changes listing prints "r - branch: main; changes: 2" for such a repository at "r". */
  lemma OutcomeUncommittedExample()
    ensures Outcome(ListUncommitted, Opened(Ok(TwoChangesOnMain()), "r")) == (true, ["r - branch: main; changes: 2"])
  {
    var facts := TwoChangesOnMain();
    var v := Handle(ListUncommitted, facts, "r");
    assert v == Verdict(true, Some("changes: " + NatToString(2)), []);
    OutcomeLines(ListUncommitted, Opened(Ok(facts), "r"));
    TwoChangesLine();
    assert [] + ["r" + " - " + ("branch: " + "main") + ("; " + ("changes: " + NatToString(2)))] == ["r - branch: main; changes: 2"];
  }

  /** Everything the repositories print, in walk order. */
  function AllLines(cmd: Command, items: seq<Opened>): seq<string>
  {
    if items == [] then [] else AllLines(cmd, items[..|items| - 1]) + Outcome(cmd, items[|items| - 1]).1
  }

  /** Whether each repository sets `found`, in walk order. */
  function FoundFlags(cmd: Command, items: seq<Opened>): (r: seq<bool>)
    ensures |r| == |items|
  {
    if items == [] then [] else FoundFlags(cmd, items[..|items| - 1]) + [Outcome(cmd, items[|items| - 1]).0]
  }

  /** Some repository sets `found`. */
  predicate AnyFound(cmd: Command, items: seq<Opened>)
  {
    true in FoundFlags(cmd, items)
  }

  /** The flag at each position is that repository's own outcome. */
  lemma {:induction false} FoundFlagsAt(cmd: Command, items: seq<Opened>, k: int)
    requires 0 <= k < |items|
    ensures FoundFlags(cmd, items)[k] == Outcome(cmd, items[k]).0
    decreases |items|
  {
    var init := items[..|items| - 1];
    var flags := FoundFlags(cmd, init);
    var last := Outcome(cmd, items[|items| - 1]).0;
    assert FoundFlags(cmd, items) == flags + [last];
    if k < |init| {
      FoundFlagsAt(cmd, init, k);
      assert init[k] == items[k];
      assert (flags + [last])[k] == flags[k];
    } else {
      assert (flags + [last])[k] == last;
    }
  }

  /** Some repository sets `found` exactly when one of them has that outcome. */
  lemma AnyFoundExists(cmd: Command, items: seq<Opened>)
    ensures AnyFound(cmd, items) <==> exists k :: 0 <= k < |items| && Outcome(cmd, items[k]).0
  {
    var flags := FoundFlags(cmd, items);
    if AnyFound(cmd, items) {
      var k :| 0 <= k < |flags| && flags[k];
      FoundFlagsAt(cmd, items, k);
    }
    if exists k :: 0 <= k < |items| && Outcome(cmd, items[k]).0 {
      var k :| 0 <= k < |items| && Outcome(cmd, items[k]).0;
      FoundFlagsAt(cmd, items, k);
      assert flags[k];
    }
  }

  /** What one more repository adds to the output. */
  lemma OneMoreLines(cmd: Command, items: seq<Opened>, i: int)
    requires 0 <= i < |items|
    ensures AllLines(cmd, items[..i + 1]) == AllLines(cmd, items[..i]) + Outcome(cmd, items[i]).1
  {
    var next := items[..i + 1];
    assert next[..|next| - 1] == items[..i];
    assert next[|next| - 1] == items[i];
  }

  /** What one more repository adds to `found`. */
  lemma OneMoreFound(cmd: Command, items: seq<Opened>, i: int)
    requires 0 <= i < |items|
    ensures AnyFound(cmd, items[..i + 1]) <==> AnyFound(cmd, items[..i]) || Outcome(cmd, items[i]).0
  {
    var next := items[..i + 1];
    assert next[..|next| - 1] == items[..i];
    assert next[|next| - 1] == items[i];
    var flags := FoundFlags(cmd, items[..i]);
    var b := Outcome(cmd, items[i]).0;
    assert FoundFlags(cmd, next) == flags + [b];
    assert (true in flags + [b]) <==> (true in flags) || b;
  }

  /**
   * `repos_handler`, taking the repositories one after the other: each prints its
   * lines, and the command's "not found" line closes the output iff none was found.
   */
  method ReposHandler(cmd: Command, items: seq<Opened>) returns (output: seq<string>)
    ensures output == AllLines(cmd, items) + if AnyFound(cmd, items) then [] else [NotFoundText(cmd)]
  {
    var found := false;
    output := [];
    for i := 0 to |items|
      invariant output == AllLines(cmd, items[..i])
      invariant found <==> AnyFound(cmd, items[..i])
    {
      var lines := Outcome(cmd, items[i]);
      if lines.0 {
        found := true;
      }
      output := output + lines.1;
      OneMoreLines(cmd, items, i);
      OneMoreFound(cmd, items, i);
    }
    assert items[..|items|] == items;
    if !found {
      output := output + [NotFoundText(cmd)];
    }
  }

  /** `list_repos_with_errors` finds exactly the repositories that fail to open. */
  lemma WithErrorsFindsOpenFailures(items: seq<Opened>)
    ensures AnyFound(ListWithErrors, items) <==> exists k :: 0 <= k < |items| && items[k].repo.Err?
  {
    if exists k :: 0 <= k < |items| && items[k].repo.Err? {
      var k :| 0 <= k < |items| && items[k].repo.Err?;
      assert Outcome(ListWithErrors, items[k]).0;
    }
    AnyFoundExists(ListWithErrors, items);
  }

  /** An init-only repository is listed by its path alone: the head it lacks prints nothing. */
  lemma InitOnlyPrintsPath(facts: RepoFacts, path: string)
    requires RepoIsInitOnly(facts.head)
    ensures Outcome(ListInitOnly, Opened(Ok(facts), path)) == (true, [path])
  {
    var v := Handle(ListInitOnly, facts, path);
    assert v == Verdict(true, None, [path]);
    assert ErrLines(facts.head.error, path, None) == [];
    assert v.printed + [] == [path];
  }

  /** Listing up-to-date repositories holds vacuously for a repository none of whose branches is considered. */
  lemma UpToDateWithoutBranches(facts: RepoFacts, path: string, onlyMain: bool)
    requires FetchAll(facts.remotes, path).0.Ok? && facts.branches.Ok?
    requires Considered(FilterMainBranches(facts.branches.value, onlyMain)) == []
    ensures Handle(ListUpToDate(onlyMain), facts, path).found
    ensures !Handle(ListOutdated(Either, onlyMain), facts, path).found
  {
  }
}
