/**
 * The checks of src/utils/validation.rs on the platform configuration and on a
 * platform filter: case-insensitive uniqueness, the per-platform check, the
 * diagnostic message assembled line by line, and the filter check.
 */
module Validation {
  import opened Wrappers
  import opened Text
  import opened Platforms
  import Display
  import CliSelection

  // ---------------------------------------------------------------- uniqueness

  /** The keys of the values, as a `HashSet` collects them. */
  function KeySet<T, K(==,!new)>(values: seq<T>, key: T -> K): (r: set<K>)
    ensures forall x :: x in r <==> exists k :: 0 <= k < |values| && key(values[k]) == x
  {
    if values == [] then {}
    else
      var rest := KeySet(values[1..], key);
      assert forall k :: 1 <= k < |values| ==> values[k] == values[1..][k - 1];
      {key(values[0])} + rest
  }

  /** No two values have the same key. */
  ghost predicate DistinctKeys<T, K>(values: seq<T>, key: T -> K)
  {
    forall i, j :: 0 <= i < j < |values| ==> key(values[i]) != key(values[j])
  }

  /** Distinct keys for a list are distinct keys for its tail plus a first key that no later value has. */
  lemma DistinctKeysCons<T, K(!new)>(values: seq<T>, key: T -> K)
    requires values != []
    ensures DistinctKeys(values, key) <==>
      DistinctKeys(values[1..], key) && key(values[0]) !in KeySet(values[1..], key)
  {
    var rest := values[1..];
    if DistinctKeys(values, key) {
      forall i, j | 0 <= i < j < |rest| ensures key(rest[i]) != key(rest[j]) {
        assert values[i + 1] == rest[i] && values[j + 1] == rest[j];
      }
    }
    if DistinctKeys(rest, key) && key(values[0]) !in KeySet(rest, key) {
      forall i, j | 0 <= i < j < |values| ensures key(values[i]) != key(values[j]) {
        assert values[j] == rest[j - 1];
        if i > 0 {
          assert values[i] == rest[i - 1];
        }
      }
    }
  }

  /** The set of keys is as large as the list exactly when no two values share a key. */
  lemma {:induction false} KeySetSize<T, K(!new)>(values: seq<T>, key: T -> K)
    ensures |KeySet(values, key)| <= |values|
    ensures |KeySet(values, key)| == |values| <==> DistinctKeys(values, key)
  {
    if values != [] {
      var rest := values[1..];
      KeySetSize(rest, key);
      DistinctKeysCons(values, key);
      var x := key(values[0]);
      assert KeySet(values, key) == {x} + KeySet(rest, key);
      if x in KeySet(rest, key) {
        assert {x} + KeySet(rest, key) == KeySet(rest, key);
      } else {
        assert |{x} + KeySet(rest, key)| == |KeySet(rest, key)| + 1;
      }
    }
  }

  /** No two values are equal once lower-cased. */
  predicate NoTwoAlike(values: seq<string>)
  {
    forall i, j :: 0 <= i < j < |values| ==> Lower(values[i]) != Lower(values[j])
  }

  /** `validate_unique_values`: the set of lower-cased values is as large as the list. */
  function ValidateUniqueValues(values: seq<string>): (r: bool)
    ensures r <==> NoTwoAlike(values)
  {
    KeySetSize(values, Lower);
    assert DistinctKeys(values, Lower) <==> NoTwoAlike(values);
    |KeySet(values, Lower)| == |values|
  }

  // ---------------------------------------------------------------- one platform

  /** `validate_platform`: a name without spaces and at least one build-artifact folder. */
  function ValidatePlatform(p: Platform): (r: bool)
    ensures r <==> ' ' !in p.name && |p.folders| >= 1
  {
    ' ' !in p.name && p.folders != []
  }

  // ---------------------------------------------------------------- all platforms

  function Names(ps: seq<Platform>): (r: seq<string>)
    ensures |r| == |ps| && forall k :: 0 <= k < |ps| ==> r[k] == ps[k].name
  {
    seq(|ps|, k requires 0 <= k < |ps| => ps[k].name)
  }

  predicate HasSpaces(ps: seq<Platform>)
  {
    exists k :: 0 <= k < |ps| && ' ' in ps[k].name
  }

  predicate NamesNotUnique(ps: seq<Platform>)
  {
    !ValidateUniqueValues(Names(ps))
  }

  predicate NoBuilds(ps: seq<Platform>)
  {
    exists k :: 0 <= k < |ps| && ps[k].folders == []
  }

  predicate BuildsNotUnique(ps: seq<Platform>)
  {
    exists k :: 0 <= k < |ps| && !ValidateUniqueValues(ps[k].folders)
  }

  predicate AssociatedNotUnique(ps: seq<Platform>)
  {
    exists k :: 0 <= k < |ps| && !ValidateUniqueValues(ps[k].associated)
  }

  /** A line naming a subject and one or two complaints about it, joined by " and ". */
  function Clause(subject: string, first: bool, firstText: string, second: bool, secondText: string): (r: string)
    ensures |r| >= |subject|
  {
    if first && second then subject + firstText + " and " + secondText
    else if first then subject + firstText
    else if second then subject + secondText
    else subject
  }

  const NamesSubject: string := "* Platform names "
  const NamesSpaces: string := "can not contain spaces"
  const NamesUnique: string := "must be unique"
  const BuildsSubject: string := "* Platform build artifacts "
  const BuildsNone: string := "require at lease one value"
  const BuildsUnique: string := "must be unique"
  const AssociatedLine: string := "* Platform associated files and folders must be unique"
  const ManualFix: string := "\n\nConfigurations file requires manual fix: "

  /** The diagnostic lines, in order: names, build artifacts, associated values. */
  function Problems(ps: seq<Platform>): seq<string>
  {
    ProblemLines(HasSpaces(ps), NamesNotUnique(ps), NoBuilds(ps), BuildsNotUnique(ps), AssociatedNotUnique(ps))
  }

  /** The diagnostic lines for the five flags; no line is empty. */
  function ProblemLines(spaces: bool, namesNotUnique: bool, noBuilds: bool, buildsNotUnique: bool, associatedNotUnique: bool): (r: seq<string>)
    ensures forall k :: 0 <= k < |r| ==> r[k] != ""
    ensures r == [] <==> !(spaces || namesNotUnique || noBuilds || buildsNotUnique || associatedNotUnique)
  {
    NamesLines(spaces, namesNotUnique) + BuildsLines(noBuilds, buildsNotUnique) + AssociatedLines(associatedNotUnique)
  }

  function NamesLines(spaces: bool, namesNotUnique: bool): (r: seq<string>)
    ensures |r| <= 1 && (r == [] <==> !(spaces || namesNotUnique)) && forall k :: 0 <= k < |r| ==> r[k] != ""
  {
    if spaces || namesNotUnique then [Clause(NamesSubject, spaces, NamesSpaces, namesNotUnique, NamesUnique)] else []
  }

  function BuildsLines(noBuilds: bool, buildsNotUnique: bool): (r: seq<string>)
    ensures |r| <= 1 && (r == [] <==> !(noBuilds || buildsNotUnique)) && forall k :: 0 <= k < |r| ==> r[k] != ""
  {
    if noBuilds || buildsNotUnique then [Clause(BuildsSubject, noBuilds, BuildsNone, buildsNotUnique, BuildsUnique)] else []
  }

  function AssociatedLines(associatedNotUnique: bool): (r: seq<string>)
    ensures |r| <= 1 && (r == [] <==> !associatedNotUnique) && forall k :: 0 <= k < |r| ==> r[k] != ""
  {
    if associatedNotUnique then [AssociatedLine] else []
  }

  /** The message `validate_platforms` shows before exiting; empty when nothing is wrong. */
  function ValidationMessage(ps: seq<Platform>, configPath: string): string
  {
    Message(Problems(ps), configPath)
  }

  /** The diagnostic lines one per line, then the path of the configuration file to fix; nothing when there is no line. */
  function Message(lines: seq<string>, configPath: string): string
  {
    if lines == [] then "" else Join(lines, "\n") + ManualFix + configPath
  }

  /** Every platform is valid on its own, and names, folders and associated values are unique where they must be. */
  predicate AllValid(ps: seq<Platform>)
  {
    (forall k :: 0 <= k < |ps| ==> ValidatePlatform(ps[k])) &&
    NoTwoAlike(Names(ps)) &&
    (forall k :: 0 <= k < |ps| ==> NoTwoAlike(ps[k].folders) && NoTwoAlike(ps[k].associated))
  }

  /** The message is empty exactly when the configuration is valid. */
  lemma MessageEmptyIffValid(ps: seq<Platform>, configPath: string)
    ensures ValidationMessage(ps, configPath) == "" <==> AllValid(ps)
  {
    if ValidationMessage(ps, configPath) == "" {
      assert Problems(ps) == [];
      forall k | 0 <= k < |ps| ensures ValidatePlatform(ps[k]) {
        assert ' ' !in ps[k].name;
        assert ps[k].folders != [];
      }
    }
    if Problems(ps) != [] {
      assert |ValidationMessage(ps, configPath)| >= |ManualFix|;
    }
  }

  /** The text appended so far ends in 's' exactly when the spaces complaint was appended. */
  lemma NamesLineEnding(hasSpaces: bool)
    ensures var m := NamesSubject + (if hasSpaces then NamesSpaces else "");
      m != "" && (m[|m| - 1] == 's' <==> hasSpaces)
  {
  }

  /** The first block of `validate_platforms`: the names line, pushed piece by piece onto an empty message. */
  method NamesComplaint(hasSpaces: bool, notUniqueNames: bool) returns (message: string)
    ensures message == Join(NamesLines(hasSpaces, notUniqueNames), "\n")
  {
    message := "";
    if notUniqueNames || hasSpaces {
      message := message + NamesSubject;
      assert message == NamesSubject;
      if hasSpaces {
        message := message + NamesSpaces;
      }
      if notUniqueNames {
        NamesLineEnding(hasSpaces);
        if message[|message| - 1] == 's' {
          message := message + " and ";
        }
        message := message + NamesUnique;
      }
    }
  }

  /** The pieces of the second block of `validate_platforms`, the build-artifacts line. */
  method BuildsComplaint(noBuilds: bool, buildsNotUnique: bool) returns (line: string)
    requires noBuilds || buildsNotUnique
    ensures [line] == BuildsLines(noBuilds, buildsNotUnique)
  {
    line := BuildsSubject;
    if noBuilds {
      line := line + BuildsNone;
    }
    if buildsNotUnique {
      if noBuilds {
        line := line + " and ";
      }
      line := line + BuildsUnique;
    }
  }

  /** A later block of `validate_platforms`: a line break when the message is not empty, then the line. */
  method PushLine(message: string, ghost lines: seq<string>, line: string) returns (extended: string)
    requires message == Join(lines, "\n") && forall k :: 0 <= k < |lines| ==> lines[k] != ""
    ensures extended == Join(lines + [line], "\n")
  {
    AppendLine(lines, line);
    extended := message;
    if extended != "" {
      extended := extended + "\n";
    }
    extended := extended + line;
  }

  /** `validate_platforms`' message: the flags computed from the platforms, then the message assembled from them. */
  method ValidatePlatforms(ps: seq<Platform>, configPath: string) returns (message: string)
    ensures message == ValidationMessage(ps, configPath)
  {
    var hasSpaces := HasSpaces(ps);
    var notUniqueNames := NamesNotUnique(ps);
    var noBuilds := NoBuilds(ps);
    var buildsNotUnique := BuildsNotUnique(ps);
    var associatedNotUnique := AssociatedNotUnique(ps);
    message := ComposeMessage(hasSpaces, notUniqueNames, noBuilds, buildsNotUnique, associatedNotUnique, configPath);
  }

  /** The `push_str` steps of `validate_platforms`: the names line, the build-artifacts line and the associated line, then the path to fix. */
  method ComposeMessage(hasSpaces: bool, notUniqueNames: bool, noBuilds: bool, buildsNotUnique: bool, associatedNotUnique: bool, configPath: string)
    returns (message: string)
    ensures message == Message(ProblemLines(hasSpaces, notUniqueNames, noBuilds, buildsNotUnique, associatedNotUnique), configPath)
  {
    message := NamesComplaint(hasSpaces, notUniqueNames);
    ghost var lines := NamesLines(hasSpaces, notUniqueNames);
    if noBuilds || buildsNotUnique {
      var line := BuildsComplaint(noBuilds, buildsNotUnique);
      message := PushLine(message, lines, line);
      lines := lines + [line];
    }
    assert lines == NamesLines(hasSpaces, notUniqueNames) + BuildsLines(noBuilds, buildsNotUnique);
    if associatedNotUnique {
      message := PushLine(message, lines, AssociatedLine);
      lines := lines + [AssociatedLine];
    }
    assert lines == ProblemLines(hasSpaces, notUniqueNames, noBuilds, buildsNotUnique, associatedNotUnique);
    if message != "" {
      message := message + ManualFix + configPath;
    }
  }

  /** Appending a line to the joined lines, with a line break only after a non-empty text. */
  lemma AppendLine(lines: seq<string>, line: string)
    requires forall k :: 0 <= k < |lines| ==> lines[k] != ""
    ensures Join(lines + [line], "\n") == (if Join(lines, "\n") != "" then Join(lines, "\n") + "\n" else "") + line
  {
    Display.JoinSnoc(lines, line, "\n");
    if lines != [] {
      assert |Join(lines, "\n")| >= |lines[0]| by {
        JoinFirst(lines);
      }
    }
  }

  /** A join starts with its first piece. */
  lemma {:induction false} JoinFirst(lines: seq<string>)
    requires lines != []
    ensures |Join(lines, "\n")| >= |lines[0]|
  {
  }

  // ---------------------------------------------------------------- the filter

  /** Some platform's name equals the value, ignoring ASCII case. */
  predicate Supported(v: string, ps: seq<Platform>)
  {
    exists k :: 0 <= k < |ps| && EqIgnoreAsciiCase(ps[k].name, v)
  }

  /** The error `validate_platforms_filter` exits with for a non-empty list of unsupported values. */
  function FilterError(unsupported: seq<string>, ps: seq<Platform>): string
  {
    "Unsupported platform" + (if |unsupported| > 1 then "s" else "") + ": " + Display.Listed(unsupported) +
    "\nSupported Platforms: " + Display.Listed(Names(ps))
  }

  /** The error names one unsupported value after "platform", several after "platforms", then every supported name. */
  lemma FilterErrorText(unsupported: seq<string>, ps: seq<Platform>)
    requires unsupported != []
    ensures |unsupported| == 1 ==>
      FilterError(unsupported, ps) == "Unsupported platform: " + unsupported[0] + "\nSupported Platforms: " + Display.Listed(Names(ps))
    ensures |unsupported| > 1 ==>
      FilterError(unsupported, ps) == "Unsupported platforms: " + Display.Listed(unsupported) + "\nSupported Platforms: " + Display.Listed(Names(ps))
  {
    if |unsupported| == 1 {
      assert unsupported == [unsupported[0]];
      Display.ListedShort(unsupported[0]);
    }
  }

  /** The values the filter keeps as written: those that every platform name equals, ignoring ASCII case. */
  function UnsupportedAsWritten(values: seq<string>, ps: seq<Platform>): (r: seq<string>)
    ensures forall v :: v in r <==> v in values && forall k :: 0 <= k < |ps| ==> EqIgnoreAsciiCase(ps[k].name, v)
  {
    if values == [] then []
    else
      var rest := UnsupportedAsWritten(values[1..], ps);
      assert forall v :: v in values <==> v == values[0] || v in values[1..];
      if forall k :: 0 <= k < |ps| ==> EqIgnoreAsciiCase(ps[k].name, values[0]) then [values[0]] + rest else rest
  }

  /** One value on its own is kept as written iff every platform name equals it. */
  lemma UnsupportedAsWrittenOne(v: string, ps: seq<Platform>)
    ensures UnsupportedAsWritten([v], ps) == if forall k :: 0 <= k < |ps| ==> EqIgnoreAsciiCase(ps[k].name, v) then [v] else []
  {
    assert [v][1..] == [];
  }

  /** The filter judges each value alone and keeps the order: two runs of values give their results one after the other. */
  lemma {:induction false} UnsupportedAsWrittenAppend(xs: seq<string>, ys: seq<string>, ps: seq<Platform>)
    ensures UnsupportedAsWritten(xs + ys, ps) == UnsupportedAsWritten(xs, ps) + UnsupportedAsWritten(ys, ps)
  {
    if xs == [] {
      assert xs + ys == ys;
    } else {
      assert (xs + ys)[0] == xs[0];
      assert (xs + ys)[1..] == xs[1..] + ys;
      UnsupportedAsWrittenAppend(xs[1..], ys, ps);
    }
  }

  /**
   * `validate_platforms_filter` as written: `All` passes; an explicit list passes iff
   * every value differs from some platform name, and otherwise fails with the values
   * every platform name equals.
   */
  function ValidatePlatformsFilterAsWritten(filter: CliSelection.Selection, ps: seq<Platform>): (r: Option<string>)
    ensures r.None? <==>
      filter.All? || forall v :: v in filter.values ==> exists k :: 0 <= k < |ps| && !EqIgnoreAsciiCase(ps[k].name, v)
    ensures r.Some? ==> r == Some(FilterError(UnsupportedAsWritten(filter.values, ps), ps))
  {
    match filter
    case All => None
    case Select(values) =>
      var unsupported := UnsupportedAsWritten(values, ps);
      if unsupported == [] then None
      else
        assert unsupported[0] in unsupported;
        Some(FilterError(unsupported, ps))
  }

  /** The values no platform name equals, ignoring ASCII case, in order. */
  function Unsupported(values: seq<string>, ps: seq<Platform>): (r: seq<string>)
    ensures |r| <= |values|
    ensures forall v :: v in r <==> v in values && !Supported(v, ps)
  {
    if values == [] then []
    else
      var rest := Unsupported(values[1..], ps);
      assert forall v :: v in values <==> v == values[0] || v in values[1..];
      if !Supported(values[0], ps) then [values[0]] + rest else rest
  }

  /** One value on its own is listed iff no platform has it. */
  lemma UnsupportedOne(v: string, ps: seq<Platform>)
    ensures Unsupported([v], ps) == if Supported(v, ps) then [] else [v]
  {
    assert [v][1..] == [];
  }

  /** The values are judged one by one and keep their order and repeats: two runs of values give their results one after the other. */
  lemma {:induction false} UnsupportedAppend(xs: seq<string>, ys: seq<string>, ps: seq<Platform>)
    ensures Unsupported(xs + ys, ps) == Unsupported(xs, ps) + Unsupported(ys, ps)
  {
    if xs == [] {
      assert xs + ys == ys;
    } else {
      assert (xs + ys)[0] == xs[0];
      assert (xs + ys)[1..] == xs[1..] + ys;
      UnsupportedAppend(xs[1..], ys, ps);
    }
  }

  /** `validate_platforms_filter` as meant: an explicit list fails exactly when it holds a value no platform has. */
  function ValidatePlatformsFilter(filter: CliSelection.Selection, ps: seq<Platform>): (r: Option<string>)
    ensures r.None? <==> filter.All? || forall v :: v in filter.values ==> Supported(v, ps)
    ensures r.Some? ==> r == Some(FilterError(Unsupported(filter.values, ps), ps))
  {
    match filter
    case All => None
    case Select(values) =>
      var unsupported := Unsupported(values, ps);
      if unsupported == [] then None
      else
        assert unsupported[0] in unsupported;
        Some(FilterError(unsupported, ps))
  }

  const rust: Platform := Platform("Rust", ["target"], ["cargo.toml"])
  const web: Platform := Platform("Web", ["node_modules"], ["package.json"])

  /** As written, an unknown name slips through when there are two platforms... */
  lemma AsWrittenAcceptsUnknown()
    ensures ValidatePlatformsFilterAsWritten(CliSelection.Select(["Foo"]), [rust, web]).None?
    ensures ValidatePlatformsFilter(CliSelection.Select(["Foo"]), [rust, web]).Some?
  {
    assert ["Foo"][0] == "Foo" && ["Foo"][1..] == [];
    assert Lower("Rust") != Lower("Foo") by {
      assert Lower("Rust")[0] == 'r' && Lower("Foo")[0] == 'f';
    }
    assert !EqIgnoreAsciiCase([rust, web][0].name, "Foo");
    assert !EqIgnoreAsciiCase([rust, web][1].name, "Foo") by {
      assert Lower("Web")[0] == 'w';
    }
    assert !Supported("Foo", [rust, web]);
    assert "Foo" in ["Foo"];
    assert UnsupportedAsWritten(["Foo"], [rust, web]) == [];
  }

  /** ...and a known one, in another case, is refused when there is one platform. */
  lemma AsWrittenRefusesKnown()
    ensures ValidatePlatformsFilterAsWritten(CliSelection.Select(["rust"]), [rust]).Some?
    ensures ValidatePlatformsFilter(CliSelection.Select(["rust"]), [rust]).None?
  {
    assert Lower("Rust") == "rust" == Lower("rust");
    assert EqIgnoreAsciiCase([rust][0].name, "rust");
    assert UnsupportedAsWritten(["rust"], [rust]) == ["rust"];
  }
}
