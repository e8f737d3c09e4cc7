/**
 * `supported_platforms` from src/commands/supported.rs: lists the configured
 * platforms one block each, marking names that repeat (ignoring ASCII case) or
 * that hold a space.
 */
module Supported {
  import opened Text
  import opened Platforms
  import Display

  /** The platform names, lower-cased, in order. */
  function LowerNames(ps: seq<Platform>): (r: seq<string>)
    ensures |r| == |ps|
    ensures forall i :: 0 <= i < |ps| ==> r[i] == Lower(ps[i].name)
  {
    if ps == [] then [] else [Lower(ps[0].name)] + LowerNames(ps[1..])
  }

  /**
   * The fold that builds the `HashMap` of counts: each key, taken left to right,
   * gets an entry of 0 if it has none and then one more.
   */
  function Tally(keys: seq<string>): (r: map<string, nat>)
    ensures forall k :: k in r <==> k in keys
    ensures forall k :: k in r ==> r[k] == multiset(keys)[k]
  {
    if keys == [] then map[]
    else
      var init := keys[..|keys| - 1];
      var last := keys[|keys| - 1];
      assert keys == init + [last];
      var acc := Tally(init);
      acc[last := (if last in acc then acc[last] else 0) + 1]
  }

  /** The keys counted more than once: the `dupes` set. */
  function Dupes(ps: seq<Platform>): set<string>
  {
    var counts := Tally(LowerNames(ps));
    set k | k in counts && counts[k] > 1
  }

  /** A lower-cased name is in `dupes` exactly when it occurs more than once. */
  lemma InDupes(ps: seq<Platform>, k: string)
    ensures k in Dupes(ps) <==> multiset(LowerNames(ps))[k] > 1
  {
  }

  /** Some key sits at two different positions of the list. */
  predicate Repeated(keys: seq<string>, k: string)
  {
    exists i, j :: 0 <= i < j < |keys| && keys[i] == k && keys[j] == k
  }

  /** Counting more than one occurrence and finding two positions agree. */
  lemma {:induction false} CountRepeated(keys: seq<string>, k: string)
    ensures multiset(keys)[k] > 1 <==> Repeated(keys, k)
    decreases |keys|
  {
    if keys != [] {
      var tail := keys[1..];
      assert keys == [keys[0]] + tail;
      assert multiset(keys)[k] == (if keys[0] == k then 1 else 0) + multiset(tail)[k];
      CountRepeated(tail, k);
      if multiset(keys)[k] > 1 {
        if keys[0] == k {
          assert k in multiset(tail);
          var j :| 0 <= j < |tail| && tail[j] == k;
          assert keys[0] == k && keys[j + 1] == k;
        } else {
          var i, j :| 0 <= i < j < |tail| && tail[i] == k && tail[j] == k;
          assert keys[i + 1] == k && keys[j + 1] == k;
        }
      }
      if Repeated(keys, k) {
        var i, j :| 0 <= i < j < |keys| && keys[i] == k && keys[j] == k;
        if i == 0 {
          assert tail[j - 1] == k;
          assert k in multiset(tail);
        } else {
          assert tail[i - 1] == k && tail[j - 1] == k;
          assert Repeated(tail, k);
        }
      }
    }
  }

  const DuplicateLabel := " <<= duplicate platform name"
  const SpaceLabel := " <<= name contains space(s)"

  /** The `status` closure: the duplicate label wins over the space label; otherwise nothing. */
  function Status(dupes: set<string>, name: string): (r: string)
    ensures r == DuplicateLabel <==> Lower(name) in dupes
    ensures r == SpaceLabel <==> Lower(name) !in dupes && ' ' in name
    ensures r == "" <==> Lower(name) !in dupes && ' ' !in name
  {
    if Lower(name) in dupes then DuplicateLabel
    else if ' ' in name then SpaceLabel
    else ""
  }

  /** A name is marked a duplicate exactly when two platforms of the list have its lower-cased name. */
  lemma DuplicateMarked(ps: seq<Platform>, name: string)
    ensures Status(Dupes(ps), name) == DuplicateLabel <==>
      exists i, j :: 0 <= i < j < |ps| && Lower(ps[i].name) == Lower(name) && Lower(ps[j].name) == Lower(name)
  {
    InDupes(ps, Lower(name));
    CountRepeated(LowerNames(ps), Lower(name));
  }

  /** The three lines printed for one platform. */
  function Block(dupes: set<string>, p: Platform): (r: seq<string>)
    ensures |r| == 3
  {
    ["Platform: " + p.name + Status(dupes, p.name),
     "  Build Artifacts: " + Display.Listed(p.folders),
     "  Matched On: " + Display.Listed(p.associated)]
  }

  /** The three-line block of each platform, in order. */
  function Blocks(dupes: set<string>, ps: seq<Platform>): (r: seq<seq<string>>)
    ensures |r| == |ps|
    ensures forall i :: 0 <= i < |ps| ==> r[i] == Block(dupes, ps[i])
  {
    if ps == [] then [] else [Block(dupes, ps[0])] + Blocks(dupes, ps[1..])
  }

  /** Blocks of lines one after another, with a blank line between two blocks. */
  function Stack(blocks: seq<seq<string>>): seq<string>
  {
    if blocks == [] then []
    else
      Stack(blocks[..|blocks| - 1]) + (if |blocks| > 1 then [""] else []) + blocks[|blocks| - 1]
  }

  /** One more block adds a blank line, when there was a block before, and the block. */
  lemma StackSnoc(blocks: seq<seq<string>>, b: seq<string>)
    ensures Stack(blocks + [b]) == Stack(blocks) + (if blocks == [] then [] else [""]) + b
  {
    assert (blocks + [b])[..|blocks|] == blocks;
  }

  /** The prefix one longer is the prefix and the next element; the prefix of full length is the sequence. */
  lemma PrefixSnoc<T>(s: seq<T>, i: nat)
    requires i <= |s|
    ensures i < |s| ==> s[..i + 1] == s[..i] + [s[i]]
    ensures i == |s| ==> s[..i] == s
  {
  }

  /** Everything `supported_platforms` prints, one string per line. */
  function Report(ps: seq<Platform>): seq<string>
  {
    Stack(Blocks(Dupes(ps), ps))
  }

  /**
   * The layout of three-line blocks: block i at line 4 * i, in order, with a
   * blank line after every block but the last and nothing else.
   */
  lemma {:induction false} StackLayout(blocks: seq<seq<string>>)
    requires forall i :: 0 <= i < |blocks| ==> |blocks[i]| == 3
    ensures |Stack(blocks)| == if blocks == [] then 0 else 4 * |blocks| - 1
    ensures forall i :: 0 <= i < |blocks| ==> Stack(blocks)[4 * i..4 * i + 3] == blocks[i]
    ensures forall i :: 0 <= i < |blocks| - 1 ==> Stack(blocks)[4 * i + 3] == ""
    decreases |blocks|
  {
    if blocks != [] {
      var n := |blocks|;
      var init := blocks[..n - 1];
      StackLayout(init);
      var before := Stack(init);
      var r := Stack(blocks);
      var sep: seq<string> := if n > 1 then [""] else [];
      assert r == before + sep + blocks[n - 1];
      assert |before| + |sep| == 4 * (n - 1);
      forall i | 0 <= i < n
        ensures r[4 * i..4 * i + 3] == blocks[i]
      {
        if i < n - 1 {
          assert r[4 * i..4 * i + 3] == before[4 * i..4 * i + 3];
          assert init[i] == blocks[i];
        }
      }
      forall i | 0 <= i < n - 1
        ensures r[4 * i + 3] == ""
      {
        if i < n - 2 {
          assert r[4 * i + 3] == before[4 * i + 3];
        } else {
          assert r[4 * i + 3] == sep[0];
        }
      }
    }
  }

  /** Each block's first line names its platform and carries its status. */
  lemma ReportNamesPlatforms(ps: seq<Platform>, i: int)
    requires 0 <= i < |ps|
    ensures |Report(ps)| == 4 * |ps| - 1
    ensures Report(ps)[4 * i] == "Platform: " + ps[i].name + Status(Dupes(ps), ps[i].name)
  {
    var blocks := Blocks(Dupes(ps), ps);
    StackFirstLine(blocks, i);
    assert blocks[i] == Block(Dupes(ps), ps[i]);
  }

  /** In a stack of three-line blocks, line 4 * i is the first line of block i. */
  lemma StackFirstLine(blocks: seq<seq<string>>, i: int)
    requires forall k :: 0 <= k < |blocks| ==> |blocks[k]| == 3
    requires 0 <= i < |blocks|
    ensures |Stack(blocks)| == 4 * |blocks| - 1
    ensures Stack(blocks)[4 * i] == blocks[i][0]
  {
    StackLayout(blocks);
    assert Stack(blocks)[4 * i..4 * i + 3][0] == Stack(blocks)[4 * i];
  }

  /** A key is repeated exactly when some other position holds it too. */
  lemma RepeatedAt(keys: seq<string>, i: int)
    requires 0 <= i < |keys|
    ensures Repeated(keys, keys[i]) <==> exists j :: 0 <= j < |keys| && j != i && keys[j] == keys[i]
  {
    if exists j :: 0 <= j < |keys| && j != i && keys[j] == keys[i] {
      var j :| 0 <= j < |keys| && j != i && keys[j] == keys[i];
      if j < i {
        assert 0 <= j < i < |keys| && keys[j] == keys[i] && keys[i] == keys[i];
      } else {
        assert 0 <= i < j < |keys| && keys[i] == keys[i] && keys[j] == keys[i];
      }
    }
  }

  /** A platform's name is in `dupes` exactly when another platform of the list has the same lower-cased name. */
  lemma MarkedAt(ps: seq<Platform>, i: int)
    requires 0 <= i < |ps|
    ensures Lower(ps[i].name) in Dupes(ps) <==> exists j :: 0 <= j < |ps| && j != i && Lower(ps[j].name) == Lower(ps[i].name)
  {
    var keys := LowerNames(ps);
    InDupes(ps, keys[i]);
    CountRepeated(keys, keys[i]);
    RepeatedAt(keys, i);
  }

  /**
   * `supported_platforms`: the `dupes` set from the fold, then the print loop
   * over the platforms with that set.
   */
  method SupportedPlatforms(platforms: seq<Platform>) returns (lines: seq<string>)
    ensures lines == Report(platforms)
  {
    var dupes := Dupes(platforms);
    lines := PrintBlocks(dupes, platforms);
  }

  /**
   * The print loop of `supported_platforms`: a blank line before a block once
   * `separator` is set, which the `Once` does after the first block.
   */
  method PrintBlocks(dupes: set<string>, platforms: seq<Platform>) returns (lines: seq<string>)
    ensures lines == Stack(Blocks(dupes, platforms))
  {
    ghost var blocks := Blocks(dupes, platforms);
    var separator := false;
    var firstDone := false;
    lines := [];
    for i := 0 to |platforms|
      invariant separator == (i > 0) && firstDone == (i > 0)
      invariant lines == Stack(blocks[..i])
    {
      if separator {
        lines := lines + [""];
      }
      if !firstDone {
        firstDone := true;
        separator := true;
      }
      ghost var shown := lines;
      var platform := platforms[i];
      var header := "Platform: " + platform.name + Status(dupes, platform.name);
      var artifacts := "  Build Artifacts: " + Display.Listed(platform.folders);
      var matched := "  Matched On: " + Display.Listed(platform.associated);
      lines := lines + [header];
      lines := lines + [artifacts];
      lines := lines + [matched];
      BlockLines(blocks, dupes, platforms, i, header, artifacts, matched);
      AppendThree(shown, header, artifacts, matched);
      StackSnoc(blocks[..i], blocks[i]);
      PrefixSnoc(blocks, i);
    }
    PrefixSnoc(blocks, |blocks|);
  }

  /** Block i of the list is the three lines printed for platform i. */
  lemma BlockLines(blocks: seq<seq<string>>, dupes: set<string>, platforms: seq<Platform>, i: int, header: string, artifacts: string, matched: string)
    requires blocks == Blocks(dupes, platforms) && 0 <= i < |platforms|
    requires header == "Platform: " + platforms[i].name + Status(dupes, platforms[i].name)
    requires artifacts == "  Build Artifacts: " + Display.Listed(platforms[i].folders)
    requires matched == "  Matched On: " + Display.Listed(platforms[i].associated)
    ensures blocks[i] == [header, artifacts, matched]
  {
  }

  /** Three appends in a row add the three lines. */
  lemma AppendThree(s: seq<string>, a: string, b: string, c: string)
    ensures s + [a] + [b] + [c] == s + [a, b, c]
  {
  }
}
