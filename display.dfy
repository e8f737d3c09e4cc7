/**
 * `list_output` from src/utils/display.rs: renders a list as "a, b & c".
 * `Listed` is the closed form of what the loop builds; `ListOutput` is the loop.
 */
module Display {
  import opened Text

  /** The items before the last joined by ", ", then " & " and the last item; " & " only after a non-empty prefix. */
  function Listed(items: seq<string>): string
  {
    if items == [] then ""
    else
      var prefix := Join(items[..|items| - 1], ", ");
      if prefix == "" then items[|items| - 1] else prefix + " & " + items[|items| - 1]
  }

  lemma {:induction false} JoinSnoc(xs: seq<string>, x: string, sep: string)
    ensures Join(xs + [x], sep) == if xs == [] then x else Join(xs, sep) + sep + x
    decreases |xs|
  {
    if |xs| > 1 {
      assert (xs + [x])[1..] == xs[1..] + [x];
      JoinSnoc(xs[1..], x, sep);
    } else if |xs| == 1 {
      assert (xs + [x])[1..] == [x];
    }
  }

  /** Two or more pieces joined by a non-empty separator never give the empty string. */
  lemma JoinNonEmpty(xs: seq<string>, sep: string)
    requires |xs| >= 2 && sep != ""
    ensures Join(xs, sep) != ""
  {
    assert |Join(xs, sep)| >= |sep|;
  }

  /** The loop of `list_output`: the first n-1 items with a separator before all but the first, then the last after " & ". */
  method ListOutput(source: seq<string>) returns (output: string)
    ensures output == Listed(source)
  {
    output := "";
    if source == [] {
      return;
    }
    var addSeparator := false;
    var skipFirstDone := false;   // the `Once` guard
    var i := 0;
    while i < |source| - 1
      invariant 0 <= i <= |source| - 1
      invariant output == Join(source[..i], ", ")
      invariant addSeparator == skipFirstDone == (i > 0)
    {
      if addSeparator {
        output := output + ", ";
      }
      if !skipFirstDone {
        skipFirstDone := true;
        addSeparator := true;
      }
      JoinSnoc(source[..i], source[i], ", ");
      assert source[..i + 1] == source[..i] + [source[i]];
      output := output + source[i];
      i := i + 1;
    }
    if output != "" {
      output := output + " & ";
    }
    output := output + source[|source| - 1];
  }

  /** An empty list renders as "", a single item as itself. */
  lemma ListedShort(x: string)
    ensures Listed([]) == ""
    ensures Listed([x]) == x
  {
  }

  /** Two items give "a & b" unless the first is empty, in which case only the second shows. */
  lemma ListedPair(a: string, b: string)
    ensures a != "" ==> Listed([a, b]) == a + " & " + b
    ensures a == "" ==> Listed([a, b]) == b
  {
    assert [a, b][..1] == [a];
  }

  /** From three items on, or two with a non-empty first, the shape is "<first n-1 joined by ', '> & <last>". */
  lemma {:induction false} ListedMany(items: seq<string>)
    requires |items| >= 3 || (|items| == 2 && items[0] != "")
    ensures Listed(items) == Join(items[..|items| - 1], ", ") + " & " + items[|items| - 1]
  {
    if |items| >= 3 {
      JoinNonEmpty(items[..|items| - 1], ", ");
    } else {
      assert items[..1] == [items[0]];
    }
  }

  /** Five items render as the first four joined by ", ", then " & " and the last. */
  lemma ListedFive(a: string, b: string, c: string, d: string, e: string)
    ensures Listed([a, b, c, d, e]) == a + ", " + b + ", " + c + ", " + d + " & " + e
  {
    var items := [a, b, c, d, e];
    ListedMany(items);
    assert items[..4] == [a, b, c, d];
    JoinFour(a, b, c, d, ", ");
  }

  /** The rendering of five items pinned by the repository's tests. */
  lemma ListedFiveExample()
    ensures Listed(["One", "Two", "Three", "Four", "Five"]) == "One, Two, Three, Four & Five"
  {
    ListedFive("One", "Two", "Three", "Four", "Five");
  }

  /** The rendering of three items pinned by the repository's tests. */
  lemma ListedThreeExample()
    ensures Listed(["One", "Two", "Three"]) == "One, Two & Three"
  {
    var items := ["One", "Two", "Three"];
    ListedMany(items);
    assert items[..2] == ["One", "Two"];
  }

  /** The rendering of two items pinned by the repository's tests. */
  lemma ListedTwoExample()
    ensures Listed(["One", "Two"]) == "One & Two"
  {
    ListedPair("One", "Two");
  }

  /** The renderings of one item and of no item pinned by the repository's tests. */
  lemma ListedOneExample()
    ensures Listed(["Only One Item"]) == "Only One Item"
    ensures Listed([]) == ""
  {
    ListedShort("Only One Item");
  }
}
