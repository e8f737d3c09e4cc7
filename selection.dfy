/** `Selection` from src/cli/selection.rs: "all", or an explicit list matched without regard to ASCII case. */
module CliSelection {
  import opened Text
  import opened ArgText
  import Display

  datatype Selection = All | Select(values: seq<string>)

  /** `Selection::from_str`: never fails; "all" in any case and surrounded by any whitespace is `All`. */
  function FromStr(src: string): (r: Selection)
    ensures r.All? <==> IsAllToken(src)
    ensures !IsAllToken(src) ==> r == Select(NonBlank(Split(src, ',')))
    ensures r.Select? ==> forall k :: 0 <= k < |r.values| ==> Clean(r.values[k])
  {
    if IsAllToken(src) then All else Select(CommaValues(src))
  }

  /** `iter().any(|v| v.eq_ignore_ascii_case(checked))`. */
  function AnyEqIgnoreCase(values: seq<string>, checked: string): (r: bool)
    ensures r <==> exists k :: 0 <= k < |values| && EqIgnoreAsciiCase(values[k], checked)
  {
    values != [] && (EqIgnoreAsciiCase(values[0], checked) || AnyEqIgnoreCase(values[1..], checked))
  }

  /** `Selection::matches`: everything matches `All`; a value matches a list that holds it in some ASCII case. */
  function Matches(sel: Selection, checked: string): (r: bool)
    ensures sel.All? ==> r
    ensures sel.Select? ==> (r <==> exists k :: 0 <= k < |sel.values| && EqIgnoreAsciiCase(sel.values[k], checked))
  {
    match sel
    case All => true
    case Select(values) => AnyEqIgnoreCase(values, checked)
  }

  /** `Selection::pluralize`: the plural suffix for "all" or for more than one value, otherwise nothing. */
  function Pluralize(sel: Selection, plural: string): (r: string)
    ensures sel.All? || |sel.values| > 1 ==> r == plural
    ensures sel.Select? && |sel.values| <= 1 ==> r == ""
  {
    match sel
    case All => plural
    case Select(values) => if |values| > 1 then plural else ""
  }

  /** `Selection::choose`: the first argument for an explicit list, the second for `All`. */
  function Choose<T>(sel: Selection, select: T, all: T): (r: T)
    ensures sel.All? ==> r == all
    ensures sel.Select? ==> r == select
  {
    match sel
    case All => all
    case Select(_) => select
  }

  /** `Display for Selection`: "all", or the values rendered by `list_output`. */
  function Show(sel: Selection): (r: string)
    ensures sel.All? ==> r == "all"
    ensures sel.Select? ==> r == Display.Listed(sel.values)
  {
    match sel
    case All => "all"
    case Select(values) => Display.Listed(values)
  }

  /** Parsing a comma-joined list of clean values yields exactly those values, unless the list is the lone word "all". */
  lemma {:induction false} FromStrJoin(vs: seq<string>)
    requires forall k :: 0 <= k < |vs| ==> Clean(vs[k])
    requires !(|vs| == 1 && Lower(vs[0]) == "all")
    ensures FromStr(Join(vs, ",")) == Select(vs)
  {
    AllTokenJoin(vs);
    CommaValuesJoin(vs);
  }

  lemma IsAllTokenExample()
    ensures IsAllToken("all ")
  {
    assert TrimStart("all ") == "all ";
    assert TrimEnd("all ") == "all" by {
      assert "all "[..3] == "all";
    }
  }

  /** Parsing result pinned by the repository's tests: "all" followed by a space. */
  lemma FromStrAllExample()
    ensures FromStr("all ") == All
  {
    IsAllTokenExample();
  }

  lemma SingleCharClean(v: string)
    requires |v| == 1 && v[0] != ',' && !IsWhitespace(v[0])
    ensures Clean(v)
  {
    TrimFixed(v);
  }

  /** The four one-letter values of the repository's test, joined by commas. */
  lemma ListJoin()
    ensures Join(["a", "b", "c", "d"], ",") == "a,b,c,d"
  {
    JoinFour("a", "b", "c", "d", ",");
  }

  /** Each of those values is one the parser can produce. */
  lemma ListClean(vs: seq<string>)
    requires vs == ["a", "b", "c", "d"]
    ensures forall k :: 0 <= k < |vs| ==> Clean(vs[k])
  {
    forall k | 0 <= k < |vs|
      ensures Clean(vs[k])
    {
      assert |vs[k]| == 1 && 'a' <= vs[k][0] <= 'd';
      SingleCharClean(vs[k]);
    }
  }

  /** Parsing result pinned by the repository's tests: a plain comma list. */
  lemma FromStrListExample()
    ensures FromStr("a,b,c,d") == Select(["a", "b", "c", "d"])
  {
    ListClean(["a", "b", "c", "d"]);
    FromStrJoin(["a", "b", "c", "d"]);
    ListJoin();
  }

  /** The untidy list of the repository's tests, as its pieces joined by commas. */
  lemma UntidyJoin()
    ensures Join(["a", " b", "c ", "", " d "], [',']) == "a, b,c ,, d "
  {
    JoinFive("a", " b", "c ", "", " d ", [',']);
  }

  /** The untidy list of the repository's tests, cut at its commas. */
  lemma UntidySplit()
    ensures Split("a, b,c ,, d ", ',') == ["a", " b", "c ", "", " d "]
  {
    var ps := ["a", " b", "c ", "", " d "];
    forall k | 0 <= k < |ps|
      ensures ',' !in ps[k]
    {
    }
    SplitJoin(ps, ',');
    UntidyJoin();
  }

  /** The pieces of the untidy list, each trimmed. */
  lemma UntidyTrimB()
    ensures Trim(" b") == "b"
  {
    assert " " + "b" + "" == " b";
    TrimPadded(" ", "b", "");
  }

  lemma UntidyTrimC()
    ensures Trim("c ") == "c"
  {
    assert "" + "c" + " " == "c ";
    TrimPadded("", "c", " ");
  }

  lemma UntidyTrimD()
    ensures Trim(" d ") == "d"
  {
    assert " " + "d" + " " == " d ";
    TrimPadded(" ", "d", " ");
  }

  /** Five pieces of which only the fourth is blank: the other four survive, trimmed, in order. */
  lemma NonBlankFourthBlank(a: string, b: string, c: string, d: string, e: string)
    requires Trim(a) != "" && Trim(b) != "" && Trim(c) != "" && Trim(d) == "" && Trim(e) != ""
    ensures NonBlank([a] + ([b] + ([c] + ([d] + [e])))) == [Trim(a)] + ([Trim(b)] + ([Trim(c)] + [Trim(e)]))
  {
    NonBlankAppend([d], [e]);
    NonBlankAppend([c], [d] + [e]);
    NonBlankAppend([b], [c] + ([d] + [e]));
    NonBlankAppend([a], [b] + ([c] + ([d] + [e])));
    NonBlankOne(a);
    NonBlankOne(b);
    NonBlankOne(c);
    NonBlankOne(d);
    NonBlankOne(e);
  }

  /** Trimming the pieces and dropping the blank one leaves the four letters. */
  lemma UntidyValues(ps: seq<string>)
    requires ps == ["a", " b", "c ", "", " d "]
    ensures NonBlank(ps) == ["a", "b", "c", "d"]
  {
    var a, b, c, d, e := ps[0], ps[1], ps[2], ps[3], ps[4];
    assert ps == [a] + ([b] + ([c] + ([d] + [e])));
    TrimFixed(a);
    TrimFixed(d);
    UntidyTrimB();
    UntidyTrimC();
    UntidyTrimD();
    NonBlankFourthBlank(a, b, c, d, e);
    LettersAppend();
  }

  lemma LettersAppend()
    ensures ["a"] + (["b"] + (["c"] + ["d"])) == ["a", "b", "c", "d"]
  {
  }

  /** Parsing result pinned by the repository's tests: spaces around values and an empty value are cleaned away. */
  lemma FromStrUntidyExample()
    ensures FromStr("a, b,c ,, d ") == Select(["a", "b", "c", "d"])
  {
    NotAllTokenWithComma("a, b,c ,, d ", 1);
    UntidySplit();
    UntidyValues(Split("a, b,c ,, d ", ','));
  }

  /** Matching results pinned by the repository's tests. */
  lemma MatchesExamples()
    ensures Matches(All, "value")
    ensures Matches(Select(["value"]), "value")
    ensures !Matches(Select(["value"]), "other value")
  {
    assert EqIgnoreAsciiCase("value", "value");
    assert !EqIgnoreAsciiCase("value", "other value") by {
      assert |Lower("value")| != |Lower("other value")|;
    }
  }

  /** Display, pluralisation and choice results pinned by the repository's tests. */
  lemma ShowExamples()
    ensures Show(All) == "all"
    ensures Show(Select(["one", "two"])) == "one & two"
    ensures Pluralize(All, "s") == "s"
    ensures Pluralize(Select([]), "s") == ""
    ensures Pluralize(Select(["one"]), "s") == ""
    ensures Pluralize(Select(["one", "two"]), "s") == "s"
    ensures Choose(All, "select", "all") == "all"
    ensures Choose(Select([]), "select", "all") == "select"
  {
    Display.ListedPair("one", "two");
  }
}
