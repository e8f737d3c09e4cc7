/**
 * The comma-list grammar shared by `Selection::from_str` (src/cli/selection.rs)
 * and `AllValues::from_str` (src/cli/all_values.rs): the word "all" in any case,
 * or comma-separated values that are trimmed, with blank ones dropped.
 */
module ArgText {
  import opened Text

  /** `src.trim().to_lowercase() == "all"`. */
  predicate IsAllToken(src: string)
  {
    Lower(Trim(src)) == "all"
  }

  /** A value the parser can produce: non-empty, already trimmed, free of commas. */
  predicate Clean(v: string)
  {
    Trimmed(v) && ',' !in v
  }

  /** A value trimming leaves intact and non-empty. */
  predicate Trimmed(v: string)
  {
    v != "" && Trim(v) == v
  }

  /** `filter_map` over the pieces: each trimmed, blank ones dropped, order kept. */
  function NonBlank(pieces: seq<string>): (r: seq<string>)
    ensures forall k :: 0 <= k < |r| ==> Trimmed(r[k])
  {
    if pieces == [] then []
    else
      var t := Trim(pieces[0]);
      var rest := NonBlank(pieces[1..]);
      if t == "" then rest
      else
        TrimIdempotent(pieces[0]);
        ConsTrimmed(t, rest);
        [t] + rest
  }

  lemma ConsTrimmed(t: string, rest: seq<string>)
    requires Trimmed(t) && forall k :: 0 <= k < |rest| ==> Trimmed(rest[k])
    ensures forall k :: 0 <= k < |[t] + rest| ==> Trimmed(([t] + rest)[k])
  {
    forall k | 0 <= k < |[t] + rest|
      ensures Trimmed(([t] + rest)[k])
    {
      if k > 0 {
        assert ([t] + rest)[k] == rest[k - 1];
      }
    }
  }

  /** Trimming cannot bring a comma back: comma-free pieces give comma-free values. */
  lemma {:induction false} NonBlankCommaFree(pieces: seq<string>)
    requires forall j :: 0 <= j < |pieces| ==> ',' !in pieces[j]
    ensures forall k :: 0 <= k < |NonBlank(pieces)| ==> ',' !in NonBlank(pieces)[k]
  {
    if pieces != [] {
      TrimKeepsAbsent(pieces[0], ',');
      NonBlankCommaFree(pieces[1..]);
    }
  }

  /** One piece on its own: kept trimmed, or dropped when trimming leaves nothing. */
  lemma NonBlankOne(p: string)
    ensures NonBlank([p]) == if Trim(p) == "" then [] else [Trim(p)]
  {
    assert [p][1..] == [];
  }

  /** The pieces are handled one by one, so the values of two runs of pieces follow each other in order. */
  lemma {:induction false} NonBlankAppend(xs: seq<string>, ys: seq<string>)
    ensures NonBlank(xs + ys) == NonBlank(xs) + NonBlank(ys)
  {
    if xs == [] {
      assert xs + ys == ys;
    } else {
      assert (xs + ys)[0] == xs[0];
      assert (xs + ys)[1..] == xs[1..] + ys;
      NonBlankAppend(xs[1..], ys);
    }
  }

  /** The values of a comma list: the comma-separated pieces, trimmed, blank ones dropped, order kept; every one of them is clean. */
  function CommaValues(src: string): (r: seq<string>)
    ensures r == NonBlank(Split(src, ','))
    ensures forall k :: 0 <= k < |r| ==> Clean(r[k])
  {
    var pieces := Split(src, ',');
    NonBlankCommaFree(pieces);
    NonBlank(pieces)
  }

  lemma {:induction false} NonBlankClean(vs: seq<string>)
    requires forall k :: 0 <= k < |vs| ==> Clean(vs[k])
    ensures NonBlank(vs) == vs
  {
    if vs != [] {
      assert Trim(vs[0]) == vs[0] != "";
      calc {
        NonBlank(vs);
        [vs[0]] + NonBlank(vs[1..]);
        { NonBlankClean(vs[1..]); }
        [vs[0]] + vs[1..];
        vs;
      }
    }
  }

  lemma {:induction false} JoinEnds(vs: seq<string>, sep: string)
    requires |vs| >= 1 && forall k :: 0 <= k < |vs| ==> vs[k] != ""
    ensures |Join(vs, sep)| >= 1
    ensures Join(vs, sep)[0] == vs[0][0]
    ensures Join(vs, sep)[|Join(vs, sep)| - 1] == vs[|vs| - 1][|vs[|vs| - 1]| - 1]
  {
    if |vs| > 1 {
      JoinEnds(vs[1..], sep);
    }
  }

  /** Joining clean values with commas and parsing the text again gives the same values back. */
  lemma {:induction false} CommaValuesJoin(vs: seq<string>)
    requires forall k :: 0 <= k < |vs| ==> Clean(vs[k])
    ensures CommaValues(Join(vs, ",")) == vs
  {
    if vs == [] {
      assert Split("", ',') == [""];
    } else {
      SplitJoin(vs, ',');
      NonBlankClean(vs);
    }
  }

  /** A comma-joined list of clean values reads as "all" only when it is the single value "all" in some case. */
  lemma {:induction false} AllTokenJoin(vs: seq<string>)
    requires forall k :: 0 <= k < |vs| ==> Clean(vs[k])
    ensures IsAllToken(Join(vs, ",")) <==> |vs| == 1 && Lower(vs[0]) == "all"
  {
    var s := Join(vs, ",");
    if vs == [] {
      TrimFixed("");
    } else if |vs| == 1 {
      assert s == vs[0];
    } else {
      assert Trim(vs[0]) == vs[0] && Trim(vs[|vs| - 1]) == vs[|vs| - 1];
      JoinEnds(vs, ",");
      TrimFixed(s);
      assert s == vs[0] + "," + Join(vs[1..], ",");
      CommaNotAll(s, |vs[0]|);
    }
  }

  /** A text with a comma anywhere is not the word "all", whatever whitespace surrounds it. */
  lemma NotAllTokenWithComma(s: string, i: int)
    requires 0 <= i < |s| && s[i] == ','
    ensures !IsAllToken(s)
  {
    TrimKeepsVisible(s, i);
    var t := Trim(s);
    var j :| 0 <= j < |t| && t[j] == ',';
    CommaNotAll(t, j);
  }

  /** A text with a comma somewhere does not lower-case to "all". */
  lemma CommaNotAll(s: string, i: int)
    requires 0 <= i < |s| && s[i] == ','
    ensures Lower(s) != "all"
  {
    assert Lower(s)[i] == ',';
  }
}
