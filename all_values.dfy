/** `AllValues` from src/cli/all_values.rs: "all", or an explicit list matched exactly. */
module CliAllValues {
  import opened Text
  import opened ArgText

  datatype AllValues = All | Values(values: seq<string>)

  /** `AllValues::from_str`: the same grammar as the selection argument. */
  function FromStr(src: string): (r: AllValues)
    ensures r.All? <==> IsAllToken(src)
    ensures !IsAllToken(src) ==> r == Values(NonBlank(Split(src, ',')))
    ensures r.Values? ==> forall k :: 0 <= k < |r.values| ==> Clean(r.values[k])
  {
    if IsAllToken(src) then All else Values(CommaValues(src))
  }

  /** `iter().any(|v| v == checked)`. */
  function AnyEqual(values: seq<string>, checked: string): (r: bool)
    ensures r <==> checked in values
  {
    values != [] && (values[0] == checked || AnyEqual(values[1..], checked))
  }

  /** `AllValues::matches`: everything matches `All`; otherwise only an exact, case-sensitive member. */
  function Matches(a: AllValues, checked: string): (r: bool)
    ensures r <==> a.All? || checked in a.values
  {
    match a
    case All => true
    case Values(values) => AnyEqual(values, checked)
  }

  /** `AllValues::pluralize`. */
  function Pluralize(a: AllValues, plural: string): (r: string)
    ensures a.All? || |a.values| > 1 ==> r == plural
    ensures a.Values? && |a.values| <= 1 ==> r == ""
  {
    match a
    case All => plural
    case Values(values) => if |values| > 1 then plural else ""
  }

  /** `AllValues::for_all`: the first argument for `All`, the second for a list. */
  function ForAll<T>(a: AllValues, value: T, other: T): (r: T)
    ensures a.All? ==> r == value
    ensures a.Values? ==> r == other
  {
    match a
    case All => value
    case Values(_) => other
  }

  /** `AllValues::for_select`: the first argument for a list, the second for `All`. */
  function ForSelect<T>(a: AllValues, value: T, other: T): (r: T)
    ensures a.All? ==> r == other
    ensures a.Values? ==> r == value
  {
    match a
    case All => other
    case Values(_) => value
  }

  /** `for_select` is `for_all` with its two arguments exchanged. */
  lemma ForSelectMirrorsForAll<T>(a: AllValues, x: T, y: T)
    ensures ForSelect(a, x, y) == ForAll(a, y, x)
  {
  }

  /**
   * `Display for AllValues`: "all", or the values joined by the crate's `SEPARATOR`
   * constant, which is passed in because its value is not part of this model.
   */
  function Show(a: AllValues, separator: string): (r: string)
    ensures a.All? ==> r == "all"
    ensures a.Values? ==> r == Join(a.values, separator)
  {
    match a
    case All => "all"
    case Values(values) => Join(values, separator)
  }

  /** Shown with a comma separator, a list of clean values parses back to itself. */
  lemma {:induction false} ShowFromStr(vs: seq<string>)
    requires forall k :: 0 <= k < |vs| ==> Clean(vs[k])
    requires !(|vs| == 1 && Lower(vs[0]) == "all")
    ensures FromStr(Show(Values(vs), ",")) == Values(vs)
  {
    AllTokenJoin(vs);
    CommaValuesJoin(vs);
  }
}
