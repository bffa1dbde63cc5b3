/** What the document models share: ids, the kinds of validation failure Mongoose
    reports, and the setters of a `String` path.

    Mongoose runs a path's setters (`trim`, `lowercase`) before its validators,
    runs `required` first and then the path's other validators in the order they
    are declared, keeps only the first failure of each path, and collects the
    failures of all paths. Validators other than `required` accept a missing value. */
module Schema {
  import opened Wrappers
  import Text

  /** A document id or a reference to one (an `ObjectId` in hex). */
  type Id = string

  datatype Rule = Required | MinLength(min: nat) | MaxLength(max: nat) | NotInEnum | NoMatch | Invalid

  /** A failed validator and the path it guards; each document names its own paths. */
  datatype Violation<P> = Violation(path: P, rule: Rule)

  /** The `trim` setter: a missing value stays missing. */
  function TrimSetter(v: Option<string>): (r: Option<string>)
    ensures r.None? <==> v.None?
    ensures r.Some? ==> r.value == Text.Trim(v.value) && Text.IsTrimmed(r.value)
  {
    if v.None? then None else Some(Text.Trim(v.value))
  }

  /** The `trim` and `lowercase` setters (their order makes no difference). */
  function TrimLowerSetter(v: Option<string>): (r: Option<string>)
    ensures r.None? <==> v.None?
    ensures r.Some? ==> r.value == Text.Trim(Text.ToLower(v.value)) && r.value == Text.ToLower(Text.Trim(v.value))
  {
    if v.None? then None
    else
      Text.TrimToLowerCommute(v.value);
      Some(Text.Trim(Text.ToLower(v.value)))
  }

  /** A path's failure, listed under the path when there is one. */
  function At<P>(path: P, failure: Option<Rule>): seq<Violation<P>> {
    if failure.Some? then [Violation(path, failure.value)] else []
  }

  /** `required` on a `String` path: present and not the empty string. */
  predicate Present(v: Option<string>) {
    v.Some? && v.value != ""
  }

  /** Present `Option` values, in order. */
  function Values<T>(vs: seq<Option<T>>): (r: seq<T>)
    requires forall k :: 0 <= k < |vs| ==> vs[k].Some?
    ensures |r| == |vs| && forall k :: 0 <= k < |vs| ==> r[k] == vs[k].value
  {
    seq(|vs|, k requires 0 <= k < |vs| => vs[k].value)
  }

  /** Each value, as present. */
  function Somes<T>(xs: seq<T>): (r: seq<Option<T>>)
    ensures |r| == |xs| && forall k :: 0 <= k < |xs| ==> r[k] == Some(xs[k])
  {
    seq(|xs|, k requires 0 <= k < |xs| => Some(xs[k]))
  }

  lemma ValuesSomes<T>(xs: seq<T>)
    ensures forall k :: 0 <= k < |Somes(xs)| ==> Somes(xs)[k].Some?
    ensures Values(Somes(xs)) == xs
  {
  }
}
