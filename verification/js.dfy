/** JavaScript-level values shared by the backend and the client model:
    missing-or-null values, the undefined/null distinction where the code
    tells them apart, and truthiness. */
module Js {

  /** A database ObjectId, abstracted to a number. */
  type Id = nat

  /** An id as a request carries it: text that casts to an ObjectId, or
      text that does not (a query that uses it throws a cast error). */
  datatype RawId = ObjectId(id: Id) | Malformed(text: string)

  /** A value that may be absent (`undefined` or `null`, treated alike). */
  datatype Option<+T> = None | Some(value: T) {
    function GetOr(default: T): T {
      match this
      case Some(v) => v
      case None => default
    }
  }

  /** A request-body field where `undefined` and `null` lead to different code paths. */
  datatype Field<+T> = Undefined | Null | Given(value: T)

  /** Outcome of an operation that can throw. */
  datatype Result<+T, +E> = Success(value: T) | Failure(error: E)

  /** Truthiness of a possibly-missing string: only a present, non-empty string is truthy. */
  predicate TruthyStr(o: Option<string>) {
    o.Some? && o.value != ""
  }

  /** Truthiness of a possibly-missing id: every ObjectId is truthy, and other
      text is truthy unless it is empty. */
  predicate TruthyId(o: Option<RawId>) {
    o.Some? && (o.value.ObjectId? || o.value.text != "")
  }

  /** Truthiness of a possibly-missing number: only a present, non-zero number is truthy. */
  predicate TruthyNum(o: Option<int>) {
    o.Some? && o.value != 0
  }

  /** `a || b` on possibly-missing strings: the left operand when truthy, else the right one. */
  function OrStr(a: Option<string>, b: Option<string>): (r: Option<string>)
    ensures TruthyStr(a) ==> r == a
    ensures !TruthyStr(a) ==> r == b
  {
    if TruthyStr(a) then a else b
  }

  /** A list shown up to `limit` items, with the count of the hidden rest
      when there is one (a "+k" badge). */
  function Overflow<T>(xs: seq<T>, limit: nat): (r: (seq<T>, Option<nat>))
    ensures |r.0| <= limit && |r.0| <= |xs| && r.0 == xs[..|r.0|]
    ensures r.1.Some? <==> |xs| > limit
    ensures |r.0| + r.1.GetOr(0) == |xs|
  {
    if |xs| > limit then (xs[..limit], Some(|xs| - limit)) else (xs, None)
  }
}
