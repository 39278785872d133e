/** The client's component service: how a filter bag becomes the query of
    `GET /components`, the search shortcut that merges a term under the
    filters, and the paths of the per-component calls. */
module ComponentApi {

  import opened Js
  import opened Text
  import opened JsObject

  /** A parameter is sent unless it is undefined, null or the empty string. */
  predicate KeepParam(v: Value) {
    v != Undef && v != Nul && v != Str("")
  }

  /** The entries that go into the query, in the bag's key order. */
  function Kept(params: Obj): (r: Obj)
    ensures |r| <= |params|
    ensures forall i :: 0 <= i < |r| ==> KeepParam(r[i].value)
    ensures r == [] <==> forall j :: 0 <= j < |params| ==> !KeepParam(params[j].value)
  {
    if |params| == 0 then []
    else if KeepParam(params[0].value) then [params[0]] + Kept(params[1..])
    else
      assert forall j :: 1 <= j < |params| ==> params[j] == params[1..][j - 1];
      Kept(params[1..])
  }

  /** For an object (distinct keys), a key is in the query exactly when the
      object has it with a value worth sending, and then with that value. */
  lemma {:induction false} KeptLookup(params: Obj, k: string)
    requires DistinctKeys(params)
    ensures Lookup(Kept(params), k) ==
              if Lookup(params, k).Some? && KeepParam(Lookup(params, k).value) then Lookup(params, k) else None
    decreases |params|
  {
    if |params| > 0 {
      var rest := params[1..];
      assert params == [params[0]] + rest;
      LookupCons(params[0], rest, k);
      KeptLookup(rest, k);
      if KeepParam(params[0].value) {
        LookupCons(params[0], Kept(rest), k);
      }
      if params[0].key == k {
        LookupFindsEntry(rest, k);
        assert k !in Keys(rest);
      }
    }
  }

  /** One `key=value` pair of the query string (percent-encoding aside). */
  function Pair(e: Entry): (s: string)
    ensures '=' in s
  {
    assert (e.key + "=" + ValueText(e.value))[|e.key|] == '=';
    e.key + "=" + ValueText(e.value)
  }

  /** `URLSearchParams.toString()`: the pairs joined by '&'. */
  function QueryString(entries: Obj): (q: string)
    ensures q == "" <==> entries == []
  {
    if |entries| == 0 then ""
    else if |entries| == 1 then Pair(entries[0])
    else Pair(entries[0]) + "&" + QueryString(entries[1..])
  }

  /** The URL `getComponents` requests: the query is attached, after '?',
      exactly when at least one parameter is kept. */
  function ComponentsUrl(params: Obj): (url: string)
    ensures url == "/components" <==> forall j :: 0 <= j < |params| ==> !KeepParam(params[j].value)
    ensures url != "/components" ==> url == "/components?" + QueryString(Kept(params))
  {
    var q := QueryString(Kept(params));
    if q != "" then "/components?" + q else "/components"
  }

  /** `searchComponents(term, filters)`: the term as `search`, then the
      filters spread over it, so a `search` in the filters wins. */
  function SearchParams(term: Value, filters: Obj): (r: Obj)
    requires DistinctKeys(filters)
    ensures DistinctKeys(r)
    ensures Lookup(r, "search") == if Lookup(filters, "search").Some? then Lookup(filters, "search") else Some(term)
    ensures forall k :: k != "search" ==> Lookup(r, k) == Lookup(filters, k)
  {
    var base := [Entry("search", term)];
    forall k | k != "search"
      ensures Lookup(base, k) == None
    {
      LookupCons(base[0], [], k);
    }
    SpreadKeepsDistinct(base, filters);
    Spread(base, filters)
  }

  /** The path that addresses one component. */
  function ComponentPath(id: string): string {
    "/components/" + id
  }

  datatype Verb = Get | Post | Put | Delete

  /** A call the service makes: verb and path. */
  datatype Call = Call(verb: Verb, path: string)

  function GetComponentById(id: string): Call { Call(Get, ComponentPath(id)) }
  function CreateComponent(): Call { Call(Post, "/components") }
  function UpdateComponent(id: string): Call { Call(Put, ComponentPath(id)) }
  function DeleteComponent(id: string): Call { Call(Delete, ComponentPath(id)) }
  function GetTags(): Call { Call(Get, "/components/tags") }

  /** Reading, updating and deleting a component all address the same path,
      and that path determines the id: the id is what follows "/components/". */
  lemma PerComponentCallsShareThePath(id: string, other: string)
    ensures GetComponentById(id).path == UpdateComponent(id).path == DeleteComponent(id).path
    ensures GetComponentById(id).path[|"/components/"|..] == id
    ensures ComponentPath(id) == ComponentPath(other) ==> id == other
  {
    assert ComponentPath(id)[|"/components/"|..] == id;
    assert ComponentPath(other)[|"/components/"|..] == other;
  }
}
