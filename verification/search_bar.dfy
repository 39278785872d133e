/** The search bar of the component list: its filter state, the sort
    selector that packs two filter fields into one option value, the tag
    suggestions and the events that emit filters to the page. */
module SearchBar {

  import opened Js
  import opened Text
  import opened JsObject
  import opened ComponentSchema
  import opened ComponentController
  import opened ComponentForm

  /** A filter bag with the five fields the bar edits, in its key order. */
  function Filters(search: string, category: string, tags: string, sortBy: string, sortOrder: string): Obj {
    [Entry("search", Str(search)), Entry("category", Str(category)), Entry("tags", Str(tags)),
     Entry("sortBy", Str(sortBy)), Entry("sortOrder", Str(sortOrder))]
  }

  /** Empty text filters, newest first: the state without initial filters
      and the state the clear button restores. */
  function DefaultFilters(): (f: Obj)
    ensures DistinctKeys(f)
    ensures Lookup(f, "search") == Some(Str("")) && Lookup(f, "category") == Some(Str(""))
    ensures Lookup(f, "tags") == Some(Str(""))
    ensures Lookup(f, "sortBy") == Some(Str("createdAt")) && Lookup(f, "sortOrder") == Some(Str("desc"))
    ensures Lookup(f, "page").None?
  {
    Filters("", "", "", "createdAt", "desc")
  }

  /** `initialFilters || defaults`: an object is always truthy, so given
      initial filters are taken as they are. */
  function InitialFilters(initial: Option<Obj>): (f: Obj)
    ensures initial.Some? ==> f == initial.value
    ensures initial.None? ==> f == DefaultFilters()
  {
    initial.GetOr(DefaultFilters())
  }

  // ---------------------------------------------------------------- sort

  /** The offered sort options as (field, direction) pairs, in menu order. */
  const SortOptions: seq<(string, string)> := [
    ("createdAt", "desc"), ("createdAt", "asc"), ("name", "asc"), ("name", "desc"), ("updatedAt", "desc")
  ]

  /** The option value shown for a sort: `${sortBy}-${sortOrder}`. */
  function EncodeSort(sortBy: Value, sortOrder: Value): string {
    ValueText(sortBy) + "-" + ValueText(sortOrder)
  }

  /** Splitting an option value on '-' and destructuring the first two pieces;
      a missing second piece reads as undefined. */
  function DecodeSort(option: string): (Value, Value) {
    var pieces := Split(option, '-');
    (Str(pieces[0]), if |pieces| > 1 then Str(pieces[1]) else Undef)
  }

  /** Decoding inverts encoding whenever neither part contains '-'. */
  lemma DecodeEncodeSort(sortBy: string, sortOrder: string)
    requires '-' !in sortBy && '-' !in sortOrder
    ensures DecodeSort(EncodeSort(Str(sortBy), Str(sortOrder))) == (Str(sortBy), Str(sortOrder))
  {
    assert EncodeSort(Str(sortBy), Str(sortOrder)) == sortBy + ['-'] + sortOrder;
    SplitAtSeparator(sortBy, sortOrder, '-');
    SplitNoSeparator(sortOrder, '-');
  }

  /** Choosing a sort option writes `sortBy` and then `sortOrder`. */
  function SelectSort(filters: Obj, option: string): (r: Obj)
    requires DistinctKeys(filters)
    ensures DistinctKeys(r)
    ensures Lookup(r, "sortBy") == Some(DecodeSort(option).0)
    ensures Lookup(r, "sortOrder") == Some(DecodeSort(option).1)
    ensures forall k :: k != "sortBy" && k != "sortOrder" ==> Lookup(r, k) == Lookup(filters, k)
  {
    var decoded := DecodeSort(option);
    var p := Put(filters, "sortBy", decoded.0);
    var r := Put(p, "sortOrder", decoded.1);
    assert Lookup(r, "sortBy") == Lookup(p, "sortBy");
    forall k | k != "sortBy" && k != "sortOrder"
      ensures Lookup(r, k) == Lookup(filters, k)
    {
      assert Lookup(r, k) == Lookup(p, k);
    }
    PutKeepsDistinct(filters, "sortBy", decoded.0);
    PutKeepsDistinct(p, "sortOrder", decoded.1);
    r
  }

  /** The option value the selector displays for the current filters. */
  function ShownSort(filters: Obj): string {
    EncodeSort(Lookup(filters, "sortBy").GetOr(Undef), Lookup(filters, "sortOrder").GetOr(Undef))
  }

  /** Every offered option survives the trip through the filters: after
      choosing it, the selector shows that same option again. */
  lemma SortOptionsRoundTrip(filters: Obj, i: int)
    requires DistinctKeys(filters) && 0 <= i < |SortOptions|
    ensures var option := SortOptions[i].0 + "-" + SortOptions[i].1;
            ShownSort(SelectSort(filters, option)) == option
  {
    var (field, order) := SortOptions[i];
    assert '-' !in field && '-' !in order;
    DecodeEncodeSort(field, order);
    assert EncodeSort(Str(field), Str(order)) == field + "-" + order;
  }

  // ---------------------------------------------------------------- tags

  /** The tags already typed: the trimmed comma-separated pieces of a
      non-empty tag string, none for the empty one. */
  function CurrentTags(tags: string): (r: seq<string>)
    ensures tags == "" <==> r == []
    ensures forall i :: 0 <= i < |r| ==> IsTrimmed(r[i]) && ',' !in r[i]
  {
    if tags != "" then TagFilterList(tags) else []
  }

  /** Clicking a suggested tag: the new tag string, or `None` when the tag is
      already among the current tags and nothing changes. */
  function AddTag(tags: string, tag: string): (r: Option<string>)
    ensures r.None? <==> tag in CurrentTags(tags)
  {
    var current := CurrentTags(tags);
    if tag in current then None else Some(JoinTags(current + [tag]))
  }

  /** A clicked tag lands at the end of the current tags, which keep their
      order; the same list reaches the server's tag filter. */
  lemma AddTagAppends(tags: string, tag: string)
    requires tag != "" && IsTrimmed(tag) && ',' !in tag
    requires tag !in CurrentTags(tags)
    ensures AddTag(tags, tag).Some?
    ensures CurrentTags(AddTag(tags, tag).value) == CurrentTags(tags) + [tag]
    ensures TagFilterList(AddTag(tags, tag).value) == CurrentTags(tags) + [tag]
  {
    var xs := CurrentTags(tags) + [tag];
    assert forall i :: 0 <= i < |xs| ==> IsTrimmed(xs[i]) && ',' !in xs[i];
    SplitJoinedTags(xs);
    TrimPieces(xs);
    assert TagFilterList(JoinTags(xs)) == xs;
    assert TagFilterList("") == [""] by {
      assert Split("", ',') == [""];
    }
    assert xs[|xs| - 1] == tag != "";
  }

  /** The tag string from the filters; only strings are ever written there. */
  function TagsText(filters: Obj): string {
    match Lookup(filters, "tags")
    case Some(Str(s)) => s
    case _ => ""
  }

  /** The suggestions shown: the first ten tags, and the count of the rest
      when there are more than ten. */
  function Suggestions(available: seq<string>): (r: (seq<string>, Option<nat>))
    ensures |r.0| == if |available| > 10 then 10 else |available|
    ensures r.0 == available[..|r.0|]
    ensures r.1.Some? <==> |available| > 10
    ensures r.1.Some? ==> r.1.value == |available| - 10
  {
    Overflow(available, 10)
  }

  // -------------------------------------------------------------- events

  datatype Event =
    | Change(field: string, value: string)   // a text input or the category select
    | ChooseSort(option: string)
    | ClickTag(tag: string)
    | ClearFilters
    | SearchClicked
    | KeyPress(key: string)

  /** The bar's reaction to one event: its next filters and the filters it
      hands to `onSearch`, if any. */
  function Step(filters: Obj, e: Event): (r: (Obj, Option<Obj>))
    requires DistinctKeys(filters)
    ensures DistinctKeys(r.0)
    ensures e == ClearFilters ==> r == (DefaultFilters(), Some(DefaultFilters()))
    ensures e == SearchClicked || e == KeyPress("Enter") ==> r == (filters, Some(filters))
    ensures r.1.Some? <==> e == ClearFilters || e == SearchClicked || e == KeyPress("Enter")
    ensures r.1.Some? ==> r.1.value == r.0
    ensures e.Change? ==> (Lookup(r.0, e.field) == Some(Str(e.value))
                           && forall k :: k != e.field ==> Lookup(r.0, k) == Lookup(filters, k))
    ensures e.ClickTag? && e.tag in CurrentTags(TagsText(filters)) ==> r.0 == filters
    ensures e.ClickTag? && e.tag !in CurrentTags(TagsText(filters)) ==>
              (TagsText(r.0) == JoinTags(CurrentTags(TagsText(filters)) + [e.tag])
               && forall k :: k != "tags" ==> Lookup(r.0, k) == Lookup(filters, k))
  {
    match e
    case Change(field, value) =>
      PutKeepsDistinct(filters, field, Str(value));
      (Put(filters, field, Str(value)), None)
    case ChooseSort(option) => (SelectSort(filters, option), None)
    case ClickTag(tag) =>
      (match AddTag(TagsText(filters), tag)
       case None => (filters, None)
       case Some(t) =>
         PutKeepsDistinct(filters, "tags", Str(t));
         (Put(filters, "tags", Str(t)), None))
    case ClearFilters => (DefaultFilters(), Some(DefaultFilters()))
    case SearchClicked => (filters, Some(filters))
    case KeyPress(key) => if key == "Enter" then (filters, Some(filters)) else (filters, None)
  }
}
