/** The component list page: the filters it sends to the API, how a search
    and a page click change them, and the pagination controls and result
    count it shows. */
module ComponentsPage {

  import opened Js
  import opened Text
  import opened JsObject
  import SearchBar
  import ComponentApi
  import ComponentController
  import ComponentSchema

  /** The page's filters before any search: the search bar's defaults, with
      no page (the server then uses page 1). */
  function InitialFilters(): (f: Obj)
    ensures f == SearchBar.DefaultFilters()
    ensures Lookup(f, "page").None?
  {
    SearchBar.Filters("", "", "", "createdAt", "desc")
  }

  /** `{ ...prev, ...filters, page: 1 }`: the emitted filters win over the
      previous ones, and the page goes back to the first. */
  function HandleSearch(prev: Obj, filters: Obj): (r: Obj)
    requires DistinctKeys(prev) && DistinctKeys(filters)
    ensures DistinctKeys(r)
    ensures Lookup(r, "page") == Some(Num(1))
    ensures forall k :: k != "page" ==>
              Lookup(r, k) == if Lookup(filters, k).Some? then Lookup(filters, k) else Lookup(prev, k)
  {
    SpreadKeepsDistinct(prev, filters);
    PutKeepsDistinct(Spread(prev, filters), "page", Num(1));
    Put(Spread(prev, filters), "page", Num(1))
  }

  /** A search with the bar's five fields fully replaces them, whatever the
      previous filters held, and keeps nothing else but the page. */
  lemma SearchReplacesBarFields(prev: Obj, search: string, category: string, tags: string,
                                sortBy: string, sortOrder: string, k: string)
    requires DistinctKeys(prev)
    requires k in {"search", "category", "tags", "sortBy", "sortOrder"}
    ensures var f := SearchBar.Filters(search, category, tags, sortBy, sortOrder);
            Lookup(HandleSearch(prev, f), k) == Lookup(f, k)
  {
    var f := SearchBar.Filters(search, category, tags, sortBy, sortOrder);
    LookupFindsEntry(f, k);
    assert Keys(f) == ["search", "category", "tags", "sortBy", "sortOrder"];
  }

  /** `{ ...prev, page }`: a page button changes the page and nothing else. */
  function PageClick(prev: Obj, page: int): (r: Obj)
    requires DistinctKeys(prev)
    ensures DistinctKeys(r)
    ensures Lookup(r, "page") == Some(Num(page))
    ensures forall k :: k != "page" ==> Lookup(r, k) == Lookup(prev, k)
  {
    PutKeepsDistinct(prev, "page", Num(page));
    Put(prev, "page", Num(page))
  }

  /** The list request that follows a search asks for page 1, and the one
      that follows a page click asks for the clicked page. */
  lemma RequestedPage(prev: Obj, filters: Obj, page: int)
    requires DistinctKeys(prev) && DistinctKeys(filters)
    ensures Lookup(ComponentApi.Kept(HandleSearch(prev, filters)), "page") == Some(Num(1))
    ensures Lookup(ComponentApi.Kept(PageClick(prev, page)), "page") == Some(Num(page))
  {
    ComponentApi.KeptLookup(HandleSearch(prev, filters), "page");
    ComponentApi.KeptLookup(PageClick(prev, page), "page");
  }

  /** One pagination button: its page number and whether it is highlighted. */
  datatype PageButton = PageButton(page: int, current: bool)

  /** The pagination bar as written: nothing when there is one page or
      fewer, otherwise a button for each page from 1 to `pages`, highlighted
      when `page === pagination.current`. Strict equality never holds between
      a number and text, so a `current` the server echoes as text highlights
      no button. */
  function PageButtonsAsWritten(pages: int, current: Value): (r: seq<PageButton>)
    ensures pages <= 1 ==> r == []
    ensures pages > 1 ==> |r| == pages
    ensures forall i :: 0 <= i < |r| ==> r[i].page == i + 1 && (r[i].current <==> current == Num(i + 1))
  {
    if pages > 1 then seq(pages, i => PageButton(i + 1, current == Num(i + 1))) else []
  }

  /** `Number(pagination.current)`: the number itself, text read as a
      number, 0 for null, and `None` (NaN) for undefined. */
  function CurrentNumber(current: Value): (n: Option<int>)
    ensures current.Num? ==> n == Some(current.n)
    ensures current.Str? ==> n == NumberOf(current.s)
  {
    match current
    case Num(k) => Some(k)
    case Str(t) => NumberOf(t)
    case Nul => Some(0)
    case Undef => None
  }

  /** The pagination bar with the comparison the page evidently intends,
      `page === Number(pagination.current)`: the page highlighted whether the
      server sent it as a number or as text. */
  function PageButtons(pages: int, current: Value): (r: seq<PageButton>)
    ensures pages <= 1 ==> r == []
    ensures pages > 1 ==> |r| == pages
    ensures forall i :: 0 <= i < |r| ==> r[i].page == i + 1 && (r[i].current <==> CurrentNumber(current) == Some(i + 1))
  {
    if pages > 1 then seq(pages, i => PageButton(i + 1, CurrentNumber(current) == Some(i + 1))) else []
  }

  /** Every page from 1 to `pages` has exactly one button, highlighted
      exactly when it is the current page. */
  lemma OneButtonPerPage(pages: int, current: Value, p: int)
    requires pages > 1 && 1 <= p <= pages
    ensures exists i :: 0 <= i < |PageButtons(pages, current)| && PageButtons(pages, current)[i].page == p
    ensures forall i :: (0 <= i < |PageButtons(pages, current)| && PageButtons(pages, current)[i].page == p)
                          ==> i == p - 1 && (PageButtons(pages, current)[i].current <==> CurrentNumber(current) == Some(p))
  {
    assert PageButtons(pages, current)[p - 1].page == p;
  }

  /** Both bars agree while the server sends `current` as a number, which
      it does only when the request carried no page. */
  lemma ButtonsAgreeOnNumbers(pages: int, n: int)
    ensures PageButtonsAsWritten(pages, Num(n)) == PageButtons(pages, Num(n))
  {
  }

  /** Once a request carries a page, for instance after a search or a page
      click, the server echoes the page as text: the bar as written then
      highlights no button at all, while the corrected bar highlights exactly
      the requested page. */
  lemma SentPageHighlight(ordered: seq<ComponentSchema.Component>, q: ComponentController.ListQuery,
                          textMatch: (string, ComponentSchema.Component) -> bool, pages: int, p: int)
    requires ComponentController.NumericQuery(q) && q.page == Some(IntToString(p))
    requires ComponentController.GetComponents(ordered, q, textMatch).Success?
    requires pages > 1 && 1 <= p <= pages
    ensures var current := ComponentController.GetComponents(ordered, q, textMatch).value.current;
            && (forall i :: 0 <= i < pages ==> !PageButtonsAsWritten(pages, current)[i].current)
            && (forall i :: 0 <= i < pages ==> (PageButtons(pages, current)[i].current <==> i + 1 == p))
  {
    NumberOfIntToString(p);
  }

  /** The result line: the count, then "componente encontrado" for exactly
      one result and the plural "componentes encontrados" otherwise. */
  function ResultCount(total: int): (line: string)
    ensures |IntToString(total)| <= |line| && line[..|IntToString(total)|] == IntToString(total)
    ensures line[|IntToString(total)|..]
            == if total == 1 then " componente encontrado" else " componentes encontrados"
  {
    var count := IntToString(total);
    var suffix := PluralSuffix(total);
    var words := " componente" + suffix + " encontrado" + suffix;
    assert words == if total == 1 then " componente encontrado" else " componentes encontrados";
    assert (count + words)[|count|..] == words;
    count + words
  }
}
