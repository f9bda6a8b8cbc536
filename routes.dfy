/**
 * `lib/routes.ts`: the application's fixed routes and the home URL for a
 * combination of filters.
 */
module Routes {
  import opened Common
  import opened SearchParams

  const Home := "/"
  const Studio := "/studio"

  /** `ROUTES.EXPRESSION_DETAIL(id)`. */
  function ExpressionDetail(id: string): (r: string)
    ensures |r| == |"/expressions/"| + |id|
    ensures r[..|"/expressions/"|] == "/expressions/" && r[|"/expressions/"|..] == id
  {
    "/expressions/" + id
  }

  /** The filters of the home page; a field left out, or empty, is `""`. */
  datatype Filters = Filters(category: string, search: string, tag: string)

  /** The query pairs the filters contribute, in the order category, search, tag. */
  function FilterPairs(f: Filters): Params {
    CategoryPair(f) + SearchPair(f) + TagPair(f)
  }

  function CategoryPair(f: Filters): Params {
    if f.category != "" && f.category != "all" then [("category", f.category)] else []
  }

  function SearchPair(f: Filters): Params {
    if f.search != "" then [("search", f.search)] else []
  }

  function TagPair(f: Filters): Params {
    if f.tag != "" then [("tag", f.tag)] else []
  }

  /** `getHomeWithFilters(filters)`: sets each present filter in turn, and
    * returns `/` alone when no filter was set. */
  method GetHomeWithFilters(f: Filters, encode: string -> string) returns (url: string)
    ensures FilterPairs(f) == [] ==> url == Home
    ensures FilterPairs(f) != [] ==> url == Home + "?" + Serialize(FilterPairs(f), encode)
  {
    var params: Params := [];
    if f.category != "" && f.category != "all" {
      params := Set(params, "category", f.category);
    }
    if f.search != "" {
      params := AppendNew(params, "search", f.search);
    }
    if f.tag != "" {
      params := AppendNew(params, "tag", f.tag);
    }
    assert params == FilterPairs(f);
    var queryString := Serialize(params, encode);
    SerializeEmpty(params, encode);
    if queryString != "" {
      url := Home + "?" + queryString;
    } else {
      url := Home;
    }
  }

  /** `set` of a name not yet present appends it. */
  function AppendNew(p: Params, name: string, value: string): (r: Params)
    requires forall i :: 0 <= i < |p| ==> p[i].0 != name
    ensures r == Set(p, name, value) && r == p + [(name, value)]
  {
    NoValues(p, name);
    Set(p, name, value)
  }

  lemma {:induction false} NoValues(p: Params, name: string)
    requires forall i :: 0 <= i < |p| ==> p[i].0 != name
    ensures Values(p, name) == []
    decreases |p|
  {
    if p != [] {
      NoValues(p[1..], name);
    }
  }

  /** The values of one name in the query are those of each filter's part. */
  lemma FilterValues(f: Filters, name: string)
    ensures Values(FilterPairs(f), name) ==
      Values(CategoryPair(f), name) + Values(SearchPair(f), name) + Values(TagPair(f), name)
  {
    ValuesAppend(CategoryPair(f) + SearchPair(f), TagPair(f), name);
    ValuesAppend(CategoryPair(f), SearchPair(f), name);
  }

  /** Each filter is in the query exactly when it is set (a category other
    * than `all`), with its own value; no filters give `/`. */
  lemma FilterPairsExactly(f: Filters)
    ensures Get(FilterPairs(f), "category") == if f.category != "" && f.category != "all" then Some(f.category) else None
    ensures Get(FilterPairs(f), "search") == if f.search != "" then Some(f.search) else None
    ensures Get(FilterPairs(f), "tag") == if f.tag != "" then Some(f.tag) else None
    ensures FilterPairs(f) == [] <==> (f.category == "" || f.category == "all") && f.search == "" && f.tag == ""
    ensures FilterPairs(Filters("all", "", "")) == [] && FilterPairs(Filters("", "", "")) == []
  {
    FilterValues(f, "category");
    FilterValues(f, "search");
    FilterValues(f, "tag");
  }
}
