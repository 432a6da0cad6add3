/**
 * The URLs the adapter sends to the Komga server for the series listing
 * (`popularNovels`) and for search (`searchNovels`), the series path and the
 * thumbnail URL it hands to the host, and a reader of query strings that
 * states which parameters such a URL carries.
 */
module Urls {
  import opened Wrappers
  import opened Strings

  /** The series path given to the host: `"api/v1/series/" + id`. */
  function SeriesPath(id: string): (path: string)
    ensures |path| == 14 + |id| && path[..14] == "api/v1/series/" && path[14..] == id
  {
    "api/v1/series/" + id
  }

  /** The cover URL of a series: its thumbnail under the server's base URL. */
  function ThumbnailUrl(site: string, id: string): (url: string)
    ensures url == site + SeriesPath(id) + "/thumbnail"
  {
    site + "api/v1/series/" + id + "/thumbnail"
  }

  /** The sort token: most recently modified first for the "latest" view. */
  function SortToken(showLatest: bool): string
  {
    if showLatest then "lastModified,desc" else "name,asc"
  }

  /**
   * The filter values the host passes with a listing request. `library` is
   * `None` when the filter object has no `library` entry, which is the case
   * for the filters the plugin declares.
   */
  datatype Filters = Filters(library: Option<string>, readStatus: string, status: string)

  /** `filters?.library.value`, reading a missing entry as no value. */
  function LibraryValue(filters: Option<Filters>): string
  {
    if filters.Some? && filters.value.library.Some? then filters.value.library.value else ""
  }

  /** `filters?.read_status.value`, "" when no filters are given. */
  function ReadStatusValue(filters: Option<Filters>): string
  {
    if filters.Some? then filters.value.readStatus else ""
  }

  /** `filters?.status.value`, "" when no filters are given. */
  function StatusValue(filters: Option<Filters>): string
  {
    if filters.Some? then filters.value.status else ""
  }

  /** `value ? '&' + name + '=' + value : ''`: a parameter only for a non-empty value. */
  function OptionalParam(name: string, value: string): string
  {
    if value != "" then "&" + name + "=" + value else ""
  }

  /**
   * The listing URL of `popularNovels`, with a filter object that has no
   * `library` entry read as carrying no library.
   */
  function ListingUrl(site: string, pageNo: int, showLatest: bool, filters: Option<Filters>): string
  {
    site + "api/v1/series?page=" + IntToString(pageNo - 1)
    + OptionalParam("library_id", LibraryValue(filters))
    + OptionalParam("read_status", ReadStatusValue(filters))
    + OptionalParam("status", StatusValue(filters))
    + "&sort=" + SortToken(showLatest)
  }

  /** The TypeError JavaScript raises when reading `.value` of a missing filter entry. */
  datatype FilterError = MissingFilter(name: string)

  /**
   * The listing URL as komga.ts builds it: `filters?.library.value` guards
   * only `filters`, so a filter object without a `library` entry raises.
   */
  function ListingUrlAsWritten(site: string, pageNo: int, showLatest: bool, filters: Option<Filters>)
    : (r: Result<string, FilterError>)
    ensures r.Failure? <==> filters.Some? && filters.value.library.None?
    ensures r.Failure? ==> r.error == MissingFilter("library")
    ensures r.Success? ==> r.value == ListingUrl(site, pageNo, showLatest, filters)
  {
    if filters.Some? && filters.value.library.None? then Failure(MissingFilter("library"))
    else Success(ListingUrl(site, pageNo, showLatest, filters))
  }

  /** The URL of `searchNovels`; the term goes in as it is, without escaping. */
  function SearchUrl(site: string, term: string, pageNo: int): string
  {
    site + "api/v1/series?search=" + term + "&page=" + IntToString(pageNo - 1)
  }

  // ---------------------------------------------------------------------
  // Query strings as lists of parameters.

  datatype Param = Param(key: string, value: string)

  function RenderParam(p: Param): string
  {
    p.key + "=" + p.value
  }

  function RenderParams(ps: seq<Param>): (r: seq<string>)
    ensures |r| == |ps|
  {
    seq(|ps|, k requires 0 <= k < |ps| => RenderParam(ps[k]))
  }

  /** `key=value` pairs joined by `&`, as the URL builders write them. */
  function RenderQuery(ps: seq<Param>): string
  {
    Join(RenderParams(ps), "&")
  }

  /** Reads one `key=value` piece, splitting at its first `=`. */
  function ParseParam(s: string): Param
  {
    match FindFirst(s, "=")
    case None => Param(s, "")
    case Some(i) => Param(s[..i], s[i + 1..])
  }

  /** Reads a query string as the parameters between its `&` separators. */
  function ParseQuery(q: string): seq<Param>
  {
    var pieces := Split(q, "&");
    seq(|pieces|, k requires 0 <= k < |pieces| => ParseParam(pieces[k]))
  }

  /** A URL without its fragment: the text before its first `#`, which a request never sends. */
  function BeforeFragment(url: string): string
  {
    match FindFirst(url, "#")
    case None => url
    case Some(j) => url[..j]
  }

  /** The query a request sends: after the first `?`, and before the fragment. */
  function QueryOf(url: string): string
  {
    var sent := BeforeFragment(url);
    match FindFirst(sent, "?")
    case None => ""
    case Some(i) => sent[i + 1..]
  }

  /** A URL without `#` is sent whole. */
  lemma NoFragment(url: string)
    requires '#' !in url
    ensures BeforeFragment(url) == url
  {
    ContainsChar(url, '#');
  }

  /** The first `#` cuts off everything after it. */
  lemma FragmentCut(sent: string, frag: string)
    requires '#' !in sent
    ensures BeforeFragment(sent + "#" + frag) == sent
  {
    var url := sent + "#" + frag;
    assert url[..|sent|] == sent;
    FindFirstChar(url, '#', |sent|);
  }

  /** A parameter that reads back as itself once rendered into a query. */
  predicate Plain(p: Param)
  {
    '&' !in p.key && '=' !in p.key && '&' !in p.value
  }

  lemma ParseRenderParam(p: Param)
    requires '=' !in p.key
    ensures ParseParam(RenderParam(p)) == p
  {
    var s := RenderParam(p);
    assert s[|p.key|] == '=' && s[..|p.key|] == p.key;
    FindFirstChar(s, '=', |p.key|);
    assert s[|p.key| + 1..] == p.value;
  }

  /** Reading a rendered query gives back its parameters. */
  lemma {:induction false} ParseRenderQuery(ps: seq<Param>)
    requires 0 < |ps|
    requires forall k :: 0 <= k < |ps| ==> Plain(ps[k])
    ensures ParseQuery(RenderQuery(ps)) == ps
  {
    var rs := RenderParams(ps);
    assert "&"[..0] == "";
    forall k | 0 <= k < |rs|
      ensures !Contains(rs[k] + "&"[..0], "&")
    {
      assert rs[k] + "&"[..0] == rs[k] == ps[k].key + "=" + ps[k].value;
      ContainsChar(rs[k], '&');
    }
    SplitJoin(rs, "&");
    forall k | 0 <= k < |ps|
      ensures ParseParam(rs[k]) == ps[k]
    {
      ParseRenderParam(ps[k]);
    }
  }

  /**
   * With a base URL without `?` and a path ending in its only `?`, the query
   * of a URL without `#` is the text after the path.
   */
  lemma QueryAfterPath(site: string, path: string, q: string)
    requires '?' !in site && 0 < |path| && path[|path| - 1] == '?' && '?' !in path[..|path| - 1]
    requires '#' !in site + path + q
    ensures QueryOf(site + path + q) == q
  {
    NoFragment(site + path + q);
    QueryMark(site, path, q);
  }

  /** With a `#` after the path, the query ends at that `#`. */
  lemma QueryBeforeFragment(site: string, path: string, q: string, frag: string)
    requires '?' !in site && 0 < |path| && path[|path| - 1] == '?' && '?' !in path[..|path| - 1]
    requires '#' !in site + path + q
    ensures QueryOf(site + path + q + "#" + frag) == q
  {
    FragmentCut(site + path + q, frag);
    QueryMark(site, path, q);
  }

  lemma QueryMark(site: string, path: string, q: string)
    requires '?' !in site && 0 < |path| && path[|path| - 1] == '?' && '?' !in path[..|path| - 1]
    ensures FindFirst(site + path + q, "?") == Some(|site| + |path| - 1)
    ensures (site + path + q)[|site| + |path|..] == q
  {
    var url := site + path + q;
    var n := |site| + |path| - 1;
    assert url[n] == '?';
    forall j | 0 <= j < n
      ensures url[..n][j] != '?'
    {
      if j < |site| {
        assert url[j] == site[j];
      } else {
        assert url[j] == path[..|path| - 1][j - |site|];
      }
    }
    FindFirstChar(url, '?', n);
    assert url[n + 1..] == q;
  }

  // ---------------------------------------------------------------------
  // The parameters of a listing request.

  function OptionalParams(name: string, value: string): seq<Param>
  {
    if value != "" then [Param(name, value)] else []
  }

  /** The parameters the listing URL carries, in order. */
  function ListingParams(pageNo: int, showLatest: bool, filters: Option<Filters>): seq<Param>
  {
    [Param("page", IntToString(pageNo - 1))]
    + OptionalParams("library_id", LibraryValue(filters))
    + OptionalParams("read_status", ReadStatusValue(filters))
    + OptionalParams("status", StatusValue(filters))
    + [Param("sort", SortToken(showLatest))]
  }

  /** The position of each listing parameter in the fixed order. */
  function KeyRank(key: string): nat
  {
    if key == "page" then 0
    else if key == "library_id" then 1
    else if key == "read_status" then 2
    else if key == "status" then 3
    else if key == "sort" then 4
    else 5
  }

  /** The keys of `ps`, in order. */
  function Keys(ps: seq<Param>): (keys: seq<string>)
    ensures |keys| == |ps|
  {
    seq(|ps|, k requires 0 <= k < |ps| => ps[k].key)
  }

  /** Each key ranks strictly after the keys before it. */
  predicate RanksIncrease(keys: seq<string>)
  {
    forall i, j :: 0 <= i < j < |keys| ==> KeyRank(keys[i]) < KeyRank(keys[j])
  }

  lemma RenderQueryCons(p: Param, ps: seq<Param>)
    requires 0 < |ps|
    ensures RenderQuery([p] + ps) == RenderParam(p) + ("&" + RenderQuery(ps))
  {
    assert RenderParams([p] + ps) == [RenderParam(p)] + RenderParams(ps);
  }

  lemma RenderOptional(name: string, value: string, rest: seq<Param>)
    requires 0 < |rest|
    ensures "&" + RenderQuery(OptionalParams(name, value) + rest)
         == OptionalParam(name, value) + ("&" + RenderQuery(rest))
  {
    if value != "" {
      RenderQueryCons(Param(name, value), rest);
      assert "&" + (RenderParam(Param(name, value)) + ("&" + RenderQuery(rest)))
          == OptionalParam(name, value) + ("&" + RenderQuery(rest));
    } else {
      assert OptionalParams(name, value) + rest == rest;
    }
  }

  lemma RenderListingTail(library: string, readStatus: string, status: string, tok: string)
    ensures "&" + RenderQuery(OptionalParams("library_id", library)
                              + (OptionalParams("read_status", readStatus)
                                 + (OptionalParams("status", status) + [Param("sort", tok)])))
         == OptionalParam("library_id", library) + (OptionalParam("read_status", readStatus)
            + (OptionalParam("status", status) + ("&sort=" + tok)))
  {
    var x3 := OptionalParams("status", status) + [Param("sort", tok)];
    var x2 := OptionalParams("read_status", readStatus) + x3;
    RenderSort(tok);
    RenderOptional("status", status, [Param("sort", tok)]);
    RenderOptional("read_status", readStatus, x3);
    RenderOptional("library_id", library, x2);
  }

  /** The listing URL is the base, the listing path, and its parameters rendered in order. */
  lemma ListingUrlRendersParams(site: string, pageNo: int, showLatest: bool, filters: Option<Filters>)
    ensures ListingUrl(site, pageNo, showLatest, filters)
         == site + "api/v1/series?" + RenderQuery(ListingParams(pageNo, showLatest, filters))
  {
    var n := IntToString(pageNo - 1);
    var tok := SortToken(showLatest);
    var a1 := OptionalParam("library_id", LibraryValue(filters));
    var a2 := OptionalParam("read_status", ReadStatusValue(filters));
    var a3 := OptionalParam("status", StatusValue(filters));
    var x1 := OptionalParams("library_id", LibraryValue(filters))
              + (OptionalParams("read_status", ReadStatusValue(filters))
                 + (OptionalParams("status", StatusValue(filters)) + [Param("sort", tok)]));
    assert ListingParams(pageNo, showLatest, filters) == [Param("page", n)] + x1;
    RenderQueryCons(Param("page", n), x1);
    RenderListingTail(LibraryValue(filters), ReadStatusValue(filters), StatusValue(filters), tok);
    ListingPrefix(site, n, a1 + (a2 + (a3 + ("&sort=" + tok))));
    Reassociate(site, "api/v1/series?page=", n, a1, a2, a3, "&sort=", tok);
  }

  function OptionalKeys(name: string, value: string): seq<string>
  {
    if value != "" then [name] else []
  }

  lemma ListingKeys(pageNo: int, showLatest: bool, filters: Option<Filters>)
    ensures Keys(ListingParams(pageNo, showLatest, filters))
         == ["page"] + OptionalKeys("library_id", LibraryValue(filters))
            + OptionalKeys("read_status", ReadStatusValue(filters))
            + OptionalKeys("status", StatusValue(filters)) + ["sort"]
  {
    var o1 := OptionalParams("library_id", LibraryValue(filters));
    var o2 := OptionalParams("read_status", ReadStatusValue(filters));
    var o3 := OptionalParams("status", StatusValue(filters));
    var sort := [Param("sort", SortToken(showLatest))];
    var page := [Param("page", IntToString(pageNo - 1))];
    KeysAppend(page, o1);
    KeysAppend(page + o1, o2);
    KeysAppend(page + o1 + o2, o3);
    KeysAppend(page + o1 + o2 + o3, sort);
  }

  /** Appending at most one key of rank `r` after keys of lower rank keeps the ranks increasing. */
  lemma AppendRankedKey(keys: seq<string>, more: seq<string>, r: nat)
    requires RanksIncrease(keys) && forall x :: x in keys ==> KeyRank(x) < r
    requires |more| <= 1 && forall y :: y in more ==> KeyRank(y) == r
    ensures RanksIncrease(keys + more) && forall x :: x in keys + more ==> KeyRank(x) <= r
  {
    if |more| == 1 {
      forall i, j | 0 <= i < j < |keys + more|
        ensures KeyRank((keys + more)[i]) < KeyRank((keys + more)[j])
      {
        if j == |keys| {
          assert (keys + more)[i] in keys;
          assert (keys + more)[j] in more;
        }
      }
    } else {
      assert keys + more == keys;
    }
  }

  /**
   * The listing parameters come in the fixed order page, library_id,
   * read_status, status, sort, each key at most once.
   */
  lemma ListingParamsOrdered(pageNo: int, showLatest: bool, filters: Option<Filters>)
    ensures RanksIncrease(Keys(ListingParams(pageNo, showLatest, filters)))
  {
    var k1 := OptionalKeys("library_id", LibraryValue(filters));
    var k2 := OptionalKeys("read_status", ReadStatusValue(filters));
    var k3 := OptionalKeys("status", StatusValue(filters));
    ListingKeys(pageNo, showLatest, filters);
    AppendRankedKey(["page"], k1, 1);
    AppendRankedKey(["page"] + k1, k2, 2);
    AppendRankedKey(["page"] + k1 + k2, k3, 3);
    AppendRankedKey(["page"] + k1 + k2 + k3, ["sort"], 4);
  }

  /**
   * The listing parameters start with the zero-based page and end with the
   * sort token; each optional key is present exactly when its filter value is
   * non-empty, and then carries that value.
   */
  lemma ListingParamsContent(pageNo: int, showLatest: bool, filters: Option<Filters>)
    ensures var ps := ListingParams(pageNo, showLatest, filters);
      && ps[0] == Param("page", IntToString(pageNo - 1))
      && ParseInt(ps[0].value) == Some(pageNo - 1)
      && ps[|ps| - 1] == Param("sort", if showLatest then "lastModified,desc" else "name,asc")
      && ("library_id" in Keys(ps) <==> LibraryValue(filters) != "")
      && ("read_status" in Keys(ps) <==> ReadStatusValue(filters) != "")
      && ("status" in Keys(ps) <==> StatusValue(filters) != "")
      && (LibraryValue(filters) != "" ==> Param("library_id", LibraryValue(filters)) in ps)
      && (ReadStatusValue(filters) != "" ==> Param("read_status", ReadStatusValue(filters)) in ps)
      && (StatusValue(filters) != "" ==> Param("status", StatusValue(filters)) in ps)
  {
    ParseIntToString(pageNo - 1);
    ListingParamsEnds(pageNo, showLatest, filters);
    ListingKeysPresent(pageNo, showLatest, filters);
    ListingValuesCarried(pageNo, showLatest, filters);
  }

  lemma ListingParamsEnds(pageNo: int, showLatest: bool, filters: Option<Filters>)
    ensures var ps := ListingParams(pageNo, showLatest, filters);
      && ps[0] == Param("page", IntToString(pageNo - 1))
      && ps[|ps| - 1] == Param("sort", SortToken(showLatest))
  {
  }

  lemma ListingKeysPresent(pageNo: int, showLatest: bool, filters: Option<Filters>)
    ensures var keys := Keys(ListingParams(pageNo, showLatest, filters));
      && ("library_id" in keys <==> LibraryValue(filters) != "")
      && ("read_status" in keys <==> ReadStatusValue(filters) != "")
      && ("status" in keys <==> StatusValue(filters) != "")
  {
    var k1 := OptionalKeys("library_id", LibraryValue(filters));
    var k2 := OptionalKeys("read_status", ReadStatusValue(filters));
    var k3 := OptionalKeys("status", StatusValue(filters));
    ListingKeys(pageNo, showLatest, filters);
    ListingKeysDistinct();
    InListingShape("library_id", "page", k1, k2, k3, "sort");
    InListingShape("read_status", "page", k1, k2, k3, "sort");
    InListingShape("status", "page", k1, k2, k3, "sort");
  }

  lemma ListingValuesCarried(pageNo: int, showLatest: bool, filters: Option<Filters>)
    ensures var ps := ListingParams(pageNo, showLatest, filters);
      && (LibraryValue(filters) != "" ==> Param("library_id", LibraryValue(filters)) in ps)
      && (ReadStatusValue(filters) != "" ==> Param("read_status", ReadStatusValue(filters)) in ps)
      && (StatusValue(filters) != "" ==> Param("status", StatusValue(filters)) in ps)
  {
    var page := [Param("page", IntToString(pageNo - 1))];
    var o1 := OptionalParams("library_id", LibraryValue(filters));
    var o2 := OptionalParams("read_status", ReadStatusValue(filters));
    var o3 := OptionalParams("status", StatusValue(filters));
    var sort := [Param("sort", SortToken(showLatest))];
    assert ListingParams(pageNo, showLatest, filters) == page + o1 + o2 + o3 + sort;
  }

  lemma ListingParamsPlain(pageNo: int, showLatest: bool, filters: Option<Filters>)
    requires '&' !in LibraryValue(filters) && '&' !in ReadStatusValue(filters) && '&' !in StatusValue(filters)
    ensures forall p :: p in ListingParams(pageNo, showLatest, filters) ==> Plain(p)
  {
    IntToStringChars(pageNo - 1, '&');
    ListingKeysPlain();
    var o1 := OptionalParams("library_id", LibraryValue(filters));
    var o2 := OptionalParams("read_status", ReadStatusValue(filters));
    var o3 := OptionalParams("status", StatusValue(filters));
    var ends := [Param("page", IntToString(pageNo - 1)), Param("sort", SortToken(showLatest))];
    forall p | p in ListingParams(pageNo, showLatest, filters)
      ensures Plain(p)
    {
      assert p in ends || p in o1 || p in o2 || p in o3;
    }
  }

  lemma OptionalParamNoFragment(name: string, value: string)
    requires '#' !in name && '#' !in value
    ensures '#' !in OptionalParam(name, value)
  {
  }

  /** A listing URL from parts without `#` has no fragment. */
  lemma ListingUrlNoFragment(site: string, pageNo: int, showLatest: bool, filters: Option<Filters>)
    requires '#' !in site
    requires '#' !in LibraryValue(filters) && '#' !in ReadStatusValue(filters) && '#' !in StatusValue(filters)
    ensures '#' !in ListingUrl(site, pageNo, showLatest, filters)
  {
    ListingLiteralsNoFragment(showLatest);
    IntToStringChars(pageNo - 1, '#');
    OptionalParamNoFragment("library_id", LibraryValue(filters));
    OptionalParamNoFragment("read_status", ReadStatusValue(filters));
    OptionalParamNoFragment("status", StatusValue(filters));
  }

  /**
   * With a base URL without `?` and filter values without `&`, the listing
   * URL carries exactly the listing parameters.
   */
  lemma ListingQueryParses(site: string, pageNo: int, showLatest: bool, filters: Option<Filters>)
    requires '?' !in site && '#' !in site
    requires '&' !in LibraryValue(filters) && '&' !in ReadStatusValue(filters) && '&' !in StatusValue(filters)
    requires '#' !in LibraryValue(filters) && '#' !in ReadStatusValue(filters) && '#' !in StatusValue(filters)
    ensures ParseQuery(QueryOf(ListingUrl(site, pageNo, showLatest, filters)))
         == ListingParams(pageNo, showLatest, filters)
  {
    var ps := ListingParams(pageNo, showLatest, filters);
    ListingQueryOf(site, pageNo, showLatest, filters);
    ListingParamsPlain(pageNo, showLatest, filters);
    forall k | 0 <= k < |ps|
      ensures Plain(ps[k])
    {
      assert ps[k] in ps;
    }
    ParseRenderQuery(ps);
  }

  lemma ListingQueryOf(site: string, pageNo: int, showLatest: bool, filters: Option<Filters>)
    requires '?' !in site && '#' !in site
    requires '#' !in LibraryValue(filters) && '#' !in ReadStatusValue(filters) && '#' !in StatusValue(filters)
    ensures QueryOf(ListingUrl(site, pageNo, showLatest, filters)) == RenderQuery(ListingParams(pageNo, showLatest, filters))
  {
    ListingUrlRendersParams(site, pageNo, showLatest, filters);
    ListingUrlNoFragment(site, pageNo, showLatest, filters);
    QueryAfterPath(site, "api/v1/series?", RenderQuery(ListingParams(pageNo, showLatest, filters)));
  }

  lemma SearchQueryText(term: string, n: string)
    ensures RenderQuery([Param("search", term), Param("page", n)])
         == ("search" + "=") + term + ("&" + (("page" + "=") + n))
  {
    RenderQueryCons(Param("search", term), [Param("page", n)]);
    assert [Param("search", term), Param("page", n)] == [Param("search", term)] + [Param("page", n)];
    assert RenderParams([Param("page", n)]) == [RenderParam(Param("page", n))];
    assert RenderQuery([Param("page", n)]) == RenderParam(Param("page", n));
  }

  /** The search URL is the base, `api/v1/series?`, and the term and page rendered in order. */
  lemma SearchRendersParams(site: string, term: string, pageNo: int)
    ensures SearchUrl(site, term, pageNo)
         == site + "api/v1/series?" + RenderQuery([Param("search", term), Param("page", IntToString(pageNo - 1))])
  {
    var n := IntToString(pageNo - 1);
    SearchLiterals();
    SearchQueryText(term, n);
    SearchShape(site, "api/v1/series?", "search" + "=", term, "&", "page" + "=", n);
  }

  /**
   * With a base URL without `?` and a term without `&`, the search URL carries
   * exactly the term and the zero-based page, in that order.
   */
  lemma SearchQueryParses(site: string, term: string, pageNo: int)
    requires '?' !in site && '#' !in site && '&' !in term && '#' !in term
    ensures ParseQuery(QueryOf(SearchUrl(site, term, pageNo)))
         == [Param("search", term), Param("page", IntToString(pageNo - 1))]
    ensures ParseInt(IntToString(pageNo - 1)) == Some(pageNo - 1)
  {
    var n := IntToString(pageNo - 1);
    SearchQueryOf(site, term, pageNo);
    SearchPiecesPlain(term, pageNo);
    SearchQueryReads(term, n);
    ParseIntToString(pageNo - 1);
  }

  lemma SearchQueryOf(site: string, term: string, pageNo: int)
    requires '?' !in site && '#' !in site && '#' !in term
    ensures QueryOf(SearchUrl(site, term, pageNo))
         == RenderQuery([Param("search", term), Param("page", IntToString(pageNo - 1))])
  {
    var ps := [Param("search", term), Param("page", IntToString(pageNo - 1))];
    SearchRendersParams(site, term, pageNo);
    SearchUrlNoFragment(site, term, pageNo);
    QueryAfterPath(site, "api/v1/series?", RenderQuery(ps));
  }

  /** A search URL from a base and a term without `#` has no fragment. */
  lemma SearchUrlNoFragment(site: string, term: string, pageNo: int)
    requires '#' !in site && '#' !in term
    ensures '#' !in SearchUrl(site, term, pageNo)
  {
    SearchLiteralsNoFragment();
    IntToStringChars(pageNo - 1, '#');
  }

  lemma SearchQueryReads(term: string, n: string)
    requires '&' !in "search" + "=" + term && '&' !in "page" + "=" + n
    ensures ParseQuery(RenderQuery([Param("search", term), Param("page", n)]))
         == [Param("search", term), Param("page", n)]
  {
    var ps := [Param("search", term), Param("page", n)];
    SearchParamsRead(term, n);
    ParseTwo(RenderParam(ps[0]), RenderParam(ps[1]));
    assert RenderParams(ps) == [RenderParam(ps[0]), RenderParam(ps[1])];
  }

  lemma ParseTwo(a: string, b: string)
    requires '&' !in a && '&' !in b
    ensures ParseQuery(Join([a, b], "&")) == [ParseParam(a), ParseParam(b)]
  {
    var pieces := [a, b];
    assert "&"[..0] == "";
    forall k | 0 <= k < 2
      ensures !Contains(pieces[k] + "&"[..0], "&")
    {
      assert pieces[k] + "&"[..0] == pieces[k];
      ContainsChar(pieces[k], '&');
    }
    SplitJoin(pieces, "&");
  }

  lemma JoinThree(a: string, b: string, c: string, sep: string)
    ensures Join([a, b, c], sep) == a + sep + (b + sep + c)
  {
    assert [a, b, c][1..] == [b, c];
    assert [b, c][1..] == [c];
    assert Join([b, c], sep) == b + sep + c;
  }

  lemma ParseThree(a: string, b: string, c: string)
    requires '&' !in a && '&' !in b && '&' !in c
    ensures ParseQuery(Join([a, b, c], "&")) == [ParseParam(a), ParseParam(b), ParseParam(c)]
  {
    var pieces := [a, b, c];
    assert "&"[..0] == "";
    forall k | 0 <= k < 3
      ensures !Contains(pieces[k] + "&"[..0], "&")
    {
      assert pieces[k] + "&"[..0] == pieces[k];
      ContainsChar(pieces[k], '&');
    }
    SplitJoin(pieces, "&");
  }

  /**
   * The term is not escaped: an `&` in it ends the search parameter, and what
   * follows is read as a parameter of its own.
   */
  lemma SearchTermNotEscaped(site: string, before: string, after: string, pageNo: int)
    requires '?' !in site && '#' !in site && '&' !in before && '&' !in after && '#' !in before + after
    ensures ParseQuery(QueryOf(SearchUrl(site, before + "&" + after, pageNo)))
         == [Param("search", before), ParseParam(after), Param("page", IntToString(pageNo - 1))]
  {
    var n := IntToString(pageNo - 1);
    var first := "search" + "=" + before;
    var last := "page" + "=" + n;
    var q := Join([first, after, last], "&");
    SearchUrlSplitsTerm(site, before, after, pageNo);
    assert '#' !in before + "&" + after;
    SearchUrlNoFragment(site, before + "&" + after, pageNo);
    QueryAfterPath(site, "api/v1/series?", q);
    SearchPiecesPlain(before, pageNo);
    ParseThree(first, after, last);
    SearchParamsRead(before, n);
  }

  /**
   * The term is not escaped: a `#` in it starts the fragment, which the request
   * does not send, so the search value stops there and the page is lost.
   */
  lemma SearchTermFragment(site: string, before: string, after: string, pageNo: int)
    requires '?' !in site && '#' !in site && '&' !in before && '#' !in before
    ensures ParseQuery(QueryOf(SearchUrl(site, before + "#" + after, pageNo))) == [Param("search", before)]
  {
    var tail := after + "&page=" + IntToString(pageNo - 1);
    var q := "search" + "=" + before;
    FragmentShape(site, "api/v1/series?", "search" + "=", before, after, "&page=", IntToString(pageNo - 1));
    SearchLiterals();
    assert '#' !in "api/v1/series?";
    assert '#' !in "search" + "=";
    QueryBeforeFragment(site, "api/v1/series?", q, tail);
    assert [Param("search", before)] == [Param("search", before)] + [];
    assert RenderQuery([Param("search", before)]) == RenderParam(Param("search", before));
    SearchPiecesPlain(before, pageNo);
    ParseRenderQuery([Param("search", before)]);
  }

  lemma SearchUrlSplitsTerm(site: string, before: string, after: string, pageNo: int)
    ensures SearchUrl(site, before + "&" + after, pageNo)
         == site + "api/v1/series?" + Join(["search" + "=" + before, after, "page" + "=" + IntToString(pageNo - 1)], "&")
  {
    var n := IntToString(pageNo - 1);
    SearchRendersParams(site, before + "&" + after, pageNo);
    SearchQueryText(before + "&" + after, n);
    TermSplitShape("search" + "=", before, "&", after, "page" + "=" + n);
    JoinThree("search" + "=" + before, after, "page" + "=" + n, "&");
  }

  lemma SearchParamsRead(term: string, n: string)
    ensures ParseParam("search" + "=" + term) == Param("search", term)
    ensures ParseParam("page" + "=" + n) == Param("page", n)
  {
    ParseRenderParam(Param("search", term));
    ParseRenderParam(Param("page", n));
  }

  lemma SearchPiecesPlain(before: string, pageNo: int)
    requires '&' !in before
    ensures '&' !in "search" + "=" + before && '&' !in "page" + "=" + IntToString(pageNo - 1)
  {
    IntToStringChars(pageNo - 1, '&');
  }

  /**
   * The finding: the filters the plugin declares have no `library` entry, so
   * every listing request that passes them fails as komga.ts is written.
   */
  lemma DeclaredFiltersFail(site: string, pageNo: int, showLatest: bool, readStatus: string, status: string)
    ensures ListingUrlAsWritten(site, pageNo, showLatest, Some(Filters(None, readStatus, status))).Failure?
  {
  }

  // ---------------------------------------------------------------------
  // Solver helpers. These lemmas only spell out string literals, reassociate
  // concatenations or restate small facts about the listing keys; they state
  // nothing about komga.ts and exist to keep the proofs above cheap.

  lemma RenderSort(tok: string)
    ensures "&" + RenderQuery([Param("sort", tok)]) == "&sort=" + tok
  {
    assert RenderParams([Param("sort", tok)]) == ["sort" + "=" + tok];
    assert "&" + ("sort" + "=" + tok) == "&sort=" + tok;
  }

  lemma ListingPrefix(site: string, n: string, rest: string)
    ensures site + "api/v1/series?" + ("page" + "=" + n + rest)
         == site + ("api/v1/series?page=" + (n + rest))
  {
    assert "api/v1/series?" + ("page" + "=") == "api/v1/series?page=";
  }

  lemma Reassociate(site: string, path: string, n: string, a1: string, a2: string, a3: string, sort: string, tok: string)
    ensures site + path + n + a1 + a2 + a3 + sort + tok
         == site + (path + (n + (a1 + (a2 + (a3 + (sort + tok))))))
  {
  }

  lemma KeysAppend(ps: seq<Param>, qs: seq<Param>)
    ensures Keys(ps + qs) == Keys(ps) + Keys(qs)
  {
  }

  /** Membership in a list shaped like the listing keys. */
  lemma InListingShape(x: string, first: string, k1: seq<string>, k2: seq<string>, k3: seq<string>, last: string)
    ensures x in [first] + k1 + k2 + k3 + [last] <==> x == first || x in k1 || x in k2 || x in k3 || x == last
  {
  }

  lemma ListingKeysDistinct()
    ensures "library_id" != "page" && "library_id" != "read_status" && "library_id" != "status" && "library_id" != "sort"
    ensures "read_status" != "page" && "read_status" != "status" && "read_status" != "sort"
    ensures "status" != "page" && "status" != "sort"
  {
  }

  lemma ListingKeysPlain()
    ensures '&' !in "page" && '=' !in "page" && '&' !in "sort" && '=' !in "sort"
    ensures '&' !in "library_id" && '=' !in "library_id"
    ensures '&' !in "read_status" && '=' !in "read_status" && '&' !in "status" && '=' !in "status"
    ensures '&' !in "lastModified,desc" && '&' !in "name,asc"
  {
  }

  lemma ListingLiteralsNoFragment(showLatest: bool)
    ensures '#' !in "api/v1/series?page=" && '#' !in "&sort=" && '#' !in SortToken(showLatest)
  {
  }

  lemma SearchLiterals()
    ensures "api/v1/series?" + ("search" + "=") == "api/v1/series?search="
    ensures "&" + ("page" + "=") == "&page="
  {
  }

  lemma SearchShape(site: string, path: string, k1: string, term: string, amp: string, k2: string, n: string)
    ensures site + (path + k1) + term + (amp + k2) + n == site + path + (k1 + term + (amp + (k2 + n)))
  {
  }

  lemma SearchLiteralsNoFragment()
    ensures '#' !in "api/v1/series?search=" && '#' !in "&page="
  {
  }

  lemma TermSplitShape(k1: string, before: string, amp: string, after: string, tail: string)
    ensures k1 + (before + amp + after) + (amp + tail) == (k1 + before) + amp + (after + amp + tail)
  {
  }

  lemma FragmentShape(site: string, path: string, k1: string, before: string, after: string, amp: string, n: string)
    ensures site + (path + k1) + (before + "#" + after) + amp + n == site + path + (k1 + before) + "#" + (after + amp + n)
  {
  }
}
