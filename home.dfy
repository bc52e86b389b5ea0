/** The home page (client/src/pages/home.tsx): the page, search and
    profession state, the query it sends to the listing, and the pagination
    controls. */
module Home {
  import opened Wrappers
  import opened Text
  import opened Schema
  import Routes
  import Storage

  /** The home page asks for 12 profiles per page. */
  const PageSize: nat := 12

  /** `Math.ceil(total / 12)`: the fewest pages of 12 that hold `total`
      profiles. */
  function TotalPages(total: nat): (n: nat)
    ensures n * PageSize >= total
    ensures n == 0 || (n - 1) * PageSize < total
  {
    (total + PageSize - 1) / PageSize
  }

  /** Pagination is shown only when there is more than one page, that is
      when there are more than 12 profiles. */
  predicate ShowPagination(total: nat) {
    TotalPages(total) > 1
  }

  lemma ShowPaginationExactly(total: nat)
    ensures ShowPagination(total) <==> total > PageSize
  {
    var n := TotalPages(total);
    if total > PageSize {
      assert n * PageSize > PageSize;
    }
  }

  /** The numbered buttons: `Array.from({ length: Math.min(5, totalPages) },
      (_, i) => i + 1)`. */
  function PageButtons(totalPages: nat): (r: seq<int>)
    ensures |r| == if totalPages < 5 then totalPages else 5
    ensures forall i :: 0 <= i < |r| ==> r[i] == i + 1
  {
    seq(if totalPages < 5 then totalPages else 5, i => i + 1)
  }

  /** Every button names a page that exists, and none beyond the fifth. */
  lemma ButtonsAreExistingPages(totalPages: nat, n: int)
    requires n in PageButtons(totalPages)
    ensures 1 <= n <= totalPages && n <= 5
  {
    var r := PageButtons(totalPages);
    var i :| 0 <= i < |r| && r[i] == n;
  }

  /** Prev: `Math.max(1, page - 1)`. */
  function PrevPage(page: int): (p: int)
    ensures p >= 1
    ensures page > 1 ==> p == page - 1
    ensures page <= 1 ==> p == 1
  {
    if 1 >= page - 1 then 1 else page - 1
  }

  /** Next: `Math.min(totalPages, page + 1)`. */
  function NextPage(page: int, totalPages: int): (p: int)
    ensures p <= totalPages
    ensures page < totalPages ==> p == page + 1
    ensures page >= totalPages ==> p == totalPages
  {
    if totalPages <= page + 1 then totalPages else page + 1
  }

  /** Inside the page range, Prev undoes Next and Next undoes Prev. */
  lemma PrevNextInverse(page: int, totalPages: int)
    ensures 1 <= page < totalPages ==> PrevPage(NextPage(page, totalPages)) == page
    ensures 1 < page <= totalPages ==> NextPage(PrevPage(page), totalPages) == page
  {
  }

  /** The page's state. */
  class HomePage {
    var page: int
    var search: string
    var profession: string

    /** The page number never drops below 1. */
    ghost predicate Valid()
      reads this
    {
      page >= 1
    }

    constructor ()
      ensures Valid() && page == 1 && search == "" && profession == ""
    {
      page := 1;
      search := "";
      profession := "";
    }

    /** `handleSearch`: a new search starts again at page 1. */
    method HandleSearch(value: string)
      modifies this
      ensures Valid()
      ensures search == value && page == 1 && profession == old(profession)
    {
      search := value;
      page := 1;
    }

    /** `handleProfessionFilter`: `all` clears the filter; any change starts
        again at page 1. */
    method HandleProfessionFilter(value: string)
      modifies this
      ensures Valid()
      ensures profession == (if value == "all" then "" else value)
      ensures page == 1 && search == old(search)
    {
      profession := if value == "all" then "" else value;
      page := 1;
    }

    method Prev()
      modifies this
      ensures Valid()
      ensures page == PrevPage(old(page))
      ensures search == old(search) && profession == old(profession)
    {
      page := PrevPage(page);
    }

    /** Next, offered only when there are pages at all. */
    method Next(totalPages: int)
      requires Valid() && totalPages >= 1
      modifies this
      ensures Valid()
      ensures page == NextPage(old(page), totalPages) && page <= totalPages
      ensures search == old(search) && profession == old(profession)
    {
      page := NextPage(page, totalPages);
    }

    /** A numbered button. */
    method GoTo(totalPages: nat, n: int)
      requires n in PageButtons(totalPages)
      modifies this
      ensures Valid()
      ensures page == n && n <= totalPages
      ensures search == old(search) && profession == old(profession)
    {
      ButtonsAreExistingPages(totalPages, n);
      page := n;
    }

    /** The query the page sends: `page`, `limit=12`, and `search` and
        `profession` when they are not empty. */
    function Query(): (q: map<string, string>)
      reads this
      ensures Lookup(q, "page") == Some(IntToString(page))
      ensures Lookup(q, "limit") == Some("12")
      ensures Lookup(q, "search") == if search == "" then None else Some(search)
      ensures Lookup(q, "profession") == if profession == "" then None else Some(profession)
    {
      var q := map["page" := IntToString(page), "limit" := "12"];
      var q := if search != "" then q["search" := search] else q;
      if profession != "" then q["profession" := profession] else q
    }
  }

  /** The server reads the page's query back as sent: the same page, a limit
      of 12 and the same search (an empty one being no search). */
  lemma ServerReadsHomeQuery(home: HomePage)
    requires home.Valid()
    ensures Routes.PageParam(home.Query()) == home.page
    ensures Routes.LimitParam(home.Query()) == 12
    ensures Lookup(home.Query(), "search") == if home.search == "" then None else Some(home.search)
  {
    Routes.QueryIntReadsBack(home.page, 1);
    assert "12" == IntToString(12);
    Routes.QueryIntReadsBack(12, 12);
  }

  /** The `profession` parameter changes nothing on the server: the listing
      is the same with or without it. */
  lemma ProfessionIsIgnored(store: Storage.ProfileStore, q: map<string, string>, value: string)
    ensures Routes.ListProfiles(store, q["profession" := value]) == Routes.ListProfiles(store, q)
  {
    var q2 := q["profession" := value];
    assert Lookup(q2, "page") == Lookup(q, "page");
    assert Lookup(q2, "limit") == Lookup(q, "limit");
    assert Lookup(q2, "search") == Lookup(q, "search");
  }
}
