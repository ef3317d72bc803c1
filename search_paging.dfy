/** JobSearchViewModel: the paging state behind the job search view. The
    discovery service is a function from (page number, page size) to the
    page it returns, None when it throws. */
module SearchPaging {
  import opened Wrappers
  import opened Entities

  /** The three numbers the paging commands read and write. */
  datatype Paging = Paging(currentPage: int, pageSize: int, totalResults: int)

  predicate HasNext(p: Paging)
  {
    p.currentPage * p.pageSize < p.totalResults
  }

  predicate HasPrevious(p: Paging)
  {
    p.currentPage > 1
  }

  /** LoadNextPageAsync's effect on the page: one forward when there is a
      next page, nothing otherwise. */
  function NextPaging(p: Paging): (r: Paging)
    ensures r.pageSize == p.pageSize && r.totalResults == p.totalResults
    ensures HasNext(p) ==> r.currentPage == p.currentPage + 1
    ensures !HasNext(p) ==> r == p
  {
    if HasNext(p) then p.(currentPage := p.currentPage + 1) else p
  }

  /** LoadPreviousPageAsync's effect on the page: one back unless at page 1. */
  function PreviousPaging(p: Paging): (r: Paging)
    ensures r.pageSize == p.pageSize && r.totalResults == p.totalResults
    ensures HasPrevious(p) ==> r.currentPage == p.currentPage - 1
    ensures !HasPrevious(p) ==> r == p
  {
    if HasPrevious(p) then p.(currentPage := p.currentPage - 1) else p
  }

  /** SearchJobsAsync's effect on the page when the service answers: back
      to page 1 with the fixed total of 100. */
  function SearchPaging(p: Paging): (r: Paging)
    ensures r.currentPage == 1 && r.totalResults == 100 && r.pageSize == p.pageSize
  {
    Paging(1, p.pageSize, 100)
  }

  /** The commands never take the page below 1. */
  lemma PagingStaysPositive(p: Paging)
    requires p.currentPage >= 1
    ensures NextPaging(p).currentPage >= 1
    ensures PreviousPaging(p).currentPage >= 1
    ensures SearchPaging(p).currentPage >= 1
  {
  }

  /** A next page that was taken can be left again: Previous after a
      successful Next restores the page. */
  lemma NextThenPrevious(p: Paging)
    requires p.currentPage >= 1 && HasNext(p)
    ensures HasPrevious(NextPaging(p))
    ensures PreviousPaging(NextPaging(p)) == p
  {
  }

  /** The number of pages `totalResults` fills at `pageSize` per page. */
  function PageCount(p: Paging): int
    requires p.pageSize >= 1
  {
    (p.totalResults + p.pageSize - 1) / p.pageSize
  }

  /** For every positive page size, HasNextPage holds exactly on the pages
      before the last one: with the default 20 and the total of 100 a search
      sets, on pages 1 to 4. */
  lemma HasNextBelowPageCount(p: Paging)
    requires p.pageSize >= 1
    ensures HasNext(p) <==> p.currentPage < PageCount(p)
    ensures p.pageSize == 20 && p.totalResults == 100 ==> PageCount(p) == 5
  {
    var c, s, q := p.currentPage, p.pageSize, PageCount(p);
    // q is the ceiling of totalResults / s
    assert (q - 1) * s <= p.totalResults - 1 < q * s;
    if c < q {
      MulMonotone(c, q - 1, s);
    } else {
      MulMonotone(q, c, s);
    }
  }

  lemma MulMonotone(a: int, b: int, s: int)
    requires a <= b && s >= 1
    ensures a * s <= b * s
  {
    assert b * s - a * s == (b - a) * s;
  }

  /** CreateSavedSearchAsync's name; a null keyword or location prints as
      nothing. */
  function SavedSearchName(keywords: Option<string>, location: Option<string>): (r: string)
    ensures var k := if keywords.Some? then keywords.value else "";
            var l := if location.Some? then location.value else "";
            |r| == 15 + |k| + |l| && r[..11] == "Search for " && r[11..11 + |k|] == k
            && r[11 + |k|..15 + |k|] == " in " && r[15 + |k|..] == l
  {
    var k := if keywords.Some? then keywords.value else "";
    var l := if location.Some? then location.value else "";
    "Search for " + k + " in " + l
  }

  class JobSearchViewModel {
    var keywords: Option<string>
    var location: Option<string>
    var jobType: Option<string>
    var selectedPlatforms: seq<string>
    var searchResults: Option<seq<Listing>>
    var isBusy: bool
    var currentPage: int
    var pageSize: int
    var totalResults: int

    function State(): Paging
      reads this
    {
      Paging(currentPage, pageSize, totalResults)
    }

    /** HasNextPage. */
    predicate HasNextPage()
      reads this
      ensures HasNextPage() <==> currentPage * pageSize < totalResults
    {
      HasNext(State())
    }

    /** HasPreviousPage. */
    predicate HasPreviousPage()
      reads this
      ensures HasPreviousPage() <==> currentPage > 1
    {
      HasPrevious(State())
    }

    /** A new view model: page 1 of size 20, no platforms, nothing found yet. */
    constructor ()
      ensures currentPage == 1 && pageSize == 20 && totalResults == 0
      ensures selectedPlatforms == [] && searchResults.None? && !isBusy
      ensures keywords.None? && location.None? && jobType.None?
    {
      keywords, location, jobType := None, None, None;
      selectedPlatforms := [];
      searchResults := None;
      isBusy := false;
      currentPage, pageSize, totalResults := 1, 20, 0;
    }

    /** SearchJobsAsync: page 1 is requested; on success the results and
        the total of 100 are stored. When the service throws (ok false) the
        page has already been reset. IsBusy is cleared either way. */
    method Search(fetch: (int, int) -> Option<seq<Listing>>) returns (ok: bool)
      modifies this
      ensures !isBusy && currentPage == 1 && pageSize == old(pageSize)
      ensures ok <==> fetch(1, pageSize).Some?
      ensures ok ==> searchResults == fetch(1, pageSize) && State() == SearchPaging(old(State()))
      ensures !ok ==> searchResults == old(searchResults) && totalResults == old(totalResults)
      ensures keywords == old(keywords) && location == old(location) && jobType == old(jobType)
      ensures selectedPlatforms == old(selectedPlatforms)
    {
      isBusy := true;
      currentPage := 1;
      var answer := fetch(currentPage, pageSize);
      if answer.Some? {
        searchResults := answer;
        totalResults := 100;
        ok := true;
      } else {
        ok := false;
      }
      isBusy := false;
    }

    /** LoadNextPageAsync: nothing when there is no next page; otherwise the
        page moves forward before the service is asked for it, so a failing
        service leaves the page advanced. */
    method NextPage(fetch: (int, int) -> Option<seq<Listing>>) returns (ok: bool)
      modifies this
      ensures State() == NextPaging(old(State()))
      ensures !old(HasNextPage()) ==> ok && isBusy == old(isBusy) && searchResults == old(searchResults)
      ensures old(HasNextPage()) ==>
                !isBusy && (ok <==> fetch(currentPage, pageSize).Some?)
                && searchResults == (if ok then fetch(currentPage, pageSize) else old(searchResults))
      ensures keywords == old(keywords) && location == old(location) && jobType == old(jobType)
      ensures selectedPlatforms == old(selectedPlatforms)
    {
      if !HasNextPage() {
        return true;
      }
      isBusy := true;
      currentPage := currentPage + 1;
      var answer := fetch(currentPage, pageSize);
      if answer.Some? {
        searchResults := answer;
        ok := true;
      } else {
        ok := false;
      }
      isBusy := false;
    }

    /** LoadPreviousPageAsync: nothing at page 1; otherwise one page back. */
    method PreviousPage(fetch: (int, int) -> Option<seq<Listing>>) returns (ok: bool)
      modifies this
      ensures State() == PreviousPaging(old(State()))
      ensures !old(HasPreviousPage()) ==> ok && isBusy == old(isBusy) && searchResults == old(searchResults)
      ensures old(HasPreviousPage()) ==>
                !isBusy && (ok <==> fetch(currentPage, pageSize).Some?)
                && searchResults == (if ok then fetch(currentPage, pageSize) else old(searchResults))
      ensures keywords == old(keywords) && location == old(location) && jobType == old(jobType)
      ensures selectedPlatforms == old(selectedPlatforms)
    {
      if !HasPreviousPage() {
        return true;
      }
      isBusy := true;
      currentPage := currentPage - 1;
      var answer := fetch(currentPage, pageSize);
      if answer.Some? {
        searchResults := answer;
        ok := true;
      } else {
        ok := false;
      }
      isBusy := false;
    }

    /** CreateSavedSearchAsync: the name handed to the service. */
    method CreateSavedSearch() returns (name: string)
      modifies this
      ensures name == SavedSearchName(old(keywords), old(location))
      ensures !isBusy && State() == old(State()) && searchResults == old(searchResults)
      ensures keywords == old(keywords) && location == old(location)
      ensures jobType == old(jobType) && selectedPlatforms == old(selectedPlatforms)
    {
      isBusy := true;
      name := SavedSearchName(keywords, location);
      isBusy := false;
    }
  }
}
