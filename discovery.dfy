/** JobDiscoveryService: queries over the full list of stored listings
    (GetAllAsync) and saving a listing through the repository. */
module JobDiscovery {
  import opened Wrappers
  import opened Text
  import opened Ordering
  import opened Entities
  import ListingRepository

  /** Some keyword occurs, ignoring case, in the title or the description
      (the keywords are ORed), and the location filter is absent or
      contained in the listing's location. */
  predicate Keeps(j: Listing, keywords: seq<string>, location: Option<string>)
  {
    (exists k :: 0 <= k < |keywords|
       && (ContainsIgnoreCase(j.title, keywords[k]) || ContainsIgnoreCase(j.description, keywords[k])))
    && (location.None? || ContainsIgnoreCase(j.location, location.value))
  }

  function WhereKeeps(s: seq<Listing>, keywords: seq<string>, location: Option<string>): (r: seq<Listing>)
    ensures forall j :: j in r <==> j in s && Keeps(j, keywords, location)
    ensures |r| <= |s|
  {
    if s == [] then []
    else (if Keeps(s[0], keywords, location) then [s[0]] else []) + WhereKeeps(s[1..], keywords, location)
  }

  /** SearchJobsAsync: filter, then one page, in store order (no sort). */
  function SearchJobs(allJobs: seq<Listing>, keywords: seq<string>, location: Option<string>,
                      pageNumber: int, pageSize: int): seq<Listing>
  {
    Page(WhereKeeps(allJobs, keywords, location), pageNumber, pageSize)
  }

  /** Every result passes the filter and the result is one contiguous slice
      of the filtered sequence, in store order. */
  lemma SearchJobsIsFilteredSlice(allJobs: seq<Listing>, keywords: seq<string>, location: Option<string>,
                                  pageNumber: int, pageSize: int)
    requires pageSize >= 0
    ensures var f := WhereKeeps(allJobs, keywords, location);
            var lo := Clamp((pageNumber - 1) * pageSize, |f|);
            SearchJobs(allJobs, keywords, location, pageNumber, pageSize) == f[lo..Clamp(lo + pageSize, |f|)]
    ensures |SearchJobs(allJobs, keywords, location, pageNumber, pageSize)| <= pageSize
    ensures forall j :: j in SearchJobs(allJobs, keywords, location, pageNumber, pageSize) ==>
              j in allJobs && Keeps(j, keywords, location)
  {
    var f := WhereKeeps(allJobs, keywords, location);
    PageIsSlice(f, pageNumber, pageSize);
    PageMembers(f, pageNumber, pageSize);
  }

  /** An empty keyword array keeps nothing. */
  lemma {:induction false} SearchJobsNoKeywords(allJobs: seq<Listing>, location: Option<string>,
                                                pageNumber: int, pageSize: int)
    ensures SearchJobs(allJobs, [], location, pageNumber, pageSize) == []
  {
    NoKeywordKeepsNothing(allJobs, location);
  }

  lemma {:induction false} NoKeywordKeepsNothing(s: seq<Listing>, location: Option<string>)
    ensures WhereKeeps(s, [], location) == []
  {
    if s != [] {
      NoKeywordKeepsNothing(s[1..], location);
    }
  }

  /** Paging walks the filtered sequence without overlap or gap. */
  lemma SearchJobsPagesConcat(allJobs: seq<Listing>, keywords: seq<string>, location: Option<string>, n: int)
    requires n >= 0
    ensures SearchJobs(allJobs, keywords, location, 1, n) + SearchJobs(allJobs, keywords, location, 2, n)
         == SearchJobs(allJobs, keywords, location, 1, 2 * n)
  {
    PageConcat(WhereKeeps(allJobs, keywords, location), n);
  }

  /** GetJobsByLocationAsync: location containment, then one page. */
  function JobsByLocation(allJobs: seq<Listing>, location: string, radiusInMiles: int,
                          pageNumber: int, pageSize: int): seq<Listing>
  {
    Page(ListingRepository.WhereLocation(allJobs, location), pageNumber, pageSize)
  }

  /** The radius has no effect, and every result is in the location. */
  lemma JobsByLocationIgnoresRadius(allJobs: seq<Listing>, location: string, r1: int, r2: int,
                                    pageNumber: int, pageSize: int)
    requires pageSize >= 0
    ensures JobsByLocation(allJobs, location, r1, pageNumber, pageSize)
         == JobsByLocation(allJobs, location, r2, pageNumber, pageSize)
    ensures forall j :: j in JobsByLocation(allJobs, location, r1, pageNumber, pageSize) ==>
              j in allJobs && ContainsIgnoreCase(j.location, location)
    ensures |JobsByLocation(allJobs, location, r1, pageNumber, pageSize)| <= pageSize
  {
    var f := ListingRepository.WhereLocation(allJobs, location);
    PageIsSlice(f, pageNumber, pageSize);
    PageMembers(f, pageNumber, pageSize);
  }

  /** GetRecommendedJobsAsync: the `count` most recently posted listings of
      the whole store; the profile id takes no part. */
  function RecommendedJobs(allJobs: seq<Listing>, userProfileId: int, count: int): (r: seq<Listing>)
    ensures NonIncreasing(r, PostedKey)
    ensures |r| <= |allJobs| && (count >= 0 ==> |r| <= count)
    ensures |r| == if count < 0 then 0 else if count < |allJobs| then count else |allJobs|
    ensures multiset(r) <= multiset(allJobs)
  {
    var sorted := SortDesc(allJobs, PostedKey);
    TakePrefix(sorted, count, PostedKey, ListingId);
    Take(sorted, count)
  }

  /** Every listing left out of the recommendation is no newer than every
      listing in it. */
  lemma RecommendedAreNewest(allJobs: seq<Listing>, userProfileId: int, count: int)
    ensures var sorted := SortDesc(allJobs, PostedKey);
            var r := RecommendedJobs(allJobs, userProfileId, count);
            sorted == r + sorted[|r|..]
            && forall i, j :: 0 <= i < |r| && |r| <= j < |sorted| ==> PostedKey(r[i]) >= PostedKey(sorted[j])
  {
  }

  /** GetExternalJobsAsync: no external platform is queried. */
  function ExternalJobs(platforms: seq<string>, keywords: seq<string>, location: Option<string>,
                        count: int): (r: seq<Listing>)
    ensures r == []
  {
    []
  }

  datatype SaveError = ConcurrencyConflict

  /** The JobListings table: rows by Id, and the next identity value. */
  class ListingStore {
    var rows: map<int, Listing>
    var nextId: int

    /** Ids are positive, below the next identity value, and each row's
        Id is its key. */
    ghost predicate Valid()
      reads this
    {
      nextId >= 1 && forall k :: k in rows ==> 1 <= k < nextId && rows[k].id == k
    }

    constructor ()
      ensures Valid() && rows == map[] && nextId == 1
    {
      rows := map[];
      nextId := 1;
    }

    /** SaveJobListingAsync: Id 0 inserts under a fresh Id, which the saved
        listing then carries; any other Id replaces the stored row with that
        Id, and one that is not stored fails the update and changes nothing. */
    method Save(j: Listing) returns (r: Result<Listing, SaveError>)
      requires Valid()
      modifies this
      ensures Valid()
      ensures j.id == 0 ==>
                r == Ok(j.(id := old(nextId)))
                && rows == old(rows)[old(nextId) := j.(id := old(nextId))]
                && old(nextId) !in old(rows)
                && |rows| == |old(rows)| + 1
      ensures j.id != 0 && j.id in old(rows) ==>
                r == Ok(j) && rows == old(rows)[j.id := j] && |rows| == |old(rows)|
      ensures j.id != 0 && j.id !in old(rows) ==>
                r == Err(ConcurrencyConflict) && rows == old(rows) && nextId == old(nextId)
    {
      if j.id == 0 {
        var saved := j.(id := nextId);
        rows := rows[nextId := saved];
        nextId := nextId + 1;
        r := Ok(saved);
      } else if j.id in rows {
        rows := rows[j.id := j];
        r := Ok(j);
      } else {
        r := Err(ConcurrencyConflict);
      }
    }
  }
}
