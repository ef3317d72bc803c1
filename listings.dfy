/** JobListingRepository: keyword search, location search, listings for a set
    of skills and skill-based recommendations, over the listing rows as the
    database returns them. */
module ListingRepository {
  import opened Wrappers
  import opened Text
  import opened Ordering
  import opened Entities

  // ------------------------------------------------------------ keyword search

  /** One keyword matches when it occurs, ignoring case, in the title, the
      description, the company or the location. */
  predicate MatchesKeyword(j: Listing, keyword: string)
  {
    ContainsIgnoreCase(j.title, keyword) || ContainsIgnoreCase(j.description, keyword)
    || ContainsIgnoreCase(j.company, keyword) || ContainsIgnoreCase(j.location, keyword)
  }

  /** Every keyword matches (the keywords are ANDed). */
  predicate MatchesAll(j: Listing, keywords: seq<string>)
  {
    forall i :: 0 <= i < |keywords| ==> MatchesKeyword(j, keywords[i])
  }

  /** `query.Where(j => MatchesKeyword(j, keyword))` */
  function WhereKeyword(s: seq<Listing>, keyword: string): (r: seq<Listing>)
    ensures forall j :: j in r <==> j in s && MatchesKeyword(j, keyword)
  {
    if s == [] then []
    else (if MatchesKeyword(s[0], keyword) then [s[0]] else []) + WhereKeyword(s[1..], keyword)
  }

  /** The rows that match every keyword, in row order. */
  function WhereAll(s: seq<Listing>, keywords: seq<string>): (r: seq<Listing>)
    ensures forall j :: j in r <==> j in s && MatchesAll(j, keywords)
  {
    if s == [] then []
    else (if MatchesAll(s[0], keywords) then [s[0]] else []) + WhereAll(s[1..], keywords)
  }

  /** No keywords: no filter. */
  lemma {:induction false} WhereAllNoKeywords(s: seq<Listing>)
    ensures WhereAll(s, []) == s
  {
    if s != [] {
      WhereAllNoKeywords(s[1..]);
    }
  }

  lemma MatchesAllSnoc(j: Listing, keywords: seq<string>, keyword: string)
    ensures MatchesAll(j, keywords + [keyword]) <==> MatchesAll(j, keywords) && MatchesKeyword(j, keyword)
  {
    var kws := keywords + [keyword];
    assert forall i :: 0 <= i < |keywords| ==> kws[i] == keywords[i];
    assert kws[|keywords|] == keyword;
  }

  /** Adding one more Where to the chain is filtering by one more keyword. */
  lemma {:induction false} WhereKeywordExtends(s: seq<Listing>, keywords: seq<string>, keyword: string)
    ensures WhereKeyword(WhereAll(s, keywords), keyword) == WhereAll(s, keywords + [keyword])
  {
    if s != [] {
      WhereKeywordExtends(s[1..], keywords, keyword);
      MatchesAllSnoc(s[0], keywords, keyword);
      var tail := WhereAll(s[1..], keywords);
      if MatchesAll(s[0], keywords) {
        assert WhereAll(s, keywords) == [s[0]] + tail;
        assert ([s[0]] + tail)[1..] == tail;
      } else {
        assert WhereAll(s, keywords) == tail;
      }
    }
  }

  lemma WhereKeywordStep(listings: seq<Listing>, keywords: seq<string>, i: int)
    requires 0 <= i < |keywords|
    ensures WhereKeyword(WhereAll(listings, keywords[..i]), keywords[i]) == WhereAll(listings, keywords[..i + 1])
  {
    WhereKeywordExtends(listings, keywords[..i], keywords[i]);
    assert keywords[..i + 1] == keywords[..i] + [keywords[i]];
  }

  /** SearchAsync: each keyword adds a Where to the query; the result is
      ordered by PostedDate descending and one page of it is returned. */
  method Search(listings: seq<Listing>, keywords: seq<string>, pageNumber: int, pageSize: int)
    returns (r: seq<Listing>)
    ensures r == Page(SortDesc(WhereAll(listings, keywords), PostedKey), pageNumber, pageSize)
    ensures forall j :: j in r ==> j in listings && MatchesAll(j, keywords)
    ensures NonIncreasing(r, PostedKey)
    ensures pageSize >= 0 ==> |r| <= pageSize
  {
    var query := listings;
    WhereAllNoKeywords(listings);
    var i := 0;
    while i < |keywords|
      invariant 0 <= i <= |keywords|
      invariant query == WhereAll(listings, keywords[..i])
    {
      WhereKeywordStep(listings, keywords, i);
      query := WhereKeyword(query, keywords[i]);
      i := i + 1;
    }
    assert keywords[..i] == keywords;
    r := Page(SortDesc(query, PostedKey), pageNumber, pageSize);
    SearchPage(listings, keywords, pageNumber, pageSize);
  }

  /** A page of the sorted matches is ordered and holds only matches. */
  lemma SearchPage(listings: seq<Listing>, keywords: seq<string>, pageNumber: int, pageSize: int)
    ensures var r := Page(SortDesc(WhereAll(listings, keywords), PostedKey), pageNumber, pageSize);
            && (forall j :: j in r ==> j in listings && MatchesAll(j, keywords))
            && NonIncreasing(r, PostedKey)
  {
    var query := WhereAll(listings, keywords);
    var sorted := SortDesc(query, PostedKey);
    PageOrdered(sorted, pageNumber, pageSize, PostedKey);
    SubMultisetMembers(Page(sorted, pageNumber, pageSize), query);
  }

  /** Every element of a sub-multiset of `b` is an element of `b`. */
  lemma SubMultisetMembers(a: seq<Listing>, b: seq<Listing>)
    requires multiset(a) <= multiset(b)
    ensures forall j :: j in a ==> j in b
  {
    forall j | j in a ensures j in b {
      assert j in multiset(a);
    }
  }

  // ------------------------------------------------------------ location search

  function WhereLocation(s: seq<Listing>, location: string): (r: seq<Listing>)
    ensures forall j :: j in r <==> j in s && ContainsIgnoreCase(j.location, location)
  {
    if s == [] then []
    else (if ContainsIgnoreCase(s[0].location, location) then [s[0]] else [])
         + WhereLocation(s[1..], location)
  }

  /** GetByLocationAsync: location containment, then newest first. The radius
      takes no part in the result. */
  function ByLocation(listings: seq<Listing>, location: string, radiusInMiles: int): (r: seq<Listing>)
    ensures forall j :: j in r <==> j in listings && ContainsIgnoreCase(j.location, location)
    ensures multiset(r) == multiset(WhereLocation(listings, location))
    ensures NonIncreasing(r, PostedKey)
  {
    var r := SortDesc(WhereLocation(listings, location), PostedKey);
    assert forall j :: j in r <==> j in multiset(r);
    r
  }

  // ------------------------------------------------------------ skill matching

  /** The description contains the skill's name, ignoring case. */
  predicate MentionsSkill(j: Listing, s: Skill)
  {
    ContainsIgnoreCase(j.description, s.name)
  }

  predicate MentionsAnySkill(j: Listing, skills: seq<Skill>)
  {
    exists k :: 0 <= k < |skills| && MentionsSkill(j, skills[k])
  }

  /** The listings mentioning one skill, in row order. */
  function Mentioning(s: seq<Listing>, skill: Skill): (r: seq<Listing>)
    ensures forall j :: j in r <==> j in s && MentionsSkill(j, skill)
  {
    if s == [] then []
    else (if MentionsSkill(s[0], skill) then [s[0]] else []) + Mentioning(s[1..], skill)
  }

  /** The concatenation, skill by skill, of the listings each skill matches. */
  function Gathered(listings: seq<Listing>, skills: seq<Skill>): seq<Listing>
  {
    if skills == [] then []
    else Gathered(listings, skills[..|skills| - 1]) + Mentioning(listings, skills[|skills| - 1])
  }

  lemma {:induction false} GatheredMembers(listings: seq<Listing>, skills: seq<Skill>)
    ensures forall j :: j in Gathered(listings, skills) <==> j in listings && MentionsAnySkill(j, skills)
  {
    if skills != [] {
      var init := skills[..|skills| - 1];
      var last := skills[|skills| - 1];
      GatheredMembers(listings, init);
      forall j ensures MentionsAnySkill(j, skills) <==> MentionsAnySkill(j, init) || MentionsSkill(j, last) {
        if MentionsAnySkill(j, skills) {
          var k :| 0 <= k < |skills| && MentionsSkill(j, skills[k]);
          if k < |skills| - 1 { assert skills[k] == init[k]; }
        }
        if MentionsAnySkill(j, init) {
          var k :| 0 <= k < |init| && MentionsSkill(j, init[k]);
          assert init[k] == skills[k];
        }
      }
    }
  }

  /** The foreach/AddRange loop shared by GetByRequiredSkillsAsync and
      GetRecommendedForUserAsync. */
  method GatherMatches(listings: seq<Listing>, skills: seq<Skill>) returns (acc: seq<Listing>)
    ensures acc == Gathered(listings, skills)
    ensures forall j :: j in acc <==> j in listings && MentionsAnySkill(j, skills)
  {
    acc := [];
    var i := 0;
    while i < |skills|
      invariant 0 <= i <= |skills|
      invariant acc == Gathered(listings, skills[..i])
    {
      assert skills[..i + 1][..i] == skills[..i];
      acc := acc + Mentioning(listings, skills[i]);
      i := i + 1;
    }
    assert skills[..i] == skills;
    GatheredMembers(listings, skills);
  }

  /** The skill rows whose Id is among `skillIds`, in table order. */
  function SkillsWithIds(skills: seq<Skill>, skillIds: set<int>): (r: seq<Skill>)
    ensures forall s :: s in r <==> s in skills && s.id in skillIds
  {
    if skills == [] then []
    else (if skills[0].id in skillIds then [skills[0]] else []) + SkillsWithIds(skills[1..], skillIds)
  }

  /** The ids of the listings that mention one of `skills`. */
  function MatchingIds(listings: seq<Listing>, skills: seq<Skill>): set<int>
  {
    set j | j in listings && MentionsAnySkill(j, skills) :: j.id
  }

  /** Keep-first de-duplication by Id followed by the date ordering: one
      listing per matching Id, every one of them a match. */
  lemma DedupSorted(acc: seq<Listing>, listings: seq<Listing>, skills: seq<Skill>)
    requires forall j :: j in acc <==> j in listings && MentionsAnySkill(j, skills)
    ensures var r := SortDesc(Dedup(acc, ListingId), PostedKey);
            && DistinctIds(r, ListingId)
            && IdSet(r, ListingId) == MatchingIds(listings, skills)
            && (forall j :: j in r ==> j in listings && MentionsAnySkill(j, skills))
  {
    var d := Dedup(acc, ListingId);
    var r := SortDesc(d, PostedKey);
    SortDescIds(d, PostedKey, ListingId);
    forall j | j in r ensures j in d { assert j in multiset(r); }
    AccIds(acc, listings, skills);
  }

  lemma AccIds(acc: seq<Listing>, listings: seq<Listing>, skills: seq<Skill>)
    requires forall j :: j in acc <==> j in listings && MentionsAnySkill(j, skills)
    ensures IdSet(acc, ListingId) == MatchingIds(listings, skills)
  {
    forall k | k in MatchingIds(listings, skills) ensures k in IdSet(acc, ListingId) {
      var j :| j in listings && MentionsAnySkill(j, skills) && j.id == k;
      var i :| 0 <= i < |acc| && acc[i] == j;
    }
  }

  /** GetByRequiredSkillsAsync: the skills whose Id is requested, every
      listing mentioning one of them, one listing per Id, newest first. */
  method ByRequiredSkills(skillRows: seq<Skill>, listings: seq<Listing>, skillIds: set<int>)
    returns (r: seq<Listing>)
    ensures DistinctIds(r, ListingId)
    ensures NonIncreasing(r, PostedKey)
    ensures IdSet(r, ListingId) == MatchingIds(listings, SkillsWithIds(skillRows, skillIds))
    ensures forall j :: j in r ==>
              (j in listings && exists s :: s in skillRows && s.id in skillIds && MentionsSkill(j, s))
  {
    var skills := SkillsWithIds(skillRows, skillIds);
    var acc := GatherMatches(listings, skills);
    r := SortDesc(Dedup(acc, ListingId), PostedKey);
    DedupSorted(acc, listings, skills);
    forall j | j in r ensures exists s :: s in skillRows && s.id in skillIds && MentionsSkill(j, s) {
      var k :| 0 <= k < |skills| && MentionsSkill(j, skills[k]);
      assert skills[k] in skills;
    }
  }

  /** The profile's skills: the skill rows that belong to it, in table order. */
  function SkillsOf(skillRows: seq<Skill>, userProfileId: int): (r: seq<Skill>)
    ensures forall s :: s in r <==> s in skillRows && s.userProfileId == userProfileId
  {
    if skillRows == [] then []
    else (if skillRows[0].userProfileId == userProfileId then [skillRows[0]] else [])
         + SkillsOf(skillRows[1..], userProfileId)
  }

  /** GetRecommendedForUserAsync: nothing for an unknown profile; otherwise
      the listings mentioning one of the profile's skills, one per Id, newest
      first, at most `count` of them. */
  method RecommendedForUser(profileIds: set<int>, skillRows: seq<Skill>, listings: seq<Listing>,
                            userProfileId: int, count: int)
    returns (r: seq<Listing>)
    ensures userProfileId !in profileIds ==> r == []
    ensures SkillsOf(skillRows, userProfileId) == [] ==> r == []
    ensures |r| <= if count < 0 then 0 else count
    ensures DistinctIds(r, ListingId)
    ensures NonIncreasing(r, PostedKey)
    ensures forall j :: j in r ==>
              (j in listings && exists s :: s in skillRows && s.userProfileId == userProfileId && MentionsSkill(j, s))
    ensures userProfileId in profileIds ==>
              r == Take(SortDesc(Dedup(Gathered(listings, SkillsOf(skillRows, userProfileId)), ListingId), PostedKey), count)
  {
    if userProfileId !in profileIds {
      return [];
    }
    var skills := SkillsOf(skillRows, userProfileId);
    var acc := GatherMatches(listings, skills);
    var all := SortDesc(Dedup(acc, ListingId), PostedKey);
    DedupSorted(acc, listings, skills);
    r := Take(all, count);
    TakePrefix(all, count, PostedKey, ListingId);
    forall j | j in r ensures
      (j in listings && exists s :: s in skillRows && s.userProfileId == userProfileId && MentionsSkill(j, s))
    {
      var k :| 0 <= k < |skills| && MentionsSkill(j, skills[k]);
      assert skills[k] in skills;
    }
  }
}
