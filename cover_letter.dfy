/** The deterministic core of the cover-letter generator: the name and
    greeting fallbacks, the choice of skills and experiences to highlight,
    the scan for common job terms and the skill list of the skills
    paragraph. A Python dictionary of strings is a map; a missing key is a
    key outside the map. Template choice is random in the generator and is
    left to the caller here. */
module CoverLetter {
  import opened Wrappers
  import opened Text
  import opened Ordering

  type Dict = map<string, string>

  /** `d.get(key, default)`. */
  function Get(d: Dict, key: string, default: string): string
  {
    if key in d then d[key] else default
  }

  // ------------------------------------------------------------ fallbacks

  const ApplicantName: string := "Applicant Name"

  /** `_get_user_name`: the `name` entry, else "first last" stripped, else a
      placeholder, so the letter is always signed. */
  function UserName(info: Dict): (r: string)
    ensures r != []
    ensures Get(info, "name", "") != [] ==> r == info["name"]
  {
    var name := Get(info, "name", "");
    var full := if name != [] then name
                else Strip(Get(info, "first_name", "") + " " + Get(info, "last_name", ""));
    if full != [] then full else ApplicantName
  }

  /** With no `name`, a first and a last name without surrounding blanks
      are joined by one space. */
  lemma UserNameOfParts(info: Dict)
    requires Get(info, "name", "") == []
    requires var first := Get(info, "first_name", "");
             first != [] && !IsSpace(first[0])
    requires var last := Get(info, "last_name", "");
             last != [] && !IsSpace(last[|last| - 1])
    ensures UserName(info) == Get(info, "first_name", "") + " " + Get(info, "last_name", "")
  {
    var full := Get(info, "first_name", "") + " " + Get(info, "last_name", "");
    StripClean(full);
  }

  /** With no `name` and only blanks for first and last name, the
      placeholder signs the letter. */
  lemma UserNameDefault(info: Dict)
    requires Get(info, "name", "") == []
    requires forall j :: 0 <= j < |Get(info, "first_name", "")| ==> IsSpace(Get(info, "first_name", "")[j])
    requires forall j :: 0 <= j < |Get(info, "last_name", "")| ==> IsSpace(Get(info, "last_name", "")[j])
    ensures UserName(info) == ApplicantName
  {
    var first := Get(info, "first_name", "");
    var last := Get(info, "last_name", "");
    var full := first + " " + last;
    forall j | 0 <= j < |full| ensures IsSpace(full[j]) {
      if j < |first| {
        assert full[j] == first[j];
      } else if j > |first| {
        assert full[j] == last[j - |first| - 1];
      }
    }
    StripBlank(full);
  }

  /** `_get_company_name`: the default only replaces a missing key; a
      present empty company stays empty. */
  function CompanyName(listing: Dict): (r: string)
    ensures "company" in listing ==> r == listing["company"]
    ensures "company" !in listing ==> r == "the Company"
  {
    Get(listing, "company", "the Company")
  }

  /** `_get_job_title`: the default only replaces a missing key. */
  function JobTitle(listing: Dict): (r: string)
    ensures "title" in listing ==> r == listing["title"]
    ensures "title" !in listing ==> r == "the position"
  {
    Get(listing, "title", "the position")
  }

  /** `_get_hiring_manager`: a missing or empty entry gives the generic
      greeting, so the greeting is never empty. */
  function HiringManager(listing: Dict): (r: string)
    ensures r != []
    ensures r == "Hiring Manager" <==> Get(listing, "hiring_manager", "") in {[], "Hiring Manager"}
    ensures Get(listing, "hiring_manager", "") != [] ==> r == listing["hiring_manager"]
  {
    var manager := Get(listing, "hiring_manager", "");
    if manager != [] then manager else "Hiring Manager"
  }

  // ------------------------------------------------------ matching skills

  /** A profile skill dictionary: the three keys the generator reads, each
      possibly missing, and the remaining entries (such as "category").
      Python compares dictionaries by all their entries, so the padding's
      `skill not in matching_skills` tells apart two skills that differ
      only in those remaining entries. */
  datatype ProfileSkill = ProfileSkill(name: Option<string>, proficiency: Option<int>, yearsExperience: Option<int>,
                                       others: Dict)

  /** `skill.get("name", "")`. */
  function RawName(s: ProfileSkill): string
  {
    if s.name.Some? then s.name.value else ""
  }

  /** `skill.get("name", "").lower()`. */
  function SkillName(s: ProfileSkill): string
  {
    LowerStr(RawName(s))
  }

  /** The sort key of the padding: proficiency plus years, 0 when missing. */
  function Strength(s: ProfileSkill): int
  {
    (if s.proficiency.Some? then s.proficiency.value else 0)
    + (if s.yearsExperience.Some? then s.yearsExperience.value else 0)
  }

  /** The required skills, lower-cased: the listing's own `skills` list when
      it has one, otherwise the bullet items found in the description's
      skills section (their extraction is a regular expression and comes in
      as `bullets`), stripped. */
  function RequiredSkills(listed: Option<seq<string>>, bullets: seq<string>): (r: seq<string>)
    ensures |r| == if listed.Some? then |listed.value| else |bullets|
    ensures forall i :: 0 <= i < |r| ==> LowerStr(r[i]) == r[i]
  {
    var raw := if listed.Some? then listed.value
               else seq(|bullets|, i requires 0 <= i < |bullets| => Strip(bullets[i]));
    var r := seq(|raw|, i requires 0 <= i < |raw| => LowerStr(raw[i]));
    assert forall i :: 0 <= i < |r| ==> LowerStr(r[i]) == r[i] by {
      forall i | 0 <= i < |r| ensures LowerStr(r[i]) == r[i] {
        LowerStrIdempotent(raw[i]);
      }
    }
    r
  }

  /** `a in b or b in a`. */
  predicate Related(a: string, b: string)
  {
    Contains(b, a) || Contains(a, b)
  }

  /** A skill with a name related to some required skill. */
  predicate MatchesRequired(required: seq<string>, s: ProfileSkill)
  {
    SkillName(s) != [] && exists k :: 0 <= k < |required| && Related(SkillName(s), required[k])
  }

  function MatchesIn(required: seq<string>): ProfileSkill -> bool
  {
    s => MatchesRequired(required, s)
  }

  /** The padding loop: walk the candidates in order, appending each one not
      yet chosen, while fewer than three are chosen. */
  function Pad<T(==)>(chosen: seq<T>, candidates: seq<T>): seq<T>
    decreases |candidates|
  {
    if candidates == [] || |chosen| >= 3 then chosen
    else if candidates[0] in chosen then Pad(chosen, candidates[1..])
    else Pad(chosen + [candidates[0]], candidates[1..])
  }

  /** Padding keeps what was chosen in front and appends candidates that
      were not chosen yet, never more than up to three in all. */
  lemma {:induction false} PadExtends<T>(chosen: seq<T>, candidates: seq<T>)
    ensures var r := Pad(chosen, candidates);
      |chosen| <= |r| && r[..|chosen|] == chosen
    ensures forall i :: |chosen| <= i < |Pad(chosen, candidates)| ==>
      Pad(chosen, candidates)[i] in candidates && Pad(chosen, candidates)[i] !in Pad(chosen, candidates)[..i]
    ensures |chosen| >= 3 ==> Pad(chosen, candidates) == chosen
    ensures |chosen| < 3 ==> |Pad(chosen, candidates)| <= 3
    decreases |candidates|
  {
    if candidates != [] && |chosen| < 3 {
      var c := candidates[0];
      var rest := candidates[1..];
      if c in chosen {
        PadExtends(chosen, rest);
      } else {
        var next := chosen + [c];
        PadExtends(next, rest);
        var r := Pad(next, rest);
        assert r[..|chosen|] == next[..|chosen|] == chosen;
        assert r[|chosen|] == c;
      }
    }
  }

  /** Padding stops at three or once every candidate is chosen. */
  lemma {:induction false} PadEnough<T>(chosen: seq<T>, candidates: seq<T>)
    ensures |Pad(chosen, candidates)| >= 3 || forall c :: c in candidates ==> c in Pad(chosen, candidates)
    decreases |candidates|
  {
    if candidates != [] && |chosen| < 3 {
      var c := candidates[0];
      var rest := candidates[1..];
      var next := if c in chosen then chosen else chosen + [c];
      PadEnough(next, rest);
      PadExtends(next, rest);
      var r := Pad(next, rest);
      assert c in next;
      assert c in r by {
        var k :| 0 <= k < |next| && next[k] == c;
        assert r[k] == c;
      }
    }
  }

  lemma HeadDominates<T>(candidates: seq<T>, key: T -> int)
    requires candidates != [] && NonIncreasing(candidates, key)
    ensures forall c :: c in candidates[1..] ==> key(c) <= key(candidates[0])
  {
    forall c | c in candidates[1..] ensures key(c) <= key(candidates[0]) {
      var j :| 0 <= j < |candidates[1..]| && candidates[1..][j] == c;
      assert candidates[j + 1] == c;
    }
  }

  /** Over candidates in descending key order, the appended elements
      descend too. */
  lemma {:induction false} PadDescending<T>(chosen: seq<T>, candidates: seq<T>, key: T -> int)
    requires NonIncreasing(candidates, key)
    ensures forall i, j :: |chosen| <= i < j < |Pad(chosen, candidates)| ==>
      key(Pad(chosen, candidates)[i]) >= key(Pad(chosen, candidates)[j])
    decreases |candidates|
  {
    if candidates != [] && |chosen| < 3 {
      var c0 := candidates[0];
      var rest := candidates[1..];
      if c0 in chosen {
        PadDescending(chosen, rest, key);
      } else {
        var next := chosen + [c0];
        PadDescending(next, rest, key);
        PadExtends(next, rest);
        HeadDominates(candidates, key);
        var r := Pad(next, rest);
        assert r[|chosen|] == next[|chosen|] == c0;
        assert forall j :: |chosen| < j < |r| ==> r[j] in rest;
      }
    }
  }

  /** Over candidates in descending key order, every candidate left out
      ranks no higher than any appended one. */
  lemma {:induction false} PadLeftOut<T>(chosen: seq<T>, candidates: seq<T>, key: T -> int)
    requires NonIncreasing(candidates, key)
    ensures forall c, i :: c in candidates && c !in Pad(chosen, candidates) && |chosen| <= i < |Pad(chosen, candidates)| ==>
      key(c) <= key(Pad(chosen, candidates)[i])
    decreases |candidates|
  {
    if candidates != [] && |chosen| < 3 {
      var c0 := candidates[0];
      var rest := candidates[1..];
      var next := if c0 in chosen then chosen else chosen + [c0];
      PadLeftOut(next, rest, key);
      PadExtends(next, rest);
      var r := Pad(next, rest);
      assert r == Pad(chosen, candidates);
      assert c0 in r by {
        var k :| 0 <= k < |next| && next[k] == c0;
        assert r[k] == c0;
      }
      HeadDominates(candidates, key);
      forall c, i | c in candidates && c !in r && |chosen| <= i < |r|
        ensures key(c) <= key(r[i])
      {
        assert c in rest by {
          var j :| 0 <= j < |candidates| && candidates[j] == c;
          assert j != 0 && rest[j - 1] == c;
        }
        if i < |next| {
          assert r[i] == next[i] == c0;
        }
      }
    }
  }

  /** `_extract_matching_skills`: the related skills in profile order, then,
      while fewer than three, the strongest remaining skills. */
  function MatchingSkills(skills: seq<ProfileSkill>, required: seq<string>): seq<ProfileSkill>
  {
    var matched := Filter(skills, MatchesIn(required));
    if |skills| > 0 then Pad(matched, SortDesc(skills, Strength)) else matched
  }

  /** Two different candidates are both padded in. */
  lemma PadTwo<T>(a: T, b: T)
    requires a != b
    ensures Pad([], [a, b]) == [a, b]
  {
    assert [a, b][1..] == [b] && [b][1..] == [];
    assert [] + [a] == [a] && [a] + [b] == [a, b];
    assert Pad([], [a, b]) == Pad([a], [b]);
    assert Pad([a], [b]) == Pad([a, b], []);
  }

  /** With nothing required, no skill is related. */
  lemma NoneRelated(a: ProfileSkill, b: ProfileSkill)
    ensures Filter([a, b], MatchesIn([])) == []
  {
    FilterUnfold([a, b], MatchesIn([]));
    FilterUnfold([b], MatchesIn([]));
    assert [a, b][1..] == [b] && [b][1..] == [];
  }

  /** Two skills already in descending strength stay in place. */
  lemma TwoSorted(a: ProfileSkill, b: ProfileSkill)
    requires Strength(a) >= Strength(b)
    ensures SortDesc([a, b], Strength) == [a, b]
  {
    assert NonIncreasing([a, b], Strength);
    SortDescSorted([a, b], Strength);
  }

  /** MatchingSkills from its two ingredients. */
  lemma MatchingSkillsOf(skills: seq<ProfileSkill>, required: seq<string>,
                         matched: seq<ProfileSkill>, sorted: seq<ProfileSkill>)
    requires skills != []
    requires Filter(skills, MatchesIn(required)) == matched && SortDesc(skills, Strength) == sorted
    ensures MatchingSkills(skills, required) == Pad(matched, sorted)
  {
  }

  /** Padding compares whole dictionaries: two skills that differ in any
      entry, even only in "category" with the same name and proficiency,
      are both added when nothing is required. */
  lemma DistinctDictsBothPadded(a: ProfileSkill, b: ProfileSkill)
    requires a != b && Strength(a) >= Strength(b)
    ensures MatchingSkills([a, b], []) == [a, b]
  {
    NoneRelated(a, b);
    TwoSorted(a, b);
    PadTwo(a, b);
    MatchingSkillsOf([a, b], [], [], [a, b]);
  }

  /** The skills the generator highlights start with every related skill
      in profile order, are padded only while fewer than three, and stop
      padding only at three or when every profile skill is in. */
  lemma MatchingSkillsShape(skills: seq<ProfileSkill>, required: seq<string>)
    ensures var m := Filter(skills, MatchesIn(required));
      var r := MatchingSkills(skills, required);
      && |m| <= |r| && r[..|m|] == m
      && (|m| >= 3 ==> r == m)
      && (|m| < 3 ==> |r| <= 3 && (|r| == 3 || forall s :: s in skills ==> s in r))
  {
    var m := Filter(skills, MatchesIn(required));
    if |skills| > 0 {
      var sorted := SortDesc(skills, Strength);
      PadExtends(m, sorted);
      PadEnough(m, sorted);
      SortedSameMembers(skills);
    }
  }

  lemma SortedSameMembers(skills: seq<ProfileSkill>)
    ensures forall s :: s in SortDesc(skills, Strength) <==> s in skills
  {
    var sorted := SortDesc(skills, Strength);
    assert forall s :: s in sorted <==> s in multiset(sorted);
  }

  /** Every highlighted skill comes from the profile, and padding never
      repeats a skill nor adds a related one. */
  lemma MatchingSkillsPaddingFresh(skills: seq<ProfileSkill>, required: seq<string>)
    ensures var m := Filter(skills, MatchesIn(required));
      var r := MatchingSkills(skills, required);
      && (forall i :: 0 <= i < |r| ==> r[i] in skills)
      && (forall i :: |m| <= i < |r| ==> r[i] !in r[..i] && !MatchesRequired(required, r[i]))
  {
    var m := Filter(skills, MatchesIn(required));
    var r := MatchingSkills(skills, required);
    FilterMembers(skills, MatchesIn(required));
    if |skills| > 0 {
      var sorted := SortDesc(skills, Strength);
      PadExtends(m, sorted);
      SortedSameMembers(skills);
      forall i | 0 <= i < |r| ensures r[i] in skills {
        if i < |m| {
          assert r[i] == m[i];
        }
      }
      forall i | |m| <= i < |r| ensures !MatchesRequired(required, r[i]) {
        assert r[i] !in m by {
          assert m == r[..i][..|m|];
          PrefixMembers(m, r[..i]);
        }
        NotInFilter(skills, MatchesIn(required), r[i]);
      }
    }
  }

  /** Padding goes by descending strength and leaves out no skill
      stronger than one it added. */
  lemma MatchingSkillsPaddingOrder(skills: seq<ProfileSkill>, required: seq<string>)
    ensures var m := Filter(skills, MatchesIn(required));
      var r := MatchingSkills(skills, required);
      && (forall i, j :: |m| <= i < j < |r| ==> Strength(r[i]) >= Strength(r[j]))
      && (forall s, i :: s in skills && s !in r && |m| <= i < |r| ==> Strength(s) <= Strength(r[i]))
  {
    var m := Filter(skills, MatchesIn(required));
    if |skills| > 0 {
      var sorted := SortDesc(skills, Strength);
      PadDescending(m, sorted, Strength);
      PadLeftOut(m, sorted, Strength);
      SortedSameMembers(skills);
    }
  }

  /** The inner loop of `_extract_matching_skills`: search the required
      skills for one related to the name, stopping at the first. */
  method RelatesToAny(name: string, required: seq<string>) returns (found: bool)
    ensures found <==> exists k :: 0 <= k < |required| && Related(name, required[k])
  {
    found := false;
    var j := 0;
    while j < |required| && !found
      invariant 0 <= j <= |required|
      invariant found ==> exists k :: 0 <= k < j && Related(name, required[k])
      invariant !found ==> forall k :: 0 <= k < j ==> !Related(name, required[k])
    {
      if Related(name, required[j]) {
        found := true;
      }
      j := j + 1;
    }
  }

  /** The two loops of `_extract_matching_skills`: one pass over the
      profile with an inner search of the required skills, then the
      padding pass over the profile sorted by strength. */
  method ExtractMatchingSkills(skills: seq<ProfileSkill>, required: seq<string>) returns (r: seq<ProfileSkill>)
    ensures r == MatchingSkills(skills, required)
  {
    r := RelatedSkills(skills, required);
    if |r| < 3 && |skills| > 0 {
      var sorted := SortDesc(skills, Strength);
      r := PadFrom(r, sorted);
    }
  }

  /** The first loop: the profile skills related to a required skill. */
  method RelatedSkills(skills: seq<ProfileSkill>, required: seq<string>) returns (r: seq<ProfileSkill>)
    ensures r == Filter(skills, MatchesIn(required))
  {
    r := [];
    for i := 0 to |skills|
      invariant r == Filter(skills[..i], MatchesIn(required))
    {
      var name := SkillName(skills[i]);
      var found := false;
      if name != [] {
        found := RelatesToAny(name, required);
      }
      FilterPrefixStep(skills, i, MatchesIn(required));
      if found {
        r := r + [skills[i]];
      }
    }
    assert skills[..|skills|] == skills;
  }

  /** The padding loop, with its early exit at three. */
  method PadFrom(chosen: seq<ProfileSkill>, sorted: seq<ProfileSkill>) returns (r: seq<ProfileSkill>)
    ensures r == Pad(chosen, sorted)
  {
    r := chosen;
    var k := 0;
    while k < |sorted| && |r| < 3
      invariant 0 <= k <= |sorted|
      invariant Pad(r, sorted[k..]) == Pad(chosen, sorted)
      decreases |sorted| - k
    {
      assert sorted[k..][0] == sorted[k] && sorted[k..][1..] == sorted[k + 1..];
      if sorted[k] !in r {
        r := r + [sorted[k]];
      }
      k := k + 1;
    }
  }

  // ------------------------------------------------------------ key terms

  /** The common job terms the generator looks for in a description. */
  const JobTerms: seq<string> := [
    "develop", "design", "implement", "manage", "lead", "create",
    "analyze", "research", "coordinate", "organize", "plan",
    "software", "application", "system", "database", "network",
    "project", "team", "client", "customer", "user",
    "experience", "skill", "knowledge", "ability", "proficiency"
  ]

  function OccursIn(text: string): string -> bool
  {
    t => Contains(text, t)
  }

  /** `_extract_key_terms` over a term list. */
  function KeyTerms(text: string, terms: seq<string>): seq<string>
  {
    Filter(terms, OccursIn(text))
  }

  /** The loop of `_extract_key_terms`. */
  method ExtractKeyTerms(text: string, terms: seq<string>) returns (r: seq<string>)
    ensures r == KeyTerms(text, terms)
  {
    r := [];
    for i := 0 to |terms|
      invariant r == Filter(terms[..i], OccursIn(text))
    {
      FilterPrefixStep(terms, i, OccursIn(text));
      if Contains(text, terms[i]) {
        r := r + [terms[i]];
      }
    }
    assert terms[..|terms|] == terms;
  }


  /** The key terms are exactly the listed terms occurring in the text, in
      list order, and without repeats when the list has none. */
  lemma KeyTermsSpec(text: string, terms: seq<string>)
    ensures forall t :: t in KeyTerms(text, terms) <==> t in terms && Contains(text, t)
    ensures Distinct(terms) ==> Distinct(KeyTerms(text, terms))
  {
    FilterMembers(terms, OccursIn(text));
    if Distinct(terms) {
      FilterDistinct(terms, OccursIn(text));
    }
  }

  /** The set of key terms of a listing: the words of its lower-cased
      title and the given job terms occurring in its lower-cased
      description. */
  function KeyTermSet(listing: Dict, jobTerms: seq<string>): (r: set<string>)
    ensures forall t :: t in r <==>
      t in Words(LowerStr(Get(listing, "title", "")))
      || (t in jobTerms && Contains(LowerStr(Get(listing, "description", "")), t))
  {
    var title := Words(LowerStr(Get(listing, "title", "")));
    var description := LowerStr(Get(listing, "description", ""));
    KeyTermsSpec(description, jobTerms);
    (set w | w in title) + (set t | t in KeyTerms(description, jobTerms))
  }

  // ------------------------------------------------- relevant experiences

  /** An experience entry; `title` and `description` are "" when missing.
      The entry's other fields are not modelled. */
  datatype Experience = Experience(title: string, description: string)

  /** The terms occurring in a text. */
  function Hits(text: string, terms: set<string>): (r: set<string>)
    ensures r <= terms
  {
    set t | t in terms && Contains(text, t)
  }

  /** Relevance: 2 for every key term in the title, 1 for every key term
      in the description, both lower-cased. */
  function Score(e: Experience, terms: set<string>): (r: nat)
    ensures r <= 3 * |terms|
  {
    var inTitle := Hits(LowerStr(e.title), terms);
    var inDescription := Hits(LowerStr(e.description), terms);
    assert |inTitle| <= |terms| && |inDescription| <= |terms| by {
      SubsetCard(inTitle, terms);
      SubsetCard(inDescription, terms);
    }
    2 * |inTitle| + |inDescription|
  }

  lemma SubsetCard<T>(a: set<T>, b: set<T>)
    requires a <= b
    ensures |a| <= |b|
  {
    assert b == a + (b - a);
  }

  function ScoreBy(terms: set<string>): Experience -> int
  {
    e => Score(e, terms)
  }

  lemma HitsAdd(text: string, done: set<string>, t: string)
    requires t !in done
    ensures |Hits(text, done + {t})| == |Hits(text, done)| + (if Contains(text, t) then 1 else 0)
  {
    if Contains(text, t) {
      assert Hits(text, done + {t}) == Hits(text, done) + {t};
    } else {
      assert Hits(text, done + {t}) == Hits(text, done);
    }
  }

  /** One pass over the key terms for a text, adding `weight` per hit. */
  method CountHits(text: string, terms: set<string>, weight: nat) returns (total: nat)
    ensures total == weight * |Hits(text, terms)|
  {
    total := 0;
    var rest := terms;
    while rest != {}
      invariant rest <= terms
      invariant total == weight * |Hits(text, terms - rest)|
      decreases |rest|
    {
      HasMember(rest);
      var t :| t in rest;
      HitsAdd(text, terms - rest, t);
      assert (terms - rest) + {t} == terms - (rest - {t});
      if Contains(text, t) {
        total := total + weight;
      }
      rest := rest - {t};
    }
    assert terms - rest == terms;
  }

  /** The scoring loops of `_extract_relevant_experiences` for one entry. */
  method ScoreExperience(e: Experience, terms: set<string>) returns (score: int)
    ensures score == Score(e, terms)
  {
    var inTitle := CountHits(LowerStr(e.title), terms, 2);
    var inDescription := CountHits(LowerStr(e.description), terms, 1);
    score := inTitle + inDescription;
  }

  /** `_extract_relevant_experiences`: the two best-scoring entries by a
      stable descending sort. */
  function RelevantExperiences(exps: seq<Experience>, terms: set<string>): seq<Experience>
  {
    Take(SortDesc(exps, ScoreBy(terms)), 2)
  }

  /** The entries paired with their scores. */
  function Scored(exps: seq<Experience>, terms: set<string>): seq<(int, Experience)>
  {
    seq(|exps|, i requires 0 <= i < |exps| => (Score(exps[i], terms), exps[i]))
  }

  lemma SecondsTake<T>(s: seq<(int, T)>, n: int)
    ensures Seconds(Take(s, n)) == Take(Seconds(s), n)
  {
  }

  /** Scores every entry in a loop, sorts the scored pairs by score and
      keeps the entries of the first two. */
  method ExtractRelevantExperiences(exps: seq<Experience>, terms: set<string>) returns (r: seq<Experience>)
    ensures r == RelevantExperiences(exps, terms)
  {
    var scored: seq<(int, Experience)> := [];
    for i := 0 to |exps|
      invariant scored == Scored(exps[..i], terms)
    {
      var score := ScoreExperience(exps[i], terms);
      ScoredSnoc(exps, i, terms);
      scored := scored + [(score, exps[i])];
    }
    assert exps[..|exps|] == exps;
    var ranked := SortDesc(scored, PairKey);
    r := Seconds(Take(ranked, 2));
    ScoredPairs(exps, terms);
    SortDescPaired(scored, ScoreBy(terms));
    SecondsTake(ranked, 2);
  }

  lemma ScoredSnoc(exps: seq<Experience>, i: int, terms: set<string>)
    requires 0 <= i < |exps|
    ensures Scored(exps[..i + 1], terms) == Scored(exps[..i], terms) + [(Score(exps[i], terms), exps[i])]
  {
  }

  /** The scored pairs carry each entry's score and, in order, the entries. */
  lemma ScoredPairs(exps: seq<Experience>, terms: set<string>)
    ensures KeyedBy(Scored(exps, terms), ScoreBy(terms))
    ensures Seconds(Scored(exps, terms)) == exps
  {
  }

  /** At most two entries, taken from the profile, best first. */
  lemma RelevantExperiencesTop(exps: seq<Experience>, terms: set<string>)
    ensures |RelevantExperiences(exps, terms)| == if |exps| < 2 then |exps| else 2
    ensures multiset(RelevantExperiences(exps, terms)) <= multiset(exps)
    ensures NonIncreasing(RelevantExperiences(exps, terms), ScoreBy(terms))
  {
    TakePrefix(SortDesc(exps, ScoreBy(terms)), 2, ScoreBy(terms), (e: Experience) => 0);
  }

  /** Nothing left out scores higher than an entry that was kept. */
  lemma RelevantExperiencesBest(exps: seq<Experience>, terms: set<string>)
    ensures forall x, i :: x in multiset(exps) - multiset(RelevantExperiences(exps, terms))
                        && 0 <= i < |RelevantExperiences(exps, terms)|
                        ==> Score(x, terms) <= Score(RelevantExperiences(exps, terms)[i], terms)
  {
    TakeBest(SortDesc(exps, ScoreBy(terms)), ScoreBy(terms), 2);
  }

  /** Entries with equal scores are kept in profile order: for every score,
      the kept entries with it are the first entries with it. */
  lemma RelevantExperiencesStable(exps: seq<Experience>, terms: set<string>, k: int)
    ensures WithKey(RelevantExperiences(exps, terms), ScoreBy(terms), k) <= WithKey(exps, ScoreBy(terms), k)
  {
    var sorted := SortDesc(exps, ScoreBy(terms));
    var r := RelevantExperiences(exps, terms);
    assert sorted == r + sorted[|r|..];
    SortDescStable(exps, ScoreBy(terms), k);
    WithKeyConcat(r, sorted[|r|..], ScoreBy(terms), k);
  }

  // ------------------------------------------------------- skills paragraph

  /** What the skills paragraph says: the fixed sentence about a diverse
      skill set, or one of three templates (chosen at random) filled with a
      list of skill names. */
  datatype SkillsParagraph = DiverseSkills | SkillListing(skillList: string)

  /** `[skill.get("name", "") for skill in skills]`. */
  function RawNames(skills: seq<ProfileSkill>): (r: seq<string>)
  {
    seq(|skills|, i requires 0 <= i < |skills| => RawName(skills[i]))
  }

  /** The non-empty names of the highlighted skills, in order. */
  function SkillNames(skills: seq<ProfileSkill>): (r: seq<string>)
    ensures forall i :: 0 <= i < |r| ==> r[i] != []
  {
    NonEmpty(RawNames(skills))
  }

  /** "A", "A and B", or "A, B, and C" with the Oxford comma. */
  function SkillList(names: seq<string>): (r: string)
    requires |names| >= 1
  {
    if |names| == 1 then names[0]
    else if |names| == 2 then names[0] + " and " + names[1]
    else Join(names[..|names| - 1], ", ") + ", and " + names[|names| - 1]
  }

  lemma SkillListMentionsTwo(names: seq<string>, i: nat)
    requires |names| == 2 && i < 2
    ensures Contains(SkillList(names), names[i])
  {
    ContainsSelf(names[i]);
    if i == 0 {
      ContainsAppend(names[0], " and " + names[1], names[0]);
      assert names[0] + " and " + names[1] == names[0] + (" and " + names[1]);
    } else {
      ContainsPrepend(names[0] + " and ", names[1], names[1]);
    }
  }

  lemma SkillListMentionsMany(names: seq<string>, i: nat)
    requires |names| >= 3 && i < |names|
    ensures Contains(SkillList(names), names[i])
  {
    var n := |names|;
    var last := names[n - 1];
    var joined := Join(names[..n - 1], ", ");
    ContainsSelf(names[i]);
    if i < n - 1 {
      JoinContains(names[..n - 1], ", ", i);
      ContainsAppend(joined, ", and " + last, names[i]);
      assert SkillList(names) == joined + (", and " + last);
    } else {
      ContainsPrepend(joined + ", and ", last, last);
    }
  }

  /** Every name appears in the list. */
  lemma SkillListMentions(names: seq<string>, i: nat)
    requires i < |names|
    ensures Contains(SkillList(names), names[i])
  {
    if |names| == 1 {
      ContainsSelf(names[0]);
    } else if |names| == 2 {
      SkillListMentionsTwo(names, i);
    } else {
      SkillListMentionsMany(names, i);
    }
  }

  lemma SkillListLengthShort(names: seq<string>)
    requires 1 <= |names| <= 2
    ensures |SkillList(names)| == TotalLength(names) + (if |names| == 1 then 0 else 5)
  {
    assert TotalLength(names) == |names[0]| + TotalLength(names[1..]);
    if |names| == 2 {
      assert TotalLength(names[1..]) == |names[1]| + TotalLength(names[2..]);
    }
  }

  lemma SkillListLengthMany(names: seq<string>)
    requires |names| >= 3
    ensures |SkillList(names)| == TotalLength(names) + 2 * |names| + 2
  {
    var n := |names|;
    var init := names[..n - 1];
    JoinLength(init, ", ");
    TotalLengthSnoc(init, names[n - 1]);
    assert init + [names[n - 1]] == names;
  }

  /** The list adds exactly its connectives to the names: " and " for two
      names; ", " between the first ones and ", and " before the last for
      three or more. */
  lemma SkillListLength(names: seq<string>)
    requires |names| >= 1
    ensures |SkillList(names)| == TotalLength(names)
              + (if |names| == 1 then 0 else if |names| == 2 then 5 else 2 * |names| + 2)
  {
    if |names| <= 2 {
      SkillListLengthShort(names);
    } else {
      SkillListLengthMany(names);
    }
  }

  lemma {:induction false} TotalLengthSnoc(parts: seq<string>, x: string)
    ensures TotalLength(parts + [x]) == TotalLength(parts) + |x|
    decreases |parts|
  {
    if parts == [] {
      assert [] + [x] == [x];
    } else {
      assert (parts + [x])[1..] == parts[1..] + [x];
      TotalLengthSnoc(parts[1..], x);
    }
  }

  /** `_generate_skills_paragraph` as written: a non-empty list of skills
      whose names are all missing or empty reaches `skill_names[-1]` on an
      empty list, which raises; None stands for that error. */
  function SkillsParagraphAsWritten(skills: seq<ProfileSkill>): Option<SkillsParagraph>
  {
    if skills == [] then Some(DiverseSkills)
    else
      var names := SkillNames(skills);
      if |names| == 0 then None
      else Some(SkillListing(SkillList(names)))
  }

  /** The paragraph with the emptiness test made after dropping unnamed
      skills. */
  function SkillsParagraphOf(skills: seq<ProfileSkill>): SkillsParagraph
  {
    var names := SkillNames(skills);
    if |names| == 0 then DiverseSkills else SkillListing(SkillList(names))
  }

  /** The corrected paragraph is the generic sentence exactly when no
      highlighted skill has a name, and otherwise a list mentioning every
      named skill. */
  lemma SkillsParagraphSpec(skills: seq<ProfileSkill>)
    ensures SkillsParagraphOf(skills).DiverseSkills? <==>
              forall i :: 0 <= i < |skills| ==> RawName(skills[i]) == []
    ensures SkillsParagraphOf(skills).SkillListing? ==>
              forall i :: 0 <= i < |skills| && RawName(skills[i]) != [] ==>
                Contains(SkillsParagraphOf(skills).skillList, RawName(skills[i]))
  {
    var raw := RawNames(skills);
    NonEmptyNone(raw);
    NonEmptyKeeps(raw);
    assert forall i :: 0 <= i < |skills| ==> raw[i] == RawName(skills[i]);
    var names := SkillNames(skills);
    if |names| > 0 {
      forall i | 0 <= i < |skills| && RawName(skills[i]) != []
        ensures Contains(SkillList(names), RawName(skills[i]))
      {
        assert raw[i] in names;
        var k :| 0 <= k < |names| && names[k] == raw[i];
        SkillListMentions(names, k);
      }
    }
  }

  /** The code as written and the corrected paragraph agree except on
      skills that all lack a name, where the code as written fails. */
  lemma SkillsParagraphAgrees(skills: seq<ProfileSkill>)
    ensures SkillsParagraphAsWritten(skills) == None <==>
              skills != [] && forall i :: 0 <= i < |skills| ==> RawName(skills[i]) == []
    ensures SkillsParagraphAsWritten(skills) != None ==> SkillsParagraphAsWritten(skills) == Some(SkillsParagraphOf(skills))
  {
    var raw := RawNames(skills);
    NonEmptyNone(raw);
    assert forall i :: 0 <= i < |skills| ==> raw[i] == RawName(skills[i]);
  }

  /** A profile whose only skill has no name reaches the failing index:
      nothing matches, padding picks that skill, and the paragraph fails. */
  lemma UnnamedSkillBreaksParagraph()
    ensures var skills := [ProfileSkill(None, Some(3), None, map[])];
      MatchingSkills(skills, ["python"]) == skills && SkillsParagraphAsWritten(skills) == None
  {
    var s := ProfileSkill(None, Some(3), None, map[]);
    var skills := [s];
    assert !MatchesRequired(["python"], s);
    FilterUnfold(skills, MatchesIn(["python"]));
    assert Filter(skills, MatchesIn(["python"])) == [];
    assert SortDesc(skills, Strength) == [s];
    assert Pad([], [s]) == Pad([s], []);
  }
}
