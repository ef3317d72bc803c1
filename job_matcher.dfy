/** The job matcher (job_matcher.py): degree levels and the highest degree
    of a profile, skill-match classification, experience-year arithmetic,
    the years-of-experience flag and the ranking of listings.

    Scores that come from the sentence-embedding model or from floating
    point averages are not computed here; `MatchJobs` takes each listing's
    match score as given. */
module JobMatcher {
  import opened Wrappers
  import opened Text
  import opened Ordering

  // -------------------------------------------------------------- degrees

  /** The level of a degree name in the hierarchy used by
      `_is_degree_sufficient`; unknown names and "" are level 0. */
  function LevelOf(name: string): nat
  {
    if name == "phd" then 4
    else if name == "master" then 3
    else if name == "bachelor" then 2
    else if name == "associate" then 1
    else 0
  }

  /** `_is_degree_sufficient`. */
  function IsDegreeSufficient(userDegree: string, requiredDegree: string): (r: bool)
    ensures requiredDegree == "" ==> r
    ensures userDegree == requiredDegree ==> r
    ensures LevelOf(userDegree) == 0 ==> (r <==> LevelOf(requiredDegree) == 0)
  {
    LevelOf(userDegree) >= LevelOf(requiredDegree)
  }

  lemma DegreeSufficientTransitive(a: string, b: string, c: string)
    requires IsDegreeSufficient(a, b) && IsDegreeSufficient(b, c)
    ensures IsDegreeSufficient(a, c)
  {
  }

  /** Any two degrees are comparable. */
  lemma DegreeSufficientTotal(a: string, b: string)
    ensures IsDegreeSufficient(a, b) || IsDegreeSufficient(b, a)
  {
  }

  /** The degree types of `_get_highest_degree`, in the order its hierarchy
      lists (and checks) them. */
  datatype DegreeType = PhD | Master | Bachelor | Associate

  function TypeName(t: DegreeType): string
  {
    match t
    case PhD => "phd"
    case Master => "master"
    case Bachelor => "bachelor"
    case Associate => "associate"
  }

  function Level(t: DegreeType): nat
  {
    match t
    case PhD => 4
    case Master => 3
    case Bachelor => 2
    case Associate => 1
  }

  /** The two hierarchy tables of the module agree. */
  lemma HierarchiesAgree(t: DegreeType)
    ensures LevelOf(TypeName(t)) == Level(t)
    ensures Level(t) > 0
  {
  }

  /** The patterns of each degree type (`_get_degree_patterns`). */
  datatype PatternTable = PatternTable(
    bachelor: seq<string>,
    master: seq<string>,
    phd: seq<string>,
    associate: seq<string>)

  const DegreePatterns: PatternTable := PatternTable(
    ["bachelor", "ba", "bs", "b.a", "b.s", "undergraduate"],
    ["master", "ma", "ms", "m.a", "m.s", "graduate"],
    ["phd", "ph.d", "doctorate", "doctoral"],
    ["associate", "a.a", "a.s"])

  function PatternsFor(table: PatternTable, t: DegreeType): seq<string>
  {
    match t
    case Bachelor => table.bachelor
    case Master => table.master
    case PhD => table.phd
    case Associate => table.associate
  }

  /** Word characters of regular expressions (ASCII). */
  predicate WordChar(c: char)
  {
    'a' <= c <= 'z' || 'A' <= c <= 'Z' || '0' <= c <= '9' || c == '_'
  }

  /** `needle` occurs in `hay` with a word boundary on both sides (the
      `\b...\b` reading used for degree requirements, for patterns that
      begin and end with a word character). */
  predicate OccursAsWord(hay: string, needle: string)
  {
    exists i :: 0 <= i <= |hay| && WordAt(hay, needle, i)
  }

  predicate WordAt(hay: string, needle: string, i: int)
  {
    0 <= i && i + |needle| <= |hay| && hay[i..i + |needle|] == needle
    && (i == 0 || !WordChar(hay[i - 1]))
    && (i + |needle| == |hay| || !WordChar(hay[i + |needle|]))
  }

  /** How a degree pattern is looked for in an entry: as a plain substring
      (what `_get_highest_degree` does) or as a whole word. */
  datatype PatternTest = Substring | WholeWord

  predicate PatternIn(entry: string, pattern: string, test: PatternTest)
  {
    match test
    case Substring => Contains(entry, pattern)
    case WholeWord => OccursAsWord(entry, pattern)
  }

  /** `degree_type in degree or any(pattern in degree for pattern in ...)`. */
  predicate MatchesType(entry: string, t: DegreeType, table: PatternTable, test: PatternTest)
  {
    Contains(entry, TypeName(t))
    || exists k :: 0 <= k < |PatternsFor(table, t)| && PatternIn(entry, PatternsFor(table, t)[k], test)
  }

  /** The inner loop of `_get_highest_degree`: the first type, in
      hierarchy order, that the entry matches. */
  function Classify(entry: string, table: PatternTable, test: PatternTest): Option<DegreeType>
  {
    if MatchesType(entry, PhD, table, test) then Some(PhD)
    else if MatchesType(entry, Master, table, test) then Some(Master)
    else if MatchesType(entry, Bachelor, table, test) then Some(Bachelor)
    else if MatchesType(entry, Associate, table, test) then Some(Associate)
    else None
  }

  /** An entry gets the highest-level type it matches, and none only when
      it matches no type. */
  lemma ClassifyFirstMatch(entry: string, table: PatternTable, test: PatternTest)
    ensures Classify(entry, table, test).Some? ==> MatchesType(entry, Classify(entry, table, test).value, table, test)
    ensures Classify(entry, table, test).None? <==> forall t :: !MatchesType(entry, t, table, test)
    ensures Classify(entry, table, test).Some? ==>
      forall t :: Level(t) > Level(Classify(entry, table, test).value) ==> !MatchesType(entry, t, table, test)
  {
  }

  /** The first matching type in hierarchy order is the classification. */
  lemma ClassifiedAs(entry: string, table: PatternTable, test: PatternTest, t: DegreeType)
    requires MatchesType(entry, t, table, test)
    requires forall u :: Level(u) > Level(t) ==> !MatchesType(entry, u, table, test)
    ensures Classify(entry, table, test) == Some(t)
  {
  }

  /** A pattern found in the entry makes it match the type. */
  lemma MatchesByPattern(entry: string, t: DegreeType, table: PatternTable, test: PatternTest, k: int)
    requires 0 <= k < |PatternsFor(table, t)| && PatternIn(entry, PatternsFor(table, t)[k], test)
    ensures MatchesType(entry, t, table, test)
  {
  }

  /** The inner loop over the hierarchy, with its `break`. */
  method ClassifyEntry(degree: string, table: PatternTable, test: PatternTest) returns (r: Option<DegreeType>)
    ensures r == Classify(degree, table, test)
  {
    var order := [PhD, Master, Bachelor, Associate];
    r := None;
    var k := 0;
    while k < |order|
      invariant 0 <= k <= |order|
      invariant forall t :: Level(t) > 4 - k ==> !MatchesType(degree, t, table, test)
    {
      assert Level(order[k]) == 4 - k;
      if MatchesType(degree, order[k], table, test) {
        r := Some(order[k]);
        ClassifiedAs(degree, table, test, order[k]);
        break;
      }
      k := k + 1;
    }
    ClassifyFirstMatch(degree, table, test);
  }

  /** The better of two classifications; a tie keeps the earlier one. */
  function Higher(a: Option<DegreeType>, b: Option<DegreeType>): Option<DegreeType>
  {
    if b.Some? && (a.None? || Level(b.value) > Level(a.value)) then b else a
  }

  /** The highest of the classifications, scanning left to right. */
  function TopOf(classes: seq<Option<DegreeType>>): Option<DegreeType>
  {
    if classes == [] then None
    else Higher(TopOf(classes[..|classes| - 1]), classes[|classes| - 1])
  }

  /** TopOf is the maximum: None when nothing classifies, otherwise the
      type of some entry with no entry of a higher level. */
  lemma {:induction false} TopOfIsMaximum(classes: seq<Option<DegreeType>>)
    ensures TopOf(classes).None? <==> forall i :: 0 <= i < |classes| ==> classes[i].None?
    ensures TopOf(classes).Some? ==> TopOf(classes) in classes
    ensures TopOf(classes).Some? ==>
      forall i :: 0 <= i < |classes| && classes[i].Some? ==> Level(classes[i].value) <= Level(TopOf(classes).value)
  {
    if classes != [] {
      var init := classes[..|classes| - 1];
      TopOfIsMaximum(init);
      assert forall i :: 0 <= i < |init| ==> init[i] == classes[i];
      assert forall x :: x in init ==> x in classes;
    }
  }

  /** The lower-cased "degree" of each education entry ("" when absent). */
  function LowerAll(entries: seq<string>): (r: seq<string>)
    ensures |r| == |entries|
  {
    seq(|entries|, i requires 0 <= i < |entries| => LowerStr(entries[i]))
  }

  function ClassifyAll(entries: seq<string>, table: PatternTable, test: PatternTest): (r: seq<Option<DegreeType>>)
    ensures |r| == |entries|
  {
    seq(|entries|, i requires 0 <= i < |entries| => Classify(entries[i], table, test))
  }

  function DegreeName(d: Option<DegreeType>): string
  {
    if d.Some? then TypeName(d.value) else ""
  }

  /** `_get_highest_degree` over the "degree" values of the education
      entries, for a pattern table (the module's is DegreePatterns) and a
      pattern test: `Substring` is the code as written, `WholeWord` the
      corrected reading. "" when no entry names a degree. */
  method GetHighestDegree(degrees: seq<string>, table: PatternTable, test: PatternTest) returns (highest: string)
    ensures highest == DegreeName(TopOf(ClassifyAll(LowerAll(degrees), table, test)))
  {
    ghost var classes := ClassifyAll(LowerAll(degrees), table, test);
    highest := "";
    var highestLevel := 0;
    ghost var top: Option<DegreeType> := None;
    for i := 0 to |degrees|
      invariant top == TopOf(classes[..i])
      invariant highest == DegreeName(top)
      invariant highestLevel == if top.Some? then Level(top.value) else 0
    {
      var degree := LowerStr(degrees[i]);
      var c := ClassifyEntry(degree, table, test);
      if c.Some? && Level(c.value) > highestLevel {
        highest := TypeName(c.value);
        highestLevel := Level(c.value);
      }
      TopOfSnoc(classes, i);
      assert classes[i] == c;
      top := Higher(top, c);
    }
    assert classes[..|degrees|] == classes;
  }

  lemma TopOfSnoc(classes: seq<Option<DegreeType>>, i: int)
    requires 0 <= i < |classes|
    ensures TopOf(classes[..i + 1]) == Higher(TopOf(classes[..i]), classes[i])
  {
    assert classes[..i + 1][..i] == classes[..i];
  }

  // ------------------------------------------ the pattern-matching finding

  /** Every character of an occurring needle occurs in the haystack. */
  lemma {:induction false} ContainedCharsOccur(hay: string, needle: string, c: char)
    requires Contains(hay, needle) && c in needle
    ensures c in hay
    decreases |hay|
  {
    if needle <= hay {
      var k :| 0 <= k < |needle| && needle[k] == c;
      assert hay[k] == c;
    } else {
      ContainedCharsOccur(hay[1..], needle, c);
    }
  }

  lemma WordOccursContains(hay: string, needle: string)
    ensures OccursAsWord(hay, needle) ==> Contains(hay, needle)
  {
    if OccursAsWord(hay, needle) {
      var i :| 0 <= i <= |hay| && WordAt(hay, needle, i);
      ContainsAt(hay, needle, i);
    }
  }

  /** A pattern with a character the entry lacks is not in it, by either test. */
  lemma MissingCharExcludes(hay: string, needle: string, c: char, test: PatternTest)
    requires c in needle && c !in hay
    ensures !Contains(hay, needle) && !PatternIn(hay, needle, test)
  {
    WordOccursContains(hay, needle);
    if Contains(hay, needle) {
      ContainedCharsOccur(hay, needle, c);
    }
  }

  lemma UndergraduateNotPhD(test: PatternTest)
    ensures !MatchesType("undergraduate", PhD, DegreePatterns, test)
  {
    var e := "undergraduate";
    var ps := DegreePatterns.phd;
    assert 'p' !in e && 'c' !in e;
    forall k | 0 <= k < |ps| ensures !PatternIn(e, ps[k], test) {
      if k <= 1 {
        assert 'p' in ps[k];
        MissingCharExcludes(e, ps[k], 'p', test);
      } else {
        assert 'c' in ps[k];
        MissingCharExcludes(e, ps[k], 'c', test);
      }
    }
    MissingCharExcludes(e, "phd", 'p', test);
  }

  /** "graduate" sits inside "undergraduate" only after a letter. */
  lemma GraduateNotAWord()
    ensures !OccursAsWord("undergraduate", "graduate")
  {
    var e := "undergraduate";
    assert forall j :: 0 <= j <= 5 && e[j] == 'g' ==> j == 5;
    forall i ensures !WordAt(e, "graduate", i) {
      if 0 <= i && i + 8 <= |e| && e[i..i + 8] == "graduate" {
        assert e[i] == 'g';
        assert i == 5;
        assert WordChar(e[4]);
      }
    }
  }

  lemma UndergraduateNotMasterWord()
    ensures !MatchesType("undergraduate", Master, DegreePatterns, WholeWord)
  {
    var e := "undergraduate";
    var ps := DegreePatterns.master;
    forall k | 0 <= k < |ps| ensures !PatternIn(e, ps[k], WholeWord) {
      if k == 5 {
        GraduateNotAWord();
      } else {
        MissingCharExcludes(e, ps[k], 'm', WholeWord);
      }
    }
    MissingCharExcludes(e, "master", 'm', WholeWord);
  }

  /** The master pattern "graduate" is a substring of "undergraduate". */
  lemma UndergraduateMatchesMaster()
    ensures MatchesType("undergraduate", Master, DegreePatterns, Substring)
  {
    var e := "undergraduate";
    assert e[5..13] == "graduate";
    ContainsAt(e, "graduate", 5);
    MatchesByPattern(e, Master, DegreePatterns, Substring, 5);
  }

  /** The bachelor pattern "undergraduate" is the whole entry, so a word. */
  lemma UndergraduateMatchesBachelorWord()
    ensures MatchesType("undergraduate", Bachelor, DegreePatterns, WholeWord)
  {
    var e := "undergraduate";
    assert e[0..13] == e;
    assert WordAt(e, DegreePatterns.bachelor[5], 0);
    MatchesByPattern(e, Bachelor, DegreePatterns, WholeWord, 5);
  }

  /** As written, an "undergraduate" entry is ranked a master's degree,
      although "undergraduate" is one of the bachelor patterns: the master
      pattern "graduate" is found inside it. */
  lemma UndergraduateRankedMaster()
    ensures Classify("undergraduate", DegreePatterns, Substring) == Some(Master)
    ensures "undergraduate" in PatternsFor(DegreePatterns, Bachelor)
  {
    UndergraduateNotPhD(Substring);
    UndergraduateMatchesMaster();
    assert PatternsFor(DegreePatterns, Bachelor)[5] == "undergraduate";
  }

  /** Matching patterns as whole words classifies it as a bachelor's degree. */
  lemma UndergraduateRankedBachelor()
    ensures Classify("undergraduate", DegreePatterns, WholeWord) == Some(Bachelor)
  {
    UndergraduateNotPhD(WholeWord);
    UndergraduateNotMasterWord();
    UndergraduateMatchesBachelorWord();
  }

  // -------------------------------------------------------- skill matches

  datatype MatchType = Exact | Partial

  datatype SkillMatch = SkillMatch(skill: string, matchType: MatchType)

  /** The score of a match, in tenths (1.0 and 0.7). */
  function MatchPoints(t: MatchType): nat
  {
    match t
    case Exact => 10
    case Partial => 7
  }

  /** How one job skill matches the lower-cased user skills: exactly when
      its lower-cased name is among them, partially when it and some user
      skill contain one another. */
  function MatchOf(jobSkill: string, userSkills: seq<string>): Option<MatchType>
  {
    var lower := LowerStr(jobSkill);
    if lower in userSkills then Some(Exact)
    else if PartlyMatches(lower, userSkills) then Some(Partial)
    else None
  }

  /** Some user skill and the job skill contain one another. */
  predicate PartlyMatches(lower: string, userSkills: seq<string>)
  {
    exists k :: 0 <= k < |userSkills| && Overlaps(userSkills[k], lower)
  }

  predicate Overlaps(userSkill: string, lower: string)
  {
    Contains(lower, userSkill) || Contains(userSkill, lower)
  }

  /** The matches of the job skills, in job-skill order. */
  function MatchesFor(jobSkills: seq<string>, userSkills: seq<string>): (r: seq<SkillMatch>)
    ensures |r| <= |jobSkills|
    ensures forall i :: 0 <= i < |r| ==>
      r[i].skill in jobSkills && MatchOf(r[i].skill, userSkills) == Some(r[i].matchType)
  {
    if jobSkills == [] then []
    else
      var last := jobSkills[|jobSkills| - 1];
      var init := MatchesFor(jobSkills[..|jobSkills| - 1], userSkills);
      assert forall x :: x in jobSkills[..|jobSkills| - 1] ==> x in jobSkills;
      match MatchOf(last, userSkills)
      case Some(t) => init + [SkillMatch(last, t)]
      case None => init
  }

  /** Every job skill that matches at all is reported. */
  lemma {:induction false} MatchesForComplete(jobSkills: seq<string>, userSkills: seq<string>)
    ensures forall i :: 0 <= i < |jobSkills| && MatchOf(jobSkills[i], userSkills).Some? ==>
      SkillMatch(jobSkills[i], MatchOf(jobSkills[i], userSkills).value) in MatchesFor(jobSkills, userSkills)
  {
    if jobSkills != [] {
      var init := jobSkills[..|jobSkills| - 1];
      MatchesForComplete(init, userSkills);
      var m := MatchesFor(init, userSkills);
      var r := MatchesFor(jobSkills, userSkills);
      assert m <= r;
      forall i | 0 <= i < |jobSkills| && MatchOf(jobSkills[i], userSkills).Some?
        ensures SkillMatch(jobSkills[i], MatchOf(jobSkills[i], userSkills).value) in r
      {
        if i < |init| {
          assert init[i] == jobSkills[i];
          PrefixMembers(m, r);
        }
      }
    }
  }

  function SumPoints(matches: seq<SkillMatch>): nat
  {
    if matches == [] then 0 else SumPoints(matches[..|matches| - 1]) + MatchPoints(matches[|matches| - 1].matchType)
  }

  lemma {:induction false} SumPointsBound(matches: seq<SkillMatch>)
    ensures SumPoints(matches) <= 10 * |matches|
  {
    if matches != [] {
      SumPointsBound(matches[..|matches| - 1]);
    }
  }

  /** A fraction whose numerator is at most its denominator lies in [0, 1]. */
  lemma FractionBound(a: nat, b: nat)
    requires 0 < b && a <= b
    ensures 0.0 <= (a as real) / (b as real) <= 1.0
  {
    var q := (a as real) / (b as real);
    assert q * (b as real) == a as real;
  }

  /** The skill score: the points of the matches over the number of job
      skills; between 0 and 1 since each job skill has at most one match. */
  function SkillScore(matches: seq<SkillMatch>, jobSkillCount: nat): (r: real)
    ensures |matches| <= jobSkillCount ==> 0.0 <= r <= 1.0
  {
    if jobSkillCount == 0 then 0.0
    else
      SumPointsBound(matches);
      var points := SumPoints(matches);
      var most := 10 * jobSkillCount;
      FractionBound(if points <= most then points else 0, most);
      (points as real) / (most as real)
  }

  /** `_calculate_skill_match`: no matches when either list is empty;
      otherwise at most one match per job skill, exact before partial. */
  method CalculateSkillMatches(jobSkills: seq<string>, userSkillNames: seq<string>)
    returns (matches: seq<SkillMatch>)
    ensures jobSkills == [] || userSkillNames == [] ==> matches == []
    ensures jobSkills != [] && userSkillNames != [] ==>
      matches == MatchesFor(jobSkills, LowerAll(userSkillNames))
  {
    var userSkills := LowerAll(userSkillNames);
    if jobSkills == [] || userSkills == [] {
      return [];
    }
    matches := [];
    for i := 0 to |jobSkills|
      invariant matches == MatchesFor(jobSkills[..i], userSkills)
    {
      MatchesForSnoc(jobSkills, i, userSkills);
      var jobSkill := jobSkills[i];
      var lower := LowerStr(jobSkill);
      if lower in userSkills {
        matches := matches + [SkillMatch(jobSkill, Exact)];
        continue;
      }
      var found := FindPartial(lower, userSkills);
      if found {
        matches := matches + [SkillMatch(jobSkill, Partial)];
      }
    }
    assert jobSkills[..|jobSkills|] == jobSkills;
  }

  /** The inner loop over the user skills, with its `break`. */
  method FindPartial(lower: string, userSkills: seq<string>) returns (found: bool)
    ensures found == PartlyMatches(lower, userSkills)
  {
    var k := 0;
    while k < |userSkills|
      invariant 0 <= k <= |userSkills|
      invariant forall j :: 0 <= j < k ==> !Overlaps(userSkills[j], lower)
    {
      if Contains(userSkills[k], lower) || Contains(lower, userSkills[k]) {
        return true;
      }
      k := k + 1;
    }
    return false;
  }

  /** One more job skill adds its match, if it has one. */
  lemma MatchesForSnoc(jobSkills: seq<string>, i: int, userSkills: seq<string>)
    requires 0 <= i < |jobSkills|
    ensures MatchOf(jobSkills[i], userSkills).None? ==>
      MatchesFor(jobSkills[..i + 1], userSkills) == MatchesFor(jobSkills[..i], userSkills)
    ensures MatchOf(jobSkills[i], userSkills).Some? ==>
      MatchesFor(jobSkills[..i + 1], userSkills)
      == MatchesFor(jobSkills[..i], userSkills) + [SkillMatch(jobSkills[i], MatchOf(jobSkills[i], userSkills).value)]
  {
    assert jobSkills[..i + 1][..i] == jobSkills[..i];
  }

  // ----------------------------------------------------- experience years

  /** "Present" counts as this year. */
  const CurrentYear: int := 2025

  predicate IsDigit(c: char)
  {
    '0' <= c <= '9'
  }

  function DigitValue(c: char): int
  {
    c as int - '0' as int
  }

  /** A year `(19|20)\d{2}` with a word boundary on each side starts at `i`. */
  predicate YearAt(s: string, i: nat)
  {
    i + 4 <= |s|
    && ((s[i] == '1' && s[i + 1] == '9') || (s[i] == '2' && s[i + 1] == '0'))
    && IsDigit(s[i + 2]) && IsDigit(s[i + 3])
    && (i == 0 || !WordChar(s[i - 1]))
    && (i + 4 == |s| || !WordChar(s[i + 4]))
  }

  function YearValue(s: string, i: nat): int
    requires i + 4 <= |s|
  {
    1000 * DigitValue(s[i]) + 100 * DigitValue(s[i + 1]) + 10 * DigitValue(s[i + 2]) + DigitValue(s[i + 3])
  }

  /** The leftmost year at or after position `i`. */
  function FindYear(s: string, i: nat): (r: Option<int>)
    requires i <= |s|
    ensures r.Some? ==> 1900 <= r.value <= 2099
    ensures r.Some? ==> exists j :: i <= j && YearAt(s, j) && r.value == YearValue(s, j)
                                    && forall k :: i <= k < j ==> !YearAt(s, k)
    ensures r.None? ==> forall j :: i <= j ==> !YearAt(s, j)
    decreases |s| - i
  {
    if i + 4 > |s| then None
    else if YearAt(s, i) then Some(YearValue(s, i))
    else FindYear(s, i + 1)
  }

  /** `_extract_year`: the first 19xx or 20xx year of a date string. */
  function ExtractYear(s: string): Option<int>
  {
    FindYear(s, 0)
  }

  function DigitChar(d: int): char
    requires 0 <= d <= 9
  {
    ('0' as int + d) as char
  }

  /** A year written with four digits. */
  function YearText(y: int): (r: string)
    requires 1900 <= y <= 2099
    ensures |r| == 4
  {
    [DigitChar(y / 1000), DigitChar(y / 100 % 10), DigitChar(y / 10 % 10), DigitChar(y % 10)]
  }

  /** A date that is just a year gives that year back. */
  lemma YearRoundTrip(y: int)
    requires 1900 <= y <= 2099
    ensures ExtractYear(YearText(y)) == Some(y)
  {
    var t := YearText(y);
    assert YearAt(t, 0);
    assert YearValue(t, 0) == y;
  }

  /** An experience entry: "duration_years", "start_date" and "end_date"
      (None when the key is absent). */
  datatype ExperienceEntry = ExperienceEntry(
    durationYears: Option<int>,
    startDate: Option<string>,
    endDate: Option<string>)

  /** `_calculate_experience_years`. A given duration wins; a missing or
      empty start gives 0; a missing end date means "Present", which is the
      current year; otherwise the difference of the extracted years, or 0
      when either has none. */
  function ExperienceYears(e: ExperienceEntry): (r: int)
    ensures e.durationYears.Some? ==> r == e.durationYears.value
    ensures e.durationYears.None? ==> -199 <= r <= 199
    ensures e.durationYears.None? && e.startDate.Some? && e.startDate.value != []
            && ExtractYear(e.startDate.value).None?
            ==> r == 0
    ensures e.durationYears.None? && e.startDate.Some? && e.startDate.value != []
            && ExtractYear(e.startDate.value).Some? && (e.endDate.None? || e.endDate.value == "Present")
            ==> r == CurrentYear - ExtractYear(e.startDate.value).value
    ensures e.durationYears.None? && e.startDate.Some? && e.startDate.value != []
            && e.endDate.Some? && e.endDate.value != "Present" && ExtractYear(e.endDate.value).None?
            ==> r == 0
    ensures e.durationYears.None? && e.startDate.Some? && e.startDate.value != []
            && ExtractYear(e.startDate.value).Some?
            && e.endDate.Some? && e.endDate.value != "Present" && ExtractYear(e.endDate.value).Some?
            ==> r == ExtractYear(e.endDate.value).value - ExtractYear(e.startDate.value).value
  {
    if e.durationYears.Some? then e.durationYears.value
    else if e.startDate.None? || e.startDate.value == [] then 0
    else
      var end := if e.endDate.Some? then e.endDate.value else "Present";
      var startYear := ExtractYear(e.startDate.value);
      var endYear := if end == "Present" then Some(CurrentYear) else ExtractYear(end);
      if startYear.Some? && endYear.Some? then endYear.value - startYear.value else 0
  }

  /** Years written as plain years subtract; no end date counts to 2025. */
  lemma ExperienceYearsOfYears(a: int, b: int)
    requires 1900 <= a <= 2099 && 1900 <= b <= 2099
    ensures ExperienceYears(ExperienceEntry(None, Some(YearText(a)), Some(YearText(b)))) == b - a
    ensures ExperienceYears(ExperienceEntry(None, Some(YearText(a)), None)) == CurrentYear - a
    ensures ExperienceYears(ExperienceEntry(None, Some(YearText(a)), Some("Present"))) == CurrentYear - a
  {
    YearRoundTrip(a);
    YearRoundTrip(b);
    assert YearText(b) != "Present" by {
      assert YearText(b)[0] != "Present"[0];
    }
  }

  /** An entry without a start date contributes nothing. */
  lemma NoStartNoYears(end: Option<string>)
    ensures ExperienceYears(ExperienceEntry(None, None, end)) == 0
    ensures ExperienceYears(ExperienceEntry(None, Some(""), end)) == 0
  {
  }

  function TotalYears(experiences: seq<ExperienceEntry>): int
  {
    if experiences == [] then 0
    else TotalYears(experiences[..|experiences| - 1]) + ExperienceYears(experiences[|experiences| - 1])
  }

  /** The years-of-experience entry of the experience match. */
  datatype YearsMatch = YearsMatch(jobRequirement: nat, userExperience: int, score: real, matched: bool)

  /** The total-years loop and the years-of-experience verdict of
      `_calculate_experience_match`; no entry when the profile lists no
      experience. */
  method YearsOfExperienceMatch(experiences: seq<ExperienceEntry>, yearsRequired: nat)
    returns (m: Option<YearsMatch>)
    ensures m.None? <==> experiences == []
    ensures m.Some? ==> m.value.userExperience == TotalYears(experiences)
    ensures m.Some? ==> (m.value.matched <==> yearsRequired == 0 || TotalYears(experiences) >= yearsRequired)
    ensures m.Some? ==> (m.value.score == 1.0 <==> m.value.matched)
    ensures m.Some? ==> m.value.score <= 1.0
    ensures m.Some? ==> m.value.jobRequirement == yearsRequired
    ensures m.Some? && !m.value.matched ==> m.value.score == TotalYears(experiences) as real / yearsRequired as real
  {
    if experiences == [] {
      return None;
    }
    var total := 0;
    for i := 0 to |experiences|
      invariant total == TotalYears(experiences[..i])
    {
      assert experiences[..i + 1][..i] == experiences[..i];
      total := total + ExperienceYears(experiences[i]);
    }
    assert experiences[..|experiences|] == experiences;
    if yearsRequired > 0 {
      if total >= yearsRequired {
        m := Some(YearsMatch(yearsRequired, total, 1.0, true));
      } else {
        m := Some(YearsMatch(yearsRequired, total, total as real / yearsRequired as real, false));
      }
    } else {
      m := Some(YearsMatch(yearsRequired, total, 1.0, true));
    }
  }

  // ------------------------------------------------------------- ranking

  /** A listing with its match score (the copy of the listing with
      "match_score" added). */
  datatype MatchResult<J> = MatchResult(job: J, matchScore: int)

  function ScoreKey<J>(r: MatchResult<J>): int
  {
    r.matchScore
  }

  function Scored<J>(jobs: seq<J>, scoreOf: J -> int): (r: seq<MatchResult<J>>)
    ensures |r| == |jobs|
  {
    seq(|jobs|, i requires 0 <= i < |jobs| => MatchResult(jobs[i], scoreOf(jobs[i])))
  }

  /** `match_jobs`: every listing once, with its score, sorted by score
      descending; `list.sort` is stable, so equal scores keep input order. */
  method MatchJobs<J>(jobs: seq<J>, scoreOf: J -> int) returns (results: seq<MatchResult<J>>)
    ensures |results| == |jobs|
    ensures NonIncreasing(results, ScoreKey)
    ensures multiset(results) == multiset(Scored(jobs, scoreOf))
    ensures forall i :: 0 <= i < |results| ==> results[i].matchScore == scoreOf(results[i].job)
    ensures forall k :: WithKey(results, ScoreKey, k) == WithKey(Scored(jobs, scoreOf), ScoreKey, k)
  {
    results := [];
    for i := 0 to |jobs|
      invariant results == Scored(jobs[..i], scoreOf)
    {
      results := results + [MatchResult(jobs[i], scoreOf(jobs[i]))];
    }
    assert jobs[..|jobs|] == jobs;
    var unsorted := results;
    results := SortDesc(unsorted, ScoreKey);
    forall k ensures WithKey(results, ScoreKey, k) == WithKey(unsorted, ScoreKey, k) {
      SortDescStable(unsorted, ScoreKey, k);
    }
    forall i | 0 <= i < |results| ensures results[i].matchScore == scoreOf(results[i].job) {
      assert results[i] in multiset(unsorted);
    }
  }
}
