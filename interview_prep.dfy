/** Interview preparation (interview_preparation.py): the question set drawn
    from templates, the required-skill list, the personalised strength and
    weakness tips and the preparation-tips dictionary.

    Randomness (random.choice, random.sample, random.shuffle) is modelled as
    nondeterministic choice, so every contract below holds for every outcome
    of the random draws. A question is represented by the index of the
    template it was formatted from and the value substituted into it; a tip
    by which of the fixed sentences it is. */
module InterviewPrep {
  import opened Wrappers
  import opened Text
  import opened Ordering

  function Min(a: int, b: int): int
  {
    if a <= b then a else b
  }

  // ------------------------------------------------------------ templates

  /** Sizes of the template tables loaded by the module. */
  const TechnicalTemplateCount: nat := 5
  const BehavioralTemplateCount: nat := 10
  const CompanyTemplateCount: nat := 5
  const RoleTemplateCount: nat := 5
  /** Every question type has three answer templates. */
  const AnswerTemplateCount: nat := 3

  datatype QuestionType = Technical | Behavioral | CompanyQuestion | RoleQuestion

  /** One generated question: the question template and answer template it
      was formatted from, and the value substituted into both (the skill,
      the company or the job title; empty for behavioral questions, whose
      templates have no placeholder). */
  datatype Question = Question(kind: QuestionType, template: nat, answer: nat, subject: string)

  /** The "skill" key, present on technical questions only. */
  function SkillTag(q: Question): Option<string>
  {
    if q.kind == Technical then Some(q.subject) else None
  }

  /** The fields of a job listing the module reads. A missing "title" or
      "company" is the empty string. `skills` is the "skills" value when it
      is a list; `extracted` is what the regular-expression scan of the
      description yields, in order and before duplicates are removed. */
  datatype JobListing = JobListing(
    title: string,
    company: string,
    skills: Option<seq<string>>,
    extracted: seq<string>)

  // ------------------------------------------------------- random helpers

  /** random.shuffle: Fisher-Yates swaps with positions drawn at random. */
  method Shuffle<T>(s: seq<T>) returns (r: seq<T>)
    ensures |r| == |s|
    ensures multiset(r) == multiset(s)
  {
    r := s;
    var i := |r|;
    while i > 1
      invariant 0 <= i <= |r| == |s|
      invariant multiset(r) == multiset(s)
    {
      i := i - 1;
      var j :| 0 <= j <= i;
      r := r[i := r[j]][j := r[i]];
    }
  }

  /** random.sample over the positions 0..n-1: k distinct positions. */
  method Sample(n: nat, k: nat) returns (picks: seq<nat>)
    requires k <= n
    ensures |picks| == k && Distinct(picks)
    ensures forall i :: 0 <= i < |picks| ==> picks[i] < n
  {
    var pool: seq<nat> := seq(n, i => i);
    picks := [];
    while |picks| < k
      invariant |picks| + |pool| == n && |picks| <= k
      invariant Distinct(picks) && Distinct(pool)
      invariant forall i :: 0 <= i < |picks| ==> picks[i] < n && picks[i] !in pool
      invariant forall i :: 0 <= i < |pool| ==> pool[i] < n
      decreases k - |picks|
    {
      var j :| 0 <= j < |pool|;
      var x := pool[j];
      var rest := pool[..j] + pool[j + 1..];
      assert forall y :: y in rest ==> y in pool && y != x;
      assert forall i :: 0 <= i < |rest| ==> rest[i] == (if i < j then pool[i] else pool[i + 1]);
      picks := picks + [x];
      pool := rest;
    }
  }

  /** Python's `s[:n]`: a negative `n` counts back from the end. */
  function SlicePrefix<T>(s: seq<T>, n: int): (r: seq<T>)
    ensures |r| <= |s| && r == s[..|r|]
    ensures n >= 0 ==> |r| == Min(n, |s|)
    ensures n < 0 ==> |r| == (if |s| + n < 0 then 0 else |s| + n)
  {
    if n >= |s| then s
    else if n >= 0 then s[..n]
    else if |s| + n < 0 then []
    else s[..|s| + n]
  }

  // ------------------------------------------------------------ questions

  /** `_extract_required_skills`: an explicit "skills" list is returned
      as it is; otherwise the scanned skills with duplicates removed, in
      the arbitrary order in which a Python set is iterated. */
  method ExtractRequiredSkills(listed: Option<seq<string>>, extracted: seq<string>) returns (r: seq<string>)
    ensures listed.Some? ==> r == listed.value
    ensures listed.None? ==> Distinct(r)
    ensures listed.None? ==> forall x :: x in r <==> x in extracted
  {
    if listed.Some? {
      return listed.value;
    }
    var pending := set x | x in extracted;
    r := [];
    while pending != {}
      invariant Distinct(r)
      invariant forall x :: x in extracted <==> x in pending || x in r
      invariant forall x :: x in r ==> x !in pending
      decreases |pending|
    {
      HasMember(pending);
      var x :| x in pending;
      r := r + [x];
      pending := pending - {x};
    }
  }

  /** `_generate_technical_questions`: one question per required skill, in
      skill order, each tagged with its skill. */
  method TechnicalQuestions(skills: seq<string>) returns (qs: seq<Question>)
    ensures |qs| == |skills|
    ensures forall i :: 0 <= i < |qs| ==>
      qs[i].kind == Technical && SkillTag(qs[i]) == Some(skills[i])
    ensures forall i :: 0 <= i < |qs| ==>
      qs[i].template < TechnicalTemplateCount && qs[i].answer < AnswerTemplateCount
  {
    qs := [];
    for i := 0 to |skills|
      invariant |qs| == i
      invariant forall k :: 0 <= k < i ==> qs[k].kind == Technical && qs[k].subject == skills[k]
      invariant forall k :: 0 <= k < i ==>
        qs[k].template < TechnicalTemplateCount && qs[k].answer < AnswerTemplateCount
    {
      var template :| 0 <= template < TechnicalTemplateCount;
      var answer :| 0 <= answer < AnswerTemplateCount;
      qs := qs + [Question(Technical, template, answer, skills[i])];
    }
  }

  /** The behavioral, company and role generators: `wanted` templates
      sampled without repetition (at most as many as there are), each with
      a random answer template and the same substituted value. */
  method SampledQuestions(kind: QuestionType, templateCount: nat, wanted: nat, subject: string)
    returns (qs: seq<Question>)
    ensures |qs| == Min(wanted, templateCount)
    ensures forall i :: 0 <= i < |qs| ==> qs[i].kind == kind && qs[i].subject == subject
    ensures forall i :: 0 <= i < |qs| ==>
      qs[i].template < templateCount && qs[i].answer < AnswerTemplateCount
    ensures forall i, j :: 0 <= i < j < |qs| ==> qs[i].template != qs[j].template
  {
    var picks := Sample(templateCount, Min(wanted, templateCount));
    qs := [];
    for i := 0 to |picks|
      invariant |qs| == i
      invariant forall k :: 0 <= k < i ==>
        qs[k] == Question(kind, picks[k], qs[k].answer, subject) && qs[k].answer < AnswerTemplateCount
    {
      var answer :| 0 <= answer < AnswerTemplateCount;
      qs := qs + [Question(kind, picks[i], answer, subject)];
    }
  }

  /** The value a question of each type carries. */
  predicate FromListing(q: Question, listing: JobListing, required: seq<string>)
  {
    match q.kind
    case Technical => q.subject in required
    case Behavioral => q.subject == []
    case CompanyQuestion => q.subject == listing.company
    case RoleQuestion => q.subject == listing.title
  }

  /** The question list before it is shuffled: the technical questions in
      skill order, then 5 behavioral, 2 company and 3 role questions, each
      block with pairwise distinct templates. */
  ghost predicate QuestionPool(pool: seq<Question>, listing: JobListing, required: seq<string>)
  {
    var n := |required|;
    |pool| == n + 10
    && (forall i :: 0 <= i < n ==> pool[i].kind == Technical && pool[i].subject == required[i])
    && (forall i :: n <= i < n + 5 ==> pool[i].kind == Behavioral && pool[i].subject == [])
    && (forall i :: n + 5 <= i < n + 7 ==> pool[i].kind == CompanyQuestion && pool[i].subject == listing.company)
    && (forall i :: n + 7 <= i < n + 10 ==> pool[i].kind == RoleQuestion && pool[i].subject == listing.title)
    && (forall i, j :: n <= i < j < n + 10 && pool[i].kind == pool[j].kind ==> pool[i].template != pool[j].template)
  }

  /** The four generated blocks, concatenated, form the question pool. */
  lemma PoolOfBlocks(t: seq<Question>, b: seq<Question>, c: seq<Question>, r: seq<Question>,
                     listing: JobListing, required: seq<string>)
    requires |t| == |required| && forall i :: 0 <= i < |t| ==> t[i].kind == Technical && t[i].subject == required[i]
    requires |b| == 5 && forall i :: 0 <= i < |b| ==> b[i].kind == Behavioral && b[i].subject == []
    requires |c| == 2 && forall i :: 0 <= i < |c| ==> c[i].kind == CompanyQuestion && c[i].subject == listing.company
    requires |r| == 3 && forall i :: 0 <= i < |r| ==> r[i].kind == RoleQuestion && r[i].subject == listing.title
    requires forall i, j :: 0 <= i < j < |b| ==> b[i].template != b[j].template
    requires forall i, j :: 0 <= i < j < |c| ==> c[i].template != c[j].template
    requires forall i, j :: 0 <= i < j < |r| ==> r[i].template != r[j].template
    ensures QuestionPool(t + b + c + r, listing, required)
  {
    var pool := t + b + c + r;
    var n := |required|;
    assert forall i :: 0 <= i < n ==> pool[i] == t[i];
    assert forall i :: n <= i < n + 5 ==> pool[i] == b[i - n];
    assert forall i :: n + 5 <= i < n + 7 ==> pool[i] == c[i - n - 5];
    assert forall i :: n + 7 <= i < n + 10 ==> pool[i] == r[i - n - 7];
  }

  /** Every question of the pool carries the value of its type. */
  lemma PoolFromListing(pool: seq<Question>, listing: JobListing, required: seq<string>)
    requires QuestionPool(pool, listing, required)
    ensures forall i :: 0 <= i < |pool| ==> FromListing(pool[i], listing, required)
  {
    forall i | 0 <= i < |pool|
      ensures FromListing(pool[i], listing, required)
    {
      if i < |required| {
        assert pool[i].subject == required[i];
      }
    }
  }

  /** Cutting a shuffle of the pool keeps only pool questions, and keeps
      all of them when the count reaches the pool's size. */
  lemma CutOfShuffle(pool: seq<Question>, shuffled: seq<Question>, count: int,
                     listing: JobListing, required: seq<string>)
    requires multiset(shuffled) == multiset(pool)
    requires forall i :: 0 <= i < |pool| ==> FromListing(pool[i], listing, required)
    ensures multiset(SlicePrefix(shuffled, count)) <= multiset(pool)
    ensures count >= |pool| ==> multiset(SlicePrefix(shuffled, count)) == multiset(pool)
    ensures forall i :: 0 <= i < |SlicePrefix(shuffled, count)| ==>
              FromListing(SlicePrefix(shuffled, count)[i], listing, required)
  {
    var q := SlicePrefix(shuffled, count);
    assert |shuffled| == |pool| by {
      assert |multiset(shuffled)| == |multiset(pool)|;
    }
    assert shuffled == q + shuffled[|q|..];
    assert count >= |pool| ==> q == shuffled;
    forall i | 0 <= i < |q|
      ensures FromListing(q[i], listing, required)
    {
      assert q[i] in multiset(shuffled);
      var k :| 0 <= k < |pool| && pool[k] == q[i];
    }
  }

  /** `generate_interview_questions`: one technical question per required
      skill plus 5 behavioral, 2 company and 3 role questions, shuffled and
      cut to `count` (Python slicing: a negative count drops that many from
      the end). `required` is the skill list the technical questions were
      made from, and `pool` the list before the shuffle. */
  method GenerateInterviewQuestions(listing: JobListing, count: int)
    returns (required: seq<string>, questions: seq<Question>, ghost pool: seq<Question>)
    ensures listing.skills.Some? ==> required == listing.skills.value
    ensures listing.skills.None? ==> Distinct(required)
    ensures listing.skills.None? ==> forall x :: x in required <==> x in listing.extracted
    ensures QuestionPool(pool, listing, required)
    ensures multiset(questions) <= multiset(pool)
    ensures count >= |pool| ==> multiset(questions) == multiset(pool)
    ensures count >= 0 ==> |questions| == Min(count, |required| + 5 + 2 + 3)
    ensures count < 0 ==> |questions| == (if |required| + 10 + count < 0 then 0 else |required| + 10 + count)
    ensures forall i :: 0 <= i < |questions| ==> FromListing(questions[i], listing, required)
  {
    required := ExtractRequiredSkills(listing.skills, listing.extracted);
    var technical := TechnicalQuestions(required);
    var behavioral := SampledQuestions(Behavioral, BehavioralTemplateCount, 5, []);
    var company := SampledQuestions(CompanyQuestion, CompanyTemplateCount, 2, listing.company);
    var role := SampledQuestions(RoleQuestion, RoleTemplateCount, 3, listing.title);
    var all := technical + behavioral + company + role;
    pool := all;
    PoolOfBlocks(technical, behavioral, company, role, listing, required);
    PoolFromListing(pool, listing, required);
    var shuffled := Shuffle(all);
    CutOfShuffle(pool, shuffled, count, listing, required);
    questions := SlicePrefix(shuffled, count);
  }

  // ------------------------------------------------ strengths, weaknesses

  /** A user skill and a required skill are related when either contains
      the other, ignoring case. */
  predicate Related(skill: string, required: string)
  {
    ContainsIgnoreCase(required, skill) || ContainsIgnoreCase(skill, required)
  }

  function RelatedToSome(required: seq<string>): string -> bool
  {
    skill => exists k :: 0 <= k < |required| && Related(skill, required[k])
  }

  function Unmatched(userSkills: seq<string>): string -> bool
  {
    req => forall k :: 0 <= k < |userSkills| ==> !Related(userSkills[k], req)
  }

  /** The user skills related to some required skill, in profile order. */
  function Strengths(userSkills: seq<string>, required: seq<string>): seq<string>
  {
    Filter(userSkills, RelatedToSome(required))
  }

  /** The required skills no user skill is related to, in required order. */
  function Weaknesses(userSkills: seq<string>, required: seq<string>): seq<string>
  {
    Filter(required, Unmatched(userSkills))
  }

  lemma StrengthsMembers(userSkills: seq<string>, required: seq<string>)
    ensures forall s :: s in Strengths(userSkills, required) <==>
      s in userSkills && exists k :: 0 <= k < |required| && Related(s, required[k])
  {
    FilterMembers(userSkills, RelatedToSome(required));
  }

  lemma WeaknessesMembers(userSkills: seq<string>, required: seq<string>)
    ensures forall r :: r in Weaknesses(userSkills, required) <==>
      r in required && forall k :: 0 <= k < |userSkills| ==> !Related(userSkills[k], r)
  {
    FilterMembers(required, Unmatched(userSkills));
  }

  /** The two lists are complementary: a required skill is a weakness
      exactly when no strength is related to it. */
  lemma WeaknessIffNoStrength(userSkills: seq<string>, required: seq<string>, r: string)
    requires r in required
    ensures r in Weaknesses(userSkills, required) <==>
      forall s :: s in Strengths(userSkills, required) ==> !Related(s, r)
  {
    StrengthsMembers(userSkills, required);
    WeaknessesMembers(userSkills, required);
    if r !in Weaknesses(userSkills, required) {
      var k :| 0 <= k < |userSkills| && Related(userSkills[k], r);
      var j :| 0 <= j < |required| && required[j] == r;
      assert userSkills[k] in Strengths(userSkills, required);
    }
  }

  /** The strengths loop (`for skill in user_skills: for req_skill in ...`). */
  method FindStrengths(userSkills: seq<string>, required: seq<string>) returns (strengths: seq<string>)
    ensures strengths == Strengths(userSkills, required)
  {
    strengths := [];
    for i := 0 to |userSkills|
      invariant strengths == Filter(userSkills[..i], RelatedToSome(required))
    {
      var skill := userSkills[i];
      FilterPrefixStep(userSkills, i, RelatedToSome(required));
      var related := RelatedToAny(skill, required);
      if related {
        strengths := strengths + [skill];
      }
    }
    assert userSkills[..|userSkills|] == userSkills;
  }

  /** The inner loop of the strengths search: stops at the first required
      skill related to `skill`. */
  method RelatedToAny(skill: string, required: seq<string>) returns (found: bool)
    ensures found == RelatedToSome(required)(skill)
  {
    found := false;
    var j := 0;
    while j < |required|
      invariant 0 <= j <= |required|
      invariant forall k :: 0 <= k < j ==> !Related(skill, required[k])
    {
      if Related(skill, required[j]) {
        found := true;
        return;
      }
      j := j + 1;
    }
  }

  /** The weaknesses loop, with its `is_missing` flag. */
  method FindWeaknesses(userSkills: seq<string>, required: seq<string>) returns (weaknesses: seq<string>)
    ensures weaknesses == Weaknesses(userSkills, required)
  {
    weaknesses := [];
    for i := 0 to |required|
      invariant weaknesses == Filter(required[..i], Unmatched(userSkills))
    {
      var req := required[i];
      FilterPrefixStep(required, i, Unmatched(userSkills));
      var isMissing := IsMissing(userSkills, req);
      if isMissing {
        weaknesses := weaknesses + [req];
      }
    }
    assert required[..|required|] == required;
  }

  /** The inner loop of the weaknesses search: `is_missing` stays true
      until some user skill is related to `req`. */
  method IsMissing(userSkills: seq<string>, req: string) returns (isMissing: bool)
    ensures isMissing == Unmatched(userSkills)(req)
  {
    isMissing := true;
    var j := 0;
    while j < |userSkills|
      invariant 0 <= j <= |userSkills|
      invariant isMissing ==> forall k :: 0 <= k < j ==> !Related(userSkills[k], req)
      invariant !isMissing ==> !Unmatched(userSkills)(req)
    {
      if Related(userSkills[j], req) {
        isMissing := false;
        break;
      }
      j := j + 1;
    }
  }

  // ----------------------------------------------------------------- tips

  /** A personalised tip: which sentence it is, and the skill it names
      ("Highlight your experience with ...", "Acknowledge limited
      experience with ..."), or the position of a generic sentence in the
      list of five generic strength or weakness tips. */
  datatype Tip =
    | Highlight(strength: string)
    | AcknowledgeGap(weakness: string)
    | GeneralStrength(index: nat)
    | GeneralWeakness(index: nat)

  datatype PersonalTips = PersonalTips(strengths: seq<Tip>, weaknesses: seq<Tip>)

  /** A user profile: `skills` holds the "name" of each entry of its
      "skills" list (None when an entry has no name), or None when the
      profile has no "skills" key; `otherKeys` are its remaining keys. */
  datatype UserProfile = UserProfile(otherKeys: set<string>, skills: Option<seq<Option<string>>>)

  /** Python truthiness of the profile dictionary. */
  predicate Truthy(p: UserProfile)
  {
    p.otherKeys != {} || p.skills.Some?
  }

  function NameOrEmpty(name: Option<string>): string
  {
    if name.Some? then name.value else []
  }

  function Names(entries: seq<Option<string>>): seq<string>
  {
    seq(|entries|, i requires 0 <= i < |entries| => NameOrEmpty(entries[i]))
  }

  /** The non-empty skill names of a profile, in order. */
  function UserSkills(p: UserProfile): seq<string>
  {
    if p.skills.Some? then NonEmpty(Names(p.skills.value)) else []
  }

  /** Up to three strengths each get their own tip; generic tips make up
      the rest of exactly three. */
  predicate StrengthTipsFor(tips: seq<Tip>, strengths: seq<string>)
  {
    |tips| == 3
    && (forall i :: 0 <= i < 3 && i < |strengths| ==> tips[i] == Highlight(strengths[i]))
    && (forall i :: |strengths| <= i < 3 ==> tips[i] == GeneralStrength(i - |strengths|))
  }

  /** Up to two weaknesses each get their own tip, followed by generic tips
      up to exactly three. */
  predicate WeaknessTipsFor(tips: seq<Tip>, weaknesses: seq<string>)
  {
    var named := Min(2, |weaknesses|);
    |tips| == 3
    && (forall i :: 0 <= i < named ==> tips[i] == AcknowledgeGap(weaknesses[i]))
    && (forall i :: named <= i < 3 ==> tips[i] == GeneralWeakness(i - named))
  }

  /** The five generic strength sentences and the five generic weakness
      sentences, in their listed order. */
  const GeneralStrengths: seq<Tip> :=
    [GeneralStrength(0), GeneralStrength(1), GeneralStrength(2), GeneralStrength(3), GeneralStrength(4)]
  const GeneralWeaknesses: seq<Tip> :=
    [GeneralWeakness(0), GeneralWeakness(1), GeneralWeakness(2), GeneralWeakness(3), GeneralWeakness(4)]

  /** The strength-tip block: a tip per strength among the first three,
      then generic tips when fewer than three were made. */
  method StrengthTips(strengths: seq<string>) returns (tips: seq<Tip>)
    ensures StrengthTipsFor(tips, strengths)
  {
    tips := [];
    var top := Take(strengths, 3);
    for i := 0 to |top|
      invariant |tips| == i
      invariant forall k :: 0 <= k < i ==> tips[k] == Highlight(strengths[k])
    {
      tips := tips + [Highlight(top[i])];
    }
    if |tips| < 3 {
      tips := tips + GeneralStrengths[..3 - |tips|];
    }
  }

  /** The weakness-tip block: a tip per weakness among the first two, then
      generic tips up to three. */
  method WeaknessTips(weaknesses: seq<string>) returns (tips: seq<Tip>)
    ensures WeaknessTipsFor(tips, weaknesses)
  {
    tips := [];
    var first := Take(weaknesses, 2);
    for i := 0 to |first|
      invariant |tips| == i
      invariant forall k :: 0 <= k < i ==> tips[k] == AcknowledgeGap(weaknesses[k])
    {
      tips := tips + [AcknowledgeGap(first[i])];
    }
    tips := tips + GeneralWeaknesses[..3 - |tips|];
  }

  /** `_generate_strength_weakness_tips` for the required-skill list. */
  method StrengthWeaknessTips(profile: UserProfile, required: seq<string>) returns (tips: PersonalTips)
    ensures StrengthTipsFor(tips.strengths, Strengths(UserSkills(profile), required))
    ensures WeaknessTipsFor(tips.weaknesses, Weaknesses(UserSkills(profile), required))
  {
    var userSkills := UserSkills(profile);
    var strengths := FindStrengths(userSkills, required);
    var weaknesses := FindWeaknesses(userSkills, required);
    var strengthTips := StrengthTips(strengths);
    var weaknessTips := WeaknessTips(weaknesses);
    tips := PersonalTips(strengthTips, weaknessTips);
  }

  /** A fixed preparation sentence: its position in the research (7),
      presentation (10) or interviewer-question (10) list, with the company
      or job title it is formatted with. */
  datatype Sentence =
    | Research(index: nat, company: string)
    | Presentation(index: nat)
    | AskInterviewer(index: nat, jobTitle: string)

  /** One entry of the preparation-tips dictionary. */
  datatype TipGroup = Lines(lines: seq<Sentence>) | Personal(personal: PersonalTips)

  function ResearchTips(company: string): (r: seq<Sentence>)
    ensures |r| == 7
  {
    seq(7, i requires 0 <= i => Research(i, company))
  }

  function PresentationTips(): (r: seq<Sentence>)
    ensures |r| == 10
  {
    seq(10, i requires 0 <= i => Presentation(i))
  }

  function QuestionTips(jobTitle: string): (r: seq<Sentence>)
    ensures |r| == 10
  {
    seq(10, i requires 0 <= i => AskInterviewer(i, jobTitle))
  }

  /** The keys of the preparation-tips dictionary ("research_tips",
      "presentation_tips", "question_tips", "strength_weakness_tips"). */
  datatype TipKey = ResearchKey | PresentationKey | QuestionKey | StrengthWeaknessKey

  /** `generate_preparation_tips`: research, presentation and question tips
      always; personalised tips exactly when a non-empty profile is given
      (the personalised dictionary always has two keys, so it is never
      dropped as empty). `required` is the skill list the personalised
      tips were computed against. */
  method GeneratePreparationTips(listing: JobListing, profile: Option<UserProfile>)
    returns (tips: map<TipKey, TipGroup>, ghost required: seq<string>)
    ensures ResearchKey in tips && PresentationKey in tips && QuestionKey in tips
    ensures tips[ResearchKey] == Lines(ResearchTips(listing.company))
    ensures tips[PresentationKey] == Lines(PresentationTips())
    ensures tips[QuestionKey] == Lines(QuestionTips(listing.title))
    ensures StrengthWeaknessKey in tips <==> profile.Some? && Truthy(profile.value)
    ensures StrengthWeaknessKey in tips ==>
      tips[StrengthWeaknessKey].Personal?
      && |tips[StrengthWeaknessKey].personal.strengths| == 3
      && |tips[StrengthWeaknessKey].personal.weaknesses| == 3
    ensures StrengthWeaknessKey in tips ==>
      (listing.skills.Some? ==> required == listing.skills.value)
      && (listing.skills.None? ==> Distinct(required) && forall x :: x in required <==> x in listing.extracted)
    ensures StrengthWeaknessKey in tips ==>
      StrengthTipsFor(tips[StrengthWeaknessKey].personal.strengths, Strengths(UserSkills(profile.value), required))
      && WeaknessTipsFor(tips[StrengthWeaknessKey].personal.weaknesses, Weaknesses(UserSkills(profile.value), required))
  {
    required := [];
    var personal: Option<PersonalTips> := None;
    if profile.Some? && Truthy(profile.value) {
      var skills := ExtractRequiredSkills(listing.skills, listing.extracted);
      required := skills;
      var p := StrengthWeaknessTips(profile.value, skills);
      personal := Some(p);
    }
    tips := map[
      ResearchKey := Lines(ResearchTips(listing.company)),
      PresentationKey := Lines(PresentationTips()),
      QuestionKey := Lines(QuestionTips(listing.title))];
    if personal.Some? {
      tips := tips[StrengthWeaknessKey := Personal(personal.value)];
    }
  }
}
