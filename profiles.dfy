/** ProfileService: the current profile and the Add / Update / Remove
    operations on a profile's Skills, WorkExperiences and Education lists,
    which change the fetched profile object in place. */
module Profiles {
  import opened Wrappers
  import opened Entities

  // ------------------------------------------------------- list helpers

  /** FirstOrDefault(x => id(x) == target), as a position. */
  function FirstIndexOf<T>(s: seq<T>, id: T -> int, target: int): (r: Option<nat>)
    ensures r.Some? ==> r.value < |s| && id(s[r.value]) == target
                        && forall i :: 0 <= i < r.value ==> id(s[i]) != target
    ensures r.None? <==> forall i :: 0 <= i < |s| ==> id(s[i]) != target
  {
    if s == [] then None
    else if id(s[0]) == target then Some(0)
    else match FirstIndexOf(s[1..], id, target)
         case None => None
         case Some(k) => Some(k + 1)
  }

  /** List.Remove of the element at position `i`: the rest keep their order. */
  function RemoveAt<T>(s: seq<T>, i: nat): (r: seq<T>)
    requires i < |s|
    ensures |r| == |s| - 1
    ensures multiset(r) + multiset{s[i]} == multiset(s)
    ensures forall j :: 0 <= j < i ==> r[j] == s[j]
    ensures forall j :: i <= j < |r| ==> r[j] == s[j + 1]
  {
    assert s == s[..i] + [s[i]] + s[i + 1..];
    s[..i] + s[i + 1..]
  }

  function SkillId(s: Skill): int { s.id }
  function WorkExperienceId(w: WorkExperience): int { w.id }
  function EducationId(e: Education): int { e.id }

  /** The fields UpdateSkillAsync copies: Name, Level and Category. */
  function CopySkill(existing: Skill, from: Skill): (r: Skill)
    ensures r.id == existing.id && r.userProfileId == existing.userProfileId
    ensures r.name == from.name && r.level == from.level && r.category == from.category
  {
    existing.(name := from.name, level := from.level, category := from.category)
  }

  /** The fields UpdateWorkExperienceAsync copies: Company, Title,
      StartDate, EndDate, Description and Location. */
  function CopyWorkExperience(existing: WorkExperience, from: WorkExperience): (r: WorkExperience)
    ensures r.id == existing.id && r.userProfileId == existing.userProfileId
    ensures r.company == from.company && r.title == from.title && r.startDate == from.startDate
    ensures r.endDate == from.endDate && r.description == from.description && r.location == from.location
  {
    existing.(company := from.company, title := from.title, startDate := from.startDate,
              endDate := from.endDate, description := from.description, location := from.location)
  }

  /** The fields UpdateEducationAsync copies: Institution, Degree,
      FieldOfStudy, StartDate, EndDate and Description. */
  function CopyEducation(existing: Education, from: Education): (r: Education)
    ensures r.id == existing.id && r.userProfileId == existing.userProfileId
    ensures r.institution == from.institution && r.degree == from.degree
    ensures r.fieldOfStudy == from.fieldOfStudy && r.startDate == from.startDate
    ensures r.endDate == from.endDate && r.description == from.description
  {
    existing.(institution := from.institution, degree := from.degree, fieldOfStudy := from.fieldOfStudy,
              startDate := from.startDate, endDate := from.endDate, description := from.description)
  }

  /** Removing the first match takes out exactly one element with that id
      and keeps every element with another id. */
  lemma RemoveFirstMatch<T>(s: seq<T>, id: T -> int, target: int)
    requires FirstIndexOf(s, id, target).Some?
    ensures var k := FirstIndexOf(s, id, target).value;
            var r := RemoveAt(s, k);
            && |r| == |s| - 1
            && (forall x :: x in multiset(s) && id(x) != target ==> multiset(r)[x] == multiset(s)[x])
            && multiset(r)[s[k]] == multiset(s)[s[k]] - 1
  {
  }

  // ------------------------------------------------------- the profile

  class UserProfile {
    var id: int
    var firstName: string
    var lastName: string
    var email: string
    var skills: seq<Skill>
    var workExperiences: seq<WorkExperience>
    var education: seq<Education>

    /** `new UserProfile { FirstName = .., LastName = .., Email = .. }` */
    constructor (firstName: string, lastName: string, email: string)
      ensures this.id == 0 && this.firstName == firstName && this.lastName == lastName
      ensures this.email == email
      ensures skills == [] && workExperiences == [] && education == []
    {
      this.id := 0;
      this.firstName := firstName;
      this.lastName := lastName;
      this.email := email;
      skills := [];
      workExperiences := [];
      education := [];
    }
  }

  /** The only failure of these operations: the profile lookup found nothing
      and the code dereferences null. */
  datatype ServiceError = NullReference

  /** GetCurrentUserProfileAsync: the first stored profile, or an unsaved
      default profile when there is none. */
  method CurrentUserProfile(profiles: seq<UserProfile>) returns (p: UserProfile)
    ensures profiles != [] ==> p == profiles[0]
    ensures profiles == [] ==> fresh(p) && p.firstName == "Default" && p.lastName == "User"
                               && p.email == "default@example.com" && p.id == 0
                               && p.skills == [] && p.workExperiences == [] && p.education == []
  {
    if profiles != [] {
      p := profiles[0];
    } else {
      p := new UserProfile("Default", "User", "default@example.com");
    }
  }

  // ------------------------------------------------------- skills

  /** AddSkillAsync: the skill, now owned by `userProfileId`, is appended. */
  method AddSkill(profile: UserProfile?, userProfileId: int, skill: Skill) returns (r: Result<Skill, ServiceError>)
    modifies profile
    ensures profile == null ==> r == Err(NullReference)
    ensures profile != null ==>
              profile.id == old(profile.id) && profile.firstName == old(profile.firstName)
              && profile.lastName == old(profile.lastName) && profile.email == old(profile.email)
    ensures profile != null ==>
              r == Ok(skill.(userProfileId := userProfileId))
              && profile.skills == old(profile.skills) + [r.value]
              && profile.workExperiences == old(profile.workExperiences)
              && profile.education == old(profile.education)
  {
    var owned := skill.(userProfileId := userProfileId);
    if profile == null {
      return Err(NullReference);
    }
    profile.skills := profile.skills + [owned];
    r := Ok(owned);
  }

  /** UpdateSkillAsync: the first skill with the same Id takes the new Name,
      Level and Category; without a match the list stays as it was. The
      argument is returned. */
  method UpdateSkill(profile: UserProfile?, skill: Skill) returns (r: Result<Skill, ServiceError>)
    modifies profile
    ensures profile == null ==> r == Err(NullReference)
    ensures profile != null ==>
              profile.id == old(profile.id) && profile.firstName == old(profile.firstName)
              && profile.lastName == old(profile.lastName) && profile.email == old(profile.email)
    ensures profile != null ==>
              r == Ok(skill)
              && profile.workExperiences == old(profile.workExperiences)
              && profile.education == old(profile.education)
              && match FirstIndexOf(old(profile.skills), SkillId, skill.id)
                 case None => profile.skills == old(profile.skills)
                 case Some(k) => profile.skills == old(profile.skills)[k := CopySkill(old(profile.skills)[k], skill)]
  {
    if profile == null {
      return Err(NullReference);
    }
    var found := FirstIndexOf(profile.skills, SkillId, skill.id);
    if found.Some? {
      var k := found.value;
      profile.skills := profile.skills[k := CopySkill(profile.skills[k], skill)];
    }
    r := Ok(skill);
  }

  /** RemoveSkillAsync: true iff a skill with that Id is present, and then
      exactly the first such skill is removed. */
  method RemoveSkill(profile: UserProfile?, skillId: int) returns (r: Result<bool, ServiceError>)
    modifies profile
    ensures profile == null ==> r == Err(NullReference)
    ensures profile != null ==>
              profile.id == old(profile.id) && profile.firstName == old(profile.firstName)
              && profile.lastName == old(profile.lastName) && profile.email == old(profile.email)
    ensures profile != null ==>
              r.Ok?
              && (r.value <==> exists i :: 0 <= i < |old(profile.skills)| && old(profile.skills)[i].id == skillId)
              && profile.workExperiences == old(profile.workExperiences)
              && profile.education == old(profile.education)
              && match FirstIndexOf(old(profile.skills), SkillId, skillId)
                 case None => profile.skills == old(profile.skills)
                 case Some(k) => profile.skills == RemoveAt(old(profile.skills), k)
  {
    if profile == null {
      return Err(NullReference);
    }
    var found := FirstIndexOf(profile.skills, SkillId, skillId);
    if found.Some? {
      profile.skills := RemoveAt(profile.skills, found.value);
      r := Ok(true);
    } else {
      r := Ok(false);
    }
  }

  // ------------------------------------------------------- work experience

  method AddWorkExperience(profile: UserProfile?, userProfileId: int, w: WorkExperience)
    returns (r: Result<WorkExperience, ServiceError>)
    modifies profile
    ensures profile == null ==> r == Err(NullReference)
    ensures profile != null ==>
              profile.id == old(profile.id) && profile.firstName == old(profile.firstName)
              && profile.lastName == old(profile.lastName) && profile.email == old(profile.email)
    ensures profile != null ==>
              r == Ok(w.(userProfileId := userProfileId))
              && profile.workExperiences == old(profile.workExperiences) + [r.value]
              && profile.skills == old(profile.skills)
              && profile.education == old(profile.education)
  {
    var owned := w.(userProfileId := userProfileId);
    if profile == null {
      return Err(NullReference);
    }
    profile.workExperiences := profile.workExperiences + [owned];
    r := Ok(owned);
  }

  method UpdateWorkExperience(profile: UserProfile?, w: WorkExperience) returns (r: Result<WorkExperience, ServiceError>)
    modifies profile
    ensures profile == null ==> r == Err(NullReference)
    ensures profile != null ==>
              profile.id == old(profile.id) && profile.firstName == old(profile.firstName)
              && profile.lastName == old(profile.lastName) && profile.email == old(profile.email)
    ensures profile != null ==>
              r == Ok(w)
              && profile.skills == old(profile.skills)
              && profile.education == old(profile.education)
              && match FirstIndexOf(old(profile.workExperiences), WorkExperienceId, w.id)
                 case None => profile.workExperiences == old(profile.workExperiences)
                 case Some(k) => profile.workExperiences
                                 == old(profile.workExperiences)[k := CopyWorkExperience(old(profile.workExperiences)[k], w)]
  {
    if profile == null {
      return Err(NullReference);
    }
    var found := FirstIndexOf(profile.workExperiences, WorkExperienceId, w.id);
    if found.Some? {
      var k := found.value;
      profile.workExperiences := profile.workExperiences[k := CopyWorkExperience(profile.workExperiences[k], w)];
    }
    r := Ok(w);
  }

  method RemoveWorkExperience(profile: UserProfile?, workExperienceId: int) returns (r: Result<bool, ServiceError>)
    modifies profile
    ensures profile == null ==> r == Err(NullReference)
    ensures profile != null ==>
              profile.id == old(profile.id) && profile.firstName == old(profile.firstName)
              && profile.lastName == old(profile.lastName) && profile.email == old(profile.email)
    ensures profile != null ==>
              r.Ok?
              && (r.value <==> exists i :: 0 <= i < |old(profile.workExperiences)|
                                           && old(profile.workExperiences)[i].id == workExperienceId)
              && profile.skills == old(profile.skills)
              && profile.education == old(profile.education)
              && match FirstIndexOf(old(profile.workExperiences), WorkExperienceId, workExperienceId)
                 case None => profile.workExperiences == old(profile.workExperiences)
                 case Some(k) => profile.workExperiences == RemoveAt(old(profile.workExperiences), k)
  {
    if profile == null {
      return Err(NullReference);
    }
    var found := FirstIndexOf(profile.workExperiences, WorkExperienceId, workExperienceId);
    if found.Some? {
      profile.workExperiences := RemoveAt(profile.workExperiences, found.value);
      r := Ok(true);
    } else {
      r := Ok(false);
    }
  }

  // ------------------------------------------------------- education

  method AddEducation(profile: UserProfile?, userProfileId: int, e: Education) returns (r: Result<Education, ServiceError>)
    modifies profile
    ensures profile == null ==> r == Err(NullReference)
    ensures profile != null ==>
              profile.id == old(profile.id) && profile.firstName == old(profile.firstName)
              && profile.lastName == old(profile.lastName) && profile.email == old(profile.email)
    ensures profile != null ==>
              r == Ok(e.(userProfileId := userProfileId))
              && profile.education == old(profile.education) + [r.value]
              && profile.skills == old(profile.skills)
              && profile.workExperiences == old(profile.workExperiences)
  {
    var owned := e.(userProfileId := userProfileId);
    if profile == null {
      return Err(NullReference);
    }
    profile.education := profile.education + [owned];
    r := Ok(owned);
  }

  method UpdateEducation(profile: UserProfile?, e: Education) returns (r: Result<Education, ServiceError>)
    modifies profile
    ensures profile == null ==> r == Err(NullReference)
    ensures profile != null ==>
              profile.id == old(profile.id) && profile.firstName == old(profile.firstName)
              && profile.lastName == old(profile.lastName) && profile.email == old(profile.email)
    ensures profile != null ==>
              r == Ok(e)
              && profile.skills == old(profile.skills)
              && profile.workExperiences == old(profile.workExperiences)
              && match FirstIndexOf(old(profile.education), EducationId, e.id)
                 case None => profile.education == old(profile.education)
                 case Some(k) => profile.education == old(profile.education)[k := CopyEducation(old(profile.education)[k], e)]
  {
    if profile == null {
      return Err(NullReference);
    }
    var found := FirstIndexOf(profile.education, EducationId, e.id);
    if found.Some? {
      var k := found.value;
      profile.education := profile.education[k := CopyEducation(profile.education[k], e)];
    }
    r := Ok(e);
  }

  method RemoveEducation(profile: UserProfile?, educationId: int) returns (r: Result<bool, ServiceError>)
    modifies profile
    ensures profile == null ==> r == Err(NullReference)
    ensures profile != null ==>
              profile.id == old(profile.id) && profile.firstName == old(profile.firstName)
              && profile.lastName == old(profile.lastName) && profile.email == old(profile.email)
    ensures profile != null ==>
              r.Ok?
              && (r.value <==> exists i :: 0 <= i < |old(profile.education)| && old(profile.education)[i].id == educationId)
              && profile.skills == old(profile.skills)
              && profile.workExperiences == old(profile.workExperiences)
              && match FirstIndexOf(old(profile.education), EducationId, educationId)
                 case None => profile.education == old(profile.education)
                 case Some(k) => profile.education == RemoveAt(old(profile.education), k)
  {
    if profile == null {
      return Err(NullReference);
    }
    var found := FirstIndexOf(profile.education, EducationId, educationId);
    if found.Some? {
      profile.education := RemoveAt(profile.education, found.value);
      r := Ok(true);
    } else {
      r := Ok(false);
    }
  }

  // ------------------------------------------------------- repository lookup

  /** The position of the first profile with exactly this Email. */
  function EmailIndex(profiles: seq<UserProfile>, email: string): (r: Option<nat>)
    reads profiles
    ensures r.Some? ==> r.value < |profiles| && profiles[r.value].email == email
                        && forall j :: 0 <= j < r.value ==> profiles[j].email != email
    ensures r.None? <==> forall i :: 0 <= i < |profiles| ==> profiles[i].email != email
  {
    if profiles == [] then None
    else if profiles[0].email == email then Some(0)
    else match EmailIndex(profiles[1..], email)
         case None => None
         case Some(k) => Some(k + 1)
  }

  /** UserProfileRepository.GetByEmailAsync: the first profile whose Email
      equals the argument exactly, or null. */
  function ByEmail(profiles: seq<UserProfile>, email: string): (r: UserProfile?)
    reads profiles
    ensures r != null ==> r.email == email
                          && exists i :: 0 <= i < |profiles| && profiles[i] == r
                                         && forall j :: 0 <= j < i ==> profiles[j].email != email
    ensures r == null <==> forall i :: 0 <= i < |profiles| ==> profiles[i].email != email
  {
    match EmailIndex(profiles, email)
    case None => null
    case Some(i) => profiles[i]
  }
}
