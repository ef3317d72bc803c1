/** The records the services read and write, with the field names the
    service code uses. Dates are whole numbers on one time line (larger is
    later); a nullable date is an Option. */
module Entities {
  import opened Wrappers

  datatype Listing = Listing(
    id: int,
    title: string,
    company: string,
    location: string,
    description: string,
    postedDate: Option<nat>)

  /** Sort key for OrderByDescending(j => j.PostedDate): a missing date
      compares below every present one, so it sorts last. */
  function PostedKey(j: Listing): (k: int)
    ensures j.postedDate.None? ==> k < 0
    ensures j.postedDate.Some? ==> k == j.postedDate.value
  {
    match j.postedDate
    case None => -1
    case Some(d) => d
  }

  function ListingId(j: Listing): int { j.id }

  /** A row of the Skills table: it belongs to the profile `userProfileId`. */
  datatype Skill = Skill(
    id: int,
    userProfileId: int,
    name: string,
    level: int,
    category: string)

  datatype WorkExperience = WorkExperience(
    id: int,
    userProfileId: int,
    company: string,
    title: string,
    startDate: int,
    endDate: Option<int>,
    description: string,
    location: string)

  datatype Education = Education(
    id: int,
    userProfileId: int,
    institution: string,
    degree: string,
    fieldOfStudy: string,
    startDate: Option<int>,
    endDate: Option<int>,
    description: string)

  /** An application record; Status is an open string and Notes a nullable
      text log. */
  datatype Application = Application(
    id: int,
    userProfileId: int,
    jobListingId: int,
    applicationDate: int,
    status: string,
    coverLetter: Option<string>,
    notes: Option<string>,
    lastUpdated: int)

  function ApplicationDateKey(a: Application): int { a.applicationDate }

  /** string.IsNullOrEmpty */
  predicate IsNullOrEmpty(s: Option<string>)
  {
    s.None? || s.value == []
  }
}
