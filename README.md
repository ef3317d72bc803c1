# PersonalJobAgent core, modelled in Dafny

PersonalJobAgent is a desktop job-search assistant. A C# back end stores job
listings, job applications and a user profile (skills, work experience,
education). It searches and recommends listings, tracks the status and notes
of each application, and keeps the profile's child collections up to date.
A WPF front end shows application statuses as colours and pages through
search results. A set of Python scripts parses a résumé into sections,
drafts a cover letter, prepares interview questions and tips, and matches a
profile against listings.

This project models that core and proves what it promises:

- `Text`: ASCII lower-casing, substring tests, `strip`, `split`, `join`.
- `Ordering`: LINQ `Where`, a stable descending `OrderByDescending`,
  `Skip`/`Take` paging, and `GroupBy(Id).First()` deduplication.
- `Entities`: the listing, skill, experience, education and application records.
- `ListingRepository`: the search and recommendation queries of
  `JobListingRepository`.
- `JobDiscovery`: the queries of `JobDiscoveryService`, plus its listing
  store (`ListingStore`), a class over a `map<int, Listing>`.
- `Applications`: the queries of `ApplicationService` and `ApplicationRepository`,
  the two note-append formats, and the application store (`ApplicationStore`).
- `Profiles`: `ProfileService`'s add, update and remove operations on a
  `UserProfile` class whose lists are updated in place, and
  `GetByEmailAsync`.
- `SkillReconciliation`: the remove / add / update loops of
  `UserProfileRepository.UpdateSkillsAsync` over a skill table (`SkillTable`).
- `Converters`: the WPF value converters.
- `SearchPaging`: the paging state of `JobSearchViewModel`, as a class whose
  command methods update `CurrentPage`, `TotalResults` and `IsBusy`.
- `ResumeParser`, `CoverLetter`, `InterviewPrep`, `JobMatcher`: the
  deterministic parts of the four Python scripts.

Loops in the source are modelled as `while`/`for` loops in methods. Each
such method is proved equal to a specification function, and the properties
are proved as lemmas about that function. Methods that update a class state
the whole new state in their postconditions. Sorting is specified as producing a
permutation that is ordered and stable.

Where the interface files and the implementations disagree (for example the
signature of the discovery search), the model follows the implementations.
Some behaviour of the code is worth noting:

- the repository search ANDs its keywords over four fields, while the
  service search ORs them over two fields and never sorts;
- the service recommendation ignores the profile;
- a status update accepts any string;
- the two stores write notes in different formats.

The clock is a parameter. So is its `{:g}` formatted text, which the notes
embed. The AI gateway is a parameter function, and so are the regular
expression extractors that the Python scripts use. Python's `random.choice`,
`random.sample` and `random.shuffle` become nondeterministic choices. A method
takes any template index, sample or permutation, and its contract holds for
every one of them.

## Model

| member | source | states |
|---|---|---|
| Text.LowerStr | src/PersonalJobAgent.Data/PersonalJobAgent.Data/Repositories/JobListingRepository.cs:33 | ToLower/lower(): same length, each ASCII capital shifted to its small letter and every other character kept |
| Text.LowerStrIdempotent | src/PersonalJobAgent.Data/PersonalJobAgent.Data/Repositories/JobListingRepository.cs:33 | lower-casing twice is lower-casing once |
| Text.ContainsIgnoreCaseOfLower | src/PersonalJobAgent.Data/PersonalJobAgent.Data/Repositories/JobListingRepository.cs:33-36 | a case-insensitive Contains gives the same answer on already lower-cased arguments |
| Text.Strip | src/PersonalJobAgent.AI/PersonalJobAgent.AI/Scripts/resume_parser.py:121 | strip() leaves no whitespace at either end |
| Text.StripSlice | src/PersonalJobAgent.AI/PersonalJobAgent.AI/Scripts/resume_parser.py:121 | strip() keeps a contiguous middle slice of its input |
| Text.StripBlank | src/PersonalJobAgent.AI/PersonalJobAgent.AI/Scripts/resume_parser.py:394 | a string of whitespace strips to "" |
| Text.SplitOn | src/PersonalJobAgent.AI/PersonalJobAgent.AI/Scripts/resume_parser.py:359 | re.split over a character class gives at least one piece and no piece contains a separator |
| Text.SplitOnCount | src/PersonalJobAgent.AI/PersonalJobAgent.AI/Scripts/resume_parser.py:112 | there is one more piece than there are separators |
| Text.SplitOnJoin | src/PersonalJobAgent.AI/PersonalJobAgent.AI/Scripts/resume_parser.py:112-133 | '\n'.join undoes text.split('\n') |
| Text.SplitOnOfJoin | src/PersonalJobAgent.AI/PersonalJobAgent.AI/Scripts/resume_parser.py:391-394 | splitting a join of separator-free pieces gives the pieces back |
| Text.Words | src/PersonalJobAgent.AI/PersonalJobAgent.AI/Scripts/cover_letter_generator.py:310 | split() with no argument gives non-empty pieces without whitespace |
| Text.WordsOfJoin | src/PersonalJobAgent.AI/PersonalJobAgent.AI/Scripts/cover_letter_generator.py:310 | split() returns exactly the words that a single-space join of non-empty, whitespace-free words was built from |
| Text.NonEmptyNone | src/PersonalJobAgent.AI/PersonalJobAgent.AI/Scripts/resume_parser.py:394 | dropping empty pieces leaves nothing iff every piece is empty |
| Ordering.SortDesc | src/PersonalJobAgent.Data/PersonalJobAgent.Data/Repositories/JobListingRepository.cs:42 | OrderByDescending: the result is a permutation of the input, non-increasing in the key |
| Ordering.SortDescStable | src/PersonalJobAgent.Data/PersonalJobAgent.Data/Repositories/ApplicationRepository.cs:28 | OrderByDescending is stable: elements with equal keys keep their input order |
| Ordering.SortDescSorted | src/PersonalJobAgent.Data/PersonalJobAgent.Data/Repositories/JobListingRepository.cs:57 | rows already in descending order come back unchanged |
| Ordering.SortDescFilter | src/PersonalJobAgent.Data/PersonalJobAgent.Data/Repositories/JobListingRepository.cs:56-57 | sorting after Where equals filtering after sorting |
| Ordering.Filter | src/PersonalJobAgent.Data/PersonalJobAgent.Data/Repositories/JobListingRepository.cs:32-37 | Where keeps only elements that satisfy the predicate, and never more than the input |
| Ordering.Skip | src/PersonalJobAgent.Data/PersonalJobAgent.Data/Repositories/JobListingRepository.cs:43 | Skip(n) drops min(n, length) elements, nothing when n is not positive |
| Ordering.Take | src/PersonalJobAgent.Data/PersonalJobAgent.Data/Repositories/JobListingRepository.cs:44 | Take(n) is a prefix of length min(n, length), empty when n is not positive |
| Ordering.TakeBest | src/PersonalJobAgent.Data/PersonalJobAgent.Data/Repositories/JobListingRepository.cs:119-120 | taking a prefix of a descending sequence leaves out nothing that ranks above what it keeps |
| Ordering.PageIsSlice | src/PersonalJobAgent.Data/PersonalJobAgent.Data/Repositories/JobListingRepository.cs:43-44 | Skip((page-1)*size).Take(size) is the contiguous slice starting at (page-1)*size, clamped to the sequence, of at most size elements |
| Ordering.PageOrdered | src/PersonalJobAgent.Data/PersonalJobAgent.Data/Repositories/JobListingRepository.cs:42-44 | a page of an ordered sequence is ordered and holds only its elements |
| Ordering.DedupIsFirstOccurrences | src/PersonalJobAgent.Data/PersonalJobAgent.Data/Repositories/JobListingRepository.cs:85-86 | GroupBy(Id).Select(First) keeps an element iff no earlier element has its Id |
| Ordering.DedupDistinct | src/PersonalJobAgent.Data/PersonalJobAgent.Data/Repositories/JobListingRepository.cs:85-86 | rows whose Ids are already distinct pass through unchanged |
| Ordering.SortDescIds | src/PersonalJobAgent.Data/PersonalJobAgent.Data/Repositories/JobListingRepository.cs:86-87 | sorting keeps the set of Ids and their distinctness |
| Ordering.SortDescPaired | src/PersonalJobAgent.Data/PersonalJobAgent.Data/Repositories/JobListingRepository.cs:87 | sorting (key, element) pairs by key sorts the elements by the key they carry |
| ListingRepository.WhereKeyword | src/PersonalJobAgent.Data/PersonalJobAgent.Data/Repositories/JobListingRepository.cs:32-37 | a listing is kept iff it is in the input and the lower-cased keyword occurs in its lower-cased title, description, company or location |
| ListingRepository.WhereAll | src/PersonalJobAgent.Data/PersonalJobAgent.Data/Repositories/JobListingRepository.cs:28-39 | the chained Where clauses keep exactly the listings that match every keyword (keywords are ANDed) |
| ListingRepository.WhereAllNoKeywords | src/PersonalJobAgent.Data/PersonalJobAgent.Data/Repositories/JobListingRepository.cs:28 | with no keywords the query is not filtered at all |
| ListingRepository.WhereKeywordExtends | src/PersonalJobAgent.Data/PersonalJobAgent.Data/Repositories/JobListingRepository.cs:30-38 | adding the Where for one more keyword equals filtering by the extended keyword list |
| ListingRepository.Search | src/PersonalJobAgent.Data/PersonalJobAgent.Data/Repositories/JobListingRepository.cs:24-46 | SearchAsync returns the page at (pageNumber-1)*pageSize of the matches sorted newest first; every result is a stored listing matching all keywords; the page is non-increasing in PostedDate and holds at most pageSize listings |
| ListingRepository.SearchPage | src/PersonalJobAgent.Data/PersonalJobAgent.Data/Repositories/JobListingRepository.cs:41-45 | any page of the sorted matches holds only matches and is ordered newest first |
| ListingRepository.WhereLocation | src/PersonalJobAgent.Data/PersonalJobAgent.Data/Repositories/JobListingRepository.cs:56 | a listing is kept iff its lower-cased location contains the lower-cased argument; the discovery service filters by location with this same test |
| ListingRepository.ByLocation | src/PersonalJobAgent.Data/PersonalJobAgent.Data/Repositories/JobListingRepository.cs:49-59 | GetByLocationAsync returns exactly the listings in the location, as a permutation of the filtered rows, non-increasing in PostedDate; the radius takes no part |
| ListingRepository.Mentioning | src/PersonalJobAgent.Data/PersonalJobAgent.Data/Repositories/JobListingRepository.cs:76-78 | one skill's query keeps exactly the listings whose lower-cased description contains the lower-cased skill name |
| ListingRepository.GatheredMembers | src/PersonalJobAgent.Data/PersonalJobAgent.Data/Repositories/JobListingRepository.cs:74-81 | the accumulated list holds exactly the listings that mention at least one of the skills |
| ListingRepository.GatherMatches | src/PersonalJobAgent.Data/PersonalJobAgent.Data/Repositories/JobListingRepository.cs:72-81 | the foreach/AddRange loop computes the skill-by-skill concatenation, whose members are exactly the listings mentioning some skill |
| ListingRepository.SkillsWithIds | src/PersonalJobAgent.Data/PersonalJobAgent.Data/Repositories/JobListingRepository.cs:68-70 | exactly the skill rows whose Id is among the requested ids |
| ListingRepository.DedupSorted | src/PersonalJobAgent.Data/PersonalJobAgent.Data/Repositories/JobListingRepository.cs:84-87 | GroupBy(Id).First() then OrderByDescending leaves pairwise distinct Ids, one listing for every matching Id, and only matching listings |
| ListingRepository.ByRequiredSkills | src/PersonalJobAgent.Data/PersonalJobAgent.Data/Repositories/JobListingRepository.cs:62-88 | GetByRequiredSkillsAsync returns Id-distinct listings, newest first, covering every Id that mentions a requested skill, each mentioning a skill whose Id was requested |
| ListingRepository.SkillsOf | src/PersonalJobAgent.Data/PersonalJobAgent.Data/Repositories/JobListingRepository.cs:96-98 | the skills loaded with the profile are exactly the skill rows owned by it |
| ListingRepository.RecommendedForUser | src/PersonalJobAgent.Data/PersonalJobAgent.Data/Repositories/JobListingRepository.cs:91-121 | an unknown profile or one without skills gives nothing; otherwise at most count Id-distinct listings, newest first, each mentioning one of the profile's skills, taken from the front of the deduplicated sorted matches |
| JobDiscovery.WhereKeeps | src/PersonalJobAgent.Core/PersonalJobAgent.Core/Services/JobDiscoveryService.cs:28-31 | a listing is kept iff some keyword occurs, ignoring case, in its title or description (keywords are ORed) and the location is null or contained in its location |
| JobDiscovery.SearchJobsIsFilteredSlice | src/PersonalJobAgent.Core/PersonalJobAgent.Core/Services/JobDiscoveryService.cs:22-36 | SearchJobsAsync returns the contiguous slice of the filtered listings, in store order, starting at (pageNumber-1)*pageSize, of at most pageSize listings, each one kept by the filter |
| JobDiscovery.NoKeywordKeepsNothing | src/PersonalJobAgent.Core/PersonalJobAgent.Core/Services/JobDiscoveryService.cs:28-29 | with an empty keyword array no listing passes the filter |
| JobDiscovery.SearchJobsNoKeywords | src/PersonalJobAgent.Core/PersonalJobAgent.Core/Services/JobDiscoveryService.cs:28-33 | with an empty keyword array SearchJobsAsync returns nothing |
| JobDiscovery.SearchJobsPagesConcat | src/PersonalJobAgent.Core/PersonalJobAgent.Core/Services/JobDiscoveryService.cs:32-33 | pages 1 and 2 of size n together are page 1 of size 2n: no overlap and no gap |
| JobDiscovery.JobsByLocationIgnoresRadius | src/PersonalJobAgent.Core/PersonalJobAgent.Core/Services/JobDiscoveryService.cs:38-50 | GetJobsByLocationAsync gives the same result for every radius; every result is in the location; at most pageSize results |
| JobDiscovery.RecommendedJobs | src/PersonalJobAgent.Core/PersonalJobAgent.Core/Services/JobDiscoveryService.cs:52-62 | GetRecommendedJobsAsync returns listings of the store, newest first, exactly min(count, store size) of them and none for a negative count |
| JobDiscovery.RecommendedAreNewest | src/PersonalJobAgent.Core/PersonalJobAgent.Core/Services/JobDiscoveryService.cs:59 | the recommendation is the front of the date-sorted store, and every listing left out is no newer than every listing returned |
| JobDiscovery.ExternalJobs | src/PersonalJobAgent.Core/PersonalJobAgent.Core/Services/JobDiscoveryService.cs:64-70 | GetExternalJobsAsync always returns an empty list |
| JobDiscovery.ListingStore.Save | src/PersonalJobAgent.Core/PersonalJobAgent.Core/Services/JobDiscoveryService.cs:72-86 | Id 0 adds the listing under a fresh Id and the table grows by one; another stored Id replaces that row and the size is unchanged; the listing is returned; an Id that is not stored fails the update and changes nothing |
| Applications.ServiceNotes | src/PersonalJobAgent.Core/PersonalJobAgent.Core/Services/ApplicationService.cs:75-80 | a null or empty note keeps Notes; empty Notes are replaced by the note; otherwise the log grows by the "\n\n{ts} - {status}:\n" heading and the note |
| Applications.RepositoryNotes | src/PersonalJobAgent.Data/PersonalJobAgent.Data/Repositories/ApplicationRepository.cs:61-66 | the same rule with the "\n\n{ts}: " heading |
| Applications.ServiceNotesKeepHistory | src/PersonalJobAgent.Core/PersonalJobAgent.Core/Services/ApplicationService.cs:77-79 | earlier non-empty Notes stay a prefix of the log, and a non-empty note ends it |
| Applications.RepositoryNotesKeepHistory | src/PersonalJobAgent.Data/PersonalJobAgent.Data/Repositories/ApplicationRepository.cs:63-65 | earlier non-empty Notes stay a prefix of the log, and a non-empty note ends it |
| Applications.NoteFormatsDiffer | src/PersonalJobAgent.Core/PersonalJobAgent.Core/Services/ApplicationService.cs:79 | for the same append the service and the repository write different logs |
| Applications.ByProfile | src/PersonalJobAgent.Data/PersonalJobAgent.Data/Repositories/ApplicationRepository.cs:24-30 | GetByUserProfileIdAsync is a permutation of the profile's applications, non-increasing in ApplicationDate |
| Applications.ByProfileMembers | src/PersonalJobAgent.Data/PersonalJobAgent.Data/Repositories/ApplicationRepository.cs:26-29 | an application is listed iff it belongs to the profile |
| Applications.ByStatusExact | src/PersonalJobAgent.Data/PersonalJobAgent.Data/Repositories/ApplicationRepository.cs:33-39 | GetByStatusAsync is non-increasing in ApplicationDate |
| Applications.ByStatusExactRefinesByProfile | src/PersonalJobAgent.Data/PersonalJobAgent.Data/Repositories/ApplicationRepository.cs:35-38 | GetByStatusAsync equals GetByUserProfileIdAsync followed by the exact status filter: same elements, same order |
| Applications.ByStatusIgnoreCaseMembers | src/PersonalJobAgent.Core/PersonalJobAgent.Core/Services/ApplicationService.cs:41-45 | GetApplicationsByStatusAsync returns exactly the profile's applications whose status equals the argument ignoring case, and includes everything the exact repository query returns |
| Applications.Recent | src/PersonalJobAgent.Core/PersonalJobAgent.Core/Services/ApplicationService.cs:35-39 | GetRecentApplicationsAsync returns min(count, n) applications (none for a negative count), as a prefix of the profile's date-sorted list, non-increasing in ApplicationDate |
| Applications.RecentAreNewest | src/PersonalJobAgent.Core/PersonalJobAgent.Core/Services/ApplicationService.cs:38 | every recent application is no older than every application left out |
| Applications.CoverLetter | src/PersonalJobAgent.Core/PersonalJobAgent.Core/Services/ApplicationService.cs:89-105 | the result is null iff the profile or the listing is missing; otherwise it is the generator's text for that pair |
| Applications.InterviewPreparation | src/PersonalJobAgent.Core/PersonalJobAgent.Core/Services/ApplicationService.cs:107-129 | the result is non-null iff the application, its profile and its listing are all found, and is then the generator's text for that profile and listing |
| Applications.ApplicationStore.Create | src/PersonalJobAgent.Core/PersonalJobAgent.Core/Services/ApplicationService.cs:52-67 | exactly one new record under a fresh Id, with Status "Applied", ApplicationDate and LastUpdated taken from two separate clock reads, and the cover letter and notes as given; no other record changes |
| Applications.ApplicationStore.UpdateApplicationStatus | src/PersonalJobAgent.Core/PersonalJobAgent.Core/Services/ApplicationService.cs:69-87 | an unknown id returns null and changes nothing; otherwise any status is accepted, Notes follow ServiceNotes, LastUpdated is refreshed and only that record changes |
| Applications.ApplicationStore.UpdateStatus | src/PersonalJobAgent.Data/PersonalJobAgent.Data/Repositories/ApplicationRepository.cs:52-69 | an unknown id is an ArgumentException and nothing is written; otherwise Status and LastUpdated are set, Notes follow RepositoryNotes, and every other record is unchanged |
| Profiles.FirstIndexOf | src/PersonalJobAgent.Core/PersonalJobAgent.Core/Services/ProfileService.cs:58 | FirstOrDefault by Id as a position: the first entry with the Id, or none iff no entry has it |
| Profiles.RemoveAt | src/PersonalJobAgent.Core/PersonalJobAgent.Core/Services/ProfileService.cs:76 | List.Remove of one element: one element fewer, the others kept in order, the multiset loses exactly that element |
| Profiles.CopySkill | src/PersonalJobAgent.Core/PersonalJobAgent.Core/Services/ProfileService.cs:62-64 | Name, Level and Category come from the argument; Id and owner stay |
| Profiles.CopyWorkExperience | src/PersonalJobAgent.Core/PersonalJobAgent.Core/Services/ProfileService.cs:99-104 | Company, Title, StartDate, EndDate, Description and Location come from the argument; Id and owner stay |
| Profiles.CopyEducation | src/PersonalJobAgent.Core/PersonalJobAgent.Core/Services/ProfileService.cs:139-144 | Institution, Degree, FieldOfStudy, StartDate, EndDate and Description come from the argument; Id and owner stay |
| Profiles.RemoveFirstMatch | src/PersonalJobAgent.Core/PersonalJobAgent.Core/Services/ProfileService.cs:73-76 | removing the first match takes out exactly one entry with that Id and keeps every entry with another Id |
| Profiles.CurrentUserProfile | src/PersonalJobAgent.Core/PersonalJobAgent.Core/Services/ProfileService.cs:20-30 | the first stored profile, or a new "Default" "User" "default@example.com" profile with Id 0 and empty Skills, WorkExperiences and Education when there is none |
| Profiles.AddSkill | src/PersonalJobAgent.Core/PersonalJobAgent.Core/Services/ProfileService.cs:43-52 | a missing profile is a null dereference; otherwise the skill, owned by the given profile id, is appended, the other lists unchanged, and returned; the profile's Id, names and Email are unchanged |
| Profiles.UpdateSkill | src/PersonalJobAgent.Core/PersonalJobAgent.Core/Services/ProfileService.cs:54-68 | the first skill with the same Id takes Name, Level and Category; with no match the list is unchanged; the argument is returned; the profile's Id, names and Email are unchanged |
| Profiles.RemoveSkill | src/PersonalJobAgent.Core/PersonalJobAgent.Core/Services/ProfileService.cs:70-81 | true iff a skill with the Id is present, and then exactly the first such skill is removed; false leaves the list unchanged; the profile's Id, names and Email are unchanged |
| Profiles.AddWorkExperience | src/PersonalJobAgent.Core/PersonalJobAgent.Core/Services/ProfileService.cs:83-90 | the experience, owned by the given profile id, is appended and returned; other lists unchanged; the profile's Id, names and Email are unchanged |
| Profiles.UpdateWorkExperience | src/PersonalJobAgent.Core/PersonalJobAgent.Core/Services/ProfileService.cs:92-108 | the first experience with the same Id takes the six copied fields; with no match nothing changes; the profile's Id, names and Email are unchanged |
| Profiles.RemoveWorkExperience | src/PersonalJobAgent.Core/PersonalJobAgent.Core/Services/ProfileService.cs:110-121 | true iff an experience with the Id is present, and then exactly the first one is removed; the profile's Id, names and Email are unchanged |
| Profiles.AddEducation | src/PersonalJobAgent.Core/PersonalJobAgent.Core/Services/ProfileService.cs:123-130 | the education entry, owned by the given profile id, is appended and returned; other lists unchanged; the profile's Id, names and Email are unchanged |
| Profiles.UpdateEducation | src/PersonalJobAgent.Core/PersonalJobAgent.Core/Services/ProfileService.cs:132-148 | the first education entry with the same Id takes the six copied fields; with no match nothing changes; the profile's Id, names and Email are unchanged |
| Profiles.RemoveEducation | src/PersonalJobAgent.Core/PersonalJobAgent.Core/Services/ProfileService.cs:150-161 | true iff an education entry with the Id is present, and then exactly the first one is removed; the profile's Id, names and Email are unchanged |
| Profiles.EmailIndex | src/PersonalJobAgent.Data/PersonalJobAgent.Data/Repositories/UserProfileRepository.cs:26-27 | the position of the first profile whose Email equals the argument, none iff there is no such profile |
| Profiles.ByEmail | src/PersonalJobAgent.Data/PersonalJobAgent.Data/Repositories/UserProfileRepository.cs:24-28 | GetByEmailAsync returns the first profile with exactly that Email, and null iff none has it |
| SkillReconciliation.Step | src/PersonalJobAgent.Data/PersonalJobAgent.Data/Repositories/UserProfileRepository.cs:64-78 | one pass of the add-or-update loop keeps the table valid and never lowers the identity value |
| SkillReconciliation.Apply | src/PersonalJobAgent.Data/PersonalJobAgent.Data/Repositories/UserProfileRepository.cs:62-79 | the whole add-or-update loop keeps the table valid and never lowers the identity value |
| SkillReconciliation.LastWithId | src/PersonalJobAgent.Data/PersonalJobAgent.Data/Repositories/UserProfileRepository.cs:62-79 | the last listed skill with an Id, which is the one whose fields are written last; none iff the list does not mention the Id |
| SkillReconciliation.ReconcileKeepsOthers | src/PersonalJobAgent.Data/PersonalJobAgent.Data/Repositories/UserProfileRepository.cs:48-50 | rows owned by other users are never touched |
| SkillReconciliation.ReconcileRemovesAbsent | src/PersonalJobAgent.Data/PersonalJobAgent.Data/Repositories/UserProfileRepository.cs:53-59 | the user's rows whose Id the list does not mention are removed |
| SkillReconciliation.ReconcileUpdatesMatched | src/PersonalJobAgent.Data/PersonalJobAgent.Data/Repositories/UserProfileRepository.cs:71-78 | a row the user had and the list mentions takes Name, Level and Category from the last mention and keeps its other fields |
| SkillReconciliation.ReconcileAddsNew | src/PersonalJobAgent.Data/PersonalJobAgent.Data/Repositories/UserProfileRepository.cs:64-70 | a listed skill with an explicit Id the user did not own is stored under that Id with UserProfileId = userId |
| SkillReconciliation.ReconcileAddsGenerated | src/PersonalJobAgent.Data/PersonalJobAgent.Data/Repositories/UserProfileRepository.cs:64-70 | a listed skill with Id 0 is stored under a generated Id at or above the old identity value, with its other fields as given and UserProfileId = userId |
| SkillReconciliation.ReconcileUserIds | src/PersonalJobAgent.Data/PersonalJobAgent.Data/Repositories/UserProfileRepository.cs:53-79 | afterwards the user owns exactly the listed ids (0 only if the user already had that key) and the generated ids of listed Id-0 skills; with no Id-0 skill, exactly the listed ids |
| SkillReconciliation.SkillTable.RemoveUnlisted | src/PersonalJobAgent.Data/PersonalJobAgent.Data/Repositories/UserProfileRepository.cs:53-59 | the first loop removes exactly the user's rows whose Id is not listed |
| SkillReconciliation.SkillTable.UpdateSkills | src/PersonalJobAgent.Data/PersonalJobAgent.Data/Repositories/UserProfileRepository.cs:41-82 | an unknown user is an ArgumentException and nothing changes; an insert under a key that exists fails the save and nothing changes; otherwise the table becomes the reconciled table |
| SkillReconciliation.ApplyFailurePersists | src/PersonalJobAgent.Data/PersonalJobAgent.Data/Repositories/UserProfileRepository.cs:81 | once a prefix of the list makes the save fail, the whole list does: nothing is written |
| Converters.NullToVisibility | src/PersonalJobAgent.UI/PersonalJobAgent.UI/Converters.cs:11-14 | Collapsed exactly when there is no value, Visible otherwise |
| Converters.StringEquals | src/PersonalJobAgent.UI/PersonalJobAgent.UI/Converters.cs:27-36 | true iff both are null or both are present with equal text |
| Converters.StringEqualsSymmetric | src/PersonalJobAgent.UI/PersonalJobAgent.UI/Converters.cs:29-35 | the comparison does not depend on the order of value and parameter |
| Converters.StringEqualsBack | src/PersonalJobAgent.UI/PersonalJobAgent.UI/Converters.cs:38-44 | ConvertBack gives the parameter for true and null for false |
| Converters.StringEqualsRoundTrip | src/PersonalJobAgent.UI/PersonalJobAgent.UI/Converters.cs:27-44 | with a parameter present, converting a checked state back and then forward again gives the same state |
| Converters.ColorOfLower | src/PersonalJobAgent.UI/PersonalJobAgent.UI/Converters.cs:59-78 | every colour is a byte RGB triple, and the default Gray comes back exactly for statuses outside the seven recognised ones |
| Converters.StatusToBrush | src/PersonalJobAgent.UI/PersonalJobAgent.UI/Converters.cs:52-79 | Gray iff the value is null or its lower-cased text is not a recognised status |
| Converters.StatusToBrushIgnoresCase | src/PersonalJobAgent.UI/PersonalJobAgent.UI/Converters.cs:59 | two statuses that differ only in letter case get the same colour |
| Converters.StatusToBrushOfLower | src/PersonalJobAgent.UI/PersonalJobAgent.UI/Converters.cs:57-59 | lower-casing the status first does not change its colour |
| Converters.StatusColorsDistinct | src/PersonalJobAgent.UI/PersonalJobAgent.UI/Converters.cs:61-75 | two different recognised statuses share a colour iff they are "technicaltest" and "technical test" |
| SearchPaging.NextPaging | src/PersonalJobAgent.UI/PersonalJobAgent.UI/ViewModels/JobSearchViewModel.cs:339-349 | with a next page the page moves one forward; otherwise nothing changes |
| SearchPaging.PreviousPaging | src/PersonalJobAgent.UI/PersonalJobAgent.UI/ViewModels/JobSearchViewModel.cs:374-384 | unless at page 1 the page moves one back; otherwise nothing changes |
| SearchPaging.SearchPaging | src/PersonalJobAgent.UI/PersonalJobAgent.UI/ViewModels/JobSearchViewModel.cs:247-258 | a search goes back to page 1 and sets the total to 100, keeping the page size |
| SearchPaging.PagingStaysPositive | src/PersonalJobAgent.UI/PersonalJobAgent.UI/ViewModels/JobSearchViewModel.cs:341-384 | none of the three commands takes the page below 1 |
| SearchPaging.NextThenPrevious | src/PersonalJobAgent.UI/PersonalJobAgent.UI/ViewModels/JobSearchViewModel.cs:339-403 | after a successful Next there is a previous page, and Previous returns to the original page |
| SearchPaging.HasNextBelowPageCount | src/PersonalJobAgent.UI/PersonalJobAgent.UI/ViewModels/JobSearchViewModel.cs:202 | for every positive page size, a next page exists exactly on the pages before the last, ceil(total / size); with size 20 and the total of 100 that is page 5 |
| SearchPaging.SavedSearchName | src/PersonalJobAgent.UI/PersonalJobAgent.UI/ViewModels/JobSearchViewModel.cs:416 | the name is "Search for " + keywords + " in " + location, with null printed as nothing |
| SearchPaging.JobSearchViewModel.HasNextPage | src/PersonalJobAgent.UI/PersonalJobAgent.UI/ViewModels/JobSearchViewModel.cs:202 | true iff CurrentPage*PageSize < TotalResults |
| SearchPaging.JobSearchViewModel.HasPreviousPage | src/PersonalJobAgent.UI/PersonalJobAgent.UI/ViewModels/JobSearchViewModel.cs:207 | true iff CurrentPage > 1 |
| SearchPaging.JobSearchViewModel.constructor | src/PersonalJobAgent.UI/PersonalJobAgent.UI/ViewModels/JobSearchViewModel.cs:45-47 | a new view model is at page 1 of size 20 with no platforms selected |
| SearchPaging.JobSearchViewModel.Search | src/PersonalJobAgent.UI/PersonalJobAgent.UI/ViewModels/JobSearchViewModel.cs:243-270 | page 1 is requested; on success the results and the total of 100 are stored; on failure the page has been reset anyway; IsBusy ends false; the criteria are unchanged |
| SearchPaging.JobSearchViewModel.NextPage | src/PersonalJobAgent.UI/PersonalJobAgent.UI/ViewModels/JobSearchViewModel.cs:339-368 | the paging state follows NextPaging; with no next page nothing happens; otherwise the new page is fetched and IsBusy ends false, even when the service fails |
| SearchPaging.JobSearchViewModel.PreviousPage | src/PersonalJobAgent.UI/PersonalJobAgent.UI/ViewModels/JobSearchViewModel.cs:374-403 | the paging state follows PreviousPaging; at page 1 nothing happens; otherwise the new page is fetched and IsBusy ends false |
| SearchPaging.JobSearchViewModel.CreateSavedSearch | src/PersonalJobAgent.UI/PersonalJobAgent.UI/ViewModels/JobSearchViewModel.cs:409-436 | the name handed to the service is SavedSearchName of the keywords and location; the paging state, the keywords, location, job type and selected platforms are unchanged and IsBusy ends false |
| ResumeParser.HeaderKeyIn | src/PersonalJobAgent.AI/PersonalJobAgent.AI/Scripts/resume_parser.py:127-142 | the section found is one of the table's keys |
| ResumeParser.HeaderKey | src/PersonalJobAgent.AI/PersonalJobAgent.AI/Scripts/resume_parser.py:127-142 | the section a line announces, matched on its lower-cased form, is one of the table's keys |
| ResumeParser.FindHeader | src/PersonalJobAgent.AI/PersonalJobAgent.AI/Scripts/resume_parser.py:126-142 | the nested loops with their breaks find the first section, in table order, one of whose headers occurs as a whole word in the lower-cased line |
| ResumeParser.AnyHeaderFound | src/PersonalJobAgent.AI/PersonalJobAgent.AI/Scripts/resume_parser.py:128-139 | the inner loop finds a header iff one of the section's headers occurs as a whole word in the line |
| ResumeParser.JoinBlocks | src/PersonalJobAgent.AI/PersonalJobAgent.AI/Scripts/resume_parser.py:133 | joining each block of lines keeps the same section keys |
| ResumeParser.IdentifySections | src/PersonalJobAgent.AI/PersonalJobAgent.AI/Scripts/resume_parser.py:101-152 | _identify_sections computes the section map of the text: each stored block of lines joined with "\n" |
| ResumeParser.ScanLinesClean | src/PersonalJobAgent.AI/PersonalJobAgent.AI/Scripts/resume_parser.py:120-146 | the scan only ever stores stripped, non-blank, non-header lines |
| ResumeParser.BlocksOfLinesClean | src/PersonalJobAgent.AI/PersonalJobAgent.AI/Scripts/resume_parser.py:120-150 | every section is named by a table key and holds only stripped, non-blank, non-header lines; without a header line there are no sections |
| ResumeParser.NoHeaderNoSections | src/PersonalJobAgent.AI/PersonalJobAgent.AI/Scripts/resume_parser.py:145 | lines before the first header are dropped: a text without a header line has no sections |
| ResumeParser.ScanAfterHeader | src/PersonalJobAgent.AI/PersonalJobAgent.AI/Scripts/resume_parser.py:136-146 | after a header, the open section holds exactly the clean lines that follow it |
| ResumeParser.LastSectionWins | src/PersonalJobAgent.AI/PersonalJobAgent.AI/Scripts/resume_parser.py:132-150 | the lines under the last header become that section, overwriting a block stored earlier under the same key |
| ResumeParser.EmptySections | src/PersonalJobAgent.AI/PersonalJobAgent.AI/Scripts/resume_parser.py:132-133 | a header closed by another header is stored even though it is empty, while a final header with no lines is not stored |
| ResumeParser.SingleSectionText | src/PersonalJobAgent.AI/PersonalJobAgent.AI/Scripts/resume_parser.py:101-152 | a text of one header line followed by clean lines has exactly one section, holding those lines joined by newlines |
| ResumeParser.LinesOfText | src/PersonalJobAgent.AI/PersonalJobAgent.AI/Scripts/resume_parser.py:112 | splitting newline-joined lines that contain no newline gives the lines back |
| ResumeParser.CleanPieces | src/PersonalJobAgent.AI/PersonalJobAgent.AI/Scripts/resume_parser.py:361-364 | at most one piece per input piece, each non-empty and without surrounding whitespace |
| ResumeParser.CleanPiecesOfClean | src/PersonalJobAgent.AI/PersonalJobAgent.AI/Scripts/resume_parser.py:394 | pieces that are already stripped and non-empty are all kept unchanged |
| ResumeParser.ListItems | src/PersonalJobAgent.AI/PersonalJobAgent.AI/Scripts/resume_parser.py:380-394 | _extract_list_items never returns an empty item; every item is stripped and contains no separator |
| ResumeParser.ListItemsOfLines | src/PersonalJobAgent.AI/PersonalJobAgent.AI/Scripts/resume_parser.py:391-394 | list items of newline-joined stripped lines without separators are those lines: the splitter undoes the section join |
| ResumeParser.FirstClose | src/PersonalJobAgent.AI/PersonalJobAgent.AI/Scripts/resume_parser.py:367 | the first ')' at or after a position, or none iff there is none |
| ResumeParser.FirstGroup | src/PersonalJobAgent.AI/PersonalJobAgent.AI/Scripts/resume_parser.py:367 | the first '(' that opens a non-empty parenthesised group, or none iff no position does |
| ResumeParser.SpaceRunStart | src/PersonalJobAgent.AI/PersonalJobAgent.AI/Scripts/resume_parser.py:367 | the start of the whitespace run ending at a position, which the lazy name group leaves to the whitespace pattern |
| ResumeParser.SkillEntryOf | src/PersonalJobAgent.AI/PersonalJobAgent.AI/Scripts/resume_parser.py:366-376 | an item without a parenthesised group becomes a skill named by the whole item |
| ResumeParser.ExtractSkills | src/PersonalJobAgent.AI/PersonalJobAgent.AI/Scripts/resume_parser.py:346-378 | _extract_skills yields exactly one entry per non-empty stripped piece, in order, each the entry of that piece |
| ResumeParser.SkillEntriesAt | src/PersonalJobAgent.AI/PersonalJobAgent.AI/Scripts/resume_parser.py:361-376 | the entries of the items are one per item, in order |
| ResumeParser.PlainSkill | src/PersonalJobAgent.AI/PersonalJobAgent.AI/Scripts/resume_parser.py:375-376 | an item without '(' is a skill with no proficiency |
| ResumeParser.SkillRoundTrip | src/PersonalJobAgent.AI/PersonalJobAgent.AI/Scripts/resume_parser.py:367-374 | writing "name (level)" and reading it back gives that name and that level |
| ResumeParser.ListSection | src/PersonalJobAgent.AI/PersonalJobAgent.AI/Scripts/resume_parser.py:95-97 | an absent list section is [], a present one is its list items |
| ResumeParser.ParseResume | src/PersonalJobAgent.AI/PersonalJobAgent.AI/Scripts/resume_parser.py:46-99 | parse_resume always fills all nine keys: the summary defaults to "", every list to []; a section present in the text fills its key through its extractor |
| CoverLetter.UserName | src/PersonalJobAgent.AI/PersonalJobAgent.AI/Scripts/cover_letter_generator.py:143-151 | the name is never empty, and a non-empty "name" entry is used as it is |
| CoverLetter.UserNameOfParts | src/PersonalJobAgent.AI/PersonalJobAgent.AI/Scripts/cover_letter_generator.py:146-149 | with no "name", a first and a last name are joined by one space |
| CoverLetter.UserNameDefault | src/PersonalJobAgent.AI/PersonalJobAgent.AI/Scripts/cover_letter_generator.py:146-151 | with no "name" and only blanks for first and last name, "Applicant Name" signs the letter |
| CoverLetter.CompanyName | src/PersonalJobAgent.AI/PersonalJobAgent.AI/Scripts/cover_letter_generator.py:163 | the "company" entry when the key is present, even if empty; "the Company" only when it is absent |
| CoverLetter.JobTitle | src/PersonalJobAgent.AI/PersonalJobAgent.AI/Scripts/cover_letter_generator.py:175 | the "title" entry when the key is present; "the position" only when it is absent |
| CoverLetter.HiringManager | src/PersonalJobAgent.AI/PersonalJobAgent.AI/Scripts/cover_letter_generator.py:187-192 | never empty: a non-empty entry is used as it is, and "Hiring Manager" comes back iff the entry is missing, empty or that very text |
| CoverLetter.RequiredSkills | src/PersonalJobAgent.AI/PersonalJobAgent.AI/Scripts/cover_letter_generator.py:218-227 | one required skill per listed skill, or per bullet of the description when there is no list, each lower-cased |
| CoverLetter.PadExtends | src/PersonalJobAgent.AI/PersonalJobAgent.AI/Scripts/cover_letter_generator.py:251-256 | padding keeps the chosen skills in front, appends only candidates not chosen yet, and never grows the list past three |
| CoverLetter.PadEnough | src/PersonalJobAgent.AI/PersonalJobAgent.AI/Scripts/cover_letter_generator.py:251-256 | padding stops only at three or once every candidate is chosen |
| CoverLetter.PadDescending | src/PersonalJobAgent.AI/PersonalJobAgent.AI/Scripts/cover_letter_generator.py:245-256 | over candidates sorted by descending strength, the appended skills descend too |
| CoverLetter.PadLeftOut | src/PersonalJobAgent.AI/PersonalJobAgent.AI/Scripts/cover_letter_generator.py:245-256 | every candidate left out ranks no higher than any appended one |
| CoverLetter.MatchingSkillsShape | src/PersonalJobAgent.AI/PersonalJobAgent.AI/Scripts/cover_letter_generator.py:229-256 | the highlighted skills start with every related named skill in profile order, are padded only while fewer than three, and padding stops at three or when every profile skill is in |
| CoverLetter.MatchingSkillsPaddingFresh | src/PersonalJobAgent.AI/PersonalJobAgent.AI/Scripts/cover_letter_generator.py:243-256 | every highlighted skill comes from the profile, and padding never repeats a skill nor adds a related one |
| CoverLetter.MatchingSkillsPaddingOrder | src/PersonalJobAgent.AI/PersonalJobAgent.AI/Scripts/cover_letter_generator.py:245-256 | padding goes by descending proficiency plus years and leaves out no skill stronger than one it added |
| CoverLetter.RelatesToAny | src/PersonalJobAgent.AI/PersonalJobAgent.AI/Scripts/cover_letter_generator.py:237-240 | the inner loop finds a required skill iff one is a substring of the name or contains it |
| CoverLetter.ExtractMatchingSkills | src/PersonalJobAgent.AI/PersonalJobAgent.AI/Scripts/cover_letter_generator.py:203-258 | the two loops compute the matching skills: related skills first, then padding from the profile sorted by strength |
| CoverLetter.RelatedSkills | src/PersonalJobAgent.AI/PersonalJobAgent.AI/Scripts/cover_letter_generator.py:230-240 | the first loop keeps exactly the named skills related to some required skill, in profile order |
| CoverLetter.PadFrom | src/PersonalJobAgent.AI/PersonalJobAgent.AI/Scripts/cover_letter_generator.py:252-256 | the padding loop with its early exit at three computes the padding |
| CoverLetter.DistinctDictsBothPadded | src/PersonalJobAgent.AI/PersonalJobAgent.AI/Scripts/cover_letter_generator.py:253 | `skill not in matching_skills` compares whole dictionaries: two skills that differ in any entry, such as only their "category", are both padded in |
| CoverLetter.ExtractKeyTerms | src/PersonalJobAgent.AI/PersonalJobAgent.AI/Scripts/cover_letter_generator.py:363-369 | the loop computes the key terms of the text |
| CoverLetter.KeyTermsSpec | src/PersonalJobAgent.AI/PersonalJobAgent.AI/Scripts/cover_letter_generator.py:341-369 | the key terms are exactly the listed terms that occur in the text, in list order, without repeats when the list has none |
| CoverLetter.KeyTermSet | src/PersonalJobAgent.AI/PersonalJobAgent.AI/Scripts/cover_letter_generator.py:303-313 | a term is a key term iff it is a word of the lower-cased title or a job term occurring in the lower-cased description |
| CoverLetter.Hits | src/PersonalJobAgent.AI/PersonalJobAgent.AI/Scripts/cover_letter_generator.py:323-330 | only key terms are counted |
| CoverLetter.Score | src/PersonalJobAgent.AI/PersonalJobAgent.AI/Scripts/cover_letter_generator.py:318-330 | an entry scores at most three points per key term |
| CoverLetter.CountHits | src/PersonalJobAgent.AI/PersonalJobAgent.AI/Scripts/cover_letter_generator.py:323-330 | one loop over the key terms adds the weight once per term occurring in the text |
| CoverLetter.ScoreExperience | src/PersonalJobAgent.AI/PersonalJobAgent.AI/Scripts/cover_letter_generator.py:317-333 | the two loops score 2 per key term in the lower-cased title plus 1 per key term in the lower-cased description |
| CoverLetter.ExtractRelevantExperiences | src/PersonalJobAgent.AI/PersonalJobAgent.AI/Scripts/cover_letter_generator.py:291-339 | scoring every entry, sorting the pairs by descending score and keeping the entries of the first two computes the relevant experiences |
| CoverLetter.ScoredPairs | src/PersonalJobAgent.AI/PersonalJobAgent.AI/Scripts/cover_letter_generator.py:333 | each scored pair carries its entry's score, and the entries are the profile's in order |
| CoverLetter.RelevantExperiencesTop | src/PersonalJobAgent.AI/PersonalJobAgent.AI/Scripts/cover_letter_generator.py:336-337 | at most two entries, min(2, n) of them, taken from the profile, best first |
| CoverLetter.RelevantExperiencesBest | src/PersonalJobAgent.AI/PersonalJobAgent.AI/Scripts/cover_letter_generator.py:336-337 | no entry left out scores higher than one that was kept |
| CoverLetter.RelevantExperiencesStable | src/PersonalJobAgent.AI/PersonalJobAgent.AI/Scripts/cover_letter_generator.py:336 | entries with equal scores keep profile order: for each score, the kept entries with it are the first entries with it |
| CoverLetter.SkillNames | src/PersonalJobAgent.AI/PersonalJobAgent.AI/Scripts/cover_letter_generator.py:418-419 | only non-empty names are kept |
| CoverLetter.SkillListMentions | src/PersonalJobAgent.AI/PersonalJobAgent.AI/Scripts/cover_letter_generator.py:431-436 | every name appears in the skill list |
| CoverLetter.SkillListLength | src/PersonalJobAgent.AI/PersonalJobAgent.AI/Scripts/cover_letter_generator.py:431-436 | the list adds exactly its connectives to the names: nothing for one name, " and " for two, ", " between the first ones and ", and " before the last for three or more |
| CoverLetter.SkillsParagraphSpec | src/PersonalJobAgent.AI/PersonalJobAgent.AI/Scripts/cover_letter_generator.py:414-436 | with the emptiness test made after dropping unnamed skills, the paragraph is the fixed sentence iff no skill has a name, and otherwise a list naming every named skill |
| CoverLetter.SkillsParagraphAgrees | src/PersonalJobAgent.AI/PersonalJobAgent.AI/Scripts/cover_letter_generator.py:414-436 | the code as written fails exactly when the skills are non-empty and all unnamed, and otherwise agrees with the corrected paragraph |
| CoverLetter.UnnamedSkillBreaksParagraph | src/PersonalJobAgent.AI/PersonalJobAgent.AI/Scripts/cover_letter_generator.py:414-436 | a profile whose only skill has no name reaches the failing index: nothing matches, padding picks that skill, and the paragraph fails |
| InterviewPrep.Shuffle | src/PersonalJobAgent.AI/PersonalJobAgent.AI/Scripts/interview_preparation.py:56 | random.shuffle returns a permutation of its input |
| InterviewPrep.Sample | src/PersonalJobAgent.AI/PersonalJobAgent.AI/Scripts/interview_preparation.py:257 | random.sample picks k distinct positions below n |
| InterviewPrep.SlicePrefix | src/PersonalJobAgent.AI/PersonalJobAgent.AI/Scripts/interview_preparation.py:59 | Python's s[:n] is a prefix of min(n, len) elements, and a negative n drops that many from the end |
| InterviewPrep.ExtractRequiredSkills | src/PersonalJobAgent.AI/PersonalJobAgent.AI/Scripts/interview_preparation.py:346-415 | an explicit "skills" list is returned unchanged; otherwise the scanned skills without duplicates, each one a scanned skill and every scanned skill present |
| InterviewPrep.TechnicalQuestions | src/PersonalJobAgent.AI/PersonalJobAgent.AI/Scripts/interview_preparation.py:215-239 | exactly one technical question per required skill, in skill order, each tagged with its skill, with valid template indices |
| InterviewPrep.SampledQuestions | src/PersonalJobAgent.AI/PersonalJobAgent.AI/Scripts/interview_preparation.py:252-344 | min(wanted, number of templates) questions of one kind, with pairwise distinct templates, each formatted with the same value |
| InterviewPrep.GenerateInterviewQuestions | src/PersonalJobAgent.AI/PersonalJobAgent.AI/Scripts/interview_preparation.py:23-59 | the questions are a cut of a shuffle of the pool: one technical question per required skill in skill order, then 5 behavioral, 2 company and 3 role questions, each block with distinct templates; the result holds only pool questions, min(count, pool size) of them (a negative count drops that many from the end), and the whole pool when count reaches its size; an explicit "skills" list is the required list, otherwise the required list holds each scanned skill exactly once |
| InterviewPrep.StrengthsMembers | src/PersonalJobAgent.AI/PersonalJobAgent.AI/Scripts/interview_preparation.py:630-635 | a strength is exactly a user skill related to some required skill by substring, ignoring case, in either direction |
| InterviewPrep.WeaknessesMembers | src/PersonalJobAgent.AI/PersonalJobAgent.AI/Scripts/interview_preparation.py:638-646 | a weakness is exactly a required skill to which no user skill is related |
| InterviewPrep.WeaknessIffNoStrength | src/PersonalJobAgent.AI/PersonalJobAgent.AI/Scripts/interview_preparation.py:630-646 | a required skill is a weakness iff no strength is related to it |
| InterviewPrep.FindStrengths | src/PersonalJobAgent.AI/PersonalJobAgent.AI/Scripts/interview_preparation.py:630-635 | the nested loop with its break computes the strengths in profile order |
| InterviewPrep.RelatedToAny | src/PersonalJobAgent.AI/PersonalJobAgent.AI/Scripts/interview_preparation.py:632-635 | the inner loop stops at a required skill iff one is related to the skill |
| InterviewPrep.FindWeaknesses | src/PersonalJobAgent.AI/PersonalJobAgent.AI/Scripts/interview_preparation.py:638-646 | the loop with its is_missing flag computes the weaknesses in required-skill order |
| InterviewPrep.IsMissing | src/PersonalJobAgent.AI/PersonalJobAgent.AI/Scripts/interview_preparation.py:640-644 | is_missing stays true iff no user skill is related to the required skill |
| InterviewPrep.StrengthTips | src/PersonalJobAgent.AI/PersonalJobAgent.AI/Scripts/interview_preparation.py:649-662 | exactly three strength tips: one per strength among the first three, then generic tips in their listed order |
| InterviewPrep.WeaknessTips | src/PersonalJobAgent.AI/PersonalJobAgent.AI/Scripts/interview_preparation.py:665-677 | exactly three weakness tips: one per weakness among the first two, then generic tips in their listed order |
| InterviewPrep.StrengthWeaknessTips | src/PersonalJobAgent.AI/PersonalJobAgent.AI/Scripts/interview_preparation.py:611-682 | the tips are built from the strengths and weaknesses of the profile's non-empty skill names |
| InterviewPrep.ResearchTips | src/PersonalJobAgent.AI/PersonalJobAgent.AI/Scripts/interview_preparation.py:558-566 | seven research tips |
| InterviewPrep.PresentationTips | src/PersonalJobAgent.AI/PersonalJobAgent.AI/Scripts/interview_preparation.py:575-586 | ten presentation tips |
| InterviewPrep.QuestionTips | src/PersonalJobAgent.AI/PersonalJobAgent.AI/Scripts/interview_preparation.py:598-609 | ten interviewer-question tips |
| InterviewPrep.GeneratePreparationTips | src/PersonalJobAgent.AI/PersonalJobAgent.AI/Scripts/interview_preparation.py:61-96 | research, presentation and question tips are always present, and strength_weakness_tips is present iff a non-empty profile is given, then with three tips of each kind: the strength tips of the profile's skills related to the required skills and the weakness tips of the required skills none relates to, the required list being the explicit "skills" list or each scanned skill exactly once |
| JobMatcher.IsDegreeSufficient | src/PersonalJobAgent.AI/PersonalJobAgent.AI/Scripts/job_matcher.py:591-614 | always true when the requirement is "", reflexive, and an unknown or empty user degree suffices only for a level-0 requirement |
| JobMatcher.DegreeSufficientTransitive | src/PersonalJobAgent.AI/PersonalJobAgent.AI/Scripts/job_matcher.py:603-614 | sufficiency is transitive |
| JobMatcher.DegreeSufficientTotal | src/PersonalJobAgent.AI/PersonalJobAgent.AI/Scripts/job_matcher.py:603-614 | any two degrees are comparable |
| JobMatcher.HierarchiesAgree | src/PersonalJobAgent.AI/PersonalJobAgent.AI/Scripts/job_matcher.py:549-554 | the hierarchy of _get_highest_degree and that of _is_degree_sufficient give every degree type the same positive level |
| JobMatcher.ClassifyFirstMatch | src/PersonalJobAgent.AI/PersonalJobAgent.AI/Scripts/job_matcher.py:563-568 | an entry gets the highest-level type it matches, and no type only when it matches none |
| JobMatcher.ClassifiedAs | src/PersonalJobAgent.AI/PersonalJobAgent.AI/Scripts/job_matcher.py:563-568 | the first matching type in hierarchy order is the classification |
| JobMatcher.MatchesByPattern | src/PersonalJobAgent.AI/PersonalJobAgent.AI/Scripts/job_matcher.py:564 | a pattern of a type found in the entry makes the entry match that type |
| JobMatcher.ClassifyEntry | src/PersonalJobAgent.AI/PersonalJobAgent.AI/Scripts/job_matcher.py:563-568 | the inner loop over the hierarchy, with its break, classifies the entry |
| JobMatcher.TopOfIsMaximum | src/PersonalJobAgent.AI/PersonalJobAgent.AI/Scripts/job_matcher.py:565-567 | the running maximum is none iff no entry classifies, and is otherwise the type of some entry with no entry of a higher level |
| JobMatcher.LowerAll | src/PersonalJobAgent.AI/PersonalJobAgent.AI/Scripts/job_matcher.py:560 | one lower-cased degree per entry |
| JobMatcher.ClassifyAll | src/PersonalJobAgent.AI/PersonalJobAgent.AI/Scripts/job_matcher.py:559-568 | one classification per entry |
| JobMatcher.GetHighestDegree | src/PersonalJobAgent.AI/PersonalJobAgent.AI/Scripts/job_matcher.py:538-570 | _get_highest_degree returns the name of the highest type among the classified entries, and "" when no entry names a degree |
| JobMatcher.UndergraduateNotPhD | src/PersonalJobAgent.AI/PersonalJobAgent.AI/Scripts/job_matcher.py:585 | no PhD pattern occurs in "undergraduate" |
| JobMatcher.GraduateNotAWord | src/PersonalJobAgent.AI/PersonalJobAgent.AI/Scripts/job_matcher.py:584 | "graduate" does not occur as a whole word in "undergraduate" |
| JobMatcher.UndergraduateNotMasterWord | src/PersonalJobAgent.AI/PersonalJobAgent.AI/Scripts/job_matcher.py:584 | read as whole words, no master pattern occurs in "undergraduate" |
| JobMatcher.UndergraduateMatchesMaster | src/PersonalJobAgent.AI/PersonalJobAgent.AI/Scripts/job_matcher.py:584 | the master pattern "graduate" is a substring of "undergraduate" |
| JobMatcher.UndergraduateMatchesBachelorWord | src/PersonalJobAgent.AI/PersonalJobAgent.AI/Scripts/job_matcher.py:583 | the bachelor pattern "undergraduate" occurs as a whole word in "undergraduate" |
| JobMatcher.UndergraduateRankedMaster | src/PersonalJobAgent.AI/PersonalJobAgent.AI/Scripts/job_matcher.py:563-568 | as written, an "undergraduate" entry is classified as master, although "undergraduate" is a bachelor pattern |
| JobMatcher.UndergraduateRankedBachelor | src/PersonalJobAgent.AI/PersonalJobAgent.AI/Scripts/job_matcher.py:563-568 | with patterns matched as whole words, "undergraduate" is classified as bachelor |
| JobMatcher.MatchesFor | src/PersonalJobAgent.AI/PersonalJobAgent.AI/Scripts/job_matcher.py:128-149 | at most one match per job skill, each naming a job skill together with the way (exact or partial) it matches the user skills |
| JobMatcher.MatchesForComplete | src/PersonalJobAgent.AI/PersonalJobAgent.AI/Scripts/job_matcher.py:129-149 | every job skill that matches exactly or partially is reported with that match type |
| JobMatcher.SumPointsBound | src/PersonalJobAgent.AI/PersonalJobAgent.AI/Scripts/job_matcher.py:155 | each match scores at most 1.0 |
| JobMatcher.SkillScore | src/PersonalJobAgent.AI/PersonalJobAgent.AI/Scripts/job_matcher.py:151-155 | the skill score is between 0 and 1 when there are at most as many matches as job skills |
| JobMatcher.CalculateSkillMatches | src/PersonalJobAgent.AI/PersonalJobAgent.AI/Scripts/job_matcher.py:108-157 | no matches when the job skills or the user skills are empty; otherwise the loop computes the match list over the lower-cased user skills, exact before partial |
| JobMatcher.FindPartial | src/PersonalJobAgent.AI/PersonalJobAgent.AI/Scripts/job_matcher.py:142-149 | the partial-match loop finds a user skill iff one contains the job skill or is contained in it |
| JobMatcher.FindYear | src/PersonalJobAgent.AI/PersonalJobAgent.AI/Scripts/job_matcher.py:380 | the leftmost year 19xx or 20xx between word boundaries at or after a position: a year found there has no year before it, and none is returned iff there is none |
| JobMatcher.YearRoundTrip | src/PersonalJobAgent.AI/PersonalJobAgent.AI/Scripts/job_matcher.py:370-383 | a date that is just a year gives that year back |
| JobMatcher.ExperienceYears | src/PersonalJobAgent.AI/PersonalJobAgent.AI/Scripts/job_matcher.py:340-368 | a given "duration_years" is returned as is; otherwise a non-empty start with no 19xx/20xx year, or an end date other than "Present" with none, gives 0; a missing or "Present" end counts as 2025 minus the start year; two found years give end minus start, within -199..199 |
| JobMatcher.ExperienceYearsOfYears | src/PersonalJobAgent.AI/PersonalJobAgent.AI/Scripts/job_matcher.py:355-366 | plain years subtract, and a missing or "Present" end date counts to 2025 |
| JobMatcher.NoStartNoYears | src/PersonalJobAgent.AI/PersonalJobAgent.AI/Scripts/job_matcher.py:358-359 | an entry with a missing or empty start date contributes nothing |
| JobMatcher.YearsOfExperienceMatch | src/PersonalJobAgent.AI/PersonalJobAgent.AI/Scripts/job_matcher.py:241-278 | no entry for a profile without experience; otherwise the entry records the requirement and the summed total years, matches iff nothing is required or the total reaches the requirement, with score 1.0 exactly then and total / required otherwise |
| JobMatcher.Scored | src/PersonalJobAgent.AI/PersonalJobAgent.AI/Scripts/job_matcher.py:49-57 | one result per listing |
| JobMatcher.MatchJobs | src/PersonalJobAgent.AI/PersonalJobAgent.AI/Scripts/job_matcher.py:47-62 | match_jobs returns every listing once with its own score, in non-increasing score order, and listings with equal scores keep their input order |

## Left out

- Async and `Task` plumbing, EF Core change tracking, and database identity
  generation are left out. The stores are maps with a fresh-id counter, and
  every operation runs to completion, one at a time.
- The LINQ sorts are modelled as stable. LINQ to Objects sorts stably, but an
  SQL `ORDER BY` over equal dates gives no order guarantee.
- A null `PostedDate` sorts after every date, as in a descending SQL sort.
  It is modelled as the key -1.
- Case folding covers ASCII letters only. C# `ToLower` and Python `lower`
  fold the whole of Unicode.
- Whitespace is what Python's `str.isspace` accepts in the ASCII range: space,
  tab, newline, carriage return, vertical tab, form feed and \x1c to \x1f.
  Non-ASCII whitespace such as \x85 or \xa0 is not whitespace here. Only the
  Python scripts strip or split on whitespace; no C# `Trim` is modelled.
- Word characters, for the `\b` word boundaries, are ASCII letters, digits
  and `_`, and a digit is an ASCII digit. Python's `\w` and `\d` also accept
  other Unicode letters and digits.
- Null strings are modelled as `Option` only where the code tests for null:
  the converters, notes, cover letters, locations, saved-search text and
  Python dictionary entries. Elsewhere the
  strings are always present.
- `(pageNumber - 1) * pageSize` is computed on unbounded integers. The 32-bit
  overflow that C# would wrap on is not modelled.
- `GetApplicationAsync`, `GetApplicationsAsync`, `GetWithJobListingsAsync`,
  `GetUserProfileAsync`, `UpdateUserProfileAsync`, `GetWithRelatedDataAsync`
  and `GetJobListingAsync` are left out. They are single lookups or
  pass-throughs to the store, and the modelled operations take their results
  as parameters.
- The AI gateway (`AIService`) is a parameter function. Its canned text and
  its random scores are not part of this model.
- The `JobSearchViewModel` commands `ApplyToJob` and `SaveJob`, the
  `CanExecute` predicates, `SelectedJob` and the platform selection are not
  modelled beyond the initial state. They delegate to services or only
  switch buttons on and off.
- The Python floating-point scores are left out: the weighted overall match
  score, the experience and education score ratios, the text similarity,
  and the semantic similarity with its embeddings and model loading.
- The regular-expression extractors of the Python scripts are left out:
  personal information, experience, education, description skills,
  required experience and education, responsibilities, years required, and
  achievement statements. They are parameters or uninterpreted inputs
  wherever a modelled operation consumes their results.
- Template texts, and the full letter and question text built from them,
  are represented by template indices and the values placed into them.
- The education-field comparison and the title similarity of
  `_calculate_experience_match` are left out. The years-of-experience part
  is modelled.
- `JobMatcher.MatchJobs` takes the match score as an integer-valued function
  of the listing, while the source computes a float. `match_details`
  is not modelled.
- `JobMatcher.CalculateSkillMatches` takes the user skill names as given.
  The source reads `skill["name"]`, which raises KeyError for a profile
  skill without a name; that error is not modelled.
- `Profiles.AddSkill`, `Profiles.AddWorkExperience` and
  `Profiles.AddEducation` treat the entry as a value. The source sets
  `UserProfileId` on the caller's own object before it dereferences the
  fetched profile, so on the null path the argument is already changed when
  the NullReferenceException is thrown, and on success the list holds the
  caller's object itself. The model returns the error without touching the
  argument and appends a copy; the aliasing is not captured.
- `Applications.ApplicationStore.Create` and the other store methods take
  each clock read as a parameter; nothing relates two reads to each other.
- `CoverLetter.Strength` takes proficiency and years of experience as
  integers. The resume parser stores proficiency as a string, and Python
  then raises TypeError when the padding adds it to a number; float values
  are also accepted by the source. Neither is modelled.
- `JobMatcher.SkillScore` states the bound of the skill ratio but not the
  weighting of the overall score, which uses floats.
- `JobMatcher.ExperienceYears` treats `duration_years` as an integer, while
  the source converts it with `float()`. An `end_date` that is present but
  JSON null, on which the source raises, is not modelled.
- `InterviewPrep.ExtractRequiredSkills` fixes no order for the scanned
  skills, because Python iterates a set in an arbitrary order. It states
  only membership and the absence of duplicates.
- `WorkExperience.DurationInYears` divides by 365.25 in floating point and is
  left out.

## Findings

| source | as written | input that shows it | evidently intended | confidence | as-written member | corrected member |
|---|---|---|---|---|---|---|
| src/PersonalJobAgent.AI/PersonalJobAgent.AI/Scripts/cover_letter_generator.py:414-436 | the test for an empty list comes before unnamed skills are dropped, so with skills but no names, `skill_names[-1]` indexes an empty list | a profile whose only skill is `{"proficiency": 3}`, with required skill "python": matching pads with that skill, and the paragraph raises IndexError | the generic sentence whenever no highlighted skill has a name | not executed | CoverLetter.UnnamedSkillBreaksParagraph | CoverLetter.SkillsParagraphSpec |
| src/PersonalJobAgent.AI/PersonalJobAgent.AI/Scripts/job_matcher.py:559-568 | degree patterns are matched as substrings, and master (with its pattern "graduate", line 584) is tried before bachelor | the education degree "undergraduate", itself a bachelor pattern (line 583), is ranked a master's degree | patterns matched as whole words, which ranks "undergraduate" as a bachelor's degree | not executed | JobMatcher.UndergraduateRankedMaster | JobMatcher.UndergraduateRankedBachelor |

The model computes both readings. `CoverLetter.SkillsParagraphAsWritten` follows the code, and `CoverLetter.SkillsParagraphOf` applies the emptiness test after the names are filtered. `JobMatcher.GetHighestDegree` takes the pattern test as a parameter: `Substring` is the code as written and `WholeWord` is the corrected reading.
