/** ApplicationService and ApplicationRepository: creating applications,
    recording status changes with a note log, and the per-profile queries. */
module Applications {
  import opened Wrappers
  import opened Text
  import opened Ordering
  import opened Entities

  // ---------------------------------------------------------------- note log

  /** The note log after a status update made through ApplicationService:
      a null or empty note changes nothing, a first note replaces empty Notes,
      and later notes are appended under a "{ts} - {status}:" heading. */
  function ServiceNotes(existing: Option<string>, notes: Option<string>, ts: string, status: string)
    : (r: Option<string>)
    ensures IsNullOrEmpty(notes) ==> r == existing
    ensures !IsNullOrEmpty(notes) && IsNullOrEmpty(existing) ==> r == notes
    ensures !IsNullOrEmpty(notes) && !IsNullOrEmpty(existing) ==>
              r.Some? && |r.value| == |existing.value| + 2 + |ts| + 3 + |status| + 2 + |notes.value|
  {
    if IsNullOrEmpty(notes) then existing
    else if IsNullOrEmpty(existing) then notes
    else Some(existing.value + "\n\n" + ts + " - " + status + ":\n" + notes.value)
  }

  /** The note log after ApplicationRepository.UpdateStatusAsync: the same
      rule with a "{ts}: " prefix and no status. */
  function RepositoryNotes(existing: Option<string>, notes: Option<string>, ts: string): (r: Option<string>)
    ensures IsNullOrEmpty(notes) ==> r == existing
    ensures !IsNullOrEmpty(notes) && IsNullOrEmpty(existing) ==> r == notes
    ensures !IsNullOrEmpty(notes) && !IsNullOrEmpty(existing) ==>
              r.Some? && |r.value| == |existing.value| + 2 + |ts| + 2 + |notes.value|
  {
    if IsNullOrEmpty(notes) then existing
    else if IsNullOrEmpty(existing) then notes
    else Some(existing.value + "\n\n" + ts + ": " + notes.value)
  }

  /** The log only grows: earlier non-empty Notes survive as a prefix, and a
      non-empty new note ends the log. */
  lemma ServiceNotesKeepHistory(existing: Option<string>, notes: Option<string>, ts: string, status: string)
    ensures var r := ServiceNotes(existing, notes, ts, status);
            && (!IsNullOrEmpty(existing) ==> r.Some? && existing.value <= r.value)
            && (!IsNullOrEmpty(notes) ==>
                  r.Some? && |notes.value| <= |r.value| && r.value[|r.value| - |notes.value|..] == notes.value)
  {
    if !IsNullOrEmpty(notes) && !IsNullOrEmpty(existing) {
      var e := existing.value;
      var r := ServiceNotes(existing, notes, ts, status).value;
      var mid := "\n\n" + ts + " - " + status + ":\n";
      assert r == e + mid + notes.value;
      assert r == (e + mid) + notes.value;
      assert r[..|e|] == e;
    }
  }

  lemma RepositoryNotesKeepHistory(existing: Option<string>, notes: Option<string>, ts: string)
    ensures var r := RepositoryNotes(existing, notes, ts);
            && (!IsNullOrEmpty(existing) ==> r.Some? && existing.value <= r.value)
            && (!IsNullOrEmpty(notes) ==>
                  r.Some? && |notes.value| <= |r.value| && r.value[|r.value| - |notes.value|..] == notes.value)
  {
    if !IsNullOrEmpty(notes) && !IsNullOrEmpty(existing) {
      var e := existing.value;
      var r := RepositoryNotes(existing, notes, ts).value;
      var mid := "\n\n" + ts + ": ";
      assert r == (e + mid) + notes.value;
      assert r[..|e|] == e;
    }
  }

  /** The two code paths write different logs for the same append: the
      service's heading is always longer by the status and three characters. */
  lemma NoteFormatsDiffer(existing: Option<string>, notes: Option<string>, ts: string, status: string)
    requires !IsNullOrEmpty(existing) && !IsNullOrEmpty(notes)
    ensures ServiceNotes(existing, notes, ts, status) != RepositoryNotes(existing, notes, ts)
  {
  }

  // ---------------------------------------------------------------- queries

  /** GetByUserProfileIdAsync: the profile's applications, newest first. */
  function ByProfile(rows: seq<Application>, userProfileId: int): (r: seq<Application>)
    ensures NonIncreasing(r, ApplicationDateKey)
    ensures multiset(r) == multiset(Filter(rows, (a: Application) => a.userProfileId == userProfileId))
  {
    SortDesc(Filter(rows, (a: Application) => a.userProfileId == userProfileId), ApplicationDateKey)
  }

  /** Exactly the profile's applications are listed. */
  lemma ByProfileMembers(rows: seq<Application>, userProfileId: int)
    ensures forall a :: a in ByProfile(rows, userProfileId) <==> a in rows && a.userProfileId == userProfileId
  {
    var p := (a: Application) => a.userProfileId == userProfileId;
    var f := Filter(rows, p);
    var r := ByProfile(rows, userProfileId);
    FilterMembers(rows, p);
    forall a ensures a in r <==> a in f {
      assert a in r <==> a in multiset(r);
      assert a in f <==> a in multiset(f);
    }
  }

  /** GetByStatusAsync: exact status match for the profile, newest first. */
  function ByStatusExact(rows: seq<Application>, userProfileId: int, status: string): (r: seq<Application>)
    ensures NonIncreasing(r, ApplicationDateKey)
  {
    SortDesc(Filter(rows, (a: Application) => a.userProfileId == userProfileId && a.status == status),
             ApplicationDateKey)
  }

  /** GetByStatusAsync is GetByUserProfileIdAsync with the status filter
      applied afterwards: same elements, same order. */
  lemma ByStatusExactRefinesByProfile(rows: seq<Application>, userProfileId: int, status: string)
    ensures ByStatusExact(rows, userProfileId, status)
         == Filter(ByProfile(rows, userProfileId), (a: Application) => a.status == status)
  {
    var byUser := (a: Application) => a.userProfileId == userProfileId;
    var byStatus := (a: Application) => a.status == status;
    var both := (a: Application) => a.userProfileId == userProfileId && a.status == status;
    SortDescFilter(Filter(rows, byUser), byStatus, ApplicationDateKey);
    FilterFilter(rows, byUser, byStatus, both);
  }

  /** Two Where clauses in a row are one Where with the conjunction. */
  lemma {:induction false} FilterFilter(s: seq<Application>, p: Application -> bool, q: Application -> bool,
                                        pq: Application -> bool)
    requires forall a :: pq(a) == (p(a) && q(a))
    ensures Filter(Filter(s, p), q) == Filter(s, pq)
  {
    if s != [] {
      FilterFilter(s[1..], p, q, pq);
      FilterUnfold(s, p);
      FilterUnfold(s, pq);
      if p(s[0]) {
        FilterCons(s[0], Filter(s[1..], p), q);
      }
    }
  }

  /** ApplicationService.GetApplicationsByStatusAsync: the profile's
      applications, in the order the repository returns them, whose status
      equals the argument ignoring case. */
  function ByStatusIgnoreCase(rows: seq<Application>, userProfileId: int, status: string): seq<Application>
  {
    Filter(ByProfile(rows, userProfileId), (a: Application) => EqualsIgnoreCase(a.status, status))
  }

  /** The case-insensitive service query returns everything the exact
      repository query returns, and more only when spellings differ in case. */
  lemma ByStatusIgnoreCaseMembers(rows: seq<Application>, userProfileId: int, status: string)
    ensures forall a :: a in ByStatusIgnoreCase(rows, userProfileId, status) <==>
              a in rows && a.userProfileId == userProfileId && EqualsIgnoreCase(a.status, status)
    ensures forall a :: a in ByStatusExact(rows, userProfileId, status) ==>
              a in ByStatusIgnoreCase(rows, userProfileId, status)
  {
    var ci := (a: Application) => EqualsIgnoreCase(a.status, status);
    var ex := (a: Application) => a.status == status;
    var bp := ByProfile(rows, userProfileId);
    ByProfileMembers(rows, userProfileId);
    FilterMembers(bp, ci);
    FilterMembers(bp, ex);
    ByStatusExactRefinesByProfile(rows, userProfileId, status);
    forall a | a in ByStatusIgnoreCase(rows, userProfileId, status)
      ensures EqualsIgnoreCase(a.status, status)
    {
      var i :| 0 <= i < |Filter(bp, ci)| && Filter(bp, ci)[i] == a;
    }
    forall a | a in Filter(bp, ex) ensures a.status == status {
      var i :| 0 <= i < |Filter(bp, ex)| && Filter(bp, ex)[i] == a;
    }
  }

  /** GetRecentApplicationsAsync: the `count` newest of the profile's
      applications. */
  function Recent(rows: seq<Application>, userProfileId: int, count: int): (r: seq<Application>)
    ensures count >= 0 ==> |r| == if count < |ByProfile(rows, userProfileId)| then count else |ByProfile(rows, userProfileId)|
    ensures count < 0 ==> r == []
    ensures NonIncreasing(r, ApplicationDateKey)
    ensures r <= ByProfile(rows, userProfileId)
  {
    var all := ByProfile(rows, userProfileId);
    SortDescSorted(all, ApplicationDateKey);
    TakePrefix(all, count, ApplicationDateKey, (a: Application) => a.id);
    Take(SortDesc(all, ApplicationDateKey), count)
  }

  /** A recent application is no older than any application left out. */
  lemma RecentAreNewest(rows: seq<Application>, userProfileId: int, count: int)
    ensures var all := ByProfile(rows, userProfileId);
            var r := Recent(rows, userProfileId, count);
            forall i, j :: 0 <= i < |r| && |r| <= j < |all| ==> r[i].applicationDate >= all[j].applicationDate
  {
    var all := ByProfile(rows, userProfileId);
    SortDescSorted(all, ApplicationDateKey);
  }

  // ---------------------------------------------------------------- AI calls

  /** GenerateCoverLetterAsync: with the profile or the listing missing the
      result is null and the generator is not consulted. */
  function CoverLetter<P>(profile: Option<P>, listing: Option<Listing>, generate: (P, Listing) -> string)
    : (r: Option<string>)
    ensures r.None? <==> profile.None? || listing.None?
    ensures r.Some? ==> r.value == generate(profile.value, listing.value)
  {
    if profile.None? || listing.None? then None
    else Some(generate(profile.value, listing.value))
  }

  /** GetInterviewPreparationAsync: null unless the application, its profile
      and its listing are all found. */
  function InterviewPreparation<P>(apps: map<int, Application>, profiles: map<int, P>,
                                   listings: map<int, Listing>, applicationId: int,
                                   prepare: (P, Listing) -> string): (r: Option<string>)
    ensures r.Some? <==> applicationId in apps && apps[applicationId].userProfileId in profiles
                         && apps[applicationId].jobListingId in listings
    ensures r.Some? ==> r.value == prepare(profiles[apps[applicationId].userProfileId],
                                           listings[apps[applicationId].jobListingId])
  {
    if applicationId !in apps then None
    else
      var a := apps[applicationId];
      if a.userProfileId !in profiles || a.jobListingId !in listings then None
      else Some(prepare(profiles[a.userProfileId], listings[a.jobListingId]))
  }

  // ---------------------------------------------------------------- the store

  datatype RepositoryError = ApplicationNotFound(applicationId: int)

  /** The Applications table. */
  class ApplicationStore {
    var apps: map<int, Application>
    var nextId: int

    ghost predicate Valid()
      reads this
    {
      nextId >= 1 && forall k :: k in apps ==> 1 <= k < nextId && apps[k].id == k
    }

    constructor ()
      ensures Valid() && apps == map[] && nextId == 1
    {
      apps := map[];
      nextId := 1;
    }

    /** CreateApplicationAsync: one new record with Status "Applied", the
        cover letter and notes as given, and its two dates taken from two
        separate clock reads, `appliedAt` then `updatedAt`, which need not
        be equal. */
    method Create(userProfileId: int, jobListingId: int, coverLetter: Option<string>,
                  notes: Option<string>, appliedAt: int, updatedAt: int) returns (a: Application)
      requires Valid()
      modifies this
      ensures Valid()
      ensures a.id == old(nextId) && a.id !in old(apps)
      ensures a.userProfileId == userProfileId && a.jobListingId == jobListingId
      ensures a.status == "Applied" && a.applicationDate == appliedAt && a.lastUpdated == updatedAt
      ensures a.coverLetter == coverLetter && a.notes == notes
      ensures apps == old(apps)[a.id := a]
    {
      a := Application(nextId, userProfileId, jobListingId, appliedAt, "Applied", coverLetter, notes, updatedAt);
      apps := apps[nextId := a];
      nextId := nextId + 1;
    }

    /** ApplicationService.UpdateApplicationStatusAsync: null for an unknown
        id; otherwise any status string is accepted, the note log follows
        ServiceNotes and LastUpdated is refreshed. */
    method UpdateApplicationStatus(applicationId: int, status: string, notes: Option<string>,
                                   now: int, nowText: string) returns (r: Option<Application>)
      requires Valid()
      modifies this
      ensures Valid() && nextId == old(nextId)
      ensures applicationId !in old(apps) ==> r.None? && apps == old(apps)
      ensures applicationId in old(apps) ==>
                var a := old(apps)[applicationId];
                r == Some(a.(status := status,
                             notes := ServiceNotes(a.notes, notes, nowText, status),
                             lastUpdated := now))
                && apps == old(apps)[applicationId := r.value]
    {
      if applicationId !in apps {
        return None;
      }
      var a := apps[applicationId];
      var updated := a.(status := status, notes := ServiceNotes(a.notes, notes, nowText, status),
                        lastUpdated := now);
      apps := apps[applicationId := updated];
      r := Some(updated);
    }

    /** ApplicationRepository.UpdateStatusAsync: an unknown id is an
        ArgumentException and nothing is written; otherwise only the target
        record changes. */
    method UpdateStatus(applicationId: int, status: string, notes: Option<string>,
                        now: int, nowText: string) returns (r: Result<Application, RepositoryError>)
      requires Valid()
      modifies this
      ensures Valid() && nextId == old(nextId)
      ensures applicationId !in old(apps) ==>
                r == Err(ApplicationNotFound(applicationId)) && apps == old(apps)
      ensures applicationId in old(apps) ==>
                var a := old(apps)[applicationId];
                r == Ok(a.(status := status, lastUpdated := now,
                           notes := RepositoryNotes(a.notes, notes, nowText)))
                && apps == old(apps)[applicationId := r.value]
      ensures forall k :: k in old(apps) && k != applicationId ==> k in apps && apps[k] == old(apps)[k]
    {
      if applicationId !in apps {
        return Err(ApplicationNotFound(applicationId));
      }
      var a := apps[applicationId];
      var updated := a.(status := status, lastUpdated := now,
                        notes := RepositoryNotes(a.notes, notes, nowText));
      apps := apps[applicationId := updated];
      r := Ok(updated);
    }
  }
}
