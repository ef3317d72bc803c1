/** UserProfileRepository.UpdateSkillsAsync: reconciling the Skills table
    with the list of skills a user now has. */
module SkillReconciliation {
  import opened Wrappers
  import opened Entities
  import opened Profiles
  import Ordering

  /** The Skills table: rows by Id and the next identity value. */
  datatype Table = Table(rows: map<int, Skill>, nextId: int)

  /** Every row's Id is its key and lies below the next identity value. */
  predicate TableValid(t: Table)
  {
    t.nextId >= 1 && forall k :: k in t.rows ==> k < t.nextId && t.rows[k].id == k
  }

  /** The ids of the rows the user owns. */
  function UserIds(rows: map<int, Skill>, userId: int): set<int>
  {
    set k | k in rows && rows[k].userProfileId == userId
  }

  /** The ids the new list mentions. */
  function GivenIds(skills: seq<Skill>): set<int>
  {
    set i | 0 <= i < |skills| :: skills[i].id
  }

  /** The first loop: the user's rows whose Id the new list does not mention
      are removed. */
  function AfterRemoval(rows: map<int, Skill>, existing: set<int>, skills: seq<Skill>): map<int, Skill>
  {
    rows - (existing - GivenIds(skills))
  }

  /** One pass of the second loop. A skill whose Id is one of the user's
      existing ids has Name, Level and Category copied onto that row; any
      other skill is inserted for the user, under a generated Id when its Id
      is 0. An insert whose explicit Id is already a key fails (None). */
  function Step(t: Table, existing: set<int>, userId: int, s: Skill): (r: Option<Table>)
    ensures r.Some? ==> r.value.nextId >= t.nextId
    ensures r.Some? && TableValid(t) ==> TableValid(r.value)
  {
    if s.id in existing then
      // ids on the new list are never removed, so the row is present
      Some(if s.id in t.rows then Table(t.rows[s.id := CopySkill(t.rows[s.id], s)], t.nextId) else t)
    else if s.id == 0 then
      Some(Table(t.rows[t.nextId := s.(id := t.nextId, userProfileId := userId)], t.nextId + 1))
    else if s.id in t.rows then
      None
    else
      Some(Table(t.rows[s.id := s.(userProfileId := userId)], if s.id >= t.nextId then s.id + 1 else t.nextId))
  }

  /** The second loop over the whole list, in list order. */
  function Apply(t: Table, existing: set<int>, userId: int, skills: seq<Skill>): (r: Option<Table>)
    ensures r.Some? ==> r.value.nextId >= t.nextId
    ensures r.Some? && TableValid(t) ==> TableValid(r.value)
  {
    if skills == [] then Some(t)
    else match Apply(t, existing, userId, skills[..|skills| - 1])
         case None => None
         case Some(t1) => Step(t1, existing, userId, skills[|skills| - 1])
  }

  /** Both loops: None when the save would fail on a duplicate key. */
  function Reconcile(t: Table, userId: int, skills: seq<Skill>): Option<Table>
  {
    var existing := UserIds(t.rows, userId);
    Apply(Table(AfterRemoval(t.rows, existing, skills), t.nextId), existing, userId, skills)
  }

  /** The last skill on the list with Id `k`: the one whose fields win. */
  function LastWithId(skills: seq<Skill>, k: int): (r: Option<Skill>)
    ensures r.Some? ==> r.value in skills && r.value.id == k
    ensures r.None? <==> k !in GivenIds(skills)
  {
    if skills == [] then None
    else if skills[|skills| - 1].id == k then Some(skills[|skills| - 1])
    else
      var init := skills[..|skills| - 1];
      assert GivenIds(skills) == GivenIds(init) + {skills[|skills| - 1].id} by {
        assert forall i :: 0 <= i < |init| ==> init[i] == skills[i];
      }
      LastWithId(init, k)
  }

  lemma GivenIdsSnoc(skills: seq<Skill>)
    requires skills != []
    ensures GivenIds(skills) == GivenIds(skills[..|skills| - 1]) + {skills[|skills| - 1].id}
  {
    var init := skills[..|skills| - 1];
    assert forall i :: 0 <= i < |init| ==> init[i] == skills[i];
  }

  // ------------------------------------------------------- properties

  /** Rows of other users are never touched. */
  lemma {:induction false} ApplyKeepsOthers(t: Table, existing: set<int>, userId: int, skills: seq<Skill>, k: int)
    requires TableValid(t) && k in t.rows && k !in existing
    requires Apply(t, existing, userId, skills).Some?
    ensures var r := Apply(t, existing, userId, skills).value;
            k in r.rows && r.rows[k] == t.rows[k]
  {
    if skills != [] {
      ApplyKeepsOthers(t, existing, userId, skills[..|skills| - 1], k);
    }
  }

  lemma ReconcileKeepsOthers(t: Table, userId: int, skills: seq<Skill>, k: int)
    requires TableValid(t) && Reconcile(t, userId, skills).Some?
    requires k in t.rows && t.rows[k].userProfileId != userId
    ensures var r := Reconcile(t, userId, skills).value;
            k in r.rows && r.rows[k] == t.rows[k]
  {
    var existing := UserIds(t.rows, userId);
    ApplyKeepsOthers(Table(AfterRemoval(t.rows, existing, skills), t.nextId), existing, userId, skills, k);
  }

  /** A key below the starting identity value that is absent stays absent,
      unless the list inserts it explicitly. */
  lemma {:induction false} ApplyKeepsAbsent(t: Table, existing: set<int>, userId: int, skills: seq<Skill>, k: int)
    requires TableValid(t) && k !in t.rows && k < t.nextId && (k in existing || k !in GivenIds(skills))
    requires Apply(t, existing, userId, skills).Some?
    ensures k !in Apply(t, existing, userId, skills).value.rows
  {
    if skills != [] {
      GivenIdsSnoc(skills);
      ApplyKeepsAbsent(t, existing, userId, skills[..|skills| - 1], k);
    }
  }

  /** The user's rows whose Id the list does not mention are gone. */
  lemma ReconcileRemovesAbsent(t: Table, userId: int, skills: seq<Skill>, k: int)
    requires TableValid(t) && Reconcile(t, userId, skills).Some?
    requires k in t.rows && t.rows[k].userProfileId == userId && k !in GivenIds(skills)
    ensures k !in Reconcile(t, userId, skills).value.rows
  {
    var existing := UserIds(t.rows, userId);
    ApplyKeepsAbsent(Table(AfterRemoval(t.rows, existing, skills), t.nextId), existing, userId, skills, k);
  }

  /** A row the user already had and the list mentions takes Name, Level and
      Category from the last mention and keeps everything else. */
  lemma {:induction false} ApplyUpdatesMatched(t: Table, existing: set<int>, userId: int, skills: seq<Skill>, k: int)
    requires TableValid(t) && k in t.rows && k in existing
    requires Apply(t, existing, userId, skills).Some?
    ensures var r := Apply(t, existing, userId, skills).value;
            k in r.rows
            && r.rows[k] == match LastWithId(skills, k)
                            case None => t.rows[k]
                            case Some(s) => CopySkill(t.rows[k], s)
  {
    if skills != [] {
      ApplyUpdatesMatched(t, existing, userId, skills[..|skills| - 1], k);
    }
  }

  lemma ReconcileUpdatesMatched(t: Table, userId: int, skills: seq<Skill>, k: int)
    requires TableValid(t) && Reconcile(t, userId, skills).Some?
    requires k in t.rows && t.rows[k].userProfileId == userId && k in GivenIds(skills)
    ensures var r := Reconcile(t, userId, skills).value;
            k in r.rows && LastWithId(skills, k).Some?
            && r.rows[k] == CopySkill(t.rows[k], LastWithId(skills, k).value)
  {
    var existing := UserIds(t.rows, userId);
    ApplyUpdatesMatched(Table(AfterRemoval(t.rows, existing, skills), t.nextId), existing, userId, skills, k);
  }

  /** A skill with an explicit Id the user did not have is stored under that
      Id, owned by the user. */
  lemma {:induction false} ApplyAddsNew(t: Table, existing: set<int>, userId: int, skills: seq<Skill>, i: int)
    requires TableValid(t) && 0 <= i < |skills|
    requires skills[i].id != 0 && skills[i].id !in existing
    requires Apply(t, existing, userId, skills).Some?
    ensures var r := Apply(t, existing, userId, skills).value;
            skills[i].id in r.rows && r.rows[skills[i].id] == skills[i].(userProfileId := userId)
  {
    var n := |skills| - 1;
    var init := skills[..n];
    var t1 := Apply(t, existing, userId, init).value;
    if i < n {
      assert init[i] == skills[i];
      ApplyAddsNew(t, existing, userId, init, i);
      assert skills[i].id < t1.nextId;
    }
  }

  lemma ReconcileAddsNew(t: Table, userId: int, skills: seq<Skill>, i: int)
    requires TableValid(t) && Reconcile(t, userId, skills).Some? && 0 <= i < |skills|
    requires skills[i].id != 0 && skills[i].id !in UserIds(t.rows, userId)
    ensures var r := Reconcile(t, userId, skills).value;
            skills[i].id in r.rows && r.rows[skills[i].id] == skills[i].(userProfileId := userId)
  {
    var existing := UserIds(t.rows, userId);
    ApplyAddsNew(Table(AfterRemoval(t.rows, existing, skills), t.nextId), existing, userId, skills, i);
  }

  /** A listed skill with Id 0 the user did not have is inserted under a
      generated Id at or above the starting identity value, owned by the
      user. Later skills cannot overwrite that row: updates touch only the
      user's existing keys, generated keys grow, and an explicit insert on a
      taken key fails. */
  lemma {:induction false} ApplyAddsGenerated(t: Table, existing: set<int>, userId: int, skills: seq<Skill>, i: int)
    requires TableValid(t) && 0 <= i < |skills|
    requires skills[i].id == 0 && 0 !in existing
    requires forall e :: e in existing ==> e < t.nextId
    requires Apply(t, existing, userId, skills).Some?
    ensures var r := Apply(t, existing, userId, skills).value;
            exists k :: t.nextId <= k && k in r.rows && r.rows[k] == skills[i].(id := k, userProfileId := userId)
  {
    var n := |skills| - 1;
    var init := skills[..n];
    var t1 := Apply(t, existing, userId, init).value;
    var r := Apply(t, existing, userId, skills).value;
    if i < n {
      assert init[i] == skills[i];
      ApplyAddsGenerated(t, existing, userId, init, i);
      var k :| t.nextId <= k && k in t1.rows && t1.rows[k] == skills[i].(id := k, userProfileId := userId);
      assert k in r.rows && r.rows[k] == t1.rows[k];
    } else {
      assert t1.nextId in r.rows && r.rows[t1.nextId] == skills[i].(id := t1.nextId, userProfileId := userId);
    }
  }

  lemma ReconcileAddsGenerated(t: Table, userId: int, skills: seq<Skill>, i: int)
    requires TableValid(t) && Reconcile(t, userId, skills).Some? && 0 <= i < |skills|
    requires skills[i].id == 0 && 0 !in UserIds(t.rows, userId)
    ensures var r := Reconcile(t, userId, skills).value;
            exists k :: t.nextId <= k && k in r.rows && r.rows[k] == skills[i].(id := k, userProfileId := userId)
  {
    var existing := UserIds(t.rows, userId);
    ApplyAddsGenerated(Table(AfterRemoval(t.rows, existing, skills), t.nextId), existing, userId, skills, i);
  }

  /** Key `k` holds a listed Id-0 skill stored under a generated Id at or
      above `from`, owned by the user. */
  ghost predicate GeneratedAt(rows: map<int, Skill>, from: int, userId: int, skills: seq<Skill>, k: int)
  {
    from <= k && k in rows
    && exists i :: 0 <= i < |skills| && skills[i].id == 0 && rows[k] == skills[i].(id := k, userProfileId := userId)
  }

  /** No skill on the list asks for a generated Id. */
  predicate NoNewIds(skills: seq<Skill>)
  {
    forall i :: 0 <= i < |skills| ==> skills[i].id != 0
  }

  /** Every row after the second loop was there before with the same owner,
      is a listed skill inserted for the user under its explicit Id, or is a
      listed Id-0 skill inserted for the user under a generated Id. */
  lemma {:induction false} ApplyOwners(t: Table, existing: set<int>, userId: int, skills: seq<Skill>)
    requires TableValid(t) && forall e :: e in existing ==> e < t.nextId
    requires Apply(t, existing, userId, skills).Some?
    ensures var r := Apply(t, existing, userId, skills).value;
            forall k :: k in r.rows ==>
              (k in t.rows && r.rows[k].userProfileId == t.rows[k].userProfileId)
              || (k != 0 && k in GivenIds(skills) && k !in existing && r.rows[k].userProfileId == userId)
              || (k !in t.rows && GeneratedAt(r.rows, t.nextId, userId, skills, k))
  {
    if skills != [] {
      var init := skills[..|skills| - 1];
      GivenIdsSnoc(skills);
      ApplyOwners(t, existing, userId, init);
      var t1 := Apply(t, existing, userId, init).value;
      var r := Apply(t, existing, userId, skills).value;
      forall k | k in r.rows && k in t1.rows && k !in t.rows && GeneratedAt(t1.rows, t.nextId, userId, init, k)
        ensures GeneratedAt(r.rows, t.nextId, userId, skills, k)
      {
        var j :| 0 <= j < |init| && init[j].id == 0 && t1.rows[k] == init[j].(id := k, userProfileId := userId);
        assert init[j] == skills[j];
        assert r.rows[k] == t1.rows[k];
      }
      var s := skills[|skills| - 1];
      if s.id !in existing && s.id == 0 {
        assert r.rows[t1.nextId] == skills[|skills| - 1].(id := t1.nextId, userProfileId := userId);
        assert GeneratedAt(r.rows, t.nextId, userId, skills, t1.nextId);
      }
    }
  }

  /** The user's ids afterwards: exactly the listed ids (0 only when the
      user already had a row with key 0) and the generated ids of listed
      Id-0 skills. Without Id-0 skills, exactly the listed ids. */
  lemma ReconcileUserIds(t: Table, userId: int, skills: seq<Skill>)
    requires TableValid(t) && Reconcile(t, userId, skills).Some?
    ensures var r := Reconcile(t, userId, skills).value;
            forall k :: k in UserIds(r.rows, userId)
                        <==> (k in GivenIds(skills) && (k != 0 || k in UserIds(t.rows, userId)))
                             || GeneratedAt(r.rows, t.nextId, userId, skills, k)
    ensures NoNewIds(skills) ==> UserIds(Reconcile(t, userId, skills).value.rows, userId) == GivenIds(skills)
  {
    var r := Reconcile(t, userId, skills).value;
    var existing := UserIds(t.rows, userId);
    var base := AfterRemoval(t.rows, existing, skills);
    ApplyOwners(Table(base, t.nextId), existing, userId, skills);
    forall k | k in GivenIds(skills) && (k != 0 || k in existing)
      ensures k in UserIds(r.rows, userId)
    {
      var i :| 0 <= i < |skills| && skills[i].id == k;
      if k in existing {
        ReconcileUpdatesMatched(t, userId, skills, k);
      } else {
        ReconcileAddsNew(t, userId, skills, i);
      }
    }
    forall k | k in UserIds(r.rows, userId)
      ensures (k in GivenIds(skills) && (k != 0 || k in existing)) || GeneratedAt(r.rows, t.nextId, userId, skills, k)
    {
      assert k in base ==> k in t.rows && base[k] == t.rows[k] && k !in existing - GivenIds(skills);
    }
    if NoNewIds(skills) {
      forall k
        ensures k in UserIds(r.rows, userId) <==> k in GivenIds(skills)
      {
        assert !GeneratedAt(r.rows, t.nextId, userId, skills, k);
        assert k in GivenIds(skills) ==> k != 0;
      }
      assert UserIds(r.rows, userId) == GivenIds(skills);
    }
  }

  // ------------------------------------------------------- the table

  datatype RepositoryError = UserNotFound(userId: int) | DuplicateKey

  class SkillTable {
    var rows: map<int, Skill>
    var nextId: int

    ghost predicate Valid()
      reads this
    {
      TableValid(Table(rows, nextId))
    }

    constructor ()
      ensures Valid() && rows == map[] && nextId == 1
    {
      rows := map[];
      nextId := 1;
    }

    /** The first loop of UpdateSkillsAsync: each of the user's rows whose
        Id is not among `given` is removed. */
    method RemoveUnlisted(existing: set<int>, given: set<int>)
      requires Valid()
      modifies this
      ensures Valid()
      ensures rows == old(rows) - (existing - given) && nextId == old(nextId)
    {
      var pending := existing;
      while pending != {}
        invariant pending <= existing && nextId == old(nextId)
        invariant rows == old(rows) - ((existing - pending) - given)
        invariant Valid()
        decreases |pending|
      {
        if forall k :: k !in pending {
          Ordering.NoMemberIsEmpty(pending);
        }
        var k :| k in pending;
        if k !in given {
          rows := rows - {k};
        }
        pending := pending - {k};
      }
    }

    /** UpdateSkillsAsync. An unknown user is an ArgumentException; a
        duplicate key makes the save fail; in both cases nothing changes.
        Otherwise the table becomes Reconcile of the old table. */
    method UpdateSkills(profileIds: set<int>, userId: int, skills: seq<Skill>)
      returns (r: Result<(), RepositoryError>)
      requires Valid()
      modifies this
      ensures Valid()
      ensures userId !in profileIds ==>
                r == Err(UserNotFound(userId)) && rows == old(rows) && nextId == old(nextId)
      ensures userId in profileIds && Reconcile(Table(old(rows), old(nextId)), userId, skills).None? ==>
                r == Err(DuplicateKey) && rows == old(rows) && nextId == old(nextId)
      ensures userId in profileIds && Reconcile(Table(old(rows), old(nextId)), userId, skills).Some? ==>
                r == Ok(()) && Table(rows, nextId) == Reconcile(Table(old(rows), old(nextId)), userId, skills).value
    {
      if userId !in profileIds {
        return Err(UserNotFound(userId));
      }
      var savedRows, savedNext := rows, nextId;
      var existing := UserIds(rows, userId);
      var given := GivenIds(skills);

      // remove skills that are no longer in the list
      RemoveUnlisted(existing, given);
      assert rows == AfterRemoval(savedRows, existing, skills);

      // add or update skills
      ghost var start := Table(rows, savedNext);
      var i := 0;
      while i < |skills|
        invariant 0 <= i <= |skills|
        invariant Apply(start, existing, userId, skills[..i]) == Some(Table(rows, nextId))
        invariant TableValid(Table(rows, nextId))
      {
        var s := skills[i];
        ApplyPrefixStep(start, existing, userId, skills, i);
        if s.id in existing {
          if s.id in rows {
            rows := rows[s.id := CopySkill(rows[s.id], s)];
          }
        } else if s.id == 0 {
          rows := rows[nextId := s.(id := nextId, userProfileId := userId)];
          nextId := nextId + 1;
        } else if s.id in rows {
          // the insert fails when the changes are saved: nothing is written
          rows, nextId := savedRows, savedNext;
          ApplyFailurePersists(start, existing, userId, skills, i + 1);
          assert skills[..|skills|] == skills;
          return Err(DuplicateKey);
        } else {
          rows := rows[s.id := s.(userProfileId := userId)];
          if s.id >= nextId {
            nextId := s.id + 1;
          }
        }
        i := i + 1;
      }
      assert skills[..i] == skills;
      r := Ok(());
    }
  }

  /** One more skill of the list: Apply on a prefix one longer is one more Step. */
  lemma ApplyPrefixStep(t: Table, existing: set<int>, userId: int, skills: seq<Skill>, i: int)
    requires 0 <= i < |skills|
    ensures Apply(t, existing, userId, skills[..i + 1])
            == match Apply(t, existing, userId, skills[..i])
               case None => None
               case Some(t1) => Step(t1, existing, userId, skills[i])
  {
    assert skills[..i + 1][..i] == skills[..i];
  }

  /** Once a prefix of the list fails, the whole list fails. */
  lemma {:induction false} ApplyFailurePersists(t: Table, existing: set<int>, userId: int, skills: seq<Skill>, n: nat)
    requires n <= |skills| && Apply(t, existing, userId, skills[..n]).None?
    ensures Apply(t, existing, userId, skills).None?
    decreases |skills| - n
  {
    if n < |skills| {
      assert skills[..n + 1][..n] == skills[..n];
      ApplyFailurePersists(t, existing, userId, skills, n + 1);
    } else {
      assert skills[..n] == skills;
    }
  }
}
