/** The application state container (App.tsx:11-168): the three state
    cells (user, challenge catalog, enrolment records), the pending burnout
    confirmation and the selected challenge, with one method per handler.
    Timestamps (`Date.now`) and fresh ids (`Math.random`) are parameters;
    loading from and saving to local storage is outside the model, so the
    constructor takes whatever was loaded, if anything. */
module MasteryApp {
  import opened Types
  import opened Constants
  import opened TaskLists
  import opened Progress
  import opened Toggle
  import opened Achievements

  /** The user a fresh instance starts with. */
  const DefaultUser: User := User(
    "u-me", "Habit Hero", "https://api.dicebear.com/7.x/avataaars/svg?seed=Felix",
    "On a journey to master Python and morning meditation.", 0, 5, Titles[0], [])

  /** A fresh user holds the first title, five tickets, no points and no
      achievements. */
  lemma DefaultUserShape()
    ensures DefaultUser.currentTitle == "The Novice"
    ensures DefaultUser.points == 0 && DefaultUser.tickets == 5 && DefaultUser.achievements == []
  {
  }

  /** The challenge `handleCreateChallenge` builds from the submitted draft:
      the draft's fields, a fresh id, the current user as creator, and a
      points value derived from the duration whatever the draft says. */
  function NewChallenge(data: ChallengeDraft, id: string, creator: User): (c: Challenge)
    ensures c.id == id && c.creatorId == creator.id && c.creatorName == creator.name
    ensures c.pointsValue == data.totalDays * PointsPerTask
    ensures c.title == data.title && c.description == data.description && c.totalDays == data.totalDays
    ensures c.target == data.target && c.category == data.category
    ensures c.isPublic == data.isPublic && c.approvalRequired == data.approvalRequired
    ensures c.tasks == data.tasks
  {
    Challenge(id, creator.id, creator.name, data.title, data.description, data.totalDays,
      data.target, data.category, data.isPublic, data.approvalRequired,
      data.totalDays * PointsPerTask, data.tasks)
  }

  /** When a challenge has one task per day and is priced by duration, a
      consistent record of it that reaches `completed` has earned exactly the
      challenge's points value. */
  lemma CompletedRecordEarnsPointsValue(c: Challenge, p: UserProgress)
    requires c.pointsValue == c.totalDays * PointsPerTask && |c.tasks| == c.totalDays
    requires |p.tasks| == |c.tasks| && ConsistentRecord(p) && p.status == Completed
    ensures p.totalPointsEarned == c.pointsValue
  {
    ConsistentPointsBounded(p);
  }

  /** The user after a toggle, composed as intended: the ledger update
      (points by the delta, tickets by the bonus) and then the achievement
      check on the updated user and the new records. */
  function SettleToggle(u: User, pointsDelta: int, bonus: bool, next: seq<UserProgress>, now: int): (v: User)
    ensures v.points == u.points + pointsDelta
    ensures v.tickets == if bonus then u.tickets + TicketsPerCompletion else u.tickets
    ensures |u.achievements| <= |v.achievements| && v.achievements[..|u.achievements|] == u.achievements
    ensures v.(points := u.points, tickets := u.tickets, achievements := u.achievements) == u
  {
    EvaluatedExtends(u.achievements, next, now);
    Ledger(u, pointsDelta, bonus).(achievements := Evaluated(u.achievements, next, now))
  }

  /** The intended user after toggling `taskId` in the selected records. */
  function ToggledUser(u: User, ps: seq<UserProgress>, selected: Option<string>, taskId: string, now: int): (v: User)
    ensures v.points == u.points + PointsDelta(ps, selected, taskId)
    ensures var next := ToggleAll(ps, selected, taskId, now);
      v.tickets == if EarnsBonus(PointsDelta(ps, selected, taskId), next, selected) then u.tickets + TicketsPerCompletion else u.tickets
    ensures |u.achievements| <= |v.achievements| && v.achievements[..|u.achievements|] == u.achievements
  {
    var delta := PointsDelta(ps, selected, taskId);
    var next := ToggleAll(ps, selected, taskId, now);
    SettleToggle(u, delta, EarnsBonus(delta, next, selected), next, now)
  }

  /** The user after a toggle as the source leaves it. The ledger update is
      queued as a functional update; `checkAchievements` then receives the
      user as it was before the toggle with only the points adjusted, and
      when it unlocks something it replaces the whole user with that copy,
      which discards the queued ticket credit. */
  function ToggledUserAsWritten(u: User, ps: seq<UserProgress>, selected: Option<string>, taskId: string, now: int): (v: User)
    ensures v.points == u.points + PointsDelta(ps, selected, taskId)
    ensures v.tickets == u.tickets || v.tickets == u.tickets + TicketsPerCompletion
    ensures |u.achievements| <= |v.achievements| && v.achievements[..|u.achievements|] == u.achievements
  {
    var delta := PointsDelta(ps, selected, taskId);
    var next := ToggleAll(ps, selected, taskId, now);
    var queued := Ledger(u, delta, EarnsBonus(delta, next, selected));
    var stale := u.(points := u.points + delta);
    var earned := Evaluated(stale.achievements, next, now);
    if |earned| != |stale.achievements| then stale.(achievements := earned) else queued
  }

  /** The source agrees with the intended composition except when one toggle
      both earns the ticket bonus and unlocks an achievement: then the source
      keeps the old ticket balance. */
  lemma AsWrittenDiffersOnlyWhenBonusMeetsUnlock(u: User, ps: seq<UserProgress>, selected: Option<string>, taskId: string, now: int)
    ensures var next := ToggleAll(ps, selected, taskId, now);
      var bonus := EarnsBonus(PointsDelta(ps, selected, taskId), next, selected);
      var unlocks := |Evaluated(u.achievements, next, now)| != |u.achievements|;
      && (ToggledUserAsWritten(u, ps, selected, taskId, now) == ToggledUser(u, ps, selected, taskId, now) <==> !(bonus && unlocks))
      && (bonus && unlocks ==> ToggledUserAsWritten(u, ps, selected, taskId, now).tickets == u.tickets)
  {
    var next := ToggleAll(ps, selected, taskId, now);
    EvaluatedMonotonic(u.achievements, next, now, "");
  }

  /** A concrete run that shows the lost credit: a new user completes the
      only task of a one-task challenge, which completes the challenge and
      unlocks a1. The source leaves 5 tickets; the intended ledger has 10. */
  lemma AsWrittenLosesTicketBonus()
    ensures var ps := [UserProgress("u-me", "c9", 0, [Task("t1", 1, "Task for day 1", false, None, None)],
                                    Active, 0, true, "09:00")];
      && ToggledUserAsWritten(DefaultUser, ps, Some("c9"), "t1", 1).tickets == 5
      && ToggledUser(DefaultUser, ps, Some("c9"), "t1", 1).tickets == 10
  {
    var t := Task("t1", 1, "Task for day 1", false, None, None);
    var ps := [UserProgress("u-me", "c9", 0, [t], Active, 0, true, "09:00")];
    var next := ToggleAll(ps, Some("c9"), "t1", 1);
    assert [t][..0] == [];
    assert LastMatch([t], "t1") == Some(t);
    assert ps[..0] == [];
    assert LastToggled(ps, Some("c9"), "t1") == Some(t);
    assert next[0].tasks[0].isCompleted;
    assert AllCompleted(next[0].tasks);
    assert FirstSelected(next, Some("c9")) == Some(next[0]);
    assert AnyTaskCompleted(next);
    EvaluatedGrants([], next, 1);
    AsWrittenDiffersOnlyWhenBonusMeetsUnlock(DefaultUser, ps, Some("c9"), "t1", 1);
  }

  /** The application state. Every handler replaces whole fields, as the
      source's state setters replace whole values. */
  class App {
    var user: User
    var challenges: seq<Challenge>
    var userProgress: seq<UserProgress>
    /** The challenge waiting for the burnout confirmation, if any. */
    var burnoutWarning: Option<Challenge>
    /** The challenge whose detail view is open; toggles, edits and
        settings act on its records. */
    var selectedChallengeId: Option<string>

    /** Start from what was loaded, falling back to the defaults. */
    constructor (savedUser: Option<User>, savedChallenges: Option<seq<Challenge>>, savedProgress: Option<seq<UserProgress>>)
      ensures user == savedUser.GetOr(DefaultUser)
      ensures challenges == savedChallenges.GetOr(MockChallenges)
      ensures userProgress == savedProgress.GetOr([])
      ensures burnoutWarning == None && selectedChallengeId == None
      ensures savedProgress == None ==> Consistent(userProgress)
    {
      user := savedUser.GetOr(DefaultUser);
      challenges := savedChallenges.GetOr(MockChallenges);
      userProgress := savedProgress.GetOr([]);
      burnoutWarning := None;
      selectedChallengeId := None;
    }

    /** Open (or, with None, close) a challenge's detail view. */
    method SelectChallenge(challengeId: Option<string>)
      modifies this`selectedChallengeId
      ensures selectedChallengeId == challengeId
    {
      selectedChallengeId := challengeId;
    }

    /** `checkAchievements`: evaluate on the given user and records and,
        when something was unlocked, store that user with the longer list. */
    method CheckAchievements(updatedUser: User, updatedProgress: seq<UserProgress>, now: int)
      modifies this`user
      ensures var earned := Evaluated(updatedUser.achievements, updatedProgress, now);
        user == if |earned| != |updatedUser.achievements| then updatedUser.(achievements := earned) else old(user)
    {
      var newAchievements := Evaluate(updatedUser.achievements, updatedProgress, now);
      if |newAchievements| != |updatedUser.achievements| {
        user := updatedUser.(achievements := newAchievements);
      }
    }

    /** `confirmJoin`: append a fresh record for the challenge, close the
        warning and check achievements. No duplicate check is made. */
    method ConfirmJoin(c: Challenge, now: int)
      modifies this`userProgress, this`burnoutWarning, this`user
      ensures userProgress == old(userProgress) + [NewProgress(old(user).id, c, now)]
      ensures burnoutWarning == None
      ensures user == old(user).(achievements := Evaluated(old(user).achievements, userProgress, now))
      ensures ActiveCount(userProgress) == ActiveCount(old(userProgress)) + 1
      ensures Consistent(old(userProgress)) ==> Consistent(userProgress)
    {
      var newProgress := UserProgress(user.id, c.id, now,
        seq(|c.tasks|, k requires 0 <= k < |c.tasks| => c.tasks[k].(isCompleted := false)),
        Active, 0, true, "09:00");
      var nextProgress := userProgress + [newProgress];
      userProgress := nextProgress;
      burnoutWarning := None;
      assert newProgress == NewProgress(old(user).id, c, now);
      CheckAchievements(user, nextProgress, now);
      EvaluatedMonotonic(old(user).achievements, nextProgress, now, "");
      JoinCounts(old(userProgress), old(user).id, c, now);
    }

    /** `handleJoinChallenge`: with two or more active records, ask for
        confirmation and change nothing else; otherwise join at once. */
    method HandleJoinChallenge(c: Challenge, now: int)
      modifies this`userProgress, this`burnoutWarning, this`user
      ensures ActiveCount(old(userProgress)) >= 2 ==>
        burnoutWarning == Some(c) && userProgress == old(userProgress) && user == old(user)
      ensures ActiveCount(old(userProgress)) < 2 ==>
        && userProgress == old(userProgress) + [NewProgress(old(user).id, c, now)]
        && burnoutWarning == None
        && user == old(user).(achievements := Evaluated(old(user).achievements, userProgress, now))
      ensures Consistent(old(userProgress)) ==> Consistent(userProgress)
    {
      var activeChallengesCount := ActiveCount(userProgress);
      if activeChallengesCount >= 2 {
        burnoutWarning := Some(c);
      } else {
        ConfirmJoin(c, now);
      }
    }

    /** The warning's confirm button: join the pending challenge without
        looking at the active count again. */
    method ConfirmBurnoutWarning(now: int)
      requires burnoutWarning.Some?
      modifies this`userProgress, this`burnoutWarning, this`user
      ensures userProgress == old(userProgress) + [NewProgress(old(user).id, old(burnoutWarning).value, now)]
      ensures burnoutWarning == None
      ensures user == old(user).(achievements := Evaluated(old(user).achievements, userProgress, now))
      ensures ActiveCount(userProgress) == ActiveCount(old(userProgress)) + 1
      ensures Consistent(old(userProgress)) ==> Consistent(userProgress)
    {
      ConfirmJoin(burnoutWarning.value, now);
    }

    /** The warning's cancel button. */
    method CancelBurnoutWarning()
      modifies this`burnoutWarning
      ensures burnoutWarning == None
    {
      burnoutWarning := None;
    }

    /** `handleDropOut`: remove every record of the challenge and close the
        detail view. */
    method HandleDropOut(challengeId: string)
      modifies this`userProgress, this`selectedChallengeId
      ensures userProgress == DropOut(old(userProgress), challengeId)
      ensures forall p :: p in userProgress <==> p in old(userProgress) && p.challengeId != challengeId
      ensures selectedChallengeId == None
      ensures Consistent(old(userProgress)) ==> Consistent(userProgress)
    {
      userProgress := DropOut(userProgress, challengeId);
      selectedChallengeId := None;
      DropOutMembers(old(userProgress), challengeId);
      DropOutIdempotent(old(userProgress), challengeId);
    }

    /** `handleCreateChallenge`: put the new challenge at the front of the
        catalog and send the creator through the admission gate. */
    method HandleCreateChallenge(data: ChallengeDraft, newId: string, now: int)
      modifies this`challenges, this`userProgress, this`burnoutWarning, this`user
      ensures challenges == [NewChallenge(data, newId, old(user))] + old(challenges)
      ensures challenges[0].pointsValue == data.totalDays * PointsPerTask
      ensures ActiveCount(old(userProgress)) >= 2 ==>
        burnoutWarning == Some(challenges[0]) && userProgress == old(userProgress) && user == old(user)
      ensures ActiveCount(old(userProgress)) < 2 ==>
        && userProgress == old(userProgress) + [NewProgress(old(user).id, challenges[0], now)]
        && burnoutWarning == None
        && user == old(user).(achievements := Evaluated(old(user).achievements, userProgress, now))
      ensures Consistent(old(userProgress)) ==> Consistent(userProgress)
    {
      var newChallenge := Challenge(newId, user.id, user.name, data.title, data.description,
        data.totalDays, data.target, data.category, data.isPublic, data.approvalRequired,
        data.totalDays * PointsPerTask, data.tasks);
      challenges := [newChallenge] + challenges;
      HandleJoinChallenge(newChallenge, now);
    }

    /** `handleTaskToggle`, with the ledger update and the achievement check
        composed in sequence. */
    method HandleTaskToggle(taskId: string, now: int)
      modifies this`userProgress, this`user
      ensures userProgress == ToggleAll(old(userProgress), selectedChallengeId, taskId, now)
      ensures var delta := PointsDelta(old(userProgress), selectedChallengeId, taskId);
        user == SettleToggle(old(user), delta, EarnsBonus(delta, userProgress, selectedChallengeId), userProgress, now)
      ensures user.points == old(user).points + PointsDelta(old(userProgress), selectedChallengeId, taskId)
      ensures user.tickets >= old(user).tickets
      ensures Consistent(old(userProgress)) ==> Consistent(userProgress)
      ensures NoDuplicateEnrollment(old(userProgress)) &&
              (forall k :: 0 <= k < |old(userProgress)| ==> UniqueIds(old(userProgress)[k].tasks)) ==>
        user.points - EarnedCount(userProgress) * PointsPerTask
        == old(user).points - EarnedCount(old(userProgress)) * PointsPerTask
    {
      var nextProgress, pointsDelta := ToggleAcross(userProgress, selectedChallengeId, taskId, now);
      var bonus := EarnsBonus(pointsDelta, nextProgress, selectedChallengeId);
      var updatedUser := Ledger(user, pointsDelta, bonus);
      user := updatedUser;
      userProgress := nextProgress;
      CheckAchievements(updatedUser, nextProgress, now);
      EvaluatedMonotonic(updatedUser.achievements, nextProgress, now, "");
      assert user == SettleToggle(old(user), pointsDelta, bonus, nextProgress, now);
      ToggleKeepsConsistent(old(userProgress), selectedChallengeId, taskId, now);
      if NoDuplicateEnrollment(old(userProgress)) &&
         (forall k :: 0 <= k < |old(userProgress)| ==> UniqueIds(old(userProgress)[k].tasks)) {
        PointsTrackCompletions(old(userProgress), selectedChallengeId, taskId, now);
      }
    }

    /** `handleUpdateSettings`: merge the patch into the selected records. */
    method HandleUpdateSettings(settings: ReminderSettings)
      modifies this`userProgress
      ensures userProgress == UpdateSettings(old(userProgress), selectedChallengeId, settings)
      ensures Consistent(old(userProgress)) ==> Consistent(userProgress)
    {
      userProgress := UpdateSettings(userProgress, selectedChallengeId, settings);
      SettingsIdempotent(old(userProgress), selectedChallengeId, settings);
    }

    /** `handleTaskEdit`: change one task's description in the selected
        records, and nothing of the economy. */
    method HandleTaskEdit(taskId: string, newDesc: string)
      modifies this`userProgress
      ensures userProgress == EditInSelected(old(userProgress), selectedChallengeId, taskId, newDesc)
      ensures ActiveCount(userProgress) == ActiveCount(old(userProgress))
      ensures EarnedCount(userProgress) == EarnedCount(old(userProgress))
      ensures Consistent(old(userProgress)) ==> Consistent(userProgress)
    {
      userProgress := EditInSelected(userProgress, selectedChallengeId, taskId, newDesc);
      EditKeepsEconomy(old(userProgress), selectedChallengeId, taskId, newDesc);
    }
  }
}
