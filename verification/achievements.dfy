/** The achievement evaluator (`checkAchievements`, App.tsx:48-69): after a
    join or a toggle, grant each of a1, a3 and a5 that the user does not hold
    yet and whose rule the current records satisfy, appending it with the
    current timestamp. a2 and a4 have no rule and are never granted. */
module Achievements {
  import opened Types
  import opened Constants
  import opened Progress

  /** `achievements.find(a => a.id === id)` finds something. */
  predicate HasAchievement(achievements: seq<Achievement>, id: string) {
    exists k :: 0 <= k < |achievements| && achievements[k].id == id
  }

  /** Each achievement id occurs at most once. */
  predicate DistinctIds(achievements: seq<Achievement>) {
    forall i, j :: 0 <= i < j < |achievements| ==> achievements[i].id != achievements[j].id
  }

  /** Rule of a1: some task of some record is completed. */
  predicate AnyTaskCompleted(ps: seq<UserProgress>) {
    exists i, j :: 0 <= i < |ps| && 0 <= j < |ps[i].tasks| && ps[i].tasks[j].isCompleted
  }

  /** Rule of a3: at least three records are active. */
  predicate ThreeActive(ps: seq<UserProgress>) {
    ActiveCount(ps) >= 3
  }

  /** Rule of a5: some completed record has at least 30 tasks. */
  predicate LongChallengeCompleted(ps: seq<UserProgress>) {
    exists i :: 0 <= i < |ps| && ps[i].status == Completed && |ps[i].tasks| >= 30
  }

  /** One guarded `push`: append `a`, stamped now, unless an achievement with
      its id is already held or the rule does not hold. */
  function Grant(achievements: seq<Achievement>, a: Achievement, rule: bool, now: int): seq<Achievement> {
    if !HasAchievement(achievements, a.id) && rule then achievements + [a.(unlockedAt := Some(now))]
    else achievements
  }

  /** The list `checkAchievements` arrives at: entries 0, 2 and 4 of the
      catalog (a1, a3, a5) considered in that order. */
  function Evaluated(achievements: seq<Achievement>, ps: seq<UserProgress>, now: int): seq<Achievement> {
    GrantInOrder(achievements, AnyTaskCompleted(ps), ThreeActive(ps), LongChallengeCompleted(ps), now)
  }

  /** The three guarded pushes, given the truth of the three rules. */
  function GrantInOrder(achievements: seq<Achievement>, ruleA1: bool, ruleA3: bool, ruleA5: bool, now: int): seq<Achievement> {
    var afterA1 := Grant(achievements, AchievementsList[0], ruleA1, now);
    var afterA3 := Grant(afterA1, AchievementsList[2], ruleA3, now);
    Grant(afterA3, AchievementsList[4], ruleA5, now)
  }

  /** The body of `checkAchievements` up to its `setUser`: copy the held
      list and push each newly earned achievement. */
  method Evaluate(held: seq<Achievement>, ps: seq<UserProgress>, now: int) returns (newAchievements: seq<Achievement>)
    ensures newAchievements == Evaluated(held, ps, now)
    ensures newAchievements[..|held|] == held
    ensures HasAchievement(newAchievements, "a1") <==> HasAchievement(held, "a1") || AnyTaskCompleted(ps)
    ensures HasAchievement(newAchievements, "a3") <==> HasAchievement(held, "a3") || ThreeActive(ps)
    ensures HasAchievement(newAchievements, "a5") <==> HasAchievement(held, "a5") || LongChallengeCompleted(ps)
  {
    newAchievements := held;
    if !HasAchievement(newAchievements, "a1") {
      var hasCompletedAnyTask := AnyTaskCompleted(ps);
      if hasCompletedAnyTask {
        newAchievements := newAchievements + [AchievementsList[0].(unlockedAt := Some(now))];
      }
    }
    if !HasAchievement(newAchievements, "a3") {
      var activeCount := ActiveCount(ps);
      if activeCount >= 3 {
        newAchievements := newAchievements + [AchievementsList[2].(unlockedAt := Some(now))];
      }
    }
    if !HasAchievement(newAchievements, "a5") {
      var hasCompletedLongChallenge := LongChallengeCompleted(ps);
      if hasCompletedLongChallenge {
        newAchievements := newAchievements + [AchievementsList[4].(unlockedAt := Some(now))];
      }
    }
    EvaluatedGrants(held, ps, now);
    EvaluatedExtends(held, ps, now);
  }

  /** What appending one achievement does to membership and distinctness. */
  lemma HasAfterAppend(achievements: seq<Achievement>, a: Achievement, id: string)
    ensures HasAchievement(achievements + [a], id) <==> HasAchievement(achievements, id) || a.id == id
    ensures DistinctIds(achievements) && !HasAchievement(achievements, a.id) ==> DistinctIds(achievements + [a])
  {
    var r := achievements + [a];
    if HasAchievement(achievements, id) {
      var k :| 0 <= k < |achievements| && achievements[k].id == id;
      assert r[k].id == id;
    }
    if a.id == id {
      assert r[|achievements|].id == id;
    }
  }

  /** One guarded push: the old list is a prefix, anything added is `a`
      stamped now, and distinct ids stay distinct. */
  lemma GrantExtends(achievements: seq<Achievement>, a: Achievement, rule: bool, now: int)
    ensures Grant(achievements, a, rule, now)[..|achievements|] == achievements
    ensures |achievements| <= |Grant(achievements, a, rule, now)| <= |achievements| + 1
    ensures forall k :: |achievements| <= k < |Grant(achievements, a, rule, now)| ==>
      Grant(achievements, a, rule, now)[k] == a.(unlockedAt := Some(now))
    ensures DistinctIds(achievements) ==> DistinctIds(Grant(achievements, a, rule, now))
  {
    HasAfterAppend(achievements, a.(unlockedAt := Some(now)), a.id);
  }

  /** One guarded push holds `id` afterwards exactly when it was held before,
      or `id` is the pushed one and its rule holds. */
  lemma GrantHolds(achievements: seq<Achievement>, a: Achievement, rule: bool, now: int, id: string)
    ensures HasAchievement(Grant(achievements, a, rule, now), id) <==>
      HasAchievement(achievements, id) || (id == a.id && rule)
  {
    HasAfterAppend(achievements, a.(unlockedAt := Some(now)), id);
  }

  /** The evaluator only appends: the held list is a prefix, at most three
      entries are added, each one of a1, a3, a5 stamped now, and it never
      duplicates an id. */
  lemma EvaluatedExtends(held: seq<Achievement>, ps: seq<UserProgress>, now: int)
    ensures Evaluated(held, ps, now)[..|held|] == held
    ensures |held| <= |Evaluated(held, ps, now)| <= |held| + 3
    ensures forall k :: |held| <= k < |Evaluated(held, ps, now)| ==>
      Evaluated(held, ps, now)[k] in StampedRules(now)
    ensures DistinctIds(held) ==> DistinctIds(Evaluated(held, ps, now))
  {
    GrantInOrderExtends(held, AnyTaskCompleted(ps), ThreeActive(ps), LongChallengeCompleted(ps), now);
  }

  /** The catalog entries the evaluator can grant, stamped with a time. */
  function StampedRules(now: int): seq<Achievement> {
    [AchievementsList[0].(unlockedAt := Some(now)),
     AchievementsList[2].(unlockedAt := Some(now)),
     AchievementsList[4].(unlockedAt := Some(now))]
  }

  lemma GrantInOrderExtends(held: seq<Achievement>, ruleA1: bool, ruleA3: bool, ruleA5: bool, now: int)
    ensures GrantInOrder(held, ruleA1, ruleA3, ruleA5, now)[..|held|] == held
    ensures |held| <= |GrantInOrder(held, ruleA1, ruleA3, ruleA5, now)| <= |held| + 3
    ensures forall k :: |held| <= k < |GrantInOrder(held, ruleA1, ruleA3, ruleA5, now)| ==>
      GrantInOrder(held, ruleA1, ruleA3, ruleA5, now)[k] in StampedRules(now)
    ensures DistinctIds(held) ==> DistinctIds(GrantInOrder(held, ruleA1, ruleA3, ruleA5, now))
  {
    var r1 := Grant(held, AchievementsList[0], ruleA1, now);
    var r3 := Grant(r1, AchievementsList[2], ruleA3, now);
    var r5 := Grant(r3, AchievementsList[4], ruleA5, now);
    var stamped := StampedRules(now);
    GrantExtends(held, AchievementsList[0], ruleA1, now);
    GrantExtends(r1, AchievementsList[2], ruleA3, now);
    GrantExtends(r3, AchievementsList[4], ruleA5, now);
    assert r5[..|held|] == held by {
      assert r5[..|held|] == r3[..|held|] == r1[..|held|];
    }
    forall k | |held| <= k < |r5|
      ensures r5[k] in stamped
    {
      if k < |r1| {
        assert r5[k] == r3[k] == r1[k] == stamped[0];
      } else if k < |r3| {
        assert r5[k] == r3[k] == stamped[1];
      } else {
        assert r5[k] == stamped[2];
      }
    }
  }

  /** The evaluator holds a1, a3 and a5 afterwards exactly when they were
      held or their rules hold, and it never grants a2 or a4. */
  lemma EvaluatedGrants(held: seq<Achievement>, ps: seq<UserProgress>, now: int)
    ensures HasAchievement(Evaluated(held, ps, now), "a1") <==> HasAchievement(held, "a1") || AnyTaskCompleted(ps)
    ensures HasAchievement(Evaluated(held, ps, now), "a3") <==> HasAchievement(held, "a3") || ThreeActive(ps)
    ensures HasAchievement(Evaluated(held, ps, now), "a5") <==> HasAchievement(held, "a5") || LongChallengeCompleted(ps)
    ensures HasAchievement(Evaluated(held, ps, now), "a2") <==> HasAchievement(held, "a2")
    ensures HasAchievement(Evaluated(held, ps, now), "a4") <==> HasAchievement(held, "a4")
  {
    AchievementCatalogShape();
    var r1 := Grant(held, AchievementsList[0], AnyTaskCompleted(ps), now);
    var r3 := Grant(r1, AchievementsList[2], ThreeActive(ps), now);
    var ids := ["a1", "a2", "a3", "a4", "a5"];
    forall id | id in ids
      ensures HasAchievement(Evaluated(held, ps, now), id) <==>
        HasAchievement(held, id)
        || (id == "a1" && AnyTaskCompleted(ps))
        || (id == "a3" && ThreeActive(ps))
        || (id == "a5" && LongChallengeCompleted(ps))
    {
      GrantHolds(held, AchievementsList[0], AnyTaskCompleted(ps), now, id);
      GrantHolds(r1, AchievementsList[2], ThreeActive(ps), now, id);
      GrantHolds(r3, AchievementsList[4], LongChallengeCompleted(ps), now, id);
    }
    assert "a1" in ids && "a2" in ids && "a3" in ids && "a4" in ids && "a5" in ids;
  }

  /** Unlocking is idempotent: evaluating again on the same records, at any
      later time, grants nothing new. */
  lemma EvaluatedIdempotent(held: seq<Achievement>, ps: seq<UserProgress>, now: int, later: int)
    ensures Evaluated(Evaluated(held, ps, now), ps, later) == Evaluated(held, ps, now)
  {
    AchievementCatalogShape();
    var r := Evaluated(held, ps, now);
    EvaluatedGrants(held, ps, now);
    EvaluatedExtends(held, ps, now);
    var r1 := Grant(r, AchievementsList[0], AnyTaskCompleted(ps), later);
    assert r1 == r;
    var r3 := Grant(r1, AchievementsList[2], ThreeActive(ps), later);
    assert r3 == r;
  }

  /** Unlocking is monotonic: an achievement held before is held after,
      whatever the records are; and when the evaluator adds nothing the list
      is returned unchanged. */
  lemma EvaluatedMonotonic(held: seq<Achievement>, ps: seq<UserProgress>, now: int, id: string)
    ensures HasAchievement(held, id) ==> HasAchievement(Evaluated(held, ps, now), id)
    ensures |Evaluated(held, ps, now)| == |held| ==> Evaluated(held, ps, now) == held
  {
    var r := Evaluated(held, ps, now);
    EvaluatedExtends(held, ps, now);
    if HasAchievement(held, id) {
      var k :| 0 <= k < |held| && held[k].id == id;
      assert r[k] == held[k];
    }
  }

  /** a3 is granted the moment a join brings the active count to three. */
  lemma ThirdActiveJoinUnlocksA3(held: seq<Achievement>, ps: seq<UserProgress>, userId: string, c: Challenge, now: int)
    requires ActiveCount(ps) == 2
    ensures HasAchievement(Evaluated(held, ps + [NewProgress(userId, c, now)], now), "a3")
  {
    JoinCounts(ps, userId, c, now);
    EvaluatedGrants(held, ps + [NewProgress(userId, c, now)], now);
  }
}
