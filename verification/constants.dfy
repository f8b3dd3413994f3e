/** The fixed economy constants, vocabularies, achievement catalog and the
    initial challenge catalog (constants.tsx). */
module Constants {
  import opened Types

  /** Points credited for one completed task. */
  const PointsPerTask: int := 10

  /** Tickets credited when a toggle completes a whole challenge. */
  const TicketsPerCompletion: int := 5

  const Categories: seq<string> :=
    ["Fitness", "Coding", "Reading", "Meditation", "Art", "Writing", "Language", "Social"]

  /** The ordered title vocabulary; a new user starts with the first one. */
  const Titles: seq<string> :=
    ["The Novice", "Habit Architect", "Consistency King", "N-Day Legend", "Unstoppable Force"]

  /** The achievement catalog, in order; the evaluator picks entries 0, 2 and 4. */
  const AchievementsList: seq<Achievement> := [
    Achievement("a1", "First Step", "Complete your first task", "fa-shoe-prints", None),
    Achievement("a2", "Streak Starter", "Complete 7 days in a row", "fa-fire", None),
    Achievement("a3", "Multi-Tasker", "Have 3 active challenges", "fa-layer-group", None),
    Achievement("a4", "Social Butterfly", "Join a public challenge", "fa-people-group", None),
    Achievement("a5", "Mastery Attained", "Finish a 30+ day challenge", "fa-crown", None)
  ]

  /** The catalog a fresh instance starts with. */
  const MockChallenges: seq<Challenge> := [
    Challenge("c1", "u1", "Alex Rivers", "30 Days of Python",
      "Learn Python from scratch by building small projects every day.",
      30, "Build a full web app", "Coding", true, false, 300, []),
    Challenge("c2", "u2", "Sarah Jenkins", "100 Days of Motion",
      "Walk or run at least 5km every single day.",
      100, "Improve cardiovascular health", "Fitness", true, true, 1000, [])
  ]

  /** The achievement ids are pairwise distinct, and the entries the
      evaluator reads by position are a1, a3 and a5. */
  lemma AchievementCatalogShape()
    ensures |AchievementsList| == 5
    ensures forall i, j :: 0 <= i < j < |AchievementsList| ==> AchievementsList[i].id != AchievementsList[j].id
    ensures AchievementsList[0].id == "a1" && AchievementsList[2].id == "a3" && AchievementsList[4].id == "a5"
    ensures forall i :: 0 <= i < |AchievementsList| ==> AchievementsList[i].unlockedAt == None
  {
  }

  /** Each initial challenge is priced at its duration times the points per
      task, and carries no task templates. */
  lemma MockChallengesPricedAndEmpty()
    ensures forall c :: c in MockChallenges ==> c.pointsValue == c.totalDays * PointsPerTask
    ensures forall c :: c in MockChallenges ==> c.tasks == []
    ensures MockChallenges[0].pointsValue == 300 && MockChallenges[1].pointsValue == 1000
  {
  }

  /** The two economy constants, and the title a new user starts with. */
  lemma EconomyConstants()
    ensures PointsPerTask == 10 && TicketsPerCompletion == 5
    ensures |Titles| == 5 && Titles[0] == "The Novice"
  {
  }
}
