/** The value types of the progress and economy engine: challenges, tasks,
    enrolment records, the user and achievements (types.ts). Every value
    the engine handles is immutable; handlers build new values from old ones
    with spreads, which become Dafny's `x.(field := e)` updates. */
module Types {

  /** An optional value: `T | undefined` in the source. */
  datatype Option<+T> = None | Some(value: T) {
    /** The value, or `default` when absent (the source's `a || b`, `a ?? b`). */
    function GetOr(default: T): T {
      match this
      case Some(v) => v
      case None => default
    }
  }

  /** The status of an enrolment record. */
  datatype Status = Active | Completed | Failed

  /** One day's task; a challenge holds the template copy, each enrolment
      record its own private copy. `completedAt` is a timestamp in
      milliseconds. */
  datatype Task = Task(
    id: string,
    day: int,
    description: string,
    isCompleted: bool,
    completedAt: Option<int>,
    proofUrl: Option<string>)

  /** A catalog entry; `unlockedAt` is set when the user is granted it. */
  datatype Achievement = Achievement(
    id: string,
    title: string,
    description: string,
    icon: string,
    unlockedAt: Option<int>)

  /** A challenge template in the catalog. */
  datatype Challenge = Challenge(
    id: string,
    creatorId: string,
    creatorName: string,
    title: string,
    description: string,
    totalDays: int,
    target: string,
    category: string,
    isPublic: bool,
    approvalRequired: bool,
    pointsValue: int,
    tasks: seq<Task>)

  /** One user's enrolment in one challenge. */
  datatype UserProgress = UserProgress(
    userId: string,
    challengeId: string,
    startDate: int,
    tasks: seq<Task>,
    status: Status,
    totalPointsEarned: int,
    reminderEnabled: bool,
    reminderTime: string)

  /** The single user of a running instance, with the points and tickets ledger. */
  datatype User = User(
    id: string,
    name: string,
    avatar: string,
    bio: string,
    points: int,
    tickets: int,
    currentTitle: string,
    achievements: seq<Achievement>)

  /** One entry of the task generator's answer. `day` is None when the
      entry has no usable number (missing, or not a number). */
  datatype GeneratedTask = GeneratedTask(day: Option<int>, description: string)

  /** What the authoring form submits: its form fields plus the task list. */
  datatype ChallengeDraft = ChallengeDraft(
    title: string,
    description: string,
    totalDays: int,
    target: string,
    category: string,
    isPublic: bool,
    approvalRequired: bool,
    tasks: seq<Task>)

  /** A partial reminder-preference patch: an absent field is left as it is. */
  datatype ReminderSettings = ReminderSettings(
    reminderEnabled: Option<bool>,
    reminderTime: Option<string>)
}
