/** The enrolment-record transitions of the engine other than the task
    toggle: joining (a fresh record cloned from the challenge), editing a
    task description, merging reminder settings and dropping out, together
    with the counts the admission gate, the achievements and the ledger read
    (App.tsx:72, 80-103, 155-168). */
module Progress {
  import opened Types
  import opened Constants
  import opened TaskLists

  /** `progress.filter(p => p.status === 'active').length`. */
  function ActiveCount(ps: seq<UserProgress>): (n: nat)
    ensures n <= |ps|
  {
    if ps == [] then 0
    else ActiveCount(ps[..|ps| - 1]) + (if ps[|ps| - 1].status == Active then 1 else 0)
  }

  /** Completed tasks summed over all records: the from-scratch figure that
      the running points ledger is reconciled against. */
  function EarnedCount(ps: seq<UserProgress>): nat {
    if ps == [] then 0
    else EarnedCount(ps[..|ps| - 1]) + CompletedCount(ps[|ps| - 1].tasks)
  }

  /** The invariant every handler keeps for a record: its points figure is
      derived from its tasks, and `completed` is only ever set when every task
      is done. */
  predicate ConsistentRecord(p: UserProgress) {
    && p.totalPointsEarned == CompletedCount(p.tasks) * PointsPerTask
    && (p.status == Completed ==> AllCompleted(p.tasks))
  }

  /** At most one record per challenge. The engine does not enforce this
      (only the catalog card hides its Join button once joined); lemmas that
      need it state it as a precondition. */
  predicate NoDuplicateEnrollment(ps: seq<UserProgress>) {
    forall i, j :: 0 <= i < j < |ps| ==> ps[i].challengeId != ps[j].challengeId
  }

  predicate Consistent(ps: seq<UserProgress>) {
    forall k :: 0 <= k < |ps| ==> ConsistentRecord(ps[k])
  }

  /** A consistent record never shows more points than its tasks can earn. */
  lemma ConsistentPointsBounded(p: UserProgress)
    requires ConsistentRecord(p)
    ensures 0 <= p.totalPointsEarned <= |p.tasks| * PointsPerTask
    ensures p.status == Completed ==> p.totalPointsEarned == |p.tasks| * PointsPerTask
  {
    CompletedCountFull(p.tasks);
  }

  /** Two record lists that agree, record by record, on status and on the
      number of completed tasks look the same to the gate and the ledger. */
  lemma {:induction false} SameCounts(a: seq<UserProgress>, b: seq<UserProgress>)
    requires |a| == |b|
    requires forall k :: 0 <= k < |a| ==>
      a[k].status == b[k].status && CompletedCount(a[k].tasks) == CompletedCount(b[k].tasks)
    ensures ActiveCount(a) == ActiveCount(b)
    ensures EarnedCount(a) == EarnedCount(b)
  {
    if a != [] {
      SameCounts(a[..|a| - 1], b[..|b| - 1]);
    }
  }

  // ---------------------------------------------------------------- join

  /** `challenge.tasks.map(t => ({ ...t, isCompleted: false }))`: a private
      copy of the template in which nothing is completed yet. Only the flag is
      reset; a template's completion timestamp, if any, is carried over. */
  function CloneTasks(ts: seq<Task>): (r: seq<Task>)
    ensures |r| == |ts|
    ensures forall k :: 0 <= k < |ts| ==>
      r[k].id == ts[k].id && r[k].day == ts[k].day && r[k].description == ts[k].description &&
      r[k].completedAt == ts[k].completedAt && r[k].proofUrl == ts[k].proofUrl && !r[k].isCompleted
    ensures CompletedCount(r) == 0
  {
    var r := seq(|ts|, k requires 0 <= k < |ts| => ts[k].(isCompleted := false));
    CompletedCountFull(r);
    r
  }

  /** The record `confirmJoin` appends: active, no points, reminders on at
      09:00, started now, with a fresh copy of the challenge's tasks. */
  function NewProgress(userId: string, c: Challenge, now: int): (p: UserProgress)
    ensures p.userId == userId && p.challengeId == c.id && p.startDate == now
    ensures p.status == Active && p.totalPointsEarned == 0
    ensures p.reminderEnabled && p.reminderTime == "09:00"
    ensures |p.tasks| == |c.tasks|
    ensures forall k :: 0 <= k < |c.tasks| ==>
      p.tasks[k].id == c.tasks[k].id && p.tasks[k].day == c.tasks[k].day &&
      p.tasks[k].description == c.tasks[k].description && !p.tasks[k].isCompleted
    ensures ConsistentRecord(p)
  {
    UserProgress(userId, c.id, now, CloneTasks(c.tasks), Active, 0, true, "09:00")
  }

  /** Joining appends one active record: the active count grows by one, the
      completed-task total is unchanged and the invariant is kept. */
  lemma JoinCounts(ps: seq<UserProgress>, userId: string, c: Challenge, now: int)
    ensures ActiveCount(ps + [NewProgress(userId, c, now)]) == ActiveCount(ps) + 1
    ensures EarnedCount(ps + [NewProgress(userId, c, now)]) == EarnedCount(ps)
    ensures Consistent(ps) ==> Consistent(ps + [NewProgress(userId, c, now)])
  {
    var qs := ps + [NewProgress(userId, c, now)];
    assert qs[..|qs| - 1] == ps;
  }

  // ---------------------------------------------------------- drop out

  /** `progress.filter(p => p.challengeId !== challengeId)`. */
  function DropOut(ps: seq<UserProgress>, challengeId: string): (r: seq<UserProgress>)
    ensures |r| <= |ps|
    ensures forall k :: 0 <= k < |r| ==> r[k].challengeId != challengeId
  {
    if ps == [] then []
    else if ps[0].challengeId != challengeId then [ps[0]] + DropOut(ps[1..], challengeId)
    else DropOut(ps[1..], challengeId)
  }

  /** Drop-out keeps exactly the records of other challenges. */
  lemma {:induction false} DropOutMembers(ps: seq<UserProgress>, challengeId: string)
    ensures forall p :: p in DropOut(ps, challengeId) <==> p in ps && p.challengeId != challengeId
  {
    if ps != [] {
      DropOutMembers(ps[1..], challengeId);
      assert ps == [ps[0]] + ps[1..];
    }
  }

  /** Drop-out distributes over concatenation, so it keeps the survivors in
      their original order. */
  lemma {:induction false} DropOutConcat(a: seq<UserProgress>, b: seq<UserProgress>, challengeId: string)
    ensures DropOut(a + b, challengeId) == DropOut(a, challengeId) + DropOut(b, challengeId)
  {
    if a == [] {
      assert a + b == b;
    } else {
      assert (a + b)[1..] == a[1..] + b;
      DropOutConcat(a[1..], b, challengeId);
    }
  }

  /** Drop-out changes nothing exactly when no record is for that challenge. */
  lemma {:induction false} DropOutNoOp(ps: seq<UserProgress>, challengeId: string)
    ensures DropOut(ps, challengeId) == ps <==> forall k :: 0 <= k < |ps| ==> ps[k].challengeId != challengeId
  {
    if forall k :: 0 <= k < |ps| ==> ps[k].challengeId != challengeId {
      if ps != [] {
        DropOutNoOp(ps[1..], challengeId);
        assert forall k :: 0 <= k < |ps[1..]| ==> ps[1..][k] == ps[k + 1];
        assert ps == [ps[0]] + ps[1..];
      }
    } else {
      var k :| 0 <= k < |ps| && ps[k].challengeId == challengeId;
      DropOutMembers(ps, challengeId);
      assert ps[k] !in DropOut(ps, challengeId);
    }
  }

  /** Dropping out twice is the same as dropping out once, and the result
      keeps the invariant. */
  lemma DropOutIdempotent(ps: seq<UserProgress>, challengeId: string)
    ensures DropOut(DropOut(ps, challengeId), challengeId) == DropOut(ps, challengeId)
    ensures Consistent(ps) ==> Consistent(DropOut(ps, challengeId))
  {
    var r := DropOut(ps, challengeId);
    DropOutMembers(ps, challengeId);
    assert forall k :: 0 <= k < |r| ==> r[k] in r;
    DropOutNoOp(r, challengeId);
    if Consistent(ps) {
      forall k | 0 <= k < |r|
        ensures ConsistentRecord(r[k])
      {
        assert r[k] in ps;
        var j :| 0 <= j < |ps| && ps[j] == r[k];
      }
    }
  }

  // ------------------------------------------------------ edit, settings

  /** True when a record belongs to the selected challenge; nothing is
      selected when `selected` is None. */
  predicate IsSelected(p: UserProgress, selected: Option<string>) {
    selected.Some? && p.challengeId == selected.value
  }

  /** `handleTaskEdit`: in every selected record, the description of every
      task with that id is replaced. */
  function EditInSelected(ps: seq<UserProgress>, selected: Option<string>, taskId: string, desc: string): (r: seq<UserProgress>)
    ensures |r| == |ps|
    ensures forall k :: 0 <= k < |ps| ==>
      r[k] == if IsSelected(ps[k], selected) then ps[k].(tasks := EditDescription(ps[k].tasks, taskId, desc)) else ps[k]
  {
    seq(|ps|, k requires 0 <= k < |ps| =>
      if IsSelected(ps[k], selected) then ps[k].(tasks := EditDescription(ps[k].tasks, taskId, desc)) else ps[k])
  }

  /** A task edit has no effect on the economy: statuses, points figures,
      active count and completed-task total are unchanged, and so is the
      invariant. */
  lemma EditKeepsEconomy(ps: seq<UserProgress>, selected: Option<string>, taskId: string, desc: string)
    ensures var r := EditInSelected(ps, selected, taskId, desc);
      && (forall k :: 0 <= k < |ps| ==> r[k].status == ps[k].status && r[k].totalPointsEarned == ps[k].totalPointsEarned)
      && ActiveCount(r) == ActiveCount(ps)
      && EarnedCount(r) == EarnedCount(ps)
      && (Consistent(ps) ==> Consistent(r))
  {
    var r := EditInSelected(ps, selected, taskId, desc);
    forall k | 0 <= k < |ps|
      ensures r[k].status == ps[k].status && r[k].totalPointsEarned == ps[k].totalPointsEarned
      ensures CompletedCount(r[k].tasks) == CompletedCount(ps[k].tasks)
      ensures ConsistentRecord(ps[k]) ==> ConsistentRecord(r[k])
    {
      EditKeepsCompletion(ps[k].tasks, taskId, desc);
    }
    SameCounts(r, ps);
  }

  /** `{ ...p, ...settings }`: the fields present in the patch replace the
      record's reminder preference. */
  function MergeSettings(p: UserProgress, s: ReminderSettings): (q: UserProgress)
    ensures q.reminderEnabled == s.reminderEnabled.GetOr(p.reminderEnabled)
    ensures q.reminderTime == s.reminderTime.GetOr(p.reminderTime)
    ensures q.(reminderEnabled := p.reminderEnabled, reminderTime := p.reminderTime) == p
  {
    p.(reminderEnabled := s.reminderEnabled.GetOr(p.reminderEnabled),
       reminderTime := s.reminderTime.GetOr(p.reminderTime))
  }

  /** `handleUpdateSettings`: merge the patch into every selected record. */
  function UpdateSettings(ps: seq<UserProgress>, selected: Option<string>, s: ReminderSettings): (r: seq<UserProgress>)
    ensures |r| == |ps|
    ensures forall k :: 0 <= k < |ps| ==>
      r[k] == if IsSelected(ps[k], selected) then MergeSettings(ps[k], s) else ps[k]
  {
    seq(|ps|, k requires 0 <= k < |ps| => if IsSelected(ps[k], selected) then MergeSettings(ps[k], s) else ps[k])
  }

  /** Applying the same settings twice is applying them once; an empty patch
      changes nothing; and the economy is untouched. */
  lemma SettingsIdempotent(ps: seq<UserProgress>, selected: Option<string>, s: ReminderSettings)
    ensures UpdateSettings(UpdateSettings(ps, selected, s), selected, s) == UpdateSettings(ps, selected, s)
    ensures UpdateSettings(ps, selected, ReminderSettings(None, None)) == ps
    ensures ActiveCount(UpdateSettings(ps, selected, s)) == ActiveCount(ps)
    ensures EarnedCount(UpdateSettings(ps, selected, s)) == EarnedCount(ps)
    ensures Consistent(ps) ==> Consistent(UpdateSettings(ps, selected, s))
  {
    SameCounts(UpdateSettings(ps, selected, s), ps);
  }
}
