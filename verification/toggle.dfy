/** The task toggle (App.tsx:118-153): flip one task in the selected
    record(s), recompute each such record's status and points, and work out
    the change to the user's points and tickets. The source does the record
    update with nested `map`s that also assign the outer `pointsDelta`; that
    is modelled by the two loops ToggleInTasks and ToggleAcross, specified by
    the functions of this module. */
module Toggle {
  import opened Types
  import opened Constants
  import opened TaskLists
  import opened Progress

  /** The toggled copy of one task: completion flipped, timestamp set when it
      becomes complete and cleared when it becomes incomplete. */
  function Flip(t: Task, now: int): (r: Task)
    ensures r.isCompleted == !t.isCompleted
    ensures r.completedAt == if r.isCompleted then Some(now) else None
    ensures r.(isCompleted := t.isCompleted, completedAt := t.completedAt) == t
  {
    t.(isCompleted := !t.isCompleted, completedAt := if !t.isCompleted then Some(now) else None)
  }

  /** The inner `map`: every task with that id is flipped, the others kept. */
  function ToggleTasks(ts: seq<Task>, taskId: string, now: int): (r: seq<Task>)
    ensures |r| == |ts|
    ensures forall k :: 0 <= k < |ts| ==> r[k] == if ts[k].id == taskId then Flip(ts[k], now) else ts[k]
  {
    seq(|ts|, k requires 0 <= k < |ts| => if ts[k].id == taskId then Flip(ts[k], now) else ts[k])
  }

  /** One selected record after the toggle: its tasks toggled, its status
      `completed` exactly when every task now is (whatever it was before,
      `failed` included), its points figure recomputed from the tasks, and
      every other field as it was. */
  function ToggleRecord(p: UserProgress, taskId: string, now: int): (q: UserProgress)
    ensures q.tasks == ToggleTasks(p.tasks, taskId, now)
    ensures q.status == Completed <==> AllCompleted(q.tasks)
    ensures q.status == Active <==> !AllCompleted(q.tasks)
    ensures q.totalPointsEarned == CompletedCount(q.tasks) * PointsPerTask
    ensures 0 <= q.totalPointsEarned <= |q.tasks| * PointsPerTask
    ensures q.totalPointsEarned == |q.tasks| * PointsPerTask <==> q.status == Completed
    ensures ConsistentRecord(q)
    ensures q.(tasks := p.tasks, status := p.status, totalPointsEarned := p.totalPointsEarned) == p
  {
    var nextTasks := ToggleTasks(p.tasks, taskId, now);
    CompletedCountFull(nextTasks);
    p.(status := if AllCompleted(nextTasks) then Completed else Active,
       tasks := nextTasks,
       totalPointsEarned := CompletedCount(nextTasks) * PointsPerTask)
  }

  /** The outer `map`: every record of the selected challenge is toggled,
      every other record kept. */
  function ToggleAll(ps: seq<UserProgress>, selected: Option<string>, taskId: string, now: int): (r: seq<UserProgress>)
    ensures |r| == |ps|
    ensures forall k :: 0 <= k < |ps| ==>
      r[k] == if IsSelected(ps[k], selected) then ToggleRecord(ps[k], taskId, now) else ps[k]
  {
    seq(|ps|, k requires 0 <= k < |ps| =>
      if IsSelected(ps[k], selected) then ToggleRecord(ps[k], taskId, now) else ps[k])
  }

  /** The last task of the list with that id, as it was before the toggle:
      the one whose flip is the last to assign `pointsDelta`. */
  function LastMatch(ts: seq<Task>, taskId: string): (m: Option<Task>)
    ensures m.Some? ==> m.value in ts && m.value.id == taskId
  {
    if ts == [] then None
    else if ts[|ts| - 1].id == taskId then Some(ts[|ts| - 1])
    else LastMatch(ts[..|ts| - 1], taskId)
  }

  /** The last task flipped across the selected records, in record order. */
  function LastToggled(ps: seq<UserProgress>, selected: Option<string>, taskId: string): (m: Option<Task>)
    ensures m.Some? ==> exists k :: 0 <= k < |ps| && IsSelected(ps[k], selected) && m.value in ps[k].tasks && m.value.id == taskId
  {
    if ps == [] then None
    else
      var p := ps[|ps| - 1];
      if IsSelected(p, selected) && LastMatch(p.tasks, taskId).Some? then LastMatch(p.tasks, taskId)
      else
        var m := LastToggled(ps[..|ps| - 1], selected, taskId);
        assert m.Some? ==> exists k :: 0 <= k < |ps| - 1 && IsSelected(ps[k], selected) && m.value in ps[k].tasks && m.value.id == taskId;
        m
  }

  /** The value the flip of task `m` assigns to `pointsDelta`; 0 when no
      task was flipped. */
  function DeltaFor(m: Option<Task>): (d: int)
    ensures d == 0 <==> m.None?
    ensures d > 0 <==> m.Some? && !m.value.isCompleted
    ensures d == 0 || d == PointsPerTask || d == -PointsPerTask
  {
    match m
    case None => 0
    case Some(t) => if !t.isCompleted then PointsPerTask else -PointsPerTask
  }

  /** `pointsDelta` after the whole toggle. */
  function PointsDelta(ps: seq<UserProgress>, selected: Option<string>, taskId: string): (d: int)
    ensures -PointsPerTask <= d <= PointsPerTask
    ensures d == 0 <==> LastToggled(ps, selected, taskId).None?
    ensures d > 0 <==> LastToggled(ps, selected, taskId).Some? && !LastToggled(ps, selected, taskId).value.isCompleted
  {
    DeltaFor(LastToggled(ps, selected, taskId))
  }

  /** `progress.find(p => p.challengeId === selectedChallengeId)`. */
  function FirstSelected(ps: seq<UserProgress>, selected: Option<string>): (f: Option<UserProgress>)
    ensures f.Some? ==> f.value in ps && IsSelected(f.value, selected)
    ensures f.Some? ==> exists k :: 0 <= k < |ps| && ps[k] == f.value && forall j :: 0 <= j < k ==> !IsSelected(ps[j], selected)
    ensures f.None? ==> forall k :: 0 <= k < |ps| ==> !IsSelected(ps[k], selected)
  {
    if ps == [] then None
    else if IsSelected(ps[0], selected) then Some(ps[0])
    else FirstSelected(ps[1..], selected)
  }

  /** The ticket rule: a task was completed (not undone) and the selected
      record is now `completed`. */
  predicate EarnsBonus(pointsDelta: int, next: seq<UserProgress>, selected: Option<string>)
    ensures EarnsBonus(pointsDelta, next, selected) <==>
      && pointsDelta > 0
      && exists k :: 0 <= k < |next| && IsSelected(next[k], selected) && next[k].status == Completed
           && forall j :: 0 <= j < k ==> !IsSelected(next[j], selected)
  {
    && pointsDelta > 0
    && FirstSelected(next, selected).Some?
    && FirstSelected(next, selected).value.status == Completed
  }

  /** The running ledger after a toggle: points move by the delta, tickets
      rise by the bonus when it is earned and never fall. */
  function Ledger(u: User, pointsDelta: int, bonus: bool): (v: User)
    ensures v.points == u.points + pointsDelta
    ensures v.tickets == if bonus then u.tickets + TicketsPerCompletion else u.tickets
    ensures v.tickets >= u.tickets
    ensures v.(points := u.points, tickets := u.tickets) == u
  {
    u.(points := u.points + pointsDelta,
       tickets := if bonus then u.tickets + TicketsPerCompletion else u.tickets)
  }

  // ------------------------------------------------------------ the loops

  /** The inner `map` of `handleTaskToggle`, with the assignment to the
      outer `pointsDelta`: `deltaIn` is its value on entry. */
  method ToggleInTasks(ts: seq<Task>, taskId: string, now: int, deltaIn: int)
    returns (next: seq<Task>, delta: int)
    ensures next == ToggleTasks(ts, taskId, now)
    ensures delta == if LastMatch(ts, taskId).Some? then DeltaFor(LastMatch(ts, taskId)) else deltaIn
  {
    next := [];
    delta := deltaIn;
    var i := 0;
    while i < |ts|
      invariant 0 <= i <= |ts|
      invariant next == ToggleTasks(ts[..i], taskId, now)
      invariant delta == if LastMatch(ts[..i], taskId).Some? then DeltaFor(LastMatch(ts[..i], taskId)) else deltaIn
    {
      var t := ts[i];
      TasksStep(ts, i, taskId, now);
      if t.id == taskId {
        var isNowCompleted := !t.isCompleted;
        delta := if isNowCompleted then PointsPerTask else -PointsPerTask;
        next := next + [t.(isCompleted := isNowCompleted, completedAt := if isNowCompleted then Some(now) else None)];
      } else {
        next := next + [t];
      }
      i := i + 1;
    }
    assert ts[..i] == ts;
  }

  /** One step of the inner `map`: the specification functions on a prefix
      one task longer. */
  lemma TasksStep(ts: seq<Task>, i: nat, taskId: string, now: int)
    requires i < |ts|
    ensures ToggleTasks(ts[..i + 1], taskId, now)
      == ToggleTasks(ts[..i], taskId, now) + [if ts[i].id == taskId then Flip(ts[i], now) else ts[i]]
    ensures LastMatch(ts[..i + 1], taskId) == if ts[i].id == taskId then Some(ts[i]) else LastMatch(ts[..i], taskId)
  {
    assert ts[..i + 1][..i] == ts[..i];
  }

  /** One step of the outer `map`: the specification functions on a prefix
      one record longer. */
  lemma AcrossStep(ps: seq<UserProgress>, i: nat, selected: Option<string>, taskId: string, now: int)
    requires i < |ps|
    ensures ToggleAll(ps[..i + 1], selected, taskId, now)
      == ToggleAll(ps[..i], selected, taskId, now) + [if IsSelected(ps[i], selected) then ToggleRecord(ps[i], taskId, now) else ps[i]]
    ensures PointsDelta(ps[..i + 1], selected, taskId)
      == if IsSelected(ps[i], selected) && LastMatch(ps[i].tasks, taskId).Some?
         then DeltaFor(LastMatch(ps[i].tasks, taskId)) else PointsDelta(ps[..i], selected, taskId)
  {
    assert ps[..i + 1][..i] == ps[..i];
  }

  /** The outer `map` of `handleTaskToggle`: the new record list and the
      final `pointsDelta`. */
  method ToggleAcross(ps: seq<UserProgress>, selected: Option<string>, taskId: string, now: int)
    returns (next: seq<UserProgress>, pointsDelta: int)
    ensures next == ToggleAll(ps, selected, taskId, now)
    ensures pointsDelta == PointsDelta(ps, selected, taskId)
  {
    pointsDelta := 0;
    next := [];
    var i := 0;
    while i < |ps|
      invariant 0 <= i <= |ps|
      invariant next == ToggleAll(ps[..i], selected, taskId, now)
      invariant pointsDelta == PointsDelta(ps[..i], selected, taskId)
    {
      var p := ps[i];
      AcrossStep(ps, i, selected, taskId, now);
      if IsSelected(p, selected) {
        var nextTasks, d := ToggleInTasks(p.tasks, taskId, now, pointsDelta);
        pointsDelta := d;
        var allCompleted := AllCompleted(nextTasks);
        var status := if allCompleted then Completed else Active;
        var record := p.(status := status, tasks := nextTasks,
                         totalPointsEarned := CompletedCount(nextTasks) * PointsPerTask);
        assert record == ToggleRecord(p, taskId, now);
        next := next + [record];
      } else {
        next := next + [p];
      }
      i := i + 1;
    }
    assert ps[..i] == ps;
  }

  // ------------------------------------------------------- the properties

  /** With unique task ids, the task flipped is the one with that id. */
  lemma {:induction false} LastMatchUnique(ts: seq<Task>, taskId: string, k: nat)
    requires UniqueIds(ts) && k < |ts| && ts[k].id == taskId
    ensures LastMatch(ts, taskId) == Some(ts[k])
  {
    if k < |ts| - 1 {
      var init := ts[..|ts| - 1];
      assert init[k] == ts[k];
      LastMatchUnique(init, taskId, k);
    }
  }

  /** No task is flipped exactly when no task has that id; then the list is
      unchanged. */
  lemma {:induction false} LastMatchNone(ts: seq<Task>, taskId: string, now: int)
    ensures LastMatch(ts, taskId) == None <==> forall k :: 0 <= k < |ts| ==> ts[k].id != taskId
    ensures LastMatch(ts, taskId) == None ==> ToggleTasks(ts, taskId, now) == ts
  {
    if ts != [] && ts[|ts| - 1].id != taskId {
      var init := ts[..|ts| - 1];
      LastMatchNone(init, taskId, now);
      assert forall k :: 0 <= k < |init| ==> init[k] == ts[k];
    }
  }

  /** Conversely, a task with that id in any selected record is flipped, so
      `pointsDelta` moves: it stays 0 only when no selected task matches. */
  lemma {:induction false} LastToggledSomeIfMatch(ps: seq<UserProgress>, selected: Option<string>, taskId: string, k: nat, j: nat)
    requires k < |ps| && IsSelected(ps[k], selected)
    requires j < |ps[k].tasks| && ps[k].tasks[j].id == taskId
    ensures LastToggled(ps, selected, taskId).Some?
    ensures PointsDelta(ps, selected, taskId) != 0
  {
    LastMatchNone(ps[k].tasks, taskId, 0);
    if k < |ps| - 1 {
      var p := ps[|ps| - 1];
      if !(IsSelected(p, selected) && LastMatch(p.tasks, taskId).Some?) {
        var init := ps[..|ps| - 1];
        assert init[k] == ps[k];
        LastToggledSomeIfMatch(init, selected, taskId, k, j);
      }
    }
  }

  /** How a toggle moves a record's completed-task count: by +1 when the
      flipped task was incomplete, -1 when it was complete, 0 when no task
      matched (task ids unique). */
  function CountDelta(m: Option<Task>): int {
    match m
    case None => 0
    case Some(t) => if t.isCompleted then -1 else 1
  }

  lemma {:induction false} ToggleCount(ts: seq<Task>, taskId: string, now: int)
    requires UniqueIds(ts)
    ensures CompletedCount(ToggleTasks(ts, taskId, now)) == CompletedCount(ts) + CountDelta(LastMatch(ts, taskId))
  {
    if ts != [] {
      var n := |ts|;
      var init := ts[..n - 1];
      var r := ToggleTasks(ts, taskId, now);
      assert r[..n - 1] == ToggleTasks(init, taskId, now);
      ToggleCount(init, taskId, now);
      if ts[n - 1].id == taskId {
        assert forall k :: 0 <= k < |init| ==> init[k].id != taskId;
        LastMatchNone(init, taskId, now);
      }
    }
  }

  /** The ledger reconciles: with no duplicate enrolment and unique task ids,
      the points delta of a toggle is exactly the change, times the points per
      task, of the completed-task total over all records. So a points balance
      that starts equal to that total times ten stays equal to it across
      toggles. */
  lemma {:induction false} PointsTrackCompletions(ps: seq<UserProgress>, selected: Option<string>, taskId: string, now: int)
    requires NoDuplicateEnrollment(ps)
    requires forall k :: 0 <= k < |ps| ==> UniqueIds(ps[k].tasks)
    ensures EarnedCount(ToggleAll(ps, selected, taskId, now)) == EarnedCount(ps) + CountDelta(LastToggled(ps, selected, taskId))
    ensures EarnedCount(ToggleAll(ps, selected, taskId, now)) * PointsPerTask
            == EarnedCount(ps) * PointsPerTask + PointsDelta(ps, selected, taskId)
  {
    if ps != [] {
      var n := |ps|;
      var init := ps[..n - 1];
      var p := ps[n - 1];
      var r := ToggleAll(ps, selected, taskId, now);
      assert r[..n - 1] == ToggleAll(init, selected, taskId, now);
      if IsSelected(p, selected) {
        assert forall k :: 0 <= k < |init| ==> !IsSelected(init[k], selected);
        assert ToggleAll(init, selected, taskId, now) == init;
        ToggleCount(p.tasks, taskId, now);
      } else {
        PointsTrackCompletions(init, selected, taskId, now);
      }
    }
  }

  /** With no duplicate enrolment, `find` returns the one selected record. */
  lemma {:induction false} FirstSelectedUnique(ps: seq<UserProgress>, selected: Option<string>, k: nat)
    requires NoDuplicateEnrollment(ps) && k < |ps| && IsSelected(ps[k], selected)
    ensures FirstSelected(ps, selected) == Some(ps[k])
  {
    if k > 0 {
      assert !IsSelected(ps[0], selected);
      FirstSelectedUnique(ps[1..], selected, k - 1);
    }
  }

  /** With no record selected, no task is flipped. */
  lemma {:induction false} LastToggledNoneSelected(ps: seq<UserProgress>, selected: Option<string>, taskId: string)
    requires forall j :: 0 <= j < |ps| ==> !IsSelected(ps[j], selected)
    ensures LastToggled(ps, selected, taskId) == None
  {
    if ps != [] {
      LastToggledNoneSelected(ps[..|ps| - 1], selected, taskId);
    }
  }

  /** With record k the only one selected, the task flipped last is the
      last one with that id in record k. */
  lemma {:induction false} LastToggledOnly(ps: seq<UserProgress>, selected: Option<string>, taskId: string, k: nat)
    requires NoDuplicateEnrollment(ps) && k < |ps| && IsSelected(ps[k], selected)
    ensures LastToggled(ps, selected, taskId) == LastMatch(ps[k].tasks, taskId)
  {
    var init := ps[..|ps| - 1];
    assert NoDuplicateEnrollment(init);
    if k == |ps| - 1 {
      assert forall j :: 0 <= j < |init| ==> !IsSelected(init[j], selected);
      LastToggledNoneSelected(init, selected, taskId);
    } else {
      assert !IsSelected(ps[|ps| - 1], selected);
      LastToggledOnly(init, selected, taskId, k);
    }
  }

  /** Tickets are credited only on the completion edge. With record k the
      selected one (no duplicate enrolment), the bonus is earned exactly
      when a task was completed (not undone) and record k is now all done,
      and then record k was not all done before the toggle. An undo or a
      toggle that matches no task never earns it. */
  lemma BonusOnCompletionEdge(ps: seq<UserProgress>, selected: Option<string>, taskId: string, now: int, k: nat)
    requires NoDuplicateEnrollment(ps) && k < |ps| && IsSelected(ps[k], selected)
    ensures var next := ToggleAll(ps, selected, taskId, now);
      EarnsBonus(PointsDelta(ps, selected, taskId), next, selected) <==>
        PointsDelta(ps, selected, taskId) > 0 && AllCompleted(next[k].tasks)
    ensures EarnsBonus(PointsDelta(ps, selected, taskId), ToggleAll(ps, selected, taskId, now), selected) ==>
      !AllCompleted(ps[k].tasks)
    ensures PointsDelta(ps, selected, taskId) <= 0 ==>
      !EarnsBonus(PointsDelta(ps, selected, taskId), ToggleAll(ps, selected, taskId, now), selected)
  {
    var next := ToggleAll(ps, selected, taskId, now);
    assert NoDuplicateEnrollment(next) by {
      assert forall j :: 0 <= j < |ps| ==> next[j].challengeId == ps[j].challengeId;
    }
    FirstSelectedUnique(next, selected, k);
    LastToggledOnly(ps, selected, taskId, k);
    var m := LastMatch(ps[k].tasks, taskId);
    if PointsDelta(ps, selected, taskId) > 0 {
      assert m.Some? && !m.value.isCompleted;
    }
  }

  /** With a duplicate enrolment the ticket rule reads the FIRST selected
      record (`find`), not the one whose task was flipped: an earlier record
      of the same challenge with no tasks is `completed` after any toggle, so
      completing one of two tasks in a later record earns the bonus although
      that record is not all done. */
  lemma DuplicateEnrollmentBonusFromFirst(first: UserProgress, second: UserProgress, a: Task, b: Task, now: int)
    requires first.challengeId == second.challengeId && first.tasks == []
    requires second.tasks == [a, b] && a.id != b.id && !a.isCompleted && !b.isCompleted
    ensures var ps := [first, second];
      var selected := Some(first.challengeId);
      var next := ToggleAll(ps, selected, a.id, now);
      && PointsDelta(ps, selected, a.id) == PointsPerTask
      && EarnsBonus(PointsDelta(ps, selected, a.id), next, selected)
      && !AllCompleted(next[1].tasks)
  {
    var ps := [first, second];
    var selected := Some(first.challengeId);
    var next := ToggleAll(ps, selected, a.id, now);
    assert LastMatch(second.tasks, a.id) == Some(a) by {
      assert second.tasks[..1] == [a];
    }
    assert LastToggled(ps, selected, a.id) == Some(a);
    assert next[0].status == Completed;
    assert FirstSelected(next, selected) == Some(next[0]);
    assert !next[1].tasks[1].isCompleted;
  }

  /** Undo reopens: if the record has a completed task with that id, the
      toggle leaves it `active`, whatever its status was. */
  lemma UndoReopens(p: UserProgress, taskId: string, now: int, k: nat)
    requires k < |p.tasks| && p.tasks[k].id == taskId && p.tasks[k].isCompleted
    ensures ToggleRecord(p, taskId, now).status == Active
    ensures ToggleRecord(p, taskId, now).totalPointsEarned < |p.tasks| * PointsPerTask
  {
    assert !ToggleRecord(p, taskId, now).tasks[k].isCompleted;
  }

  /** A record with no tasks becomes `completed` on any toggle, with no
      points moved and no tickets credited, because every task of an empty
      list is complete. */
  lemma ZeroTaskRecordCompletes(ps: seq<UserProgress>, selected: Option<string>, taskId: string, now: int)
    requires forall k :: 0 <= k < |ps| ==> IsSelected(ps[k], selected) ==> ps[k].tasks == []
    ensures forall k :: 0 <= k < |ps| && IsSelected(ps[k], selected) ==>
      ToggleAll(ps, selected, taskId, now)[k].status == Completed
    ensures PointsDelta(ps, selected, taskId) == 0
    ensures !EarnsBonus(PointsDelta(ps, selected, taskId), ToggleAll(ps, selected, taskId, now), selected)
  {
  }

  /** Joining one of the initial challenges, which carry no task templates,
      gives a record that the next toggle marks `completed`. */
  lemma MockJoinThenToggle(userId: string, k: nat, joinedAt: int, taskId: string, now: int)
    requires k < |MockChallenges|
    ensures ToggleRecord(NewProgress(userId, MockChallenges[k], joinedAt), taskId, now).status == Completed
    ensures ToggleRecord(NewProgress(userId, MockChallenges[k], joinedAt), taskId, now).totalPointsEarned == 0
  {
    MockChallengesPricedAndEmpty();
    assert MockChallenges[k] in MockChallenges;
  }

  /** The toggle keeps the record invariant and does not change the number
      or order of the records or their challenge ids. */
  lemma ToggleKeepsConsistent(ps: seq<UserProgress>, selected: Option<string>, taskId: string, now: int)
    ensures Consistent(ps) ==> Consistent(ToggleAll(ps, selected, taskId, now))
    ensures forall k :: 0 <= k < |ps| ==> ToggleAll(ps, selected, taskId, now)[k].challengeId == ps[k].challengeId
  {
  }
}
