/** Operations on task lists that both the engine (a user's private copy)
    and the authoring form (the draft template) use. */
module TaskLists {
  import opened Types

  /** `tasks.every(t => t.isCompleted)`: vacuously true of an empty list. */
  predicate AllCompleted(ts: seq<Task>) {
    forall k :: 0 <= k < |ts| ==> ts[k].isCompleted
  }

  /** No two tasks of the list share an id. */
  predicate UniqueIds(ts: seq<Task>) {
    forall i, j :: 0 <= i < j < |ts| ==> ts[i].id != ts[j].id
  }

  /** `tasks.filter(t => t.isCompleted).length`. */
  function CompletedCount(ts: seq<Task>): (n: nat)
    ensures n <= |ts|
  {
    if ts == [] then 0
    else CompletedCount(ts[..|ts| - 1]) + (if ts[|ts| - 1].isCompleted then 1 else 0)
  }

  /** The count reaches the length exactly when every task is completed, and
      is zero when none is. */
  lemma {:induction false} CompletedCountFull(ts: seq<Task>)
    ensures CompletedCount(ts) == |ts| <==> AllCompleted(ts)
    ensures (forall k :: 0 <= k < |ts| ==> !ts[k].isCompleted) ==> CompletedCount(ts) == 0
  {
    if ts != [] {
      var init := ts[..|ts| - 1];
      CompletedCountFull(init);
      assert forall k :: 0 <= k < |init| ==> init[k] == ts[k];
    }
  }

  /** Two lists that agree position by position on the completion flag have
      the same count. */
  lemma {:induction false} CompletedCountSameFlags(a: seq<Task>, b: seq<Task>)
    requires |a| == |b|
    requires forall k :: 0 <= k < |a| ==> a[k].isCompleted == b[k].isCompleted
    ensures CompletedCount(a) == CompletedCount(b)
  {
    if a != [] {
      CompletedCountSameFlags(a[..|a| - 1], b[..|b| - 1]);
    }
  }

  /** `tasks.map(t => t.id === id ? { ...t, description: desc } : t)`: the
      description of every task with that id is replaced, and nothing else. */
  function EditDescription(ts: seq<Task>, id: string, desc: string): (r: seq<Task>)
    ensures |r| == |ts|
    ensures forall k :: 0 <= k < |ts| ==>
      r[k].id == ts[k].id && r[k].day == ts[k].day &&
      r[k].isCompleted == ts[k].isCompleted && r[k].completedAt == ts[k].completedAt &&
      r[k].proofUrl == ts[k].proofUrl &&
      r[k].description == (if ts[k].id == id then desc else ts[k].description)
  {
    seq(|ts|, k requires 0 <= k < |ts| => if ts[k].id == id then ts[k].(description := desc) else ts[k])
  }

  /** Editing a description never changes how many tasks are completed, nor
      whether all of them are. */
  lemma EditKeepsCompletion(ts: seq<Task>, id: string, desc: string)
    ensures CompletedCount(EditDescription(ts, id, desc)) == CompletedCount(ts)
    ensures AllCompleted(EditDescription(ts, id, desc)) <==> AllCompleted(ts)
  {
    CompletedCountSameFlags(EditDescription(ts, id, desc), ts);
  }

  /** Editing a task id that is absent leaves the list as it was. */
  lemma EditAbsentIsNoOp(ts: seq<Task>, id: string, desc: string)
    requires forall k :: 0 <= k < |ts| ==> ts[k].id != id
    ensures EditDescription(ts, id, desc) == ts
  {
  }
}
