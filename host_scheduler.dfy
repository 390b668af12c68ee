/**
 * The host's task scheduler (pm_Scheduler) as the extension uses it: list
 * the scheduled tasks, remove one by id, add a cron job for a command. The
 * host gives every task a fresh id. Whether the host refuses a removal or
 * an addition is not something the extension decides, so it is an oracle
 * fixed when the scheduler is made.
 */
module HostScheduler {
  import opened PhpRuntime

  datatype Task = Task(id: nat, schedule: string, command: string)

  ghost predicate DistinctIds(ts: seq<Task>)
  {
    forall i, j :: 0 <= i < j < |ts| ==> ts[i].id != ts[j].id
  }

  /** The task list after `removeTask($id)`. */
  function WithoutId(ts: seq<Task>, id: nat): seq<Task>
    decreases |ts|
  {
    if |ts| == 0 then [] else (if ts[0].id == id then [] else [ts[0]]) + WithoutId(ts[1..], id)
  }

  /** With distinct ids, removing the id of the task at position p removes exactly that task. */
  lemma {:induction false} WithoutIdAt(ts: seq<Task>, p: nat)
    requires DistinctIds(ts) && p < |ts|
    ensures WithoutId(ts, ts[p].id) == ts[..p] + ts[p + 1..]
    decreases |ts|
  {
    if p == 0 {
      WithoutIdAbsent(ts[1..], ts[0].id);
    } else {
      WithoutIdAt(ts[1..], p - 1);
      assert ts[1..][p - 1] == ts[p];
      assert ts[..p] == [ts[0]] + ts[1..][..p - 1];
      assert ts[p + 1..] == ts[1..][p..];
    }
  }

  lemma {:induction false} WithoutIdAbsent(ts: seq<Task>, id: nat)
    requires forall i :: 0 <= i < |ts| ==> ts[i].id != id
    ensures WithoutId(ts, id) == ts
    decreases |ts|
  {
    if |ts| > 0 {
      WithoutIdAbsent(ts[1..], id);
      assert [ts[0]] + ts[1..] == ts;
    }
  }

  class Scheduler {
    var tasks: seq<Task>
    var nextId: nat
    /** The error the host raises when asked to remove a task, if it refuses. */
    const removalError: nat -> Option<string>
    /** The error the host raises when asked to add a cron job, if it refuses. */
    const addError: Option<string>

    ghost predicate Valid()
      reads this
    {
      DistinctIds(tasks) && forall i :: 0 <= i < |tasks| ==> tasks[i].id < nextId
    }

    constructor (initial: seq<Task>, next: nat, removal: nat -> Option<string>, add: Option<string>)
      requires DistinctIds(initial) && forall i :: 0 <= i < |initial| ==> initial[i].id < next
      ensures Valid()
      ensures tasks == initial && nextId == next && removalError == removal && addError == add
    {
      tasks, nextId := initial, next;
      removalError, addError := removal, add;
    }

    /** `removeTask($id)`: throws the host's error, or drops the task with that id. */
    method RemoveTask(id: nat) returns (err: Option<string>)
      requires Valid()
      modifies this
      ensures Valid() && nextId == old(nextId)
      ensures err == removalError(id)
      ensures tasks == if err.Some? then old(tasks) else WithoutId(old(tasks), id)
    {
      err := removalError(id);
      if err.None? {
        WithoutIdSubset(tasks, id);
        WithoutIdDistinct(tasks, id);
        tasks := WithoutId(tasks, id);
      }
    }

    /** `addCronJob($schedule, $command)`: throws the host's error, or appends a task with a fresh id. */
    method AddCronJob(schedule: string, command: string) returns (err: Option<string>)
      requires Valid()
      modifies this
      ensures Valid()
      ensures err == addError
      ensures err.Some? ==> tasks == old(tasks) && nextId == old(nextId)
      ensures err.None? ==> tasks == old(tasks) + [Task(old(nextId), schedule, command)] && nextId == old(nextId) + 1
    {
      err := addError;
      if err.None? {
        tasks := tasks + [Task(nextId, schedule, command)];
        nextId := nextId + 1;
      }
    }
  }

  /** Removing by id keeps only tasks that were listed. */
  lemma {:induction false} WithoutIdSubset(ts: seq<Task>, id: nat)
    ensures forall i :: 0 <= i < |WithoutId(ts, id)| ==> WithoutId(ts, id)[i] in ts
    decreases |ts|
  {
    if |ts| > 0 {
      WithoutIdSubset(ts[1..], id);
      var rest := WithoutId(ts[1..], id);
      var head: seq<Task> := if ts[0].id == id then [] else [ts[0]];
      forall i | 0 <= i < |head + rest| ensures (head + rest)[i] in ts {
        if i >= |head| {
          assert (head + rest)[i] == rest[i - |head|];
          assert rest[i - |head|] in ts[1..];
        }
      }
    }
  }

  /** Removing by id keeps the ids distinct. */
  lemma {:induction false} WithoutIdDistinct(ts: seq<Task>, id: nat)
    requires DistinctIds(ts)
    ensures DistinctIds(WithoutId(ts, id))
    decreases |ts|
  {
    if |ts| > 0 {
      assert DistinctIds(ts[1..]);
      WithoutIdDistinct(ts[1..], id);
      var rest := WithoutId(ts[1..], id);
      if ts[0].id != id {
        WithoutIdSubset(ts[1..], id);
        forall j | 0 <= j < |rest| ensures ts[0].id != rest[j].id {
          var k :| 0 <= k < |ts[1..]| && ts[1..][k] == rest[j];
          assert ts[k + 1] == rest[j];
        }
        ConsDistinct(ts[0], rest);
      }
    }
  }

  /** A task whose id no listed task has can go in front of the list. */
  lemma {:induction false} ConsDistinct(t: Task, ts: seq<Task>)
    requires DistinctIds(ts) && forall j :: 0 <= j < |ts| ==> t.id != ts[j].id
    ensures DistinctIds([t] + ts)
  {
    forall i, j | 0 <= i < j < |[t] + ts| ensures ([t] + ts)[i].id != ([t] + ts)[j].id {
      if i > 0 {
        assert ([t] + ts)[i] == ts[i - 1];
      }
      assert ([t] + ts)[j] == ts[j - 1];
    }
  }

  /** Whether configureCronJob's loop leaves a task in place: it does not run the backup script, or the host refused to remove it. */
  predicate Survives(t: Task, scriptPath: string, removalError: nat -> Option<string>)
  {
    !Contains(t.command, scriptPath) || removalError(t.id).Some?
  }

  /** The tasks of a list that survive configureCronJob's removal loop, in their order. */
  function Surviving(ts: seq<Task>, scriptPath: string, removalError: nat -> Option<string>): seq<Task>
    decreases |ts|
  {
    if |ts| == 0 then []
    else Surviving(ts[..|ts| - 1], scriptPath, removalError)
         + (if Survives(ts[|ts| - 1], scriptPath, removalError) then [ts[|ts| - 1]] else [])
  }

  /**
   * The survivors are exactly the tasks that survive: every task that does not
   * run the script is kept, every task that runs it is gone unless the host
   * refused, and nothing is added or reordered.
   */
  lemma {:induction false} SurvivingMembers(ts: seq<Task>, scriptPath: string, removalError: nat -> Option<string>)
    ensures forall t :: t in Surviving(ts, scriptPath, removalError) <==> t in ts && Survives(t, scriptPath, removalError)
    ensures |Surviving(ts, scriptPath, removalError)| <= |ts|
    decreases |ts|
  {
    if |ts| > 0 {
      var init := ts[..|ts| - 1];
      SurvivingMembers(init, scriptPath, removalError);
      assert ts == init + [ts[|ts| - 1]];
      forall t ensures t in ts <==> t in init || t == ts[|ts| - 1] {
      }
    }
  }

  /** The task list once configureCronJob reaches addCronJob: the kept tasks, then the new job unless the host refused it. */
  function AfterCronAdd(kept: seq<Task>, nextId: nat, schedule: string, scriptPath: string, addError: Option<string>): seq<Task>
  {
    kept + (if addError.None? then [Task(nextId, schedule, scriptPath)] else [])
  }

  /** The index of the first task the removal loop tries to remove and the host refuses, or |ts| when it refuses none. */
  function FirstRefusal(ts: seq<Task>, scriptPath: string, removalError: nat -> Option<string>): (j: nat)
    ensures j <= |ts|
    ensures forall k :: 0 <= k < j ==> !Contains(ts[k].command, scriptPath) || removalError(ts[k].id).None?
    ensures j < |ts| ==> Contains(ts[j].command, scriptPath) && removalError(ts[j].id).Some?
    decreases |ts|
  {
    if |ts| == 0 then 0
    else if Contains(ts[0].command, scriptPath) && removalError(ts[0].id).Some? then 0
    else 1 + FirstRefusal(ts[1..], scriptPath, removalError)
  }

  /**
   * When the host refuses nothing, configureCronJob leaves exactly one task
   * running the backup script, the new one with the new schedule, and keeps
   * every task that does not run it.
   */
  lemma {:induction false} ReplacementLeavesOneJob(ts: seq<Task>, scriptPath: string, removalError: nat -> Option<string>,
                                                   nextId: nat, schedule: string)
    requires FirstRefusal(ts, scriptPath, removalError) == |ts|
    ensures Task(nextId, schedule, scriptPath) in AfterCronAdd(Surviving(ts, scriptPath, removalError), nextId, schedule, scriptPath, None)
    ensures forall t :: (t in AfterCronAdd(Surviving(ts, scriptPath, removalError), nextId, schedule, scriptPath, None)
                         && Contains(t.command, scriptPath)) ==> t == Task(nextId, schedule, scriptPath)
    ensures forall t :: t in ts && !Contains(t.command, scriptPath) ==>
                        t in AfterCronAdd(Surviving(ts, scriptPath, removalError), nextId, schedule, scriptPath, None)
  {
    SurvivingMembers(ts, scriptPath, removalError);
    var after := AfterCronAdd(Surviving(ts, scriptPath, removalError), nextId, schedule, scriptPath, None);
    assert after == Surviving(ts, scriptPath, removalError) + [Task(nextId, schedule, scriptPath)];
    forall t | t in ts
      ensures Survives(t, scriptPath, removalError) <==> !Contains(t.command, scriptPath)
    {
      var k :| 0 <= k < |ts| && ts[k] == t;
    }
  }

  /**
   * One turn of configureCronJob's removal loop: with the first i listed
   * tasks handled, handling task i (removing it when it runs the script and
   * the host agrees) gives the list with the first i + 1 handled.
   */
  lemma {:induction false} RemovalLoopStep(scheduled: seq<Task>, i: nat, scriptPath: string,
                                           removalError: nat -> Option<string>, after: seq<Task>)
    requires i < |scheduled|
    requires DistinctIds(Surviving(scheduled[..i], scriptPath, removalError) + scheduled[i..])
    requires after == if Contains(scheduled[i].command, scriptPath) && removalError(scheduled[i].id).None?
                      then WithoutId(Surviving(scheduled[..i], scriptPath, removalError) + scheduled[i..], scheduled[i].id)
                      else Surviving(scheduled[..i], scriptPath, removalError) + scheduled[i..]
    ensures after == Surviving(scheduled[..i + 1], scriptPath, removalError) + scheduled[i + 1..]
  {
    var kept := Surviving(scheduled[..i], scriptPath, removalError);
    SurvivingSnoc(scheduled, i, scriptPath, removalError);
    if Contains(scheduled[i].command, scriptPath) && removalError(scheduled[i].id).None? {
      RemoveFirstOfRest(kept, scheduled[i..]);
      assert scheduled[i..][1..] == scheduled[i + 1..];
      assert kept + [] == kept;
    } else {
      KeepFirstOfRest(kept, scheduled[i..]);
      assert scheduled[i..][1..] == scheduled[i + 1..];
    }
  }

  /** With distinct ids, removing the first task after `kept` leaves `kept` and the tasks after it. */
  lemma {:induction false} RemoveFirstOfRest(kept: seq<Task>, rest: seq<Task>)
    requires |rest| > 0 && DistinctIds(kept + rest)
    ensures WithoutId(kept + rest, rest[0].id) == kept + rest[1..]
  {
    var ts := kept + rest;
    assert ts[|kept|] == rest[0];
    WithoutIdAt(ts, |kept|);
    assert ts[..|kept|] == kept;
    assert ts[|kept| + 1..] == rest[1..];
  }

  /** Keeping the first task after `kept` moves it to the end of `kept`. */
  lemma {:induction false} KeepFirstOfRest(kept: seq<Task>, rest: seq<Task>)
    requires |rest| > 0
    ensures kept + rest == (kept + [rest[0]]) + rest[1..]
  {
    assert rest == [rest[0]] + rest[1..];
  }

  /** The survivors of the first i + 1 tasks: those of the first i, then task i if it survives. */
  lemma {:induction false} SurvivingSnoc(ts: seq<Task>, i: nat, scriptPath: string, removalError: nat -> Option<string>)
    requires i < |ts|
    ensures Surviving(ts[..i + 1], scriptPath, removalError)
            == Surviving(ts[..i], scriptPath, removalError) + (if Survives(ts[i], scriptPath, removalError) then [ts[i]] else [])
  {
    assert ts[..i + 1][..i] == ts[..i];
  }
}
