/** `validateTasksSemantics`: report every task whose id an earlier task already has. */
module TaskValidator {
  import opened Seqs
  import opened TaskTypes

  /** A step of an error path: an object key or an array index. */
  datatype PathStep = Key(key: string) | Index(index: nat)

  datatype ValidationError = ValidationError(code: string, message: string, path: seq<PathStep>)

  const DuplicateTaskIdCode := "DUPLICATE_TASK_ID"

  function DuplicateError(id: TaskId, index: nat): ValidationError {
    ValidationError(DuplicateTaskIdCode, "Duplicate task ID found: \"" + id + "\"", [Key("tasks"), Index(index), Key("id")])
  }

  function Ids(tasks: seq<Task>): (ids: seq<TaskId>)
    ensures |ids| == |tasks| && forall i :: 0 <= i < |tasks| ==> ids[i] == tasks[i].id
  {
    seq(|tasks|, i requires 0 <= i < |tasks| => tasks[i].id)
  }

  /** The positions whose id occurs at an earlier position, in increasing order. */
  function Repeats(ids: seq<TaskId>): (r: seq<nat>)
    ensures forall k :: 0 <= k < |r| ==> r[k] < |ids|
  {
    if |ids| == 0 then []
    else Repeats(ids[..|ids| - 1]) + (if ids[|ids| - 1] in ids[..|ids| - 1] then [|ids| - 1] else [])
  }

  /** One error per repeated position, in order. */
  function DuplicateErrors(tasks: seq<Task>): seq<ValidationError> {
    var rs := Repeats(Ids(tasks));
    seq(|rs|, k requires 0 <= k < |rs| => DuplicateError(tasks[rs[k]].id, rs[k]))
  }

  /** The `forEach` with the set of ids seen so far. */
  method ValidateTasksSemantics(file: TasksFile) returns (errors: seq<ValidationError>)
    ensures errors == DuplicateErrors(file.tasks)
  {
    var tasks := file.tasks;
    ghost var ids := Ids(tasks);
    errors := [];
    var taskIds: set<TaskId> := {};
    ghost var repeats: seq<nat> := [];
    for index := 0 to |tasks|
      invariant Scanned(tasks, ids, index, taskIds, repeats, errors)
    {
      taskIds, errors, repeats := CheckTask(tasks, ids, index, taskIds, errors, repeats);
    }
    assert ids[..|tasks|] == ids;
  }

  /** After the first `index` tasks: the ids seen so far, and one error per repeat among them. */
  ghost predicate Scanned(tasks: seq<Task>, ids: seq<TaskId>, index: nat, taskIds: set<TaskId>,
                          repeats: seq<nat>, errors: seq<ValidationError>)
  {
    && ids == Ids(tasks)
    && index <= |tasks|
    && taskIds == Elems(ids[..index])
    && repeats == Repeats(ids[..index])
    && |errors| == |repeats|
    && forall k :: 0 <= k < |repeats| ==>
         repeats[k] < index && errors[k] == DuplicateError(tasks[repeats[k]].id, repeats[k])
  }

  /** The callback on the task at `index`: report it when its id was seen, otherwise remember the id. */
  method CheckTask(tasks: seq<Task>, ghost ids: seq<TaskId>, index: nat, taskIds0: set<TaskId>,
                   errors0: seq<ValidationError>, ghost repeats0: seq<nat>)
    returns (taskIds: set<TaskId>, errors: seq<ValidationError>, ghost repeats: seq<nat>)
    requires index < |tasks| && Scanned(tasks, ids, index, taskIds0, repeats0, errors0)
    ensures Scanned(tasks, ids, index + 1, taskIds, repeats, errors)
    ensures taskIds == taskIds0 + {tasks[index].id}
    ensures tasks[index].id in taskIds0 ==> errors == errors0 + [DuplicateError(tasks[index].id, index)]
    ensures tasks[index].id !in taskIds0 ==> errors == errors0
  {
    var task := tasks[index];
    ScanStep(ids, index);
    if task.id in taskIds0 {
      taskIds, errors, repeats := taskIds0, errors0 + [DuplicateError(task.id, index)], repeats0 + [index];
    } else {
      taskIds, errors, repeats := taskIds0 + {task.id}, errors0, repeats0;
    }
  }

  /** One more position: its id joins the seen set, and it is reported when already seen. */
  lemma ScanStep(ids: seq<TaskId>, index: nat)
    requires index < |ids|
    ensures Elems(ids[..index + 1]) == Elems(ids[..index]) + {ids[index]}
    ensures Repeats(ids[..index + 1]) ==
              Repeats(ids[..index]) + (if ids[index] in Elems(ids[..index]) then [index] else [])
  {
    assert ids[..index + 1] == ids[..index] + [ids[index]];
    assert ids[..index + 1][..index] == ids[..index];
  }

  // ----- Properties -----

  /** A position is reported exactly when its id occurs earlier; the reports come in increasing order. */
  lemma {:induction false} RepeatsExactly(ids: seq<TaskId>)
    ensures forall k: nat :: k in Repeats(ids) <==> k < |ids| && ids[k] in ids[..k]
    ensures forall a, b :: 0 <= a < b < |Repeats(ids)| ==> Repeats(ids)[a] < Repeats(ids)[b]
  {
    RepeatsMembers(ids);
    RepeatsIncreasing(ids);
  }

  lemma {:induction false} RepeatsMembers(ids: seq<TaskId>)
    ensures forall k: nat :: k in Repeats(ids) <==> k < |ids| && ids[k] in ids[..k]
  {
    if |ids| > 0 {
      var front, last := ids[..|ids| - 1], |ids| - 1;
      RepeatsMembers(front);
      var r := Repeats(front);
      var tail: seq<nat> := if ids[last] in front then [last] else [];
      assert Repeats(ids) == r + tail;
      forall k: nat
        ensures k in Repeats(ids) <==> k < |ids| && ids[k] in ids[..k]
      {
        if k < last {
          assert ids[..k] == front[..k] && ids[k] == front[k];
          assert k !in tail;
        } else if k == last {
          assert ids[..k] == front;
          assert k !in r;
        } else {
          assert k !in r && k !in tail;
        }
      }
    }
  }

  lemma {:induction false} RepeatsIncreasing(ids: seq<TaskId>)
    ensures forall a, b :: 0 <= a < b < |Repeats(ids)| ==> Repeats(ids)[a] < Repeats(ids)[b]
  {
    if |ids| > 0 {
      var front, last := ids[..|ids| - 1], |ids| - 1;
      RepeatsIncreasing(front);
      var r := Repeats(front);
      var tail: seq<nat> := if ids[last] in front then [last] else [];
      assert Repeats(ids) == r + tail;
      forall a, b | 0 <= a < b < |r + tail|
        ensures (r + tail)[a] < (r + tail)[b]
      {
        if b < |r| {
          assert (r + tail)[a] == r[a] && (r + tail)[b] == r[b];
        } else {
          assert (r + tail)[a] == r[a] && (r + tail)[b] == last;
        }
      }
    }
  }

  /** The first occurrence of an id is never reported. */
  lemma FirstNeverFlagged(ids: seq<TaskId>, k: nat)
    requires k < |ids| && forall j :: 0 <= j < k ==> ids[j] != ids[k]
    ensures k !in Repeats(ids)
  {
    RepeatsExactly(ids);
  }

  /** There are as many reports as positions beyond the number of distinct ids. */
  lemma {:induction false} RepeatsCount(ids: seq<TaskId>)
    ensures |Repeats(ids)| == |ids| - |Elems(ids)|
  {
    if |ids| > 0 {
      var front, last := ids[..|ids| - 1], ids[|ids| - 1];
      RepeatsCount(front);
      assert Elems(ids) == Elems(front) + {last};
      if last in front {
        assert Elems(ids) == Elems(front);
        assert |Repeats(ids)| == |Repeats(front)| + 1;
      } else {
        assert last !in Elems(front);
        assert |Repeats(ids)| == |Repeats(front)|;
      }
    }
  }

  /** No errors exactly when all ids are distinct. */
  lemma NoErrorsIffDistinct(tasks: seq<Task>)
    ensures DuplicateErrors(tasks) == [] <==> Distinct(Ids(tasks))
  {
    var ids := Ids(tasks);
    RepeatsCount(ids);
    ElemsCard(ids);
    if !Distinct(ids) {
      var i, j :| 0 <= i < j < |ids| && ids[i] == ids[j];
      RepeatsExactly(ids);
      assert ids[i] == ids[..j][i];
      assert j in Repeats(ids);
    }
  }

  /** Each error names the repeated id, with the path `tasks`, its index, `id`. */
  lemma ErrorsDescribeRepeats(tasks: seq<Task>)
    ensures |DuplicateErrors(tasks)| == |tasks| - |Elems(Ids(tasks))|
    ensures forall k :: 0 <= k < |DuplicateErrors(tasks)| ==>
              var e := DuplicateErrors(tasks)[k];
              var i := Repeats(Ids(tasks))[k];
              && i < |tasks|
              && e.code == DuplicateTaskIdCode
              && e.path == [Key("tasks"), Index(i), Key("id")]
              && exists j :: 0 <= j < i && tasks[j].id == tasks[i].id
  {
    var ids := Ids(tasks);
    RepeatsCount(ids);
    RepeatsExactly(ids);
    forall k | 0 <= k < |Repeats(ids)|
      ensures var i := Repeats(ids)[k];
              i < |tasks| && exists j :: 0 <= j < i && tasks[j].id == tasks[i].id
    {
      var i := Repeats(ids)[k];
      assert i in Repeats(ids);
      assert ids[i] in ids[..i];
      var j :| 0 <= j < i && ids[..i][j] == ids[i];
      assert tasks[j].id == tasks[i].id;
    }
  }
}
