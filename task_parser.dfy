/**
 * `parseTasksFile`: classify load and schema failures, then let every task inherit the file's
 * default repository, tool and merge policy where it names none of its own.
 */
module TaskParser {
  import opened Wrappers
  import opened TaskTypes

  /** `TaskParseError`: a message and, for schema failures, the schema's report. */
  datatype TaskParseError<Issues> = TaskParseError(message: string, parseErrors: Option<Issues>)

  const YamlErrorPrefix := "Failed to parse YAML: "
  const ValidationFailed := "Validation failed"

  /** `task.field ?? fallback`. */
  function OrElse<T>(own: Option<T>, fallback: Option<T>): (r: Option<T>)
    ensures own.Some? ==> r == own
    ensures own.None? ==> r == fallback
  {
    if own.Some? then own else fallback
  }

  /** One task after inheritance: only `repo`, `tool` and `mergePolicy` can change. */
  function WithDefaults(task: Task, file: TasksFile): (t: Task)
    ensures t.repo == OrElse(task.repo, file.defaultRepo)
    ensures t.tool == OrElse(task.tool, file.defaultTool)
    ensures t.mergePolicy == Some(task.mergePolicy.GetOr(file.defaultMergePolicy))
    ensures t.(repo := task.repo, tool := task.tool, mergePolicy := task.mergePolicy) == task
  {
    task.(repo := OrElse(task.repo, file.defaultRepo),
          tool := OrElse(task.tool, file.defaultTool),
          mergePolicy := OrElse(task.mergePolicy, Some(file.defaultMergePolicy)))
  }

  /** The file with every task's defaults applied (`data.tasks.map`). */
  function ApplyDefaults(file: TasksFile): (r: TasksFile)
    ensures r.(tasks := file.tasks) == file
    ensures |r.tasks| == |file.tasks|
    ensures forall i :: 0 <= i < |file.tasks| ==> r.tasks[i] == WithDefaults(file.tasks[i], file)
  {
    file.(tasks := seq(|file.tasks|, i requires 0 <= i < |file.tasks| => WithDefaults(file.tasks[i], file)))
  }

  /**
   * The whole step. `loaded` is the outcome of loading the YAML text (`Err` with the loader's
   * message); `schema` is the schema check, giving the file with its own defaults or a report.
   */
  function ParseTasksFile<Y, Issues>(loaded: Result<Y, string>, schema: Y -> Result<TasksFile, Issues>)
    : (r: Result<TasksFile, TaskParseError<Issues>>)
    ensures loaded.Err? ==> r.Err? && r.error.message == YamlErrorPrefix + loaded.error && r.error.parseErrors.None?
    ensures loaded.Ok? && schema(loaded.value).Err? ==>
              r.Err? && r.error.message == ValidationFailed && r.error.parseErrors == Some(schema(loaded.value).error)
    ensures r.Ok? <==> loaded.Ok? && schema(loaded.value).Ok?
    ensures r.Ok? ==> r.value == ApplyDefaults(schema(loaded.value).value)
  {
    match loaded
    case Err(e) => Err(TaskParseError(YamlErrorPrefix + e, None))
    case Ok(parsed) =>
      match schema(parsed)
      case Err(issues) => Err(TaskParseError(ValidationFailed, Some(issues)))
      case Ok(data) => Ok(ApplyDefaults(data))
  }

  // ----- Properties -----

  /** A load failure is reported before, and without, any schema check. */
  lemma LoadFailureFirst<Y, Issues>(e: string, schema1: Y -> Result<TasksFile, Issues>, schema2: Y -> Result<TasksFile, Issues>)
    ensures ParseTasksFile(Err(e), schema1) == ParseTasksFile(Err(e), schema2)
            == Err(TaskParseError(YamlErrorPrefix + e, None))
  {
  }

  /** The error classes: a load failure, a schema failure with its report, or a file. */
  lemma Classified<Y, Issues>(loaded: Result<Y, string>, schema: Y -> Result<TasksFile, Issues>)
    ensures var r := ParseTasksFile(loaded, schema);
            && (loaded.Err? <==> r.Err? && r.error.parseErrors.None?)
            && (loaded.Ok? && schema(loaded.value).Err? <==> r.Err? && r.error.parseErrors.Some?)
            && (r.Err? && r.error.parseErrors.Some? ==> r.error.message == ValidationFailed)
            && (r.Ok? <==> loaded.Ok? && schema(loaded.value).Ok?)
  {
  }

  /** Applying the defaults a second time changes nothing. */
  lemma DefaultsIdempotent(file: TasksFile)
    ensures ApplyDefaults(ApplyDefaults(file)) == ApplyDefaults(file)
  {
    var once := ApplyDefaults(file);
    var twice := ApplyDefaults(once);
    forall i | 0 <= i < |file.tasks|
      ensures twice.tasks[i] == once.tasks[i]
    {
      assert once.defaultRepo == file.defaultRepo && once.defaultTool == file.defaultTool;
    }
  }

  /** After inheritance every task has a merge policy, and it has a repository or tool whenever the file has a default. */
  lemma DefaultsFill(file: TasksFile)
    ensures forall t :: t in ApplyDefaults(file).tasks ==>
              t.mergePolicy.Some?
              && (file.defaultRepo.Some? ==> t.repo.Some?)
              && (file.defaultTool.Some? ==> t.tool.Some?)
  {
    var r := ApplyDefaults(file);
    forall t | t in r.tasks
      ensures t.mergePolicy.Some? && (file.defaultRepo.Some? ==> t.repo.Some?) && (file.defaultTool.Some? ==> t.tool.Some?)
    {
      var i :| 0 <= i < |r.tasks| && r.tasks[i] == t;
      assert t == WithDefaults(file.tasks[i], file);
    }
  }

  /** Ids, order and count pass through unchanged, repeats included: this step rejects no duplicate. */
  lemma IdsPreserved<Y, Issues>(loaded: Result<Y, string>, schema: Y -> Result<TasksFile, Issues>)
    requires loaded.Ok? && schema(loaded.value).Ok?
    ensures var data := schema(loaded.value).value;
            var r := ParseTasksFile(loaded, schema);
            r.Ok? && |r.value.tasks| == |data.tasks|
            && forall i :: 0 <= i < |data.tasks| ==> r.value.tasks[i].id == data.tasks[i].id
  {
  }
}
