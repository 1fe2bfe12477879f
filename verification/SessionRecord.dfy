/** What a memory session remembers of its work: counters, and the first few tasks and files. */
module SessionRecord {
  import opened Sorting
  import opened Text
  import opened Wrappers

  datatype Record = Record(tasks: seq<string>, toolCounts: map<string, nat>, files: seq<string>,
                           observations: nat, decisions: nat, failures: nat)

  const EMPTY := Record([], map[], [], 0, 0, 0)

  datatype Limits = Limits(maxTasks: nat, maxFiles: nat)

  // ---------------------------------------------------------------- bounded lists without repetition

  function AddDistinct(xs: seq<string>, x: string, max: nat): seq<string> {
    if x in xs || |xs| >= max then xs else xs + [x]
  }

  function AddAllDistinct(xs: seq<string>, more: seq<string>, max: nat): seq<string> {
    if more == [] then xs else AddDistinct(AddAllDistinct(xs, more[..|more| - 1], max), more[|more| - 1], max)
  }

  /** Every string once, where it first occurs. */
  function FirstOccurrences(xs: seq<string>): seq<string> {
    if xs == [] then []
    else
      var init := FirstOccurrences(xs[..|xs| - 1]);
      if xs[|xs| - 1] in init then init else init + [xs[|xs| - 1]]
  }

  function Take(xs: seq<string>, n: nat): seq<string> {
    if |xs| <= n then xs else xs[..n]
  }

  lemma {:induction false} FirstOccurrencesAreDistinct(xs: seq<string>)
    ensures NoDuplicates(FirstOccurrences(xs))
    ensures forall x :: x in FirstOccurrences(xs) <==> x in xs
  {
    if xs != [] {
      FirstOccurrencesAreDistinct(xs[..|xs| - 1]);
      assert xs == xs[..|xs| - 1] + [xs[|xs| - 1]];
    }
  }

  /** Adding strings one by one under a limit keeps exactly the first ones that differ. */
  lemma {:induction false} AddAllKeepsTheFirst(xs: seq<string>, max: nat)
    ensures AddAllDistinct([], xs, max) == Take(FirstOccurrences(xs), max)
  {
    if xs != [] {
      AddAllKeepsTheFirst(xs[..|xs| - 1], max);
    }
  }

  lemma {:induction false} AddAllSplits(xs: seq<string>, a: seq<string>, b: seq<string>, max: nat)
    ensures AddAllDistinct(xs, a + b, max) == AddAllDistinct(AddAllDistinct(xs, a, max), b, max)
  {
    if b == [] {
      assert a + b == a;
    } else {
      assert (a + b)[..|a + b| - 1] == a + b[..|b| - 1];
      AddAllSplits(xs, a, b[..|b| - 1], max);
    }
  }

  // ---------------------------------------------------------------- the operations

  /** The title as it is stored: trimmed, and nothing when nothing is left. */
  function Title(task: Option<string>): seq<string> {
    if task.None? || Trim(task.value) == "" then [] else [Trim(task.value)]
  }

  /** The file names as they are stored. */
  function FileNames(files: seq<string>): seq<string> {
    if files == [] then []
    else FileNames(files[..|files| - 1]) + Title(Some(files[|files| - 1]))
  }

  datatype Op =
    | Observe(tool: string, success: bool, task: Option<string>, files: seq<string>)
    | Decide(decision: string, why: string, files: seq<string>)
    | Improve(candidateId: string, component: string, files: seq<string>)
    | Join(title: Option<string>)

  /** A decision needs its reason, and an improvement its candidate; otherwise the operation throws before anything else. */
  predicate IsAccepted(op: Op) {
    match op
    case Decide(decision, why, _) => Trim(decision) != "" && Trim(why) != ""
    case Improve(candidateId, component, _) => Trim(candidateId) != "" && Trim(component) != ""
    case _ => true
  }

  function TaskOf(op: Op): Option<string> {
    if !IsAccepted(op) then None
    else match op
      case Observe(_, _, task, _) => task
      case Decide(decision, _, _) => Some("Decision: " + Trim(decision))
      case Improve(_, component, _) => Some("Improvement: " + Trim(component))
      case Join(title) => title
  }

  function FilesOf(op: Op): seq<string> {
    if op.Join? || !IsAccepted(op) then [] else op.files
  }

  function Counted(counts: map<string, nat>, tool: string): map<string, nat> {
    counts[tool := (if tool in counts then counts[tool] else 0) + 1]
  }

  /** One operation on the session. */
  function Apply(limits: Limits, r: Record, op: Op): Record {
    Record(
      AddAllDistinct(r.tasks, Title(TaskOf(op)), limits.maxTasks),
      if op.Observe? then Counted(r.toolCounts, op.tool) else r.toolCounts,
      AddAllDistinct(r.files, FileNames(FilesOf(op)), limits.maxFiles),
      if op.Observe? then r.observations + 1 else r.observations,
      if op.Decide? && IsAccepted(op) then r.decisions + 1 else r.decisions,
      if op.Observe? && !op.success then r.failures + 1 else r.failures)
  }

  function ApplyAll(limits: Limits, ops: seq<Op>): Record {
    if ops == [] then EMPTY else Apply(limits, ApplyAll(limits, ops[..|ops| - 1]), ops[|ops| - 1])
  }

  class SessionState {
    const limits: Limits
    var tasks: seq<string>
    var toolCounts: map<string, nat>
    var files: seq<string>
    var observations: nat
    var decisions: nat
    var failures: nat

    ghost function Now(): Record
      reads this
    {
      Record(tasks, toolCounts, files, observations, decisions, failures)
    }

    constructor (limits: Limits)
      ensures this.limits == limits && Now() == EMPTY
    {
      this.limits := limits;
      tasks, toolCounts, files, observations, decisions, failures := [], map[], [], 0, 0, 0;
    }

    method AddTask(task: Option<string>)
      modifies this`tasks
      ensures tasks == AddAllDistinct(old(tasks), Title(task), limits.maxTasks)
    {
      var value := if task.Some? then Trim(task.value) else "";
      if value == "" || value in tasks || |tasks| >= limits.maxTasks {
        return;
      }
      tasks := tasks + [value];
    }

    method AddFiles(names: seq<string>)
      modifies this`files
      ensures files == AddAllDistinct(old(files), FileNames(names), limits.maxFiles)
    {
      ghost var before := files;
      assert names[..|names|] == names && AddAllDistinct(before, FileNames(names[..0]), limits.maxFiles) == before;
      hide Trim, AddAllDistinct, FileNames;
      for i := 0 to |names|
        invariant files == AddAllDistinct(before, FileNames(names[..i]), limits.maxFiles)
      {
        if |files| >= limits.maxFiles {
          FullStays(before, names, i, limits.maxFiles);
          break;
        }
        OneMoreFile(before, names, i, limits.maxFiles);
        if Trim(names[i]) != "" && Trim(names[i]) !in files {
          files := files + [Trim(names[i])];
        }
      }
    }

    /** `persistToolCall`, up to handing the observation to the memory service. */
    method PersistToolCall(tool: string, success: bool, task: Option<string>, names: seq<string>)
      modifies this
      ensures Now() == Apply(limits, old(Now()), Observe(tool, success, task, names))
    {
      hide AddAllDistinct, Title, FileNames, Trim, Counted;
      observations := observations + 1;
      toolCounts := Counted(toolCounts, tool);
      if !success {
        failures := failures + 1;
      }
      AddTask(task);
      AddFiles(names);
    }

    /** `persistDecision`, up to handing the decision to the memory service. */
    method PersistDecision(decision: string, why: string, names: seq<string>) returns (r: Result<(), string>)
      modifies this
      ensures r == if IsBlank(decision) || IsBlank(why)
                   then Err("AgentMemory decision requires non-empty decision and why fields.") else Ok(())
      ensures Now() == Apply(limits, old(Now()), Decide(decision, why, names))
    {
      TrimmedIsTrim(decision, []);
      TrimmedIsTrim(why, []);
      DecisionApplied(limits, Now(), decision, why, names);
      hide Apply, AddAllDistinct, Title, FileNames, Trim, IsBlank, IsTrimmed;
      if Trim(decision) == "" || Trim(why) == "" {
        return Err("AgentMemory decision requires non-empty decision and why fields.");
      }
      decisions := decisions + 1;
      AddTask(Some("Decision: " + Trim(decision)));
      AddFiles(names);
      return Ok(());
    }

    /** `persistImprovement`, up to handing the improvement to the memory service. */
    method PersistImprovement(candidateId: string, component: string, names: seq<string>) returns (r: Result<(), string>)
      modifies this
      ensures r == if IsBlank(candidateId) || IsBlank(component)
                   then Err("Accepted improvement memory requires candidateId and component.") else Ok(())
      ensures Now() == Apply(limits, old(Now()), Improve(candidateId, component, names))
    {
      TrimmedIsTrim(candidateId, []);
      TrimmedIsTrim(component, []);
      ImprovementApplied(limits, Now(), candidateId, component, names);
      hide Apply, AddAllDistinct, Title, FileNames, Trim, IsBlank, IsTrimmed;
      if Trim(candidateId) == "" || Trim(component) == "" {
        return Err("Accepted improvement memory requires candidateId and component.");
      }
      AddTask(Some("Improvement: " + Trim(component)));
      AddFiles(names);
      return Ok(());
    }
  }

  lemma DecisionApplied(limits: Limits, r: Record, decision: string, why: string, names: seq<string>)
    ensures Apply(limits, r, Decide(decision, why, names)) ==
            if Trim(decision) == "" || Trim(why) == "" then r
            else r.(tasks := AddAllDistinct(r.tasks, Title(Some("Decision: " + Trim(decision))), limits.maxTasks),
                    files := AddAllDistinct(r.files, FileNames(names), limits.maxFiles), decisions := r.decisions + 1)
  {
    NothingAdded(r, limits);
    hide AddAllDistinct, Title, FileNames, Trim;
  }

  lemma ImprovementApplied(limits: Limits, r: Record, candidateId: string, component: string, names: seq<string>)
    ensures Apply(limits, r, Improve(candidateId, component, names)) ==
            if Trim(candidateId) == "" || Trim(component) == "" then r
            else r.(tasks := AddAllDistinct(r.tasks, Title(Some("Improvement: " + Trim(component))), limits.maxTasks),
                    files := AddAllDistinct(r.files, FileNames(names), limits.maxFiles))
  {
    NothingAdded(r, limits);
    hide AddAllDistinct, Title, FileNames, Trim;
  }

  lemma NothingAdded(r: Record, limits: Limits)
    ensures AddAllDistinct(r.tasks, [], limits.maxTasks) == r.tasks && AddAllDistinct(r.files, [], limits.maxFiles) == r.files
    ensures Title(None) == [] && FileNames([]) == []
  {
  }

  lemma OneMoreFile(before: seq<string>, names: seq<string>, i: nat, max: nat)
    requires i < |names|
    ensures var files := AddAllDistinct(before, FileNames(names[..i]), max);
            AddAllDistinct(before, FileNames(names[..i + 1]), max)
            == if Trim(names[i]) == "" then files else AddDistinct(files, Trim(names[i]), max)
  {
    assert names[..i + 1][..i] == names[..i];
    assert FileNames(names[..i + 1]) == FileNames(names[..i]) + Title(Some(names[i]));
    hide FileNames, Trim, AddAllDistinct;
    AddAllSplits(before, FileNames(names[..i]), Title(Some(names[i])), max);
  }

  /** Once the list is full, further names change nothing. */
  lemma {:induction false} FullStays(before: seq<string>, names: seq<string>, i: nat, max: nat)
    requires i <= |names| && |AddAllDistinct(before, FileNames(names[..i]), max)| >= max
    ensures AddAllDistinct(before, FileNames(names), max) == AddAllDistinct(before, FileNames(names[..i]), max)
    decreases |names| - i
  {
    hide FileNames, Trim, AddAllDistinct;
    if i == |names| {
      assert names[..i] == names;
    } else {
      OneMoreFile(before, names, i, max);
      FullStays(before, names, i + 1, max);
    }
  }

  // ---------------------------------------------------------------- what a whole session keeps

  /** The sum of all counts. */
  ghost function Sum(counts: map<string, nat>): nat
    decreases |counts|
  {
    if counts == map[] then 0
    else
      var k :| k in counts;
      counts[k] + Sum(counts - {k})
  }

  lemma {:induction false} SumWithout(counts: map<string, nat>, k: string)
    requires k in counts
    ensures Sum(counts) == counts[k] + Sum(counts - {k})
    decreases |counts|
  {
    var c :| c in counts && Sum(counts) == counts[c] + Sum(counts - {c});
    if c != k {
      SumWithout(counts - {c}, k);
      SumWithout(counts - {k}, c);
      assert counts - {c} - {k} == counts - {k} - {c};
    }
  }

  lemma SumCounted(counts: map<string, nat>, tool: string)
    ensures Sum(Counted(counts, tool)) == Sum(counts) + 1
  {
    var more := Counted(counts, tool);
    SumWithout(more, tool);
    if tool in counts {
      SumWithout(counts, tool);
      assert more - {tool} == counts - {tool};
    } else {
      assert more - {tool} == counts;
    }
  }

  function Calls(ops: seq<Op>, tool: string): nat {
    if ops == [] then 0
    else Calls(ops[..|ops| - 1], tool) + if ops[|ops| - 1].Observe? && ops[|ops| - 1].tool == tool then 1 else 0
  }

  function AllTitles(ops: seq<Op>): seq<string> {
    if ops == [] then [] else AllTitles(ops[..|ops| - 1]) + Title(TaskOf(ops[|ops| - 1]))
  }

  function AllFiles(ops: seq<Op>): seq<string> {
    if ops == [] then [] else AllFiles(ops[..|ops| - 1]) + FileNames(FilesOf(ops[|ops| - 1]))
  }

  function Count(ops: seq<Op>, p: Op -> bool): nat {
    if ops == [] then 0 else Count(ops[..|ops| - 1], p) + if p(ops[|ops| - 1]) then 1 else 0
  }

  function IsObservation(): Op -> bool {
    (op: Op) => op.Observe?
  }

  function IsFailure(): Op -> bool {
    (op: Op) => op.Observe? && !op.success
  }

  function IsDecision(): Op -> bool {
    (op: Op) => op.Decide? && !IsBlank(op.decision) && !IsBlank(op.why)
  }

  /** The counters tell the observations, the failures among them, and the decisions that were given with a reason. */
  lemma {:induction false} CountersAreExact(limits: Limits, ops: seq<Op>)
    ensures var r := ApplyAll(limits, ops);
            && r.observations == Count(ops, IsObservation())
            && r.failures == Count(ops, IsFailure())
            && r.decisions == Count(ops, IsDecision())
  {
    if ops != [] {
      hide AddAllDistinct, TaskOf, FilesOf, Trim, IsBlank;
      var last := ops[|ops| - 1];
      CountersAreExact(limits, ops[..|ops| - 1]);
      if last.Decide? {
        TrimmedIsTrim(last.decision, []);
        TrimmedIsTrim(last.why, []);
      }
    }
  }

  // ---------------------------------------------------------------- what is remembered

  /** The operation goes through. */
  predicate GoesThrough(op: Op) {
    && (op.Decide? ==> !IsBlank(op.decision) && !IsBlank(op.why))
    && (op.Improve? ==> !IsBlank(op.candidateId) && !IsBlank(op.component))
  }

  /** The operation tells this task. */
  ghost predicate TellsTask(op: Op, x: string) {
    GoesThrough(op) && match op
    case Observe(_, _, task, _) => task.Some? && IsTrimmed(task.value, x)
    case Join(title) => title.Some? && IsTrimmed(title.value, x)
    case Decide(decision, _, _) => |x| > 10 && x[..10] == "Decision: " && IsTrimmed(decision, x[10..])
    case Improve(_, component, _) => |x| > 13 && x[..13] == "Improvement: " && IsTrimmed(component, x[13..])
  }

  ghost predicate TellsFile(op: Op, x: string) {
    GoesThrough(op) && !op.Join? && exists name | name in op.files :: IsTrimmed(name, x)
  }

  lemma PrefixedIsTrimmed(prefix: string, text: string)
    requires prefix != [] && !IsWhitespace(prefix[0]) && Trim(text) != ""
    ensures Trim(prefix + Trim(text)) == prefix + Trim(text)
  {
    hide IsWhitespace, Trim;
    var x := prefix + Trim(text);
    TrimmedIsTrim(text, Trim(text));
    assert IsTrimmed(x, x) by {
      assert x == [] + x + [] && IsBlank([]);
    }
    TrimmedIsTrim(x, x);
  }

  lemma TitleIsExact(task: Option<string>, x: string)
    ensures x in Title(task) <==> task.Some? && IsTrimmed(task.value, x)
  {
    hide Trim, IsTrimmed;
    if task.Some? {
      TrimmedIsTrim(task.value, x);
    }
  }

  lemma AcceptedGoesThrough(op: Op)
    ensures IsAccepted(op) <==> GoesThrough(op)
  {
    hide Trim, IsBlank;
    match op
    case Decide(decision, why, _) => TrimmedIsTrim(decision, []); TrimmedIsTrim(why, []);
    case Improve(candidateId, component, _) => TrimmedIsTrim(candidateId, []); TrimmedIsTrim(component, []);
    case _ =>
  }

  /** A told task is kept under a name that says what it is. */
  lemma LabelledTitle(tag: string, text: string, x: string)
    requires tag != [] && !IsWhitespace(tag[0]) && Trim(text) != ""
    ensures x in Title(Some(tag + Trim(text))) <==>
            |x| > |tag| && x[..|tag|] == tag && IsTrimmed(text, x[|tag|..])
  {
    PrefixedIsTrimmed(tag, text);
    hide Trim, IsTrimmed, IsWhitespace;
    if |x| > |tag| {
      TrimmedIsTrim(text, x[|tag|..]);
      assert x == x[..|tag|] + x[|tag|..];
    }
    var y := tag + Trim(text);
    assert y[..|tag|] == tag && y[|tag|..] == Trim(text);
  }

  lemma TasksAreTold(op: Op, x: string)
    ensures x in Title(TaskOf(op)) <==> TellsTask(op, x)
  {
    AcceptedGoesThrough(op);
    if IsAccepted(op) {
      match op
      case Observe(_, _, task, _) => TitleIsExact(task, x);
      case Join(title) => TitleIsExact(title, x);
      case Decide(decision, _, _) => LabelledTitle("Decision: ", decision, x);
      case Improve(_, component, _) => LabelledTitle("Improvement: ", component, x);
    }
  }

  lemma {:induction false} NamesAreTold(names: seq<string>, x: string)
    ensures x in FileNames(names) <==> exists name | name in names :: IsTrimmed(name, x)
  {
    if names != [] {
      var n := |names| - 1;
      NamesAreTold(names[..n], x);
      TitleIsExact(Some(names[n]), x);
      assert names == names[..n] + [names[n]];
      hide IsTrimmed, Title;
    }
  }

  lemma FilesAreTold(op: Op, x: string)
    ensures x in FileNames(FilesOf(op)) <==> TellsFile(op, x)
  {
    AcceptedGoesThrough(op);
    hide IsAccepted, GoesThrough, IsTrimmed, FileNames;
    NamesAreTold(FilesOf(op), x);
  }

  ghost predicate TaskTold(ops: seq<Op>, x: string) {
    exists op | op in ops :: TellsTask(op, x)
  }

  ghost predicate FileTold(ops: seq<Op>, x: string) {
    exists op | op in ops :: TellsFile(op, x)
  }

  lemma OneMoreTold(ops: seq<Op>, op: Op, x: string)
    ensures TaskTold(ops + [op], x) <==> TaskTold(ops, x) || TellsTask(op, x)
    ensures FileTold(ops + [op], x) <==> FileTold(ops, x) || TellsFile(op, x)
  {
    hide TellsTask, TellsFile;
    assert (ops + [op])[|ops|] == op;
  }

  lemma NothingTold(x: string)
    ensures x !in AllTitles([]) && x !in AllFiles([]) && !TaskTold([], x) && !FileTold([], x)
  {
  }

  lemma LastTold(ops: seq<Op>, last: Op, x: string)
    ensures x in AllTitles(ops + [last]) <==> x in AllTitles(ops) || x in Title(TaskOf(last))
    ensures x in AllFiles(ops + [last]) <==> x in AllFiles(ops) || x in FileNames(FilesOf(last))
  {
    hide Title, FileNames, TaskOf, FilesOf;
    assert (ops + [last])[..|ops|] == ops && (ops + [last])[|ops|] == last;
    assert AllTitles(ops + [last]) == AllTitles(ops) + Title(TaskOf(last));
    assert AllFiles(ops + [last]) == AllFiles(ops) + FileNames(FilesOf(last));
  }

  /** The titles and file names that come together are those that were told. */
  lemma {:induction false} AllAreTold(ops: seq<Op>, x: string)
    ensures x in AllTitles(ops) <==> TaskTold(ops, x)
    ensures x in AllFiles(ops) <==> FileTold(ops, x)
  {
    hide *;
    if ops == [] {
      NothingTold(x);
    } else {
      var init, last := ops[..|ops| - 1], ops[|ops| - 1];
      assert init + [last] == ops;
      AllAreTold(init, x);
      LastTold(init, last, x);
      TasksAreTold(last, x);
      FilesAreTold(last, x);
      OneMoreTold(init, last, x);
    }
  }

  /** What is remembered was told, trimmed and labelled; while there is room, all that was told is remembered. */
  lemma RememberedIsTold(limits: Limits, ops: seq<Op>, x: string)
    ensures var r := ApplyAll(limits, ops);
            && (x in r.tasks ==> TaskTold(ops, x))
            && (TaskTold(ops, x) && |r.tasks| < limits.maxTasks ==> x in r.tasks)
            && (x in r.files ==> FileTold(ops, x))
            && (FileTold(ops, x) && |r.files| < limits.maxFiles ==> x in r.files)
  {
    AllAreTold(ops, x);
    ListsKeepTheFirst(limits, ops);
    FirstOccurrencesAreDistinct(AllTitles(ops));
    FirstOccurrencesAreDistinct(AllFiles(ops));
    hide ApplyAll, AllTitles, AllFiles, FirstOccurrences, TaskTold, FileTold;
  }

  /** The tool counts add up to the observations, and each counts the calls of its tool. */
  lemma {:induction false} CountsAddUp(limits: Limits, ops: seq<Op>)
    ensures Sum(ApplyAll(limits, ops).toolCounts) == ApplyAll(limits, ops).observations
    ensures ApplyAll(limits, ops).failures <= ApplyAll(limits, ops).observations
    ensures forall tool :: (if tool in ApplyAll(limits, ops).toolCounts then ApplyAll(limits, ops).toolCounts[tool] else 0)
                           == Calls(ops, tool)
  {
    if ops != [] {
      hide AddAllDistinct, Title, FileNames;
      var init, last := ops[..|ops| - 1], ops[|ops| - 1];
      CountsAddUp(limits, init);
      if last.Observe? {
        SumCounted(ApplyAll(limits, init).toolCounts, last.tool);
      }
    }
  }

  lemma {:induction false} ListsAreFolds(limits: Limits, ops: seq<Op>)
    ensures ApplyAll(limits, ops).tasks == AddAllDistinct([], AllTitles(ops), limits.maxTasks)
    ensures ApplyAll(limits, ops).files == AddAllDistinct([], AllFiles(ops), limits.maxFiles)
  {
    if ops != [] {
      hide AddAllDistinct, Title, FileNames;
      var init, last := ops[..|ops| - 1], ops[|ops| - 1];
      ListsAreFolds(limits, init);
      AddAllSplits([], AllTitles(init), Title(TaskOf(last)), limits.maxTasks);
      AddAllSplits([], AllFiles(init), FileNames(FilesOf(last)), limits.maxFiles);
    } else {
      assert AddAllDistinct([], [], limits.maxTasks) == [] && AddAllDistinct([], [], limits.maxFiles) == [];
    }
  }

  /** The session holds exactly the first different titles and files it was given, up to its limits. */
  lemma ListsKeepTheFirst(limits: Limits, ops: seq<Op>)
    ensures ApplyAll(limits, ops).tasks == Take(FirstOccurrences(AllTitles(ops)), limits.maxTasks)
    ensures ApplyAll(limits, ops).files == Take(FirstOccurrences(AllFiles(ops)), limits.maxFiles)
    ensures NoDuplicates(ApplyAll(limits, ops).tasks) && |ApplyAll(limits, ops).tasks| <= limits.maxTasks
    ensures NoDuplicates(ApplyAll(limits, ops).files) && |ApplyAll(limits, ops).files| <= limits.maxFiles
  {
    hide *;
    ListsAreFolds(limits, ops);
    FoldIsBounded(AllTitles(ops), limits.maxTasks);
    FoldIsBounded(AllFiles(ops), limits.maxFiles);
  }

  lemma FoldIsBounded(xs: seq<string>, max: nat)
    ensures AddAllDistinct([], xs, max) == Take(FirstOccurrences(xs), max)
    ensures NoDuplicates(AddAllDistinct([], xs, max)) && |AddAllDistinct([], xs, max)| <= max
  {
    hide AddAllDistinct, FirstOccurrences;
    AddAllKeepsTheFirst(xs, max);
    FirstOccurrencesAreDistinct(xs);
  }
}
