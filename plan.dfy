/**
 * The plan: an ordered list of coloured phases, each holding an ordered list
 * of tasks, and the updates the editor's buttons and inputs make to it. Every
 * update builds a new list from the old one; the component then replaces its
 * whole state with the result. Ids and today's date come from the clock in
 * the running program and are parameters here.
 */
module Plan {
  import opened Calendar
  import opened Options
  import opened IdLists

  /** A task: a start date and a duration in whole days. */
  datatype Task = Task(id: int, name: string, startDate: Date, duration: int)

  /** A phase: a named, coloured group of tasks, in display order. */
  datatype Phase = Phase(id: int, name: string, color: string, tasks: seq<Task>)

  /** The fields `updatePhase` may merge into a phase: those present win. */
  datatype PhaseFields = PhaseFields(name: Option<string>, color: Option<string>)

  /** The single field each inline task editor writes. */
  datatype TaskEdit = Rename(name: string) | Reschedule(startDate: Date) | Resize(duration: int)

  /** The twelve colours new phases cycle through. */
  const DefaultColors: seq<string> := [
    "#FF6B6B", "#4ECDC4", "#45B7D1", "#96CEB4",
    "#FFEEAD", "#D4A5A5", "#9B59B6", "#3498DB",
    "#E67E22", "#2ECC71", "#F1C40F", "#E74C3C"
  ]

  function PhaseId(p: Phase): int { p.id }

  function TaskId(t: Task): int { t.id }

  /** The colour a phase gets when it is added to a plan of `count` phases. */
  function ColorFor(count: nat): string {
    DefaultColors[count % |DefaultColors|]
  }

  /** The "Add Phase" button: a new empty phase at the end. */
  function AddPhase(phases: seq<Phase>, id: int): (r: seq<Phase>)
    ensures |r| == |phases| + 1
    ensures r[..|phases|] == phases
    ensures r[|phases|].id == id && r[|phases|].name == "New Phase" && r[|phases|].tasks == []
    ensures r[|phases|].color == DefaultColors[|phases| % 12]
  {
    phases + [Phase(id, "New Phase", ColorFor(|phases|), [])]
  }

  /** The "+" button of a phase: a five-day task starting today is appended
      to every phase with that id. */
  function AddTask(phases: seq<Phase>, phaseId: int, taskId: int, today: Date): (r: seq<Phase>)
    ensures |r| == |phases|
    ensures forall i :: 0 <= i < |phases| && phases[i].id != phaseId ==> r[i] == phases[i]
    ensures forall i :: 0 <= i < |phases| && phases[i].id == phaseId ==>
              && r[i].id == phases[i].id && r[i].name == phases[i].name && r[i].color == phases[i].color
              && r[i].tasks == phases[i].tasks + [Task(taskId, "New Task", today, 5)]
  {
    MapWhere(phases, PhaseId, phaseId,
      (p: Phase) => p.(tasks := p.tasks + [Task(taskId, "New Task", today, 5)]))
  }

  /** `{...phase, ...updates}` for the fields the editor passes. */
  function Merge(p: Phase, fields: PhaseFields): Phase {
    p.(name := fields.name.GetOr(p.name), color := fields.color.GetOr(p.color))
  }

  /** `updatePhase`: merges the given fields into every phase with that id;
      the name input and the colour picker go through it. */
  function UpdatePhase(phases: seq<Phase>, phaseId: int, fields: PhaseFields): (r: seq<Phase>)
    ensures |r| == |phases|
    ensures forall i :: 0 <= i < |phases| && phases[i].id != phaseId ==> r[i] == phases[i]
    ensures forall i :: 0 <= i < |phases| && phases[i].id == phaseId ==>
              && r[i].id == phases[i].id && r[i].tasks == phases[i].tasks
              && (fields.name.Some? ==> r[i].name == fields.name.value)
              && (fields.name.None? ==> r[i].name == phases[i].name)
              && (fields.color.Some? ==> r[i].color == fields.color.value)
              && (fields.color.None? ==> r[i].color == phases[i].color)
  {
    MapWhere(phases, PhaseId, phaseId, (p: Phase) => Merge(p, fields))
  }

  /** `removeTask`: drops every task with that id from every phase with that
      id; the remaining tasks keep their order. */
  function RemoveTask(phases: seq<Phase>, phaseId: int, taskId: int): (r: seq<Phase>)
    ensures |r| == |phases|
    ensures forall i :: 0 <= i < |phases| && phases[i].id != phaseId ==> r[i] == phases[i]
    ensures forall i :: 0 <= i < |phases| && phases[i].id == phaseId ==>
              && r[i].id == phases[i].id && r[i].name == phases[i].name && r[i].color == phases[i].color
              && r[i].tasks == FilterOut(phases[i].tasks, TaskId, taskId)
              && (forall t :: t in r[i].tasks <==> t in phases[i].tasks && t.id != taskId)
  {
    MapWhere(phases, PhaseId, phaseId, (p: Phase) => p.(tasks := FilterOut(p.tasks, TaskId, taskId)))
  }

  /** Removing the one task with its id from a phase closes the gap: the
      tasks before and after it stay as they were, in order. */
  lemma {:induction false} RemoveTaskClosesGap(phases: seq<Phase>, i: nat, before: seq<Task>, t: Task, after: seq<Task>)
    requires i < |phases| && phases[i].tasks == before + [t] + after
    requires !HasKey(before, TaskId, t.id) && !HasKey(after, TaskId, t.id)
    ensures RemoveTask(phases, phases[i].id, t.id)[i].tasks == before + after
  {
    FilterOutSingle(before, t, after, TaskId);
  }

  /** The "x" button of a phase: drops every phase with that id, and with it
      all of its tasks; the other phases keep their order. */
  function DeletePhase(phases: seq<Phase>, phaseId: int): (r: seq<Phase>)
    ensures forall p :: p in r <==> p in phases && p.id != phaseId
    ensures forall p :: multiset(r)[p] == if p.id == phaseId then 0 else multiset(phases)[p]
    ensures |r| <= |phases|
  {
    FilterOut(phases, PhaseId, phaseId)
  }

  /** Deleting works on each part of the plan separately, so the phases that
      remain keep their order. */
  lemma {:induction false} DeletePhaseKeepsOrder(front: seq<Phase>, back: seq<Phase>, phaseId: int)
    ensures DeletePhase(front + back, phaseId) == DeletePhase(front, phaseId) + DeletePhase(back, phaseId)
  {
    FilterOutAppend(front, back, PhaseId, phaseId);
  }

  /** Deleting the one phase with its id closes the gap: the phases before
      and after it stay as they were. */
  lemma {:induction false} DeletePhaseClosesGap(before: seq<Phase>, p: Phase, after: seq<Phase>)
    requires !HasKey(before, PhaseId, p.id) && !HasKey(after, PhaseId, p.id)
    ensures DeletePhase(before + [p] + after, p.id) == before + after
  {
    FilterOutSingle(before, p, after, PhaseId);
  }

  /** One task field as the name, date and duration inputs write it. */
  function ApplyEdit(t: Task, edit: TaskEdit): Task {
    match edit
    case Rename(name) => t.(name := name)
    case Reschedule(start) => t.(startDate := start)
    case Resize(duration) => t.(duration := duration)
  }

  /** An inline task editor: replaces one field of every task with that id in
      every phase with that id. */
  function EditTask(phases: seq<Phase>, phaseId: int, taskId: int, edit: TaskEdit): (r: seq<Phase>)
    ensures |r| == |phases|
    ensures forall i :: 0 <= i < |phases| && phases[i].id != phaseId ==> r[i] == phases[i]
    ensures forall i :: 0 <= i < |phases| && phases[i].id == phaseId ==>
              && r[i].id == phases[i].id && r[i].name == phases[i].name && r[i].color == phases[i].color
              && |r[i].tasks| == |phases[i].tasks|
              && (forall j :: 0 <= j < |phases[i].tasks| ==>
                    r[i].tasks[j] == if phases[i].tasks[j].id == taskId
                                     then ApplyEdit(phases[i].tasks[j], edit)
                                     else phases[i].tasks[j])
  {
    MapWhere(phases, PhaseId, phaseId,
      (p: Phase) => p.(tasks := MapWhere(p.tasks, TaskId, taskId, (t: Task) => ApplyEdit(t, edit))))
  }

  /** A user action on the plan, with the id or date the clock supplies. */
  datatype Action =
    | NewPhase(id: int)
    | NewTask(phaseId: int, taskId: int, today: Date)
    | ChangePhase(phaseId: int, fields: PhaseFields)
    | DropTask(phaseId: int, taskId: int)
    | DropPhase(phaseId: int)
    | ChangeTask(phaseId: int, taskId: int, edit: TaskEdit)

  /** The plan after an action. */
  function Step(phases: seq<Phase>, a: Action): seq<Phase> {
    match a
    case NewPhase(id) => AddPhase(phases, id)
    case NewTask(phaseId, taskId, today) => AddTask(phases, phaseId, taskId, today)
    case ChangePhase(phaseId, fields) => UpdatePhase(phases, phaseId, fields)
    case DropTask(phaseId, taskId) => RemoveTask(phases, phaseId, taskId)
    case DropPhase(phaseId) => DeletePhase(phases, phaseId)
    case ChangeTask(phaseId, taskId, edit) => EditTask(phases, phaseId, taskId, edit)
  }

  /** Phase ids are distinct, and task ids are distinct within each phase. */
  predicate WellKeyed(phases: seq<Phase>) {
    && KeysDistinct(phases, PhaseId)
    && forall i :: 0 <= i < |phases| ==> KeysDistinct(phases[i].tasks, TaskId)
  }

  /** The clock's id is new where the action puts it. */
  predicate FreshIds(phases: seq<Phase>, a: Action) {
    match a
    case NewPhase(id) => !HasKey(phases, PhaseId, id)
    case NewTask(phaseId, taskId, _) =>
      forall i :: 0 <= i < |phases| && phases[i].id == phaseId ==> !HasKey(phases[i].tasks, TaskId, taskId)
    case _ => true
  }

  /** An action on a phase id that no phase carries leaves the plan unchanged. */
  lemma {:induction false} UnknownPhaseIsNoOp(phases: seq<Phase>, a: Action)
    requires !a.NewPhase?
    requires !HasKey(phases, PhaseId, a.phaseId)
    ensures Step(phases, a) == phases
  {
    var r := Step(phases, a);
    if a.DropPhase? {
      AbsentKeyChangesNothing(phases, PhaseId, a.phaseId, (p: Phase) => p);
    } else {
      forall i | 0 <= i < |phases| ensures r[i] == phases[i] {
        assert PhaseId(phases[i]) != a.phaseId;
      }
    }
  }

  /** Removing or editing a task id that the phase does not hold leaves the
      plan unchanged. */
  lemma {:induction false} UnknownTaskIsNoOp(phases: seq<Phase>, a: Action)
    requires a.DropTask? || a.ChangeTask?
    requires forall i :: 0 <= i < |phases| && phases[i].id == a.phaseId ==> !HasKey(phases[i].tasks, TaskId, a.taskId)
    ensures Step(phases, a) == phases
  {
    var r := Step(phases, a);
    forall i | 0 <= i < |phases| ensures r[i] == phases[i] {
      if phases[i].id == a.phaseId {
        var ts := phases[i].tasks;
        if a.DropTask? {
          AbsentKeyChangesNothing(ts, TaskId, a.taskId, (t: Task) => t);
        } else {
          forall j | 0 <= j < |ts| ensures r[i].tasks[j] == ts[j] {
            assert TaskId(ts[j]) != a.taskId;
          }
        }
      }
    }
  }

  /** Removing a task twice is removing it once. */
  lemma {:induction false} RemoveTaskIdempotent(phases: seq<Phase>, phaseId: int, taskId: int)
    ensures RemoveTask(RemoveTask(phases, phaseId, taskId), phaseId, taskId) == RemoveTask(phases, phaseId, taskId)
  {
    var once := RemoveTask(phases, phaseId, taskId);
    var twice := RemoveTask(once, phaseId, taskId);
    forall i | 0 <= i < |phases| ensures twice[i] == once[i] {
      if phases[i].id == phaseId {
        FilterOutIdempotent(phases[i].tasks, TaskId, taskId);
      }
    }
  }

  /** Deleting a phase twice is deleting it once. */
  lemma {:induction false} DeletePhaseIdempotent(phases: seq<Phase>, phaseId: int)
    ensures DeletePhase(DeletePhase(phases, phaseId), phaseId) == DeletePhase(phases, phaseId)
  {
    FilterOutIdempotent(phases, PhaseId, phaseId);
  }

  /** Phase ids are distinct in `r` when they are in `phases` and every
      position keeps its phase id. */
  lemma {:induction false} SameIdsStayDistinct(phases: seq<Phase>, r: seq<Phase>)
    requires KeysDistinct(phases, PhaseId)
    requires |r| == |phases| && forall i :: 0 <= i < |r| ==> r[i].id == phases[i].id
    ensures KeysDistinct(r, PhaseId)
  {
    forall i, j | 0 <= i < j < |r| ensures PhaseId(r[i]) != PhaseId(r[j]) {
      assert PhaseId(phases[i]) != PhaseId(phases[j]);
    }
  }

  /** A new phase with a fresh id keeps the ids distinct. */
  lemma {:induction false} AddPhaseKeepsIdsDistinct(phases: seq<Phase>, id: int)
    requires WellKeyed(phases)
    requires !HasKey(phases, PhaseId, id)
    ensures WellKeyed(AddPhase(phases, id))
  {
    var r := AddPhase(phases, id);
    forall i, j | 0 <= i < j < |r| ensures PhaseId(r[i]) != PhaseId(r[j]) {
      assert r[i] == phases[i];
      if j < |phases| {
        assert r[j] == phases[j];
      }
    }
    forall i | 0 <= i < |r| ensures KeysDistinct(r[i].tasks, TaskId) {
      if i < |phases| {
        assert r[i] == phases[i];
      }
    }
  }

  /** A new task whose id is fresh in its phase keeps the ids distinct. */
  lemma {:induction false} AddTaskKeepsIdsDistinct(phases: seq<Phase>, phaseId: int, taskId: int, today: Date)
    requires WellKeyed(phases)
    requires forall i :: 0 <= i < |phases| && phases[i].id == phaseId ==> !HasKey(phases[i].tasks, TaskId, taskId)
    ensures WellKeyed(AddTask(phases, phaseId, taskId, today))
  {
    var r := AddTask(phases, phaseId, taskId, today);
    SameIdsStayDistinct(phases, r);
    forall i | 0 <= i < |r| ensures KeysDistinct(r[i].tasks, TaskId) {
      if phases[i].id == phaseId {
        var ts := phases[i].tasks;
        forall k, l | 0 <= k < l < |r[i].tasks| ensures TaskId(r[i].tasks[k]) != TaskId(r[i].tasks[l]) {
          assert r[i].tasks[k] == ts[k];
          if l < |ts| {
            assert r[i].tasks[l] == ts[l];
          }
        }
      }
    }
  }

  /** Renaming or recolouring phases keeps the ids distinct. */
  lemma {:induction false} UpdatePhaseKeepsIdsDistinct(phases: seq<Phase>, phaseId: int, fields: PhaseFields)
    requires WellKeyed(phases)
    ensures WellKeyed(UpdatePhase(phases, phaseId, fields))
  {
    var r := UpdatePhase(phases, phaseId, fields);
    SameIdsStayDistinct(phases, r);
  }

  /** Removing tasks keeps the ids distinct. */
  lemma {:induction false} RemoveTaskKeepsIdsDistinct(phases: seq<Phase>, phaseId: int, taskId: int)
    requires WellKeyed(phases)
    ensures WellKeyed(RemoveTask(phases, phaseId, taskId))
  {
    var r := RemoveTask(phases, phaseId, taskId);
    SameIdsStayDistinct(phases, r);
    forall i | 0 <= i < |r| ensures KeysDistinct(r[i].tasks, TaskId) {
      if phases[i].id == phaseId {
        FilterOutKeepsDistinct(phases[i].tasks, TaskId, taskId);
      }
    }
  }

  /** Deleting phases keeps the ids distinct. */
  lemma {:induction false} DeletePhaseKeepsIdsDistinct(phases: seq<Phase>, phaseId: int)
    requires WellKeyed(phases)
    ensures WellKeyed(DeletePhase(phases, phaseId))
  {
    var r := DeletePhase(phases, phaseId);
    FilterOutKeepsDistinct(phases, PhaseId, phaseId);
    forall i | 0 <= i < |r| ensures KeysDistinct(r[i].tasks, TaskId) {
      assert r[i] in r;
    }
  }

  /** Editing a task field keeps the ids distinct, the id being no field the
      editors write. */
  lemma {:induction false} EditTaskKeepsIdsDistinct(phases: seq<Phase>, phaseId: int, taskId: int, edit: TaskEdit)
    requires WellKeyed(phases)
    ensures WellKeyed(EditTask(phases, phaseId, taskId, edit))
  {
    var r := EditTask(phases, phaseId, taskId, edit);
    SameIdsStayDistinct(phases, r);
    forall i | 0 <= i < |r| ensures KeysDistinct(r[i].tasks, TaskId) {
      if phases[i].id == phaseId {
        var ts := phases[i].tasks;
        forall k, l | 0 <= k < l < |ts| ensures TaskId(r[i].tasks[k]) != TaskId(r[i].tasks[l]) {
          assert TaskId(ts[k]) != TaskId(ts[l]);
        }
      }
    }
  }

  /** Every action keeps ids distinct, provided the clock hands out an id that
      is new where the action puts it. */
  lemma {:induction false} StepKeepsIdsDistinct(phases: seq<Phase>, a: Action)
    requires WellKeyed(phases)
    requires FreshIds(phases, a)
    ensures WellKeyed(Step(phases, a))
  {
    match a
    case NewPhase(id) => AddPhaseKeepsIdsDistinct(phases, id);
    case NewTask(phaseId, taskId, today) => AddTaskKeepsIdsDistinct(phases, phaseId, taskId, today);
    case ChangePhase(phaseId, fields) => UpdatePhaseKeepsIdsDistinct(phases, phaseId, fields);
    case DropTask(phaseId, taskId) => RemoveTaskKeepsIdsDistinct(phases, phaseId, taskId);
    case DropPhase(phaseId) => DeletePhaseKeepsIdsDistinct(phases, phaseId);
    case ChangeTask(phaseId, taskId, edit) => EditTaskKeepsIdsDistinct(phases, phaseId, taskId, edit);
  }

  /** The plan after adding one phase per id to an empty plan, as the "Add
      Phase" button does. */
  function AddPhases(ids: seq<int>): seq<Phase>
  {
    if |ids| == 0 then [] else AddPhase(AddPhases(ids[..|ids| - 1]), ids[|ids| - 1])
  }

  /** Phases added one by one to an empty plan take the palette colours in
      turn, starting over after the twelfth; all of them start empty. */
  lemma {:induction false} ColoursCycle(ids: seq<int>)
    ensures |AddPhases(ids)| == |ids|
    ensures forall k :: 0 <= k < |ids| ==>
              AddPhases(ids)[k] == Phase(ids[k], "New Phase", DefaultColors[k % 12], [])
  {
    if |ids| > 0 {
      var prefix := ids[..|ids| - 1];
      ColoursCycle(prefix);
      var r := AddPhases(ids);
      forall k | 0 <= k < |ids| ensures r[k] == Phase(ids[k], "New Phase", DefaultColors[k % 12], []) {
        if k < |ids| - 1 {
          assert r[k] == AddPhases(prefix)[k];
          assert prefix[k] == ids[k];
        }
      }
    }
  }
}
