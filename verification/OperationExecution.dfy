/**
 Ownership of the foreground operation (crates/ltbox-gui/src/operation_execution.rs)
 and the progress its worker reports through a shared cell
 (crates/ltbox-gui/src/operation_phase.rs). Workers are never cancelled: a worker of
 an earlier run may still hold its reporter and its completion. The state machine
 below takes the steps of the application and of every worker in any order; the
 classes behind it take the same steps in place.
 */
module OperationExecution {
  import opened Arithmetic
  import opened Wrappers

  /** What a reporter's clones share. */
  datatype Progress = Progress(labels: seq<string>, step: nat, writes: bool)

  datatype Active<C> = Active(id: nat, reporter: Option<C>, bound: bool)

  /** The execution and every reporter ever created, named by `C`. */
  datatype State<C(==)> = State(
    generation: nat,
    active: Option<Active<C>>,
    steps: seq<string>,
    completed: nat,
    writes: bool,
    cells: map<C, Progress>)

  datatype Event<C> =
    | Start(reporter: Option<C>, labels: seq<string>)
    | Bind
    | Completion(id: nat, success: bool)
    | Marker(cell: C, oneBased: nat)
    | MarkWrites(cell: C)

  // ---- What the application sees ------------------------------------------------------

  function ActiveId<C>(s: State<C>): Option<nat> {
    if s.active.Some? then Some(s.active.value.id) else None
  }

  function ActiveCell<C>(s: State<C>): Option<C> {
    if s.active.Some? then s.active.value.reporter else None
  }

  function ActiveProgress<C(==)>(s: State<C>): Option<Progress> {
    if ActiveCell(s).Some? && ActiveCell(s).value in s.cells then Some(s.cells[ActiveCell(s).value]) else None
  }

  function ShownStep<C(==)>(s: State<C>): nat {
    if ActiveProgress(s).Some? then ActiveProgress(s).value.step else s.completed
  }

  function ShownWrites<C(==)>(s: State<C>): bool {
    s.writes || (ActiveProgress(s).Some? && ActiveProgress(s).value.writes)
  }

  // ---- Steps -----------------------------------------------------------------------------

  function Finished<C(==)>(s: State<C>, success: bool): State<C> {
    s.(completed := if success && s.steps != [] then |s.steps| - 1 else ShownStep(s),
       writes := ShownWrites(s),
       active := None)
  }

  function Step<C(==)>(s: State<C>, e: Event<C>): State<C> {
    match e
    case Start(reporter, labels) =>
      State(s.generation + 1, Some(Active(s.generation + 1, reporter, false)), if reporter.Some? then labels else [],
            0, false, if reporter.Some? then s.cells[reporter.value := Progress(labels, 0, false)] else s.cells)
    case Bind =>
      if s.active.Some? then s.(active := Some(s.active.value.(bound := true))) else s
    case Completion(id, success) =>
      if ActiveId(s) == Some(id) then Finished(s, success) else s
    case Marker(cell, oneBased) =>
      if cell in s.cells && oneBased > 0 then s.(cells := s.cells[cell := s.cells[cell].(step := oneBased - 1)]) else s
    case MarkWrites(cell) =>
      if cell in s.cells then s.(cells := s.cells[cell := s.cells[cell].(writes := true)]) else s
  }

  /** The source's assertions, with a fresh reporter for every run and markers from reporters that exist. */
  predicate Enabled<C(==)>(s: State<C>, e: Event<C>) {
    match e
    case Start(reporter, labels) =>
      s.active.None? && s.generation < U64_MAX && (reporter.Some? ==> reporter.value !in s.cells && labels != [])
    case Bind => true
    case Completion(_, _) => true
    case Marker(cell, oneBased) => cell in s.cells && 1 <= oneBased <= |s.cells[cell].labels|
    case MarkWrites(cell) => cell in s.cells
  }

  function Idle<C(==)>(): State<C> {
    State(0, None, [], 0, false, map[])
  }

  /** The state after the first `i` events. */
  function After<C(==)>(events: seq<Event<C>>, i: nat): State<C>
    requires i <= |events|
  {
    if i == 0 then Idle() else Step(After(events, i - 1), events[i - 1])
  }

  predicate Legal<C(==)>(events: seq<Event<C>>) {
    forall i :: 0 <= i < |events| ==> Enabled(After(events, i), events[i])
  }

  // ---- Invariants ----------------------------------------------------------------------------

  /** The active run is the newest; its step and the completed step index its plan; unused cells are fresh. */
  ghost predicate Valid<C>(s: State<C>) {
    && (s.active.Some? ==> s.active.value.id == s.generation)
    && (ActiveCell(s).Some? ==> ActiveProgress(s).Some? && ActiveProgress(s).value.labels == s.steps)
    && (s.active.Some? && s.active.value.reporter.None? ==> s.steps == [])
    && (forall c :: c in s.cells ==> s.cells[c].step < |s.cells[c].labels|)
    && (if s.steps == [] then s.completed == 0 else s.completed < |s.steps|)
  }

  lemma StepKeepsValid<C>(s: State<C>, e: Event<C>)
    requires Valid(s) && Enabled(s, e)
    ensures Valid(Step(s, e))
  {
    if e.Marker? {
      var t := Step(s, e);
      assert t.cells[e.cell] == s.cells[e.cell].(step := e.oneBased - 1);
    }
  }

  /** In every reachable state the step shown is an index of the plan shown. */
  lemma {:induction false} ShownStepInPlan<C>(events: seq<Event<C>>, i: nat)
    requires Legal(events) && i <= |events|
    ensures Valid(After(events, i))
    ensures var s := After(events, i); if s.steps == [] then ShownStep(s) == 0 else ShownStep(s) < |s.steps|
  {
    if i > 0 {
      ShownStepInPlan(events, i - 1);
      StepKeepsValid(After(events, i - 1), events[i - 1]);
    }
  }

  // ---- Stale workers -----------------------------------------------------------------------------

  /** A completion for another run, or a report through a reporter other than the active run's. */
  predicate Stale<C(==)>(s: State<C>, e: Event<C>) {
    match e
    case Completion(id, _) => ActiveId(s) != Some(id)
    case Marker(cell, _) => ActiveCell(s) != Some(cell)
    case MarkWrites(cell) => ActiveCell(s) != Some(cell)
    case _ => false
  }

  /** Two states the application cannot tell apart: they differ at most in progress nobody shows. */
  ghost predicate Same<C>(s: State<C>, t: State<C>) {
    && s.(cells := t.cells) == t
    && s.cells.Keys == t.cells.Keys
    && (forall c :: c in s.cells ==> s.cells[c].labels == t.cells[c].labels)
    && ActiveProgress(s) == ActiveProgress(t)
  }

  lemma SameLooksSame<C>(s: State<C>, t: State<C>)
    requires Same(s, t)
    ensures ShownStep(s) == ShownStep(t) && ShownWrites(s) == ShownWrites(t)
    ensures ActiveId(s) == ActiveId(t) && s.steps == t.steps
    ensures forall e :: Enabled(s, e) <==> Enabled(t, e)
  {
  }

  lemma StaleChangesNothing<C>(s: State<C>, e: Event<C>)
    requires Stale(s, e)
    ensures Same(Step(s, e), s)
  {
  }

  lemma SameReports<C>(s: State<C>, t: State<C>, e: Event<C>)
    requires Same(s, t) && (e.Marker? || e.MarkWrites?)
    ensures Same(Step(s, e), Step(t, e))
  {
  }

  lemma SameSteps<C>(s: State<C>, t: State<C>, e: Event<C>)
    requires Same(s, t)
    ensures Same(Step(s, e), Step(t, e))
  {
    if e.Marker? || e.MarkWrites? {
      hide *;
      SameReports(s, t, e);
    }
  }

  lemma SameTransitive<C>(s: State<C>, t: State<C>, u: State<C>)
    requires Same(s, t) && Same(t, u)
    ensures Same(s, u)
  {
  }

  /** The events that were not stale when they happened. */
  function Current<C(==)>(events: seq<Event<C>>, i: nat): seq<Event<C>>
    requires i <= |events|
  {
    if i == 0 then []
    else if Stale(After(events, i - 1), events[i - 1]) then Current(events, i - 1)
    else Current(events, i - 1) + [events[i - 1]]
  }

  lemma {:induction false} AfterPrefix<C>(events: seq<Event<C>>, more: seq<Event<C>>, i: nat)
    requires i <= |events|
    ensures After(events + more, i) == After(events, i)
  {
    if i > 0 {
      AfterPrefix(events, more, i - 1);
    }
  }

  lemma LegalSnoc<C>(events: seq<Event<C>>, e: Event<C>)
    requires Legal(events) && Enabled(After(events, |events|), e)
    ensures Legal(events + [e])
    ensures After(events + [e], |events| + 1) == Step(After(events, |events|), e)
  {
    forall i | 0 <= i < |events + [e]| ensures Enabled(After(events + [e], i), (events + [e])[i]) {
      AfterPrefix(events, [e], i);
      assert i < |events| ==> Enabled(After(events, i), events[i]);
    }
    AfterPrefix(events, [e], |events|);
  }

  /**
   Stale workers do not interfere: under any interleaving the application is
   where it would be had no stale report or completion happened at all, and
   that run without them is itself possible.
   */
  lemma {:induction false} StaleWorkersDoNotInterfere<C>(events: seq<Event<C>>, i: nat)
    requires Legal(events) && i <= |events|
    ensures var kept := Current(events, i); Legal(kept) && Same(After(events, i), After(kept, |kept|))
  {
    hide Step, Enabled, Stale;
    if i > 0 {
      hide Same;
      StaleWorkersDoNotInterfere(events, i - 1);
      var s, kept, e := After(events, i - 1), Current(events, i - 1), events[i - 1];
      var t := After(kept, |kept|);
      if Stale(s, e) {
        StaleChangesNothing(s, e);
        SameTransitive(Step(s, e), s, t);
      } else {
        SameLooksSame(s, t);
        SameSteps(s, t, e);
        LegalSnoc(kept, e);
      }
    }
  }

  // ---- Identity of runs ------------------------------------------------------------------------------

  lemma {:induction false} GenerationGrows<C>(events: seq<Event<C>>, i: nat, j: nat)
    requires i <= j <= |events|
    ensures After(events, i).generation <= After(events, j).generation
    decreases j - i
  {
    if i < j {
      assert Step(After(events, j - 1), events[j - 1]).generation >= After(events, j - 1).generation;
      hide Step;
      GenerationGrows(events, i, j - 1);
    }
  }

  /** Later runs have larger identifiers, so no identifier is ever reused. */
  lemma RunIdsIncrease<C>(events: seq<Event<C>>, i: nat, j: nat)
    requires i < j < |events| && events[i].Start? && events[j].Start?
    ensures ActiveId(After(events, i + 1)).Some? && ActiveId(After(events, j + 1)).Some?
    ensures ActiveId(After(events, i + 1)).value < ActiveId(After(events, j + 1)).value
  {
    GenerationGrows(events, i + 1, j);
  }

  /** What `bind_completion` returns. */
  function Bound<C(==)>(s: State<C>): Option<nat> {
    if s.active.Some? && !s.active.value.bound then Some(s.active.value.id) else None
  }

  /** The run is bound or no longer active, and no later one can take its identifier. */
  predicate Spent<C>(s: State<C>, id: nat) {
    s.generation >= id && (ActiveId(s) == Some(id) ==> s.active.value.bound)
  }

  lemma StepStaysSpent<C>(s: State<C>, e: Event<C>, id: nat)
    requires Spent(s, id)
    ensures Spent(Step(s, e), id)
  {
  }

  lemma {:induction false} StaysBound<C>(events: seq<Event<C>>, i: nat, j: nat, id: nat)
    requires i <= j <= |events| && Spent(After(events, i), id)
    ensures Spent(After(events, j), id)
    decreases j - i
  {
    hide Spent, Step;
    if i < j {
      StaysBound(events, i, j - 1, id);
      StepStaysSpent(After(events, j - 1), events[j - 1], id);
    }
  }

  /** Each run's completion is bound at most once. */
  lemma BoundAtMostOnce<C>(events: seq<Event<C>>, i: nat, j: nat)
    requires Legal(events) && i < j < |events| && events[i].Bind? && events[j].Bind?
    requires Bound(After(events, i)).Some?
    ensures Bound(After(events, j)) != Bound(After(events, i))
  {
    hide Legal, Valid, Step, Bound, Spent;
    ShownStepInPlan(events, i);
    BindingSpends(After(events, i));
    StaysBound(events, i + 1, j, Bound(After(events, i)).value);
    SpentIsNotBound(After(events, j), Bound(After(events, i)).value);
  }

  lemma BindingSpends<C>(s: State<C>)
    requires Valid(s) && Bound(s).Some?
    ensures Spent(Step(s, Bind), Bound(s).value)
  {
  }

  lemma SpentIsNotBound<C>(s: State<C>, id: nat)
    requires Spent(s, id)
    ensures Bound(s) != Some(id)
  {
  }

  /** The run is over, and no later one can take its identifier. */
  predicate Over<C>(s: State<C>, id: nat) {
    s.generation >= id && ActiveId(s) != Some(id)
  }

  lemma StepStaysOver<C>(s: State<C>, e: Event<C>, id: nat)
    requires Over(s, id)
    ensures Over(Step(s, e), id)
  {
  }

  lemma {:induction false} StaysOver<C>(events: seq<Event<C>>, i: nat, j: nat, id: nat)
    requires i <= j <= |events| && Over(After(events, i), id)
    ensures Over(After(events, j), id)
    decreases j - i
  {
    hide Over, Step;
    if i < j {
      StaysOver(events, i, j - 1, id);
      StepStaysOver(After(events, j - 1), events[j - 1], id);
    }
  }

  lemma CompletionEnds<C>(s: State<C>, id: nat, success: bool)
    requires Valid(s) && ActiveId(s) == Some(id)
    ensures Over(Step(s, Completion(id, success)), id)
  {
  }

  lemma OverIgnoresCompletion<C>(s: State<C>, id: nat, success: bool)
    requires Over(s, id)
    ensures ActiveId(s) != Some(id) && Step(s, Completion(id, success)) == s
  {
  }

  /** Each run is ended at most once: its completion is accepted once, and a repeated one changes nothing. */
  lemma CompletedAtMostOnce<C>(events: seq<Event<C>>, i: nat, j: nat)
    requires Legal(events) && i < j < |events| && events[i].Completion? && events[j].Completion?
    requires ActiveId(After(events, i)) == Some(events[i].id) && events[j].id == events[i].id
    ensures ActiveId(After(events, j)) != Some(events[j].id)
    ensures After(events, j + 1) == After(events, j)
  {
    hide Legal, Valid, Step, Over, ActiveId;
    ShownStepInPlan(events, i);
    CompletionEnds(After(events, i), events[i].id, events[i].success);
    StaysOver(events, i + 1, j, events[i].id);
    OverIgnoresCompletion(After(events, j), events[j].id, events[j].success);
  }

  // ---- What a run shows, and what it leaves behind --------------------------------------------------------

  /** The step last reported through a cell by the events from `i` up to `j`. */
  function LastMarker<C(==)>(events: seq<Event<C>>, i: nat, j: nat, cell: C): nat
    requires i <= j <= |events|
    decreases j - i
  {
    if i == j then 0
    else if events[j - 1].Marker? && events[j - 1].cell == cell && events[j - 1].oneBased > 0 then events[j - 1].oneBased - 1
    else LastMarker(events, i, j - 1, cell)
  }

  /** No run starts and the run with this identifier is not completed by the events from `i` up to `j`. */
  predicate Undisturbed<C>(events: seq<Event<C>>, i: nat, j: nat, id: nat)
    requires i <= j <= |events|
  {
    forall k :: i <= k < j ==> !events[k].Start? && !(events[k].Completion? && events[k].id == id)
  }

  lemma OwnWorkerStep<C>(s: State<C>, e: Event<C>, id: nat, cell: C)
    requires ActiveId(s) == Some(id) && ActiveCell(s) == Some(cell) && cell in s.cells && !s.writes
    requires !e.Start? && !(e.Completion? && e.id == id)
    ensures var t := Step(s, e);
      && ActiveId(t) == Some(id) && ActiveCell(t) == Some(cell) && cell in t.cells && !t.writes && t.steps == s.steps
      && ShownStep(t) == (if e.Marker? && e.cell == cell && e.oneBased > 0 then e.oneBased - 1 else ShownStep(s))
      && (ShownWrites(t) <==> ShownWrites(s) || e == MarkWrites(cell))
  {
  }

  lemma OwnWorkerStarts<C>(s: State<C>, e: Event<C>)
    requires e.Start? && e.reporter.Some?
    ensures var t := Step(s, e);
      && ActiveId(t) == Some(s.generation + 1) && ActiveCell(t) == e.reporter && e.reporter.value in t.cells && !t.writes
      && t.steps == e.labels && ShownStep(t) == 0 && !ShownWrites(t)
  {
  }

  /**
   While a run lasts it shows exactly what its own worker reported since it
   started: the last marker, and whether writes were marked.
   */
  lemma {:induction false} RunShowsItsOwnWorker<C>(events: seq<Event<C>>, i: nat, j: nat)
    requires Legal(events) && i < j <= |events| && events[i].Start? && events[i].reporter.Some?
    requires Undisturbed(events, i + 1, j, After(events, i).generation + 1)
    ensures var s, cell := After(events, j), events[i].reporter.value;
      && ActiveId(s) == Some(After(events, i).generation + 1) && ActiveCell(s) == Some(cell) && cell in s.cells
      && s.steps == events[i].labels && !s.writes
      && ShownStep(s) == LastMarker(events, i + 1, j, cell)
      && (ShownWrites(s) <==> exists k :: i < k < j && events[k] == MarkWrites(cell))
    decreases j
  {
    hide Step, ShownStep, ShownWrites, ActiveId, ActiveCell, Legal;
    OwnWorkerStarts(After(events, i), events[i]);
    if j > i + 1 {
      RunShowsItsOwnWorker(events, i, j - 1);
      OwnWorkerStep(After(events, j - 1), events[j - 1], After(events, i).generation + 1, events[i].reporter.value);
    }
  }

  /**
   Finishing keeps the write latch and, unless the run succeeded, the step; and
   until the next start no event of any worker changes what is shown.
   */
  lemma {:induction false} FinishedRunIsKept<C>(events: seq<Event<C>>, i: nat, j: nat)
    requires i < j <= |events|
    requires events[i].Completion? && ActiveId(After(events, i)) == Some(events[i].id)
    requires forall k :: i < k < j ==> !events[k].Start?
    ensures var s, t := After(events, i), After(events, j);
      && t.active.None? && t.steps == s.steps && ShownWrites(t) == ShownWrites(s)
      && ShownStep(t) == if events[i].success && s.steps != [] then |s.steps| - 1 else ShownStep(s)
    decreases j
  {
    if j > i + 1 {
      FinishedRunIsKept(events, i, j - 1);
    }
  }

  /** Within a run and after it, the write latch is never cleared; only a new start resets it. */
  lemma {:induction false} WriteLatchHolds<C>(events: seq<Event<C>>, i: nat, j: nat)
    requires i <= j <= |events| && ShownWrites(After(events, i))
    requires forall k :: i <= k < j ==> !events[k].Start?
    ensures ShownWrites(After(events, j))
    decreases j - i
  {
    if i < j {
      WriteLatchHolds(events, i, j - 1);
    }
  }

  /** The starts among the first `i` events. */
  function Starts<C(==)>(events: seq<Event<C>>, i: nat): nat
    requires i <= |events|
  {
    if i == 0 then 0 else Starts(events, i - 1) + (if events[i - 1].Start? then 1 else 0)
  }

  predicate BindsBetween<C>(events: seq<Event<C>>, i: nat, j: nat)
    requires i <= j <= |events|
  {
    exists k :: i <= k < j && events[k].Bind?
  }

  /** Runs are numbered from one in the order they start. */
  lemma {:induction false} RunsAreNumbered<C>(events: seq<Event<C>>, i: nat)
    requires i <= |events|
    ensures After(events, i).generation == Starts(events, i)
    ensures i > 0 && events[i - 1].Start? ==> ActiveId(After(events, i)) == Some(Starts(events, i))
  {
    if i > 0 {
      RunsAreNumbered(events, i - 1);
    }
  }

  lemma BindingStep<C>(s: State<C>, e: Event<C>, id: nat)
    requires ActiveId(s) == Some(id) && !e.Start? && !(e.Completion? && e.id == id)
    ensures var t := Step(s, e); ActiveId(t) == Some(id) && t.active.value.bound == (s.active.value.bound || e.Bind?)
  {
  }

  /** The first binding of a run that lasts returns the number of the run, and later ones nothing. */
  lemma {:induction false} BindingReturnsTheRun<C>(events: seq<Event<C>>, i: nat, j: nat)
    requires i < j <= |events| && events[i].Start? && Undisturbed(events, i + 1, j, Starts(events, i + 1))
    ensures ActiveId(After(events, j)) == Some(Starts(events, i + 1))
    ensures Bound(After(events, j)) == if BindsBetween(events, i + 1, j) then None else Some(Starts(events, i + 1))
    decreases j
  {
    if j == i + 1 {
      RunsAreNumbered(events, j);
    } else {
      BindingReturnsTheRun(events, i, j - 1);
      hide Step;
      BindingStep(After(events, j - 1), events[j - 1], Starts(events, i + 1));
    }
  }

  // ---- In place --------------------------------------------------------------------------------------------

  /** A reporter; its clones are the same object, because they share labels and progress. */
  class PhaseReporter {
    const labels: seq<string>
    var step: nat
    var writesStarted: bool

    constructor FromLabels(labels: seq<string>)
      requires labels != []
      ensures this.labels == labels && step == 0 && !writesStarted
    {
      this.labels := labels;
      step := 0;
      writesStarted := false;
    }

    /** The label of the phase now marked. */
    method Marker(oneBased: nat) returns (text: string)
      requires 1 <= oneBased <= |labels|
      modifies this`step
      ensures step == oneBased - 1 && text == labels[step]
    {
      var index := oneBased - 1;
      text := labels[index];
      step := index;
    }

    method MarkWritesStarted()
      modifies this`writesStarted
      ensures writesStarted
    {
      writesStarted := true;
    }
  }

  ghost function Reports(reporters: set<PhaseReporter>): map<PhaseReporter, Progress>
    reads reporters
  {
    map r | r in reporters :: Progress(r.labels, r.step, r.writesStarted)
  }

  class Execution {
    var generation: nat
    var active: Option<Active<PhaseReporter>>
    var steps: seq<string>
    var completedStep: nat
    var writesStarted: bool

    constructor ()
      ensures generation == 0 && active == None && steps == [] && completedStep == 0 && !writesStarted
    {
      generation, active, steps, completedStep, writesStarted := 0, None, [], 0, false;
    }

    /** The abstract state, seen with all the reporters there are. */
    ghost function View(reporters: set<PhaseReporter>): State<PhaseReporter>
      reads this, reporters
    {
      State(generation, active, steps, completedStep, writesStarted, Reports(reporters))
    }

    method Start(reporter: Option<PhaseReporter>, ghost reporters: set<PhaseReporter>)
      requires active.None? && generation < U64_MAX
      requires reporter.Some? ==>
        reporter.value !in reporters && reporter.value.step == 0 && !reporter.value.writesStarted
      modifies this
      ensures View(reporters + if reporter.Some? then {reporter.value} else {}) ==
              Step(old(View(reporters)), Event.Start(reporter, if reporter.Some? then reporter.value.labels else []))
    {
      generation := generation + 1;
      steps := if reporter.Some? then reporter.value.labels else [];
      completedStep := 0;
      writesStarted := false;
      active := Some(Active(generation, reporter, false));
    }

    method Id() returns (id: Option<nat>)
      ensures id == if active.Some? then Some(active.value.id) else None
    {
      id := if active.Some? then Some(active.value.id) else None;
    }

    method BindCompletion(ghost reporters: set<PhaseReporter>) returns (id: Option<nat>)
      modifies this
      ensures id == Bound(old(View(reporters)))
      ensures View(reporters) == Step(old(View(reporters)), Bind)
    {
      if active.None? || active.value.bound {
        return None;
      }
      active := Some(active.value.(bound := true));
      return Some(active.value.id);
    }

    method CurrentStep(ghost reporters: set<PhaseReporter>) returns (step: nat)
      requires active.Some? && active.value.reporter.Some? ==> active.value.reporter.value in reporters
      ensures step == ShownStep(View(reporters))
    {
      step := if active.Some? && active.value.reporter.Some? then active.value.reporter.value.step else completedStep;
    }

    method WritesStarted(ghost reporters: set<PhaseReporter>) returns (writes: bool)
      requires active.Some? && active.value.reporter.Some? ==> active.value.reporter.value in reporters
      ensures writes == ShownWrites(View(reporters))
    {
      writes := writesStarted ||
        (active.Some? && active.value.reporter.Some? && active.value.reporter.value.writesStarted);
    }

    method Finish(success: bool, ghost reporters: set<PhaseReporter>)
      requires active.Some? && active.value.reporter.Some? ==> active.value.reporter.value in reporters
      modifies this
      ensures View(reporters) == Finished(old(View(reporters)), success)
    {
      hide Reports;
      if success && steps != [] {
        completedStep := |steps| - 1;
      } else {
        completedStep := CurrentStep(reporters);
      }
      writesStarted := WritesStarted(reporters);
      active := None;
    }
  }

  /** The application and its workers: every method is one event of the state machine. */
  class App {
    const operation: Execution
    ghost var reporters: set<PhaseReporter>

    constructor ()
      ensures fresh(operation) && View() == Idle() && Owns()
    {
      operation := new Execution();
      reporters := {};
    }

    ghost predicate Owns()
      reads this, operation
    {
      operation.active.Some? && operation.active.value.reporter.Some? ==>
        operation.active.value.reporter.value in reporters
    }

    ghost function View(): State<PhaseReporter>
      reads this, operation, reporters
    {
      operation.View(reporters)
    }

    /** `begin_phased_op`: a fresh reporter for every run. */
    method BeginPhased(labels: seq<string>) returns (reporter: PhaseReporter)
      requires operation.active.None? && operation.generation < U64_MAX && labels != [] && Owns()
      modifies this, operation
      ensures fresh(reporter) && reporters == old(reporters) + {reporter} && Owns()
      ensures View() == Step(old(View()), Start(Some(reporter), labels))
    {
      reporter := new PhaseReporter.FromLabels(labels);
      operation.Start(Some(reporter), reporters);
      reporters := reporters + {reporter};
    }

    /** The dispatcher's binding of the run it has just started. */
    method BindCompletion() returns (id: Option<nat>)
      requires Owns()
      modifies operation
      ensures id == Bound(old(View())) && View() == Step(old(View()), Bind) && Owns()
    {
      id := operation.BindCompletion(reporters);
    }

    /** An operation event: dropped unless it carries the identifier of the run that owns execution. */
    method Complete(id: nat, success: bool)
      requires Owns()
      modifies operation
      ensures View() == Step(old(View()), Completion(id, success)) && Owns()
    {
      var current := operation.Id();
      if current != Some(id) {
        return;
      }
      operation.Finish(success, reporters);
    }

    /** A worker's marker, through a reporter that may be stale. */
    method WorkerMarks(reporter: PhaseReporter, oneBased: nat)
      requires reporter in reporters && 1 <= oneBased <= |reporter.labels| && Owns()
      modifies reporter`step
      ensures View() == Step(old(View()), Marker(reporter, oneBased)) && Owns()
    {
      var _ := reporter.Marker(oneBased);
    }

    method WorkerMarksWrites(reporter: PhaseReporter)
      requires reporter in reporters && Owns()
      modifies reporter`writesStarted
      ensures View() == Step(old(View()), MarkWrites(reporter)) && Owns()
    {
      reporter.MarkWritesStarted();
    }
  }
}
