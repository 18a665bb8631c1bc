/** The step entity of a pipeline: a named node of the dependency graph with
    a fixed variant, the names of the steps it depends on, a lifecycle state
    and, for data-producing variants, an optional handle to its result. */
module Steps {

  /** The variant of a step. It is fixed by the class the step is constructed
      as (BatchStep, StreamingStep, LoopStep), never by its configuration. */
  datatype StepKind = Batch | Streaming | Loop

  /** The lifecycle of a step: WAITING -> SUBMITTED -> FINISHED. */
  datatype StepState = Waiting | Submitted | Finished

  /** A step as a value. `hasData` stands for the opaque dataset handle of a
      data step. `generation` stands for object identity: two steps with the
      same fields but a different generation are different objects. */
  datatype Step = Step(
    name: string,
    kind: StepKind,
    deps: set<string>,
    state: StepState,
    hasData: bool,
    generation: nat)
  {
    /** Batch and streaming steps produce a dataset; loop steps never do. */
    predicate IsDataStep() {
      kind != Loop
    }

    predicate IsStreaming() {
      kind == Streaming
    }
  }

  /** `new BatchStep(name)` and friends: no dependencies, WAITING, no data. */
  function NewStep(name: string, kind: StepKind): (s: Step)
    ensures s.name == name && s.kind == kind
    ensures s.deps == {} && s.state == Waiting && !s.hasData
  {
    Step(name, kind, {}, Waiting, false, 0)
  }

  /** `configure`: the dependency names are read from the configuration and
      the state goes back to WAITING. The variant is left untouched. */
  function Configure(s: Step, deps: set<string>): (r: Step)
    ensures r.name == s.name && r.kind == s.kind && r.generation == s.generation
    ensures r.deps == deps && r.state == Waiting && r.hasData == s.hasData
  {
    s.(deps := deps, state := Waiting)
  }

  /** A step constructed as `kind` and configured with `deps`. */
  function Configured(name: string, kind: StepKind, deps: set<string>): Step
  {
    Configure(NewStep(name, kind), deps)
  }

  function SetState(s: Step, state: StepState): Step
  {
    s.(state := state)
  }

  function SetDependencyNames(s: Step, deps: set<string>): Step
  {
    s.(deps := deps)
  }

  /** `setData` is called only on data steps (through `DataStep` references). */
  function SetData(s: Step): Step
    requires s.IsDataStep()
  {
    s.(hasData := true)
  }

  /** The names of a set of steps. */
  function Names(steps: set<Step>): set<string>
  {
    set s | s in steps :: s.name
  }

  /** Names are unique within a step set. The model assumes this and callers
      keep it; it does not follow from equality, which compares every field. */
  ghost predicate UniqueNames(steps: set<Step>)
  {
    forall a, b | a in steps && b in steps && a.name == b.name :: a == b
  }

  /** With unique names, a step set has exactly as many steps as names. */
  lemma {:induction false} UniqueNamesCard(steps: set<Step>)
    requires UniqueNames(steps)
    ensures |Names(steps)| == |steps|
    decreases |steps|
  {
    if steps != {} {
      var s :| s in steps;
      var rest := steps - {s};
      assert Names(steps) == Names(rest) + {s.name};
      assert s.name !in Names(rest);
      UniqueNamesCard(rest);
    }
  }

  /** Any subset of a step set with unique names has unique names. */
  lemma UniqueNamesSubset(steps: set<Step>, sub: set<Step>)
    requires UniqueNames(steps) && sub <= steps
    ensures UniqueNames(sub)
  {
  }
}
