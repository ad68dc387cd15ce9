/** The `initialize` guard of the spec engine: the loading steps run until
    one call completes them all, and never after. */
module SpecEngine {
  import opened Strings

  /** The loading steps of `initialize`. Each step catches the database's
      own errors; what can still raise is reading an SQL file, in the
      schema, macro and seed steps. The extension step never raises, but
      the lemmas below hold for every outcome. */
  datatype Step = LoadExtensions | LoadSchema | LoadMacros | LoadSeedData

  const InitSteps: seq<Step> := [LoadExtensions, LoadSchema, LoadMacros, LoadSeedData]

  /** The `_initialized` flag and the steps run so far, oldest first. */
  datatype Engine = Engine(initialized: bool, performed: seq<Step>)

  /** A new engine: flag unset, nothing loaded. */
  const Fresh: Engine := Engine(false, [])

  /** The steps a call runs when step `s` raises: those before it and `s`. */
  function StepsThrough(s: Step): (r: seq<Step>)
    ensures 0 < |r| <= |InitSteps| && r == InitSteps[..|r|] && r[|r| - 1] == s
  {
    match s
    case LoadExtensions => InitSteps[..1]
    case LoadSchema => InitSteps[..2]
    case LoadMacros => InitSteps[..3]
    case LoadSeedData => InitSteps
  }

  /** One call of `initialize()`; `raising` names the step that raises in
      this call, if any. Nothing is wrapped in a try, so a raising step
      leaves the flag unset. */
  function Initialize(e: Engine, raising: Option<Step>): (r: Engine)
    ensures e.initialized ==> r == e
    ensures r.initialized <==> e.initialized || raising.None?
    ensures |e.performed| <= |r.performed| && r.performed[..|e.performed|] == e.performed
    ensures !e.initialized ==> |r.performed| > |e.performed|
  {
    if e.initialized then e
    else
      match raising
      case None => Engine(true, e.performed + InitSteps)
      case Some(s) => Engine(false, e.performed + StepsThrough(s))
  }

  /** A series of calls, each with its own outcome. */
  function InitializeAll(e: Engine, outcomes: seq<Option<Step>>): Engine
    decreases |outcomes|
  {
    if |outcomes| == 0 then e else InitializeAll(Initialize(e, outcomes[0]), outcomes[1..])
  }

  /** Once a call has completed, further calls change nothing, whatever
      their outcomes would have been. */
  lemma {:induction false} InitializedIsFixed(e: Engine, outcomes: seq<Option<Step>>)
    requires e.initialized
    ensures InitializeAll(e, outcomes) == e
    decreases |outcomes|
  {
    if |outcomes| > 0 {
      InitializedIsFixed(Initialize(e, outcomes[0]), outcomes[1..]);
    }
  }

  /** `initialize` is idempotent. */
  lemma InitializeIdempotent(e: Engine, raising: Option<Step>)
    ensures Initialize(Initialize(e, None), raising) == Initialize(e, None)
  {
  }

  /** Calls that all succeed load everything exactly once. */
  lemma {:induction false} SucceedingCallsLoadOnce(outcomes: seq<Option<Step>>)
    requires |outcomes| > 0
    requires forall i :: 0 <= i < |outcomes| ==> outcomes[i].None?
    ensures InitializeAll(Fresh, outcomes) == Engine(true, InitSteps)
  {
    InitializedIsFixed(Initialize(Fresh, None), outcomes[1..]);
  }

  /** After a raising call the next call starts the loading over from the
      first step. */
  lemma RetryAfterRaise(e: Engine, s: Step, raising: Option<Step>)
    requires !e.initialized
    ensures !Initialize(e, Some(s)).initialized
    ensures Initialize(Initialize(e, Some(s)), raising).performed[|e.performed| + |StepsThrough(s)|] == LoadExtensions
  {
  }

  /** The flag is set exactly when some call so far completed. */
  lemma {:induction false} InitializedIffSomeCallCompleted(e: Engine, outcomes: seq<Option<Step>>)
    ensures InitializeAll(e, outcomes).initialized <==>
            e.initialized || exists i :: 0 <= i < |outcomes| && outcomes[i].None?
    decreases |outcomes|
  {
    if |outcomes| > 0 {
      InitializedIffSomeCallCompleted(Initialize(e, outcomes[0]), outcomes[1..]);
      if exists i :: 0 <= i < |outcomes| - 1 && outcomes[1..][i].None? {
        var i :| 0 <= i < |outcomes| - 1 && outcomes[1..][i].None?;
        assert outcomes[i + 1].None?;
      }
      if exists i :: 0 <= i < |outcomes| && outcomes[i].None? {
        var i :| 0 <= i < |outcomes| && outcomes[i].None?;
        if i > 0 { assert outcomes[1..][i - 1].None?; }
      }
    }
  }
}
