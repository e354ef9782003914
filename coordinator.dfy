/**
 * The coordinator: for one request, looks the session up (an unknown id
 * yields a placeholder), plans once, then runs the steps strictly in plan
 * order. After each step it appends the result to the response and to
 * the session's history and saves the session, so a tool that raises
 * part-way leaves the earlier steps saved and returns no results.
 */
module Orchestrator {
  import opened Wrappers
  import opened Text
  import opened Planner
  import opened Worker
  import opened Memory

  /** `{"step": ..., "result": ...}`, as appended to a session's history. */
  datatype HistoryEntry = HistoryEntry(step: Step, output: ToolOutput)

  /** `{"step": ..., "result": ..., "elapsed_seconds": ...}`, as returned to the caller. */
  datatype StepResult = StepResult(step: Step, output: ToolOutput, elapsedSeconds: real)

  datatype Response = Response(sessionId: string, plan: seq<Step>, results: seq<StepResult>)

  /** The error a tool raised, which ends the request; it names the step that failed. */
  datatype ExecutionFailure = ToolRaised(description: string)

  function HistoryOf(results: seq<StepResult>): seq<HistoryEntry> {
    seq(|results|, j requires 0 <= j < |results| => HistoryEntry(results[j].step, results[j].output))
  }

  /**
   * `results` holds one result per step of `plan` run so far, each with its
   * step, what the step's tool returned and the step's measured time, and
   * `current` is `before` with those steps appended to its history.
   */
  ghost predicate Ran(tools: Backend, clock: nat -> real, before: Session<HistoryEntry>, plan: seq<Step>,
                      results: seq<StepResult>, current: Session<HistoryEntry>)
  {
    && |results| <= |plan|
    && (forall j :: 0 <= j < |results| ==>
          && results[j].step == plan[j]
          && RunStep(tools, plan[j].description) == Some(results[j].output)
          && results[j].elapsedSeconds == clock(j))
    && current == Session(before.userId, before.history + HistoryOf(results))
  }

  /** The position of the first step whose tool raises, or the plan's length if none does. */
  function FirstFailure(tools: Backend, descs: seq<string>): (k: nat)
    ensures k <= |descs|
  {
    if descs == [] || RunStep(tools, descs[0]).None? then 0
    else 1 + FirstFailure(tools, descs[1..])
  }

  /** Every step before the first failing one succeeds, and that one fails. */
  lemma {:induction false} FirstFailureSpec(tools: Backend, descs: seq<string>)
    ensures forall j :: 0 <= j < FirstFailure(tools, descs) ==> RunStep(tools, descs[j]).Some?
    ensures FirstFailure(tools, descs) < |descs| ==> RunStep(tools, descs[FirstFailure(tools, descs)]).None?
  {
    if descs != [] && RunStep(tools, descs[0]).Some? {
      FirstFailureSpec(tools, descs[1..]);
      forall j | 0 <= j < FirstFailure(tools, descs) ensures RunStep(tools, descs[j]).Some? {
        if j > 0 {
          assert descs[j] == descs[1..][j - 1];
        }
      }
    }
  }

  /** The first failing position is the only one with every earlier step succeeding. */
  lemma {:induction false} FirstFailureAt(tools: Backend, descs: seq<string>, i: nat)
    requires i <= |descs|
    requires forall j :: 0 <= j < i ==> RunStep(tools, descs[j]).Some?
    requires i < |descs| ==> RunStep(tools, descs[i]).None?
    ensures FirstFailure(tools, descs) == i
    decreases i
  {
    if i > 0 {
      assert RunStep(tools, descs[0]).Some?;
      assert forall j :: 0 <= j < i - 1 ==> descs[1..][j] == descs[j + 1];
      FirstFailureAt(tools, descs[1..], i - 1);
    }
  }

  /**
   * `after` is `before` with the first `n` steps of `descs` appended to its
   * history, each with what its tool returned, and the same owner.
   */
  ghost predicate Records(before: Session<HistoryEntry>, after: Session<HistoryEntry>,
                          tools: Backend, descs: seq<string>, n: nat)
  {
    && n <= |descs|
    && after.userId == before.userId
    && |after.history| == |before.history| + n
    && after.history[..|before.history|] == before.history
    && forall j :: 0 <= j < n ==>
         after.history[|before.history| + j].step.description == descs[j]
         && RunStep(tools, descs[j]) == Some(after.history[|before.history| + j].output)
  }

  /** The history after the steps run so far records exactly those steps. */
  lemma HistoryRecords(before: Session<HistoryEntry>, plan: seq<Step>, results: seq<StepResult>, tools: Backend)
    requires |results| <= |plan|
    requires forall j :: 0 <= j < |results| ==>
               results[j].step == plan[j] && RunStep(tools, plan[j].description) == Some(results[j].output)
    ensures Records(before, Session(before.userId, before.history + HistoryOf(results)),
                    tools, Descriptions(plan), |results|)
  {
    var after := Session(before.userId, before.history + HistoryOf(results));
    assert after.history[..|before.history|] == before.history;
    forall j | 0 <= j < |results|
      ensures after.history[|before.history| + j].step.description == Descriptions(plan)[j]
      ensures RunStep(tools, Descriptions(plan)[j]) == Some(after.history[|before.history| + j].output)
    {
      assert after.history[|before.history| + j] == HistoryOf(results)[j];
    }
  }

  lemma HistoryOfAppend(results: seq<StepResult>, r: StepResult)
    ensures HistoryOf(results + [r]) == HistoryOf(results) + [HistoryEntry(r.step, r.output)]
  {
    assert forall j :: 0 <= j < |results| ==> (results + [r])[j] == results[j];
  }

  /**
   * The save log grew from `saved0` to `saved` by exactly `k` saves, all
   * under `sessionId`, the `j`-th holding `before` with the first `j + 1`
   * steps recorded.
   */
  ghost predicate SavedSteps(before: Session<HistoryEntry>, saved0: seq<(string, Session<HistoryEntry>)>,
                             saved: seq<(string, Session<HistoryEntry>)>, sessionId: string,
                             tools: Backend, descs: seq<string>, k: nat)
  {
    && |saved| == |saved0| + k
    && saved[..|saved0|] == saved0
    && forall j :: 0 <= j < k ==>
         && saved[|saved0|..][j].0 == sessionId
         && Records(before, saved[|saved0|..][j].1, tools, descs, j + 1)
  }

  /** One more save, of a session recording one more step. */
  lemma SavedStepsGrow(before: Session<HistoryEntry>, saved0: seq<(string, Session<HistoryEntry>)>,
                       saved: seq<(string, Session<HistoryEntry>)>, sessionId: string,
                       tools: Backend, descs: seq<string>, k: nat, after: Session<HistoryEntry>)
    requires SavedSteps(before, saved0, saved, sessionId, tools, descs, k)
    requires Records(before, after, tools, descs, k + 1)
    ensures SavedSteps(before, saved0, saved + [(sessionId, after)], sessionId, tools, descs, k + 1)
  {
    var grown := saved + [(sessionId, after)];
    assert grown[..|saved0|] == saved[..|saved0|];
    assert grown[|saved0|..] == saved[|saved0|..] + [(sessionId, after)];
  }

  /**
   * The store is unchanged if no step ran, and otherwise differs from
   * `stored0` only at `sessionId`, which holds the last session saved.
   */
  ghost predicate StoredAfter(stored0: map<string, Session<HistoryEntry>>, stored: map<string, Session<HistoryEntry>>,
                              saved: seq<(string, Session<HistoryEntry>)>, sessionId: string, k: nat)
  {
    && (k == 0 ==> stored == stored0)
    && (k > 0 ==> |saved| > 0 && stored == stored0[sessionId := saved[|saved| - 1].1])
  }

  /** After `k > 0` steps the store holds, at `sessionId`, `before` with those `k` steps recorded. */
  lemma LastSaveStored(before: Session<HistoryEntry>, stored0: map<string, Session<HistoryEntry>>,
                       stored: map<string, Session<HistoryEntry>>, saved0: seq<(string, Session<HistoryEntry>)>,
                       saved: seq<(string, Session<HistoryEntry>)>, sessionId: string,
                       tools: Backend, descs: seq<string>, k: nat)
    requires SavedSteps(before, saved0, saved, sessionId, tools, descs, k)
    requires StoredAfter(stored0, stored, saved, sessionId, k)
    ensures k > 0 ==> sessionId in stored && stored[sessionId].userId == before.userId
                      && |stored[sessionId].history| == |before.history| + k
  {
    if k > 0 {
      assert saved[|saved| - 1] == saved[|saved0|..][k - 1];
    }
  }

  /** The tool `run_step` picks for each description. */
  function Routes(descs: seq<string>): seq<Tool> {
    seq(|descs|, i requires 0 <= i < |descs| => Route(Lower(descs[i])))
  }

  /** "Search for an appropriate recipe" goes to the recipe tool. */
  lemma SearchRecipeRoute()
    ensures Route(Lower(SearchRecipe)) == RecipeTool
  {
    OccursInLower(SearchRecipe, "recipe", 26);
  }

  /**
   * "Generate a shopping list from the recipe" mentions a recipe, which is
   * tested first, so it goes to the recipe tool and not the shopping tool.
   */
  lemma ShoppingFromRecipeRoute()
    ensures Route(Lower(ShoppingFromRecipe)) == RecipeTool
  {
    OccursInLower(ShoppingFromRecipe, "recipe", 34);
  }

  /** A description lacking, in either case, a letter of "shopping" does not go to the shopping tool. */
  lemma NotShopping(d: string, c: char)
    requires c in "shopping" && 'a' <= c <= 'z' && c !in d && (c as int - 32) as char !in d
    ensures Route(Lower(d)) != ShoppingTool
  {
    RouteFirstMatch(Lower(d));
    LowerLacks(d, c);
    MissingChar(Lower(d), "shopping", c);
  }

  // One witness letter per fallback description. Each fact is its own lemma
  // so that the solver looks at one string constant at a time.

  lemma CookingOverviewLacks()
    ensures 'h' !in CookingOverview && 'H' !in CookingOverview
  {
  }

  lemma CookingOverviewRoute()
    ensures Route(Lower(CookingOverview)) != ShoppingTool
  {
    CookingOverviewLacks();
    NotShopping(CookingOverview, 'h');
  }

  lemma TravelOptionsLacks()
    ensures 'g' !in TravelOptions && 'G' !in TravelOptions
  {
  }

  lemma TravelOptionsRoute()
    ensures Route(Lower(TravelOptions)) != ShoppingTool
  {
    TravelOptionsLacks();
    NotShopping(TravelOptions, 'g');
  }

  lemma DayByDayLacks()
    ensures 'h' !in DayByDay && 'H' !in DayByDay
  {
  }

  lemma DayByDayRoute()
    ensures Route(Lower(DayByDay)) != ShoppingTool
  {
    DayByDayLacks();
    NotShopping(DayByDay, 'h');
  }

  lemma WebSearchForQueryLacks()
    ensures 'i' !in WebSearchForQuery && 'I' !in WebSearchForQuery
  {
  }

  lemma WebSearchForQueryRoute()
    ensures Route(Lower(WebSearchForQuery)) != ShoppingTool
  {
    WebSearchForQueryLacks();
    NotShopping(WebSearchForQuery, 'i');
  }

  /**
   * No step of any fallback plan reaches the shopping tool: in the meal
   * plan, the step that asks for a shopping list mentions the recipe and
   * goes, like the first step, to the recipe tool.
   */
  lemma FallbackRoutes(query: string)
    ensures MealQuery(query) ==>
              Routes(FallbackDescriptions(query))[..2] == [RecipeTool, RecipeTool]
    ensures ShoppingTool !in Routes(FallbackDescriptions(query))
  {
    SearchRecipeRoute();
    ShoppingFromRecipeRoute();
    CookingOverviewRoute();
    TravelOptionsRoute();
    DayByDayRoute();
    WebSearchForQueryRoute();
  }

  class Coordinator {
    const sessionService: InMemorySessionService<HistoryEntry>
    const tools: Backend

    constructor (sessionService: InMemorySessionService<HistoryEntry>, tools: Backend)
      ensures this.sessionService == sessionService && this.tools == tools
    {
      this.sessionService := sessionService;
      this.tools := tools;
    }

    /**
     * `handle_request`. `apiKey` and `reply` stand for the chat-completion
     * exchange, `clock(i)` for the measured duration of step `i`; the
     * `parallel` flag is accepted and ignored.
     */
    method HandleRequest(sessionId: string, userQuery: string, parallel: bool,
                         apiKey: string, reply: HttpReply, clock: nat -> real)
      returns (out: Result<Response, ExecutionFailure>)
      modifies sessionService
      // The request succeeds exactly when no step's tool raises.
      ensures var descs := PlannedDescriptions(userQuery, apiKey, reply);
              out.Success? <==> FirstFailure(tools, descs) == |descs|
      ensures var descs := PlannedDescriptions(userQuery, apiKey, reply);
              out.Failure? ==> FirstFailure(tools, descs) < |descs|
                               && out.error == ToolRaised(descs[FirstFailure(tools, descs)])
      // On success: the caller's session id, the plan, and one result per step, aligned with the plan.
      ensures out.Success? ==>
                && out.value.sessionId == sessionId
                && Descriptions(out.value.plan) == PlannedDescriptions(userQuery, apiKey, reply)
                && DistinctIds(out.value.plan)
                && |out.value.results| == |out.value.plan|
                && forall j :: 0 <= j < |out.value.plan| ==>
                     && out.value.results[j].step == out.value.plan[j]
                     && RunStep(tools, out.value.plan[j].description) == Some(out.value.results[j].output)
                     && out.value.results[j].elapsedSeconds == clock(j)
      // On success the stored history grew by exactly the results, in plan order.
      ensures out.Success? ==>
                sessionService.GetSession(sessionId)
                == Session(old(sessionService.GetSession(sessionId)).userId,
                           old(sessionService.GetSession(sessionId)).history + HistoryOf(out.value.results))
      // One save per step that ran, each holding the history up to and including that step.
      ensures SavedSteps(old(sessionService.GetSession(sessionId)), old(sessionService.saved), sessionService.saved,
                         sessionId, tools, PlannedDescriptions(userQuery, apiKey, reply),
                         FirstFailure(tools, PlannedDescriptions(userQuery, apiKey, reply)))
      // The store changes only at this id, and only if some step ran.
      ensures StoredAfter(old(sessionService.sessions), sessionService.sessions, sessionService.saved, sessionId,
                          FirstFailure(tools, PlannedDescriptions(userQuery, apiKey, reply)))
      // An id that was not stored becomes stored, owned by "unknown", once a step has run.
      ensures var k := FirstFailure(tools, PlannedDescriptions(userQuery, apiKey, reply));
              sessionId !in old(sessionService.sessions) && k > 0 ==>
                sessionId in sessionService.sessions
                && sessionService.sessions[sessionId].userId == UnknownUser
                && |sessionService.sessions[sessionId].history| == k
    {
      var session := sessionService.GetSession(sessionId);
      var plan := Plan(userQuery, apiKey, reply);
      ghost var stored0 := sessionService.sessions;
      out := Execute(sessionId, session, plan, clock);
      if sessionId !in stored0 {
        LastSaveStored(session, stored0, sessionService.sessions, old(sessionService.saved), sessionService.saved,
                       sessionId, tools, Descriptions(plan), FirstFailure(tools, Descriptions(plan)));
      }
    }

    /**
     * The loop of `handle_request`: runs the steps of `plan` in order,
     * appending each result to `session` and saving it under `sessionId`,
     * and stops at the first tool that raises.
     */
    method Execute(sessionId: string, session: Session<HistoryEntry>, plan: seq<Step>, clock: nat -> real)
      returns (out: Result<Response, ExecutionFailure>)
      requires session == sessionService.GetSession(sessionId)
      modifies sessionService
      ensures var descs := Descriptions(plan);
              out.Success? <==> FirstFailure(tools, descs) == |descs|
      ensures var descs := Descriptions(plan);
              out.Failure? ==> FirstFailure(tools, descs) < |descs|
                               && out.error == ToolRaised(descs[FirstFailure(tools, descs)])
      ensures out.Success? ==>
                && out.value == Response(sessionId, plan, out.value.results)
                && |out.value.results| == |plan|
                && forall j :: 0 <= j < |plan| ==>
                     && out.value.results[j].step == plan[j]
                     && RunStep(tools, plan[j].description) == Some(out.value.results[j].output)
                     && out.value.results[j].elapsedSeconds == clock(j)
      ensures out.Success? ==>
                sessionService.GetSession(sessionId)
                == Session(session.userId, session.history + HistoryOf(out.value.results))
      ensures SavedSteps(session, old(sessionService.saved), sessionService.saved, sessionId,
                         tools, Descriptions(plan), FirstFailure(tools, Descriptions(plan)))
      ensures StoredAfter(old(sessionService.sessions), sessionService.sessions, sessionService.saved,
                          sessionId, FirstFailure(tools, Descriptions(plan)))
    {
      ghost var saved0 := sessionService.saved;
      ghost var stored0 := sessionService.sessions;
      ghost var descs := Descriptions(plan);
      var current := session;
      var results: seq<StepResult> := [];
      for i := 0 to |plan|
        invariant |results| == i
        invariant Ran(tools, clock, session, plan, results, current)
        invariant SavedSteps(session, saved0, sessionService.saved, sessionId, tools, descs, i)
        invariant StoredAfter(stored0, sessionService.sessions, sessionService.saved, sessionId, i)
        invariant i > 0 ==> sessionService.saved[|sessionService.saved| - 1].1 == current
      {
        var res := RunStep(tools, plan[i].description);
        if res.None? {
          FirstFailureAt(tools, descs, i);
          return Failure(ToolRaised(plan[i].description));
        }
        results, current := RecordStep(sessionId, session, plan, clock, saved0, stored0, results, current, res.value);
      }
      FirstFailureAt(tools, descs, |plan|);
      return Success(Response(sessionId, plan, results));
    }

    /**
     * The body of the loop of `handle_request` for a step whose tool
     * returned `output`: the result, with the step's measured time, is
     * appended to the results, the step and its output to the history, and
     * the session is saved under `sessionId`.
     */
    method RecordStep(sessionId: string, session: Session<HistoryEntry>, plan: seq<Step>, clock: nat -> real,
                      ghost saved0: seq<(string, Session<HistoryEntry>)>,
                      ghost stored0: map<string, Session<HistoryEntry>>,
                      results: seq<StepResult>, current: Session<HistoryEntry>, output: ToolOutput)
      returns (results': seq<StepResult>, current': Session<HistoryEntry>)
      requires |results| < |plan| && Ran(tools, clock, session, plan, results, current)
      requires RunStep(tools, plan[|results|].description) == Some(output)
      requires SavedSteps(session, saved0, sessionService.saved, sessionId, tools, Descriptions(plan), |results|)
      requires StoredAfter(stored0, sessionService.sessions, sessionService.saved, sessionId, |results|)
      modifies sessionService
      ensures results' == results + [StepResult(plan[|results|], output, clock(|results|))]
      ensures Ran(tools, clock, session, plan, results', current')
      ensures SavedSteps(session, saved0, sessionService.saved, sessionId, tools, Descriptions(plan), |results'|)
      ensures StoredAfter(stored0, sessionService.sessions, sessionService.saved, sessionId, |results'|)
      ensures sessionService.saved[|sessionService.saved| - 1] == (sessionId, current')
    {
      var i := |results|;
      var elapsed := clock(i);
      var entry := HistoryEntry(plan[i], output);
      HistoryOfAppend(results, StepResult(plan[i], output, elapsed));
      results' := results + [StepResult(plan[i], output, elapsed)];
      current' := current.(history := current.history + [entry]);
      HistoryRecords(session, plan, results', tools);
      SavedStepsGrow(session, saved0, sessionService.saved, sessionId, tools, Descriptions(plan), i, current');
      sessionService.SaveSession(sessionId, current');
    }
  }
}
