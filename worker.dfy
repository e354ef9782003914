/**
 * The worker: runs one step by sending its lower-cased description to one
 * of three tools, chosen by substring rules where the first match wins.
 * The tools themselves are an input: a backend that, given the tool and
 * the query, either returns that tool's payload or raises.
 */
module Worker {
  import opened Wrappers
  import opened Text

  datatype Tool = RecipeTool | ShoppingTool | WebSearchTool

  /** A tool's structured reply, kept opaque. */
  type Payload = string

  /** The tool implementations: `None` stands for a tool that raised. */
  type Backend = (Tool, string) -> Option<Payload>

  /** A tool's reply, tagged with the tool that produced it and the query it was given. */
  datatype ToolOutput = ToolOutput(tool: Tool, query: string, payload: Payload)

  /** The routing rules, tried in order on the lower-cased description. */
  function Route(desc: string): Tool {
    if Contains(desc, "recipe") || Contains(desc, "meal") then RecipeTool
    else if Contains(desc, "shopping") || Contains(desc, "shopping list") then ShoppingTool
    else WebSearchTool
  }

  /** `WorkerAgent.run_step`, given the step's description ("" when it has none). */
  function RunStep(tools: Backend, description: string): Option<ToolOutput> {
    var desc := Lower(description);
    var tool := Route(desc);
    match tools(tool, desc)
    case None => None
    case Some(payload) => Some(ToolOutput(tool, desc, payload))
  }

  /**
   * The routing table with its precedence: recipe/meal before shopping,
   * shopping before web search. The "shopping list" rule never decides
   * anything the "shopping" rule has not already decided.
   */
  lemma RouteFirstMatch(desc: string)
    ensures Route(desc) == RecipeTool <==> Contains(desc, "recipe") || Contains(desc, "meal")
    ensures Route(desc) == ShoppingTool <==>
              !Contains(desc, "recipe") && !Contains(desc, "meal") && Contains(desc, "shopping")
    ensures Route(desc) == WebSearchTool <==>
              !Contains(desc, "recipe") && !Contains(desc, "meal") && !Contains(desc, "shopping")
  {
    if Contains(desc, "shopping list") {
      ContainsPrefix(desc, "shopping list", "shopping");
    }
  }

  /**
   * The tool chosen and the query it receives depend only on the
   * lower-cased description, and a successful call reports exactly them.
   */
  lemma RunStepIgnoresCase(tools: Backend, description: string)
    ensures RunStep(tools, Lower(description)) == RunStep(tools, description)
    ensures RunStep(tools, description).Some? ==>
              RunStep(tools, description).value.query == Lower(description)
              && RunStep(tools, description).value.tool == Route(Lower(description))
  {
    LowerIdempotent(description);
  }

  /**
   * `run_step` returns the routed tool's payload for the lower-cased
   * description, and fails exactly when that tool raises.
   */
  lemma RunStepCallsTool(tools: Backend, description: string)
    ensures RunStep(tools, description).Some? <==>
              tools(Route(Lower(description)), Lower(description)).Some?
    ensures RunStep(tools, description).Some? ==>
              RunStep(tools, description).value.payload
              == tools(Route(Lower(description)), Lower(description)).value
  {
  }

  /** Descriptions that differ only in the case of letters run the same tool on the same query. */
  lemma RunStepCaseInsensitive(tools: Backend, d: string, e: string)
    requires SameUpToAsciiCase(d, e)
    ensures RunStep(tools, d) == RunStep(tools, e)
  {
    LowerIgnoresCase(d, e);
  }

  /** A step without a description goes to web search with an empty query. */
  lemma MissingDescriptionSearchesWeb(tools: Backend)
    ensures Route(Lower("")) == WebSearchTool
    ensures RunStep(tools, "").Some? <==> tools(WebSearchTool, "").Some?
  {
  }
}
