# Concierge agent: planner, worker, coordinator and session store

A Dafny model of the orchestration core of the Concierge Agent:

- **Planner** (`PlannerAgent.plan`): asks a chat-completion service for
  numbered steps and parses the reply. Parsing splits the reply into lines,
  strips each line and drops blank lines. On a kept line longer than two
  characters, a single leading digit followed by `.` or `)` is removed;
  otherwise a leading `- ` is removed. The text after a removed marker is
  stripped again. A line such as `10. x` (two digits) or `1.` (too short)
  is kept unchanged. If any part of the exchange fails, or the reply yields no
  step, it falls back to a fixed plan chosen by keywords in the query.
  Planning never fails.
- **Worker** (`WorkerAgent.run_step`): sends a step's lower-cased
  description to the recipe, shopping or web-search tool. The first
  matching substring rule decides.
- **Coordinator** (`Coordinator.handle_request`): looks up the session,
  plans once and runs the steps in plan order. After each step it appends
  the result to the response and to the session's history, then saves the
  session. A tool that raises ends the request. Earlier steps stay saved,
  and the caller gets no results.
- **Session store** (`InMemorySessionService`): a map from session id to
  owner and history. Ids are created fresh. Lookup of an unknown id returns
  a placeholder that is not stored. Saving overwrites.

Files:

- `wrappers.dfy`: `Option` and `Result`.
- `ids.dfy`: the fresh-id oracle that stands in for `uuid4`.
- `text.dfy`: the Python string semantics the core relies on: `strip`,
  `splitlines`, `lower`, `isdigit` and `in` on strings.
- `memory.dfy`: the session store, as a class whose `sessions` map is
  updated in place.
- `planner.dfy`: the outcome of the chat call, the parse loop, the fallback
  and `plan`.
- `worker.dfy`: routing and `run_step`.
- `coordinator.dfy`: the `Coordinator` class and the `handle_request` loop.

The remote chat call is an input to the model. `apiKey` is the configured
key, with `""` meaning unset. `HttpReply(status, content)` is the status
of the exchange, plus the text at `choices[0].message.content` when the
body had that shape (a failed transport and a non-JSON body are folded
into these two fields; see "Left out"). The tools are a `Backend`: a function from
(tool, query) to the tool's payload, or `None` when the tool raised. The
duration of step `i` is `clock(i)`.

Three consequences of the code are easy to miss; the model states each:

- The API-key check raises `RuntimeError` (`ai_agent.py:35-36`) inside
  the `try` of `plan` (`ai_agent.py:83-111`). A missing key therefore leads
  to the fallback plan, like every other failure
  (`Planner.EveryFailureFallsBack`), and `plan` never raises.
- The prompt asks for 2 to 4 steps (`ai_agent.py:78`), but nothing enforces
  that count. The fallback plan has 1 to 3 steps. A reply from the service
  gives one step per non-blank line, with no upper bound. The model proves
  "at least one step" (`Planner.PlanWellFormed`).
- `run_step` tests "recipe" before "shopping" (`ai_agent.py:135-137`). So
  the fallback step "Generate a shopping list from the recipe" goes to the
  recipe tool (`Orchestrator.ShoppingFromRecipeRoute`), and no fallback step
  ever reaches the shopping tool (`Orchestrator.FallbackRoutes`).

## Model

| member | source | states |
|---|---|---|
| Memory.Placeholder | concierge-agent/src/memory.py:15 | the default of `get_session`: owner "unknown", empty history (a definition; its use is stated by `Memory.InMemorySessionService.GetSession`) |
| Memory.InMemorySessionService.constructor | concierge-agent/src/memory.py:6-7 | the store starts with no sessions |
| Memory.InMemorySessionService.CreateSession | concierge-agent/src/memory.py:9-12 | the new id was not stored before; the map gains exactly that id, mapped to the owner with an empty history; every other entry is unchanged |
| Memory.InMemorySessionService.GetSession | concierge-agent/src/memory.py:14-15 | a stored id yields its stored session; an unknown id yields the placeholder owned by "unknown" with an empty history, and the map is not changed (the function only reads) |
| Memory.InMemorySessionService.SaveSession | concierge-agent/src/memory.py:17-18 | the map entry at the id is set to the session, whether it is new or overwritten; every other key is unchanged; a lookup of the id afterwards returns exactly that session |
| Ids.FreshId | concierge-agent/src/memory.py:10 | the id returned differs from every id it is told to avoid |
| Text.IsSpace | concierge-agent/src/ai_agent.py:96 | `str.isspace()`: the characters `strip` removes (a definition; used by `Text.TrimStartSpec`, `Text.TrimEndSpec` and `Text.StripEmptyIff`) |
| Text.IsLineBreak | concierge-agent/src/ai_agent.py:96 | the characters `splitlines` cuts at (a definition; used by `Text.FirstBreakSpec`, `Text.SplitLinesHaveNoBreaks` and `Text.SplitLinesRebuild`) |
| Text.IsDigit | concierge-agent/src/ai_agent.py:101 | `ln[0].isdigit()` on the ASCII digits (a definition; used by `Planner.NumberedMarkerRemoved` and `Planner.TwoDigitsKept`) |
| Text.TrimStart | concierge-agent/src/ai_agent.py:96 | `lstrip` over Python's whitespace set (a definition; characterised by `Text.TrimStartSpec`) |
| Text.TrimEnd | concierge-agent/src/ai_agent.py:96 | `rstrip` over Python's whitespace set (a definition; characterised by `Text.TrimEndSpec`) |
| Text.Strip | concierge-agent/src/ai_agent.py:96 | `strip` as `rstrip` after `lstrip` (a definition; characterised by `Text.StripIsStripped`, `Text.StripInfix` and `Text.StripEmptyIff`) |
| Text.TrimStartSpec | concierge-agent/src/ai_agent.py:96 | `lstrip` keeps a suffix, removes only whitespace before it, and leaves no leading whitespace |
| Text.TrimEndSpec | concierge-agent/src/ai_agent.py:96 | `rstrip` keeps a prefix, removes only whitespace after it, and leaves no trailing whitespace |
| Text.StripIsStripped | concierge-agent/src/ai_agent.py:96 | neither end of what `strip` returns is whitespace, and it is no longer than its input |
| Text.StripInfix | concierge-agent/src/ai_agent.py:96 | `strip` returns one contiguous piece of its input, with only whitespace on either side of it |
| Text.StripEmptyIff | concierge-agent/src/ai_agent.py:96 | a line strips to the empty string exactly when it is all whitespace |
| Text.StripStripped | concierge-agent/src/ai_agent.py:96 | `strip` is the identity on a string that is already stripped, so stripping twice equals stripping once |
| Text.StrippedSuffixNotBlank | concierge-agent/src/ai_agent.py:101-104 | past any proper prefix of a stripped line, a non-space character remains |
| Text.SplitLines | concierge-agent/src/ai_agent.py:96 | `splitlines()`: cut at each line-boundary character, with "\r\n" as one boundary and no empty last line after a final boundary (a definition; characterised by `Text.SplitLinesRebuild`, `Text.SplitLinesCount`, `Text.SplitLinesHaveNoBreaks` and `Text.SplitLinesKeepsText`) |
| Text.SplitLinesCount | concierge-agent/src/ai_agent.py:96 | an empty text has no lines and any other text has at least one; there are never more lines than characters |
| Text.FirstBreakSpec | concierge-agent/src/ai_agent.py:96 | the first line ends at the first line-boundary character: there is none before it, and there is one at it |
| Text.NextLine | concierge-agent/src/ai_agent.py:96 | a boundary is one character, or two for "\r\n", so the next line starts one or two characters on |
| Text.SplitLinesHaveNoBreaks | concierge-agent/src/ai_agent.py:96 | no line produced by `splitlines` contains a line boundary |
| Text.SplitLinesKeepsText | concierge-agent/src/ai_agent.py:96 | joining the lines gives back the text minus exactly its line-boundary characters, in the original order |
| Text.BoundaryAt | concierge-agent/src/ai_agent.py:96 | the piece between the end of the first line and the start of the next is one boundary: a single boundary character, or "\r\n" |
| Text.SplitLinesRebuild | concierge-agent/src/ai_agent.py:96 | where the cuts fall: there are separators, one per line, such that the text is line 0, separator 0, line 1, separator 1, and so on; every separator but the last is one boundary character or "\r\n", the last is that or empty; a lone "\r" is never followed by an empty line and "\n" ("\r\n" is one boundary); no empty last line follows a final boundary |
| Text.Lower | concierge-agent/src/ai_agent.py:134 | `lower()` on the ASCII letters, every other character kept (a definition; fixed completely by `Text.LowerHasNoUpper` and `Text.LowerKeepsLetters` together) |
| Text.LowerIdempotent | concierge-agent/src/ai_agent.py:134 | lower-casing twice equals lower-casing once |
| Text.LowerLacks | concierge-agent/src/ai_agent.py:134 | a letter missing from a string in both cases is missing from its lower-cased form |
| Text.LowerHasNoUpper | concierge-agent/src/ai_agent.py:134 | no upper-case ASCII letter is left after lower-casing |
| Text.LowerKeepsLetters | concierge-agent/src/ai_agent.py:134 | lower-casing keeps the length and changes each character at most from one case of an ASCII letter to the other (`Text.SameUpToAsciiCase`, defined without `Lower`) |
| Text.LowerIgnoresCase | concierge-agent/src/ai_agent.py:134 | two strings that differ only in the case of ASCII letters lower-case to the same string |
| Text.Contains | concierge-agent/src/ai_agent.py:135-137 | `needle in hay`: the needle occurs at some position of the haystack (a definition; used by `Text.ContainsPrefix` and `Worker.RouteFirstMatch`) |
| Text.ContainsPrefix | concierge-agent/src/ai_agent.py:137 | a string that contains a needle contains every prefix of it, so the "shopping list" test adds nothing to the "shopping" test |
| Planner.TrimTrailingSlashes | concierge-agent/src/ai_agent.py:39 | `rstrip("/")` keeps a prefix and removes only slashes, all of the trailing ones |
| Planner.ChatUrl | concierge-agent/src/ai_agent.py:38-39 | the URL is the configured base, or the default when none is set, with all of its trailing slashes removed, followed by "/chat/completions" |
| Planner.ChatUrlIgnoresTrailingSlash | concierge-agent/src/ai_agent.py:39 | a trailing slash on the configured base does not change the URL |
| Planner.CallChat | concierge-agent/src/ai_agent.py:35-64 | success exactly when the key is set, the status is 200 and the reply has the expected shape, and then the reply text is returned; otherwise the error names the first check that failed, in the order key, status, shape, and a status error carries the status |
| Planner.NonBlank | concierge-agent/src/ai_agent.py:96 | the filter `[ln.strip() for ln in lines if ln.strip()]` (a definition; characterised by `Planner.NonBlankEnumerates`, `Planner.NonBlankStripped` and `Planner.NonBlankAppend`) |
| Planner.NonBlankLines | concierge-agent/src/ai_agent.py:96 | that filter over the lines of the reply text (a definition) |
| Planner.NonBlankEnumerates | concierge-agent/src/ai_agent.py:96 | the kept lines are exactly the stripped non-blank lines, listed by strictly increasing position, with none missing |
| Planner.NonBlankStripped | concierge-agent/src/ai_agent.py:96 | every kept line is non-empty and stripped |
| Planner.NonBlankAppend | concierge-agent/src/ai_agent.py:96 | filtering is compositional: the kept lines of two parts, in order |
| Planner.CleanLine | concierge-agent/src/ai_agent.py:99-104 | the marker rule: one digit then `.` or `)` on a line longer than 2, else a leading "- ", else unchanged (a definition; its three branches are pinned by `Planner.NumberedMarkerRemoved`, `Planner.BulletMarkerRemoved` and `Planner.CleanLineKept`; also `Planner.TwoDigitsKept` and `Planner.CleanLineNotBlank`) |
| Planner.CleanLineNotBlank | concierge-agent/src/ai_agent.py:101-104 | removing a marker from a non-blank stripped line never leaves it blank or unstripped |
| Planner.NumberedMarkerRemoved | concierge-agent/src/ai_agent.py:101-102 | a single digit, then `.` or `)`, then a non-empty rest: the description is the rest, stripped |
| Planner.BulletMarkerRemoved | concierge-agent/src/ai_agent.py:103-104 | a leading "- ": the description is the rest, stripped |
| Planner.CleanLineKept | concierge-agent/src/ai_agent.py:99-104 | a line with neither marker (no single digit then `.` or `)` on a line longer than 2, no leading "- ") is kept unchanged |
| Planner.TwoDigitsKept | concierge-agent/src/ai_agent.py:101 | only one leading digit is recognised, so a line starting with two digits is kept unchanged |
| Planner.ParseSteps | concierge-agent/src/ai_agent.py:96-105 | one step per kept line, in order; each description is that line with its marker removed; the ids are pairwise distinct |
| Planner.AnyContains | concierge-agent/src/ai_agent.py:115 | `any(word in q for word in words)`: some listed word occurs in the text (a definition; used by `Planner.FallbackFirstMatch`) |
| Planner.MealQuery | concierge-agent/src/ai_agent.py:114-115 | the first fallback test: a meal keyword occurs in the lower-cased query (a definition; its keywords are pinned by `Planner.FallbackKeywords`; see also `Planner.FallbackCaseInsensitive`) |
| Planner.TravelQuery | concierge-agent/src/ai_agent.py:121 | the second fallback test: "travel" or "itinerary" occurs in the lower-cased query (a definition; its keywords are pinned by `Planner.FallbackKeywords`; see also `Planner.FallbackCaseInsensitive`) |
| Planner.FallbackKeywords | concierge-agent/src/ai_agent.py:114-121 | the meal test holds exactly when "meal", "recipe", "dinner", "breakfast" or "lunch" occurs in the lower-cased query; the travel test exactly when "travel" or "itinerary" does |
| Planner.FallbackCaseInsensitive | concierge-agent/src/ai_agent.py:114-126 | queries that differ only in the case of ASCII letters pass the same fallback tests and get the same fallback plan |
| Planner.FallbackDescriptions | concierge-agent/src/ai_agent.py:114-126 | the fallback plan has 1 to 3 steps, none with an empty description |
| Planner.FallbackFirstMatch | concierge-agent/src/ai_agent.py:115-126 | the meal keywords give the 3-step plan; otherwise travel or itinerary gives the 2-step plan; otherwise the 1-step web search; each holds in both directions |
| Planner.FallbackSteps | concierge-agent/src/ai_agent.py:114-126 | the fallback steps carry the fallback descriptions, in order, with distinct ids |
| Planner.PlannedDescriptions | concierge-agent/src/ai_agent.py:83-126 | the descriptions `plan` produces: the cleaned kept reply lines when the call succeeds and at least one line is kept, otherwise the fallback (a definition; characterised by `Planner.EveryFailureFallsBack`, `Planner.ReplyLinesBecomeSteps` and `Planner.PlanWellFormed`) |
| Planner.EveryFailureFallsBack | concierge-agent/src/ai_agent.py:83-126 | each of these leads to the fallback plan: a missing key, a non-200 status, a reply of the wrong shape, a reply with no usable line |
| Planner.ReplyLinesBecomeSteps | concierge-agent/src/ai_agent.py:96-109 | otherwise the plan is the kept reply lines, one step each, in order, with markers removed |
| Planner.PlanWellFormed | concierge-agent/src/ai_agent.py:96-126 | every plan has at least one step, and no step has an empty description |
| Planner.Plan | concierge-agent/src/ai_agent.py:72-126 | `plan` never fails; its steps carry the planned descriptions, with distinct ids; there is at least one step, and none has an empty description |
| Worker.Route | concierge-agent/src/ai_agent.py:135-139 | the ordered routing rules on the lower-cased description (a definition; characterised by `Worker.RouteFirstMatch`) |
| Worker.RunStep | concierge-agent/src/ai_agent.py:133-139 | `run_step`: lower-case the description, route it, and call that tool with it; `None` when the tool raises (a definition; pinned by `Worker.RunStepCallsTool` with `Worker.RunStepIgnoresCase`; see also `Worker.MissingDescriptionSearchesWeb`) |
| Worker.RouteFirstMatch | concierge-agent/src/ai_agent.py:135-139 | recipe tool iff "recipe" or "meal" occurs; shopping tool iff neither occurs and "shopping" does; web search iff none of the three occurs |
| Worker.RunStepCallsTool | concierge-agent/src/ai_agent.py:134-139 | `run_step` fails exactly when the routed tool raises on the lower-cased description; otherwise it returns that tool's payload |
| Worker.RunStepIgnoresCase | concierge-agent/src/ai_agent.py:134-139 | the tool and its query depend only on the lower-cased description; a successful call reports that tool and that query |
| Worker.RunStepCaseInsensitive | concierge-agent/src/ai_agent.py:134-139 | descriptions that differ only in the case of ASCII letters run the same tool on the same query, with the same outcome |
| Worker.MissingDescriptionSearchesWeb | concierge-agent/src/ai_agent.py:134 | a step without a description goes to web search, and succeeds exactly when web search does |
| Orchestrator.FirstFailure | concierge-agent/src/ai_agent.py:153-155 | the position of the first step whose tool raises, at most the plan's length, which means none raises |
| Orchestrator.FirstFailureSpec | concierge-agent/src/ai_agent.py:153-155 | every step before the first failing position succeeds, and the step at that position fails |
| Orchestrator.LastSaveStored | concierge-agent/src/ai_agent.py:149-161 | once a step has run, the id is stored, with the owner looked up at the start and one history entry per step run |
| Orchestrator.SearchRecipeRoute | concierge-agent/src/ai_agent.py:135-136 | "Search for an appropriate recipe" goes to the recipe tool |
| Orchestrator.ShoppingFromRecipeRoute | concierge-agent/src/ai_agent.py:135-136 | "Generate a shopping list from the recipe" goes to the recipe tool, because "recipe" is tested first |
| Orchestrator.FallbackRoutes | concierge-agent/src/ai_agent.py:115-139 | the first two steps of the meal plan go to the recipe tool, and no step of any fallback plan reaches the shopping tool |
| Orchestrator.Coordinator.constructor | concierge-agent/src/ai_agent.py:143-146 | the coordinator holds the given session store and tools |
| Orchestrator.Coordinator.HandleRequest | concierge-agent/src/ai_agent.py:148-163 | succeeds iff no tool raises; otherwise fails, naming the first failing step. On success: the caller's id, the plan, and one result per step aligned with the plan; the stored history grew by exactly those results. In every case: one save per step that ran, each holding the history up to that step; the store changes only at this id; an unknown id becomes stored, owned by "unknown", once a step has run |
| Orchestrator.Coordinator.Execute | concierge-agent/src/ai_agent.py:153-163 | the loop: it stops at the first step whose tool raises, and otherwise returns the results aligned with the plan. It states the same saves and store change as `HandleRequest`, relative to the session looked up at the start |
| Orchestrator.Coordinator.RecordStep | concierge-agent/src/ai_agent.py:154-161 | one step that succeeded: the results grow by that step's result and time; the history grows by that step; the save log grows by one save of the new session; the store holds it at the id |

## Left out

- The HTTP exchange, JSON decoding, request headers, the prompt, the model
  name, the temperature and the token budget. The exchange is an input
  (`apiKey`, `HttpReply`). Only the URL construction and the
  key/status/shape decisions are modelled (`Planner.ChatUrl`,
  `Planner.CallChat`).
- Planner.CallChat: a transport error (`requests.post` raising at
  `ai_agent.py:56`, for example after the 60-second timeout) is represented
  by a non-200 status. A body that is not JSON (`resp.json()` raising at
  `ai_agent.py:60`) is represented by `content == None`, like a body of the
  wrong shape. The error returned therefore does not tell these cases apart.
  Every one of them leads to the fallback plan, as in the code.
- The configured API base comes from the environment; `ChatUrl` takes it
  as a parameter.
- Logging of planner errors: it has no effect on the result.
- `elapsed_seconds`: wall-clock time and rounding to 3 decimals are not
  modelled. Step `i`'s value is the input `clock(i)`.
- Ids.FreshId: it promises only to differ from the ids it is given.
  `uuid4`'s global uniqueness is an assumption of the system, not proved.
  `CreateSession` avoids the stored ids, and the planner's ids are
  distinct within one plan.
- Text.Lower: it changes only the ASCII letters A-Z. Python's `lower` also
  maps other Unicode letters.
- Text.IsDigit: it accepts only the ASCII digits. Python's `isdigit` also
  accepts other Unicode digits.
- The tool implementations (recipe stub, shopping stub, Google search).
  They are the `Backend` input: a deterministic function of tool and query,
  where `None` means the tool raised. The model does not capture a tool
  that answers the same query differently on different calls.
- Orchestrator.Coordinator.HandleRequest: the `parallel` flag is accepted
  and ignored, as in the code. Its contract does not mention it.
- Aliasing of the session dictionary. Python stores the same dict object it
  later appends to. The model stores values, and saves after every append.
  The stored contents are therefore the same after every save, but the
  model does not capture the aliasing itself.
- Memory.InMemorySessionService.SaveSession: the ghost `saved` log records
  each call so that "one save per step" can be stated. It has no
  counterpart in the code.
- Concurrent requests on one session: the read-modify-write is
  unsynchronised in the code and is not modelled.
- The HTTP API layer, the web UI, configuration loading and packaging are
  not part of this model.
