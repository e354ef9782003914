/**
 * The planner: turns a user query into an ordered list of steps. It asks
 * the chat-completion service for numbered steps and parses the reply;
 * on any failure, or when the reply yields no step, it falls back to a
 * fixed keyword-based plan. Planning never fails.
 */
module Planner {
  import opened Wrappers
  import opened Text
  import Ids

  /** `{"id": ..., "description": ...}`. */
  datatype Step = Step(id: string, description: string)

  function Descriptions(steps: seq<Step>): seq<string> {
    seq(|steps|, i requires 0 <= i < |steps| => steps[i].description)
  }

  ghost predicate DistinctIds(steps: seq<Step>) {
    forall i, j :: 0 <= i < j < |steps| ==> steps[i].id != steps[j].id
  }

  // ---------------------------------------------------------------------
  // The chat-completion call, reduced to its decisions. The HTTP exchange
  // itself is an input: the status the service answered with, and the
  // text at choices[0].message.content if the body had that shape.
  // ---------------------------------------------------------------------

  const DefaultApiBase := "https://openrouter.ai/api/v1"
  const CompletionsPath := "/chat/completions"

  /** `s.rstrip("/")`. */
  function TrimTrailingSlashes(s: string): (r: string)
    ensures |r| <= |s| && r == s[..|r|]
    ensures r == [] || r[|r| - 1] != '/'
    ensures forall i :: |r| <= i < |s| ==> s[i] == '/'
    decreases |s|
  {
    if s != [] && s[|s| - 1] == '/' then TrimTrailingSlashes(s[..|s| - 1]) else s
  }

  /** The endpoint URL: the configured base (or the default) without trailing slashes, then the path. */
  function ChatUrl(base: string): (url: string)
    ensures |url| >= |CompletionsPath| && url[|url| - |CompletionsPath|..] == CompletionsPath
    ensures var root := url[..|url| - |CompletionsPath|];
            root == [] || root[|root| - 1] != '/'
    // The part before the path is the base (the default when none is set)
    // with all of its trailing slashes removed.
    ensures var b := if base == "" then DefaultApiBase else base;
            var root := url[..|url| - |CompletionsPath|];
            |root| <= |b| && root == b[..|root|] && forall i :: |root| <= i < |b| ==> b[i] == '/'
  {
    var root := TrimTrailingSlashes(if base == "" then DefaultApiBase else base);
    assert (root + CompletionsPath)[..|root|] == root;
    root + CompletionsPath
  }

  /** Extra trailing slashes on a configured base do not change the URL. */
  lemma ChatUrlIgnoresTrailingSlash(base: string)
    requires base != ""
    ensures ChatUrl(base + "/") == ChatUrl(base)
  {
    assert (base + "/")[..|base + "/"| - 1] == base;
  }

  datatype HttpReply = HttpReply(status: int, content: Option<string>)

  datatype ChatError = MissingApiKey | HttpStatus(status: int) | UnexpectedShape

  /** `call_openrouter_chat`: the reply text, or the error it raises. */
  function CallChat(apiKey: string, reply: HttpReply): (r: Result<string, ChatError>)
    ensures r.Success? <==> apiKey != "" && reply.status == 200 && reply.content.Some?
    ensures r.Success? ==> r.value == reply.content.value
    // The checks run in order: the key, then the status, then the shape.
    ensures r == Failure(MissingApiKey) <==> apiKey == ""
    ensures r.Failure? && r.error.HttpStatus? <==> apiKey != "" && reply.status != 200
    ensures r.Failure? && r.error.HttpStatus? ==> r.error.status == reply.status
    ensures r == Failure(UnexpectedShape) <==> apiKey != "" && reply.status == 200 && reply.content.None?
  {
    if apiKey == "" then Failure(MissingApiKey)
    else if reply.status != 200 then Failure(HttpStatus(reply.status))
    else match reply.content
      case None => Failure(UnexpectedShape)
      case Some(text) => Success(text)
  }

  // ---------------------------------------------------------------------
  // Parsing the reply.
  // ---------------------------------------------------------------------

  /** The stripped lines that are not blank, in order. */
  function NonBlank(lines: seq<string>): seq<string> {
    if lines == [] then []
    else
      var t := Strip(lines[0]);
      (if t == [] then [] else [t]) + NonBlank(lines[1..])
  }

  /** `[ln.strip() for ln in text.splitlines() if ln.strip()]`. */
  function NonBlankLines(text: string): seq<string> {
    NonBlank(SplitLines(text))
  }

  /** `idx` lists, in order, the positions of the lines `NonBlank` keeps. */
  ghost predicate Picks(lines: seq<string>, idx: seq<nat>) {
    && |idx| == |NonBlank(lines)|
    && forall m :: 0 <= m < |idx| ==> idx[m] < |lines| && NonBlank(lines)[m] == Strip(lines[idx[m]])
  }

  ghost predicate Increasing(idx: seq<nat>) {
    forall m, n :: 0 <= m < n < |idx| ==> idx[m] < idx[n]
  }

  /** Every non-blank line's position is listed. */
  ghost predicate Covers(lines: seq<string>, idx: seq<nat>) {
    forall k :: 0 <= k < |lines| && Strip(lines[k]) != [] ==> k in idx
  }

  /** Every position one further on. */
  function Shift(idx: seq<nat>): (r: seq<nat>)
    ensures |r| == |idx| && forall m :: 0 <= m < |idx| ==> r[m] == idx[m] + 1
  {
    seq(|idx|, m requires 0 <= m < |idx| => idx[m] + 1)
  }

  /** The positions for `lines` built from those for its tail. */
  function Extend(head: string, tail: seq<nat>): seq<nat> {
    if head == [] then Shift(tail) else [0] + Shift(tail)
  }

  /** A kept line of `lines[1..]`, found one position further on in `lines`. */
  lemma PickShifted(lines: seq<string>, tail: seq<nat>, m: nat)
    requires lines != [] && Picks(lines[1..], tail) && m < |tail|
    ensures tail[m] + 1 < |lines| && NonBlank(lines[1..])[m] == Strip(lines[tail[m] + 1])
  {
    assert lines[1..][tail[m]] == lines[tail[m] + 1];
  }

  lemma ExtendPicksBlank(lines: seq<string>, tail: seq<nat>)
    requires lines != [] && Strip(lines[0]) == [] && Picks(lines[1..], tail)
    ensures Picks(lines, Shift(tail))
  {
    var rest := NonBlank(lines[1..]);
    assert NonBlank(lines) == [] + rest;
    forall m | 0 <= m < |tail|
      ensures Shift(tail)[m] < |lines| && NonBlank(lines)[m] == Strip(lines[Shift(tail)[m]])
    {
      PickShifted(lines, tail, m);
    }
  }

  /** Past the kept first line, position `m` of the kept lines is position `m - 1` of the tail's. */
  lemma PickKeptAt(lines: seq<string>, tail: seq<nat>, m: nat)
    requires lines != [] && Picks(lines[1..], tail) && 0 < m <= |tail|
    ensures var idx, kept := [0] + Shift(tail), [Strip(lines[0])] + NonBlank(lines[1..]);
            idx[m] < |lines| && kept[m] == Strip(lines[idx[m]])
  {
    PickShifted(lines, tail, m - 1);
    assert ([0] + Shift(tail))[m] == tail[m - 1] + 1;
    assert ([Strip(lines[0])] + NonBlank(lines[1..]))[m] == NonBlank(lines[1..])[m - 1];
  }

  lemma ExtendPicksKept(lines: seq<string>, tail: seq<nat>)
    requires lines != [] && Strip(lines[0]) != [] && Picks(lines[1..], tail)
    ensures Picks(lines, [0] + Shift(tail))
  {
    var idx := [0] + Shift(tail);
    var kept := [Strip(lines[0])] + NonBlank(lines[1..]);
    assert NonBlank(lines) == kept;
    forall m | 0 < m < |idx|
      ensures idx[m] < |lines| && kept[m] == Strip(lines[idx[m]])
    {
      PickKeptAt(lines, tail, m);
    }
  }

  lemma ExtendPicks(lines: seq<string>, tail: seq<nat>)
    requires lines != [] && Picks(lines[1..], tail)
    ensures Picks(lines, Extend(Strip(lines[0]), tail))
  {
    if Strip(lines[0]) == [] {
      ExtendPicksBlank(lines, tail);
    } else {
      ExtendPicksKept(lines, tail);
    }
  }

  lemma ExtendIncreasing(head: string, tail: seq<nat>)
    requires Increasing(tail)
    ensures Increasing(Extend(head, tail))
  {
    var idx := Extend(head, tail);
    forall m, n | 0 <= m < n < |idx| ensures idx[m] < idx[n] {
      if head == [] {
        assert tail[m] < tail[n];
      } else if m > 0 {
        assert tail[m - 1] < tail[n - 1];
      } else {
        assert idx[n] == tail[n - 1] + 1;
      }
    }
  }

  lemma ExtendCovers(lines: seq<string>, tail: seq<nat>)
    requires lines != [] && Covers(lines[1..], tail)
    ensures Covers(lines, Extend(Strip(lines[0]), tail))
  {
    var idx := Extend(Strip(lines[0]), tail);
    forall k | 0 <= k < |lines| && Strip(lines[k]) != [] ensures k in idx {
      if k > 0 {
        assert lines[1..][k - 1] == lines[k];
        var m :| 0 <= m < |tail| && tail[m] == k - 1;
        assert Shift(tail)[m] == k;
      }
    }
  }

  /**
   * The kept lines enumerate exactly the non-blank input lines, in their
   * original order: `idx` lists their positions, strictly increasing, and
   * misses none of them.
   */
  lemma {:induction false} NonBlankEnumerates(lines: seq<string>) returns (idx: seq<nat>)
    ensures |idx| == |NonBlank(lines)|
    ensures forall m :: 0 <= m < |idx| ==> idx[m] < |lines| && NonBlank(lines)[m] == Strip(lines[idx[m]])
    ensures forall m, n :: 0 <= m < n < |idx| ==> idx[m] < idx[n]
    ensures forall k :: 0 <= k < |lines| && Strip(lines[k]) != [] ==> k in idx
  {
    if lines == [] {
      idx := [];
    } else {
      var tail := NonBlankEnumerates(lines[1..]);
      assert Picks(lines[1..], tail) && Increasing(tail) && Covers(lines[1..], tail);
      idx := Extend(Strip(lines[0]), tail);
      ExtendPicks(lines, tail);
      ExtendIncreasing(Strip(lines[0]), tail);
      ExtendCovers(lines, tail);
      assert Picks(lines, idx) && Increasing(idx) && Covers(lines, idx);
    }
  }

  /** Every kept line is non-empty and already stripped. */
  lemma {:induction false} NonBlankStripped(lines: seq<string>)
    ensures forall k :: 0 <= k < |NonBlank(lines)| ==> NonBlank(lines)[k] != [] && IsStripped(NonBlank(lines)[k])
  {
    if lines != [] {
      NonBlankStripped(lines[1..]);
      StripIsStripped(lines[0]);
    }
  }

  /** Splitting the reply text at any line keeps the parts' kept lines in order. */
  lemma {:induction false} NonBlankAppend(a: seq<string>, b: seq<string>)
    ensures NonBlank(a + b) == NonBlank(a) + NonBlank(b)
    decreases |a|
  {
    if a == [] {
      assert a + b == b;
    } else {
      var head := if Strip(a[0]) == [] then [] else [Strip(a[0])];
      calc {
        NonBlank(a + b);
        { assert (a + b)[0] == a[0]; assert (a + b)[1..] == a[1..] + b; }
        head + NonBlank(a[1..] + b);
        { NonBlankAppend(a[1..], b); }
        head + (NonBlank(a[1..]) + NonBlank(b));
        (head + NonBlank(a[1..])) + NonBlank(b);
      }
    }
  }

  /** Removes one leading "N." / "N)" (a single digit) or "- " marker. */
  function CleanLine(ln: string): string {
    if |ln| > 2 && IsDigit(ln[0]) && (ln[1] == '.' || ln[1] == ')') then Strip(ln[2..])
    else if "- " <= ln then Strip(ln[2..])
    else ln
  }

  /** A marker is stripped only when something other than whitespace follows it. */
  lemma CleanLineNotBlank(ln: string)
    requires ln != [] && IsStripped(ln)
    ensures CleanLine(ln) != [] && IsStripped(CleanLine(ln))
  {
    if |ln| > 2 {
      StripIsStripped(ln[2..]);
    }
    if |ln| > 2 && IsDigit(ln[0]) && (ln[1] == '.' || ln[1] == ')') {
      StrippedSuffixNotBlank(ln, 2);
    } else if "- " <= ln {
      assert IsSpace(ln[1]);
      StrippedSuffixNotBlank(ln, 2);
    }
  }

  /**
   * Every other line is kept as it is: no single digit then `.` or `)` on a
   * line longer than two characters, and no leading "- ".
   */
  lemma CleanLineKept(ln: string)
    requires !(|ln| > 2 && IsDigit(ln[0]) && (ln[1] == '.' || ln[1] == ')'))
    requires !("- " <= ln)
    ensures CleanLine(ln) == ln
  {
  }

  /** "3. Book" and "3) Book" become "Book". */
  lemma NumberedMarkerRemoved(digit: char, sep: char, rest: string)
    requires IsDigit(digit) && (sep == '.' || sep == ')') && rest != []
    ensures CleanLine([digit, sep] + rest) == Strip(rest)
  {
    assert ([digit, sep] + rest)[2..] == rest;
  }

  /** "- Book" becomes "Book". */
  lemma BulletMarkerRemoved(rest: string)
    ensures CleanLine("- " + rest) == Strip(rest)
  {
    assert ("- " + rest)[2..] == rest;
  }

  /** Only one leading digit is recognised: "10. Book" is kept as it is. */
  lemma TwoDigitsKept(ln: string)
    requires |ln| >= 2 && IsDigit(ln[0]) && IsDigit(ln[1])
    ensures CleanLine(ln) == ln
  {
  }

  /** The loop over the kept lines: one step per line, with fresh ids. */
  method ParseSteps(text: string) returns (parsed: seq<Step>)
    ensures |parsed| == |NonBlankLines(text)|
    ensures forall i :: 0 <= i < |parsed| ==> parsed[i].description == CleanLine(NonBlankLines(text)[i])
    ensures DistinctIds(parsed)
  {
    var lines := NonBlankLines(text);
    parsed := [];
    var ids: set<string> := {};
    for i := 0 to |lines|
      invariant |parsed| == i
      invariant forall k :: 0 <= k < i ==> parsed[k].description == CleanLine(lines[k])
      invariant forall k :: 0 <= k < i ==> parsed[k].id in ids
      invariant DistinctIds(parsed)
    {
      var ln := lines[i];
      var cleaned := ln;
      if |ln| > 2 && IsDigit(ln[0]) && (ln[1] == '.' || ln[1] == ')') {
        cleaned := Strip(ln[2..]);
      } else if "- " <= ln {
        cleaned := Strip(ln[2..]);
      }
      assert cleaned == CleanLine(ln);
      var id := Ids.FreshId(ids);
      parsed := parsed + [Step(id, cleaned)];
      ids := ids + {id};
    }
  }

  // ---------------------------------------------------------------------
  // The keyword fallback.
  // ---------------------------------------------------------------------

  const MealWords: seq<string> := ["meal", "recipe", "dinner", "breakfast", "lunch"]

  const SearchRecipe := "Search for an appropriate recipe"
  const ShoppingFromRecipe := "Generate a shopping list from the recipe"
  const CookingOverview := "Provide cooking steps overview"
  const TravelOptions := "Search top travel options"
  const DayByDay := "Generate day-by-day itinerary"
  const WebSearchForQuery := "Perform a web search for the query"

  /** `any(word in q for word in words)`. */
  predicate AnyContains(q: string, words: seq<string>) {
    exists w :: w in words && Contains(q, w)
  }

  /** The first fallback test: a meal keyword occurs in the lower-cased query. */
  predicate MealQuery(query: string) {
    AnyContains(Lower(query), MealWords)
  }

  /** The second fallback test: "travel" or "itinerary" occurs in the lower-cased query. */
  predicate TravelQuery(query: string) {
    Contains(Lower(query), "travel") || Contains(Lower(query), "itinerary")
  }

  /** The two fallback tests spelled out with their keywords. */
  lemma FallbackKeywords(query: string)
    ensures MealQuery(query) <==>
              Contains(Lower(query), "meal") || Contains(Lower(query), "recipe")
              || Contains(Lower(query), "dinner") || Contains(Lower(query), "breakfast")
              || Contains(Lower(query), "lunch")
    ensures TravelQuery(query) <==> Contains(Lower(query), "travel") || Contains(Lower(query), "itinerary")
  {
    var q := Lower(query);
    if MealQuery(query) {
      var w :| w in MealWords && Contains(q, w);
    }
    if Contains(q, "meal") || Contains(q, "recipe") || Contains(q, "dinner")
       || Contains(q, "breakfast") || Contains(q, "lunch")
    {
      assert MealWords[0] == "meal" && MealWords[1] == "recipe" && MealWords[2] == "dinner";
      assert MealWords[3] == "breakfast" && MealWords[4] == "lunch";
    }
  }

  /** The step descriptions of the fallback plan. */
  function FallbackDescriptions(query: string): (r: seq<string>)
    ensures 1 <= |r| <= 3
    ensures forall i :: 0 <= i < |r| ==> r[i] != []
  {
    if MealQuery(query) then [SearchRecipe, ShoppingFromRecipe, CookingOverview]
    else if TravelQuery(query) then [TravelOptions, DayByDay]
    else [WebSearchForQuery]
  }

  /** The keyword families are tried in a fixed order and the first match decides. */
  lemma FallbackFirstMatch(query: string)
    ensures |FallbackDescriptions(query)| == 3 <==> MealQuery(query)
    ensures |FallbackDescriptions(query)| == 2 <==> !MealQuery(query) && TravelQuery(query)
    ensures |FallbackDescriptions(query)| == 1 <==> !MealQuery(query) && !TravelQuery(query)
  {
  }

  /** Queries that differ only in the case of letters get the same fallback plan. */
  lemma FallbackCaseInsensitive(q: string, r: string)
    requires SameUpToAsciiCase(q, r)
    ensures MealQuery(q) == MealQuery(r)
    ensures TravelQuery(q) == TravelQuery(r)
    ensures FallbackDescriptions(q) == FallbackDescriptions(r)
  {
    LowerIgnoresCase(q, r);
  }

  /** The fallback branch of `plan`, each step with its own fresh id. */
  method FallbackSteps(query: string) returns (steps: seq<Step>)
    ensures Descriptions(steps) == FallbackDescriptions(query)
    ensures DistinctIds(steps)
  {
    var q := Lower(query);
    if AnyContains(q, MealWords) {
      var a := Ids.FreshId({});
      var b := Ids.FreshId({a});
      var c := Ids.FreshId({a, b});
      return [Step(a, SearchRecipe), Step(b, ShoppingFromRecipe), Step(c, CookingOverview)];
    }
    if Contains(q, "travel") || Contains(q, "itinerary") {
      var a := Ids.FreshId({});
      var b := Ids.FreshId({a});
      return [Step(a, TravelOptions), Step(b, DayByDay)];
    }
    var a := Ids.FreshId({});
    return [Step(a, WebSearchForQuery)];
  }

  // ---------------------------------------------------------------------
  // The whole of `plan`.
  // ---------------------------------------------------------------------

  /** The descriptions `plan` produces for a query and a chat exchange. */
  function PlannedDescriptions(query: string, apiKey: string, reply: HttpReply): seq<string> {
    match CallChat(apiKey, reply)
    case Success(text) =>
      var lines := NonBlankLines(text);
      if lines != [] then seq(|lines|, i requires 0 <= i < |lines| => CleanLine(lines[i]))
      else FallbackDescriptions(query)
    case Failure(_) => FallbackDescriptions(query)
  }

  /**
   * A missing key, a non-200 status, a reply of the wrong shape and a
   * reply with no usable line all lead to the fallback plan.
   */
  lemma EveryFailureFallsBack(query: string, apiKey: string, reply: HttpReply)
    requires apiKey == "" || reply.status != 200 || reply.content.None?
             || NonBlankLines(reply.content.value) == []
    ensures PlannedDescriptions(query, apiKey, reply) == FallbackDescriptions(query)
  {
  }

  /** Otherwise each kept line of the reply becomes one step, in order. */
  lemma ReplyLinesBecomeSteps(query: string, apiKey: string, reply: HttpReply)
    requires apiKey != "" && reply.status == 200 && reply.content.Some?
    requires NonBlankLines(reply.content.value) != []
    ensures var lines := NonBlankLines(reply.content.value);
            |PlannedDescriptions(query, apiKey, reply)| == |lines|
            && forall i :: 0 <= i < |lines| ==> PlannedDescriptions(query, apiKey, reply)[i] == CleanLine(lines[i])
  {
  }

  /** A plan is never empty and no step has an empty description. */
  lemma PlanWellFormed(query: string, apiKey: string, reply: HttpReply)
    ensures |PlannedDescriptions(query, apiKey, reply)| >= 1
    ensures forall i :: 0 <= i < |PlannedDescriptions(query, apiKey, reply)| ==>
              PlannedDescriptions(query, apiKey, reply)[i] != []
  {
    var chat := CallChat(apiKey, reply);
    if chat.Success? && NonBlankLines(chat.value) != [] {
      var lines := NonBlankLines(chat.value);
      NonBlankStripped(SplitLines(chat.value));
      forall i | 0 <= i < |lines| ensures CleanLine(lines[i]) != [] {
        CleanLineNotBlank(lines[i]);
      }
    }
  }

  /** `PlannerAgent.plan`: never fails, and always yields at least one step. */
  method Plan(userQuery: string, apiKey: string, reply: HttpReply) returns (steps: seq<Step>)
    ensures Descriptions(steps) == PlannedDescriptions(userQuery, apiKey, reply)
    ensures DistinctIds(steps)
    ensures |steps| >= 1
    ensures forall i :: 0 <= i < |steps| ==> steps[i].description != []
  {
    var chat := CallChat(apiKey, reply);
    var parsed: seq<Step> := [];
    if chat.Success? {
      parsed := ParseSteps(chat.value);
    }
    if parsed != [] {
      steps := parsed;
    } else {
      steps := FallbackSteps(userQuery);
    }
    PlanWellFormed(userQuery, apiKey, reply);
    assert forall i :: 0 <= i < |steps| ==> steps[i].description == Descriptions(steps)[i];
  }
}
