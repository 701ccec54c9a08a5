// The context and tools policies of a run: the strict normalisers of the task queue, and the
// lenient ones the agent engine applies to whatever it is handed.
module RuntimePolicy {
  import opened Prelude
  import opened Json

  // The members of a JSON object.
  type Members = map<string, Json>

  // A refusal carries the error code.
  type Read<T> = Reading<T, string>

  predicate KnownMode(mode: string) {
    mode == "inherit" || mode == "minimal" || mode == "none"
  }

  // std::clamp to the limits of a prompt
  function ClampLimit(n: int): (r: int)
    ensures 1 <= r <= 200
    ensures 1 <= n <= 200 ==> r == n
    ensures n < 1 ==> r == 1
    ensures n > 200 ==> r == 200
  {
    if n < 1 then 1 else if n > 200 then 200 else n
  }

  function Present(key: string, value: Option<Json>): Members {
    if value.Some? then map[key := value.value] else map[]
  }

  // ------------------------------------------------------------------
  // The task queue's normalisers

  function LimitMember(input: Members): Read<Option<Json>> {
    if "historyLimit" !in input then Ok(None)
    else if input["historyLimit"].Num? then Ok(Some(Num(ClampLimit(input["historyLimit"].number))))
    else Refused("invalid_context_history_limit")
  }

  function ModeMember(input: Members): Read<Option<Json>> {
    if "carryover" !in input then Ok(None)
    else if input["carryover"].Str? && KnownMode(input["carryover"].text) then Ok(Some(input["carryover"]))
    else Refused("invalid_context_carryover")
  }

  function NormalizeContext(input: Json): Read<Members> {
    if input.Null? then Ok(map[])
    else if !input.Obj? then Refused("invalid_context_policy")
    else
      var limit :- LimitMember(input.members);
      var mode :- ModeMember(input.members);
      Ok(Present("historyLimit", limit) + Present("carryover", mode))
  }

  // The names a list gives: its non-empty strings, each where it first occurs.
  function Names(items: seq<Json>): seq<string> {
    if items == [] then []
    else
      var before, last := Names(items[..|items| - 1]), items[|items| - 1];
      if last.Str? && last.text != "" && last.text !in before then before + [last.text] else before
  }

  function Texts(names: seq<string>): (r: seq<Json>)
    ensures |r| == |names| && forall i :: 0 <= i < |names| ==> r[i] == Str(names[i])
  {
    seq(|names|, i requires 0 <= i < |names| => Str(names[i]))
  }

  function NamesMember(input: Members, field: string, error: string): Read<seq<string>> {
    if field !in input then Ok([])
    else if !input[field].Arr? then Refused(error)
    else if input[field].items != [] && Names(input[field].items) == [] then Refused(error)
    else Ok(Names(input[field].items))
  }

  function ToolLists(allow: seq<string>, deny: seq<string>): Members {
    Present("allow", if allow == [] then None else Some(Arr(Texts(allow))))
    + Present("deny", if deny == [] then None else Some(Arr(Texts(deny))))
  }

  function NormalizeTools(input: Json): Read<Members> {
    if input.Null? then Ok(map[])
    else if !input.Obj? then Refused("invalid_tools_policy")
    else
      var allow :- NamesMember(input.members, "allow", "invalid_tool_allow");
      var deny :- NamesMember(input.members, "deny", "invalid_tool_deny");
      Ok(ToolLists(allow, deny))
  }

  method ParseNames(items: seq<Json>) returns (out: seq<string>)
    ensures out == Names(items)
    ensures forall i, j :: 0 <= i < j < |out| ==> out[i] != out[j]
    ensures forall name :: name in out <==> name != "" && Str(name) in items
  {
    out := [];
    for i := 0 to |items|
      invariant out == Names(items[..i])
    {
      assert items[..i + 1][..i] == items[..i];
      var item := items[i];
      if !item.Str? || item.text == "" {
        continue;
      }
      if item.text !in out {
        out := out + [item.text];
      }
    }
    assert items[..|items|] == items;
    NamesMeaning(items);
  }

  method ParseList(input: Members, field: string, error: string) returns (result: Read<seq<string>>)
    ensures result == NamesMember(input, field, error)
  {
    if field !in input {
      return Ok([]);
    }
    if !input[field].Arr? {
      return Refused(error);
    }
    var out := ParseNames(input[field].items);
    if |input[field].items| > 0 && out == [] {
      return Refused(error);
    }
    return Ok(out);
  }

  method NormalizeToolsPolicy(input: Json) returns (result: Read<Members>)
    ensures result == NormalizeTools(input)
    ensures result.Ok? ==> ToolsStable(result.value)
  {
    ToolsAreStable(input);
    if input.Null? {
      return Ok(map[]);
    }
    if !input.Obj? {
      return Refused("invalid_tools_policy");
    }
    var allow := ParseList(input.members, "allow", "invalid_tool_allow");
    if !allow.Ok? {
      return allow.PropagateFailure();
    }
    var deny := ParseList(input.members, "deny", "invalid_tool_deny");
    if !deny.Ok? {
      return deny.PropagateFailure();
    }
    return Ok(ToolLists(allow.value, deny.value));
  }

  // ------------------------------------------------------------------
  // The engine's normaliser, which drops what it cannot use

  function RuntimeContext(context: Members): Members {
    Present("historyLimit",
      if "historyLimit" in context && context["historyLimit"].Num? then
        Some(Num(ClampLimit(context["historyLimit"].number)))
      else None)
    + Present("carryover",
      if "carryover" in context && context["carryover"].Str? && KnownMode(context["carryover"].text) then
        Some(context["carryover"])
      else None)
  }

  function RuntimeNames(tools: Members, field: string): seq<string> {
    if field in tools && tools[field].Arr? then Names(tools[field].items) else []
  }

  function RuntimeTools(tools: Members): Members {
    ToolLists(RuntimeNames(tools, "allow"), RuntimeNames(tools, "deny"))
  }

  // Accepted again as it is, and used as it is by the engine.
  ghost predicate ContextStable(context: Members) {
    NormalizeContext(Obj(context)) == Ok(context) && RuntimeContext(context) == context
  }

  ghost predicate ToolsStable(tools: Members) {
    NormalizeTools(Obj(tools)) == Ok(tools) && RuntimeTools(tools) == tools
  }

  // ------------------------------------------------------------------
  // Proofs

  // Main result 1. A list is read as the set of its non-empty strings, each kept once.
  lemma {:induction false} NamesMeaning(items: seq<Json>)
    ensures forall i, j :: 0 <= i < j < |Names(items)| ==> Names(items)[i] != Names(items)[j]
    ensures forall name :: name in Names(items) <==> name != "" && Str(name) in items
  {
    if items != [] {
      var n := |items| - 1;
      NamesMeaning(items[..n]);
      assert items == items[..n] + [items[n]];
    }
  }

  // A longer list only adds names at the end, so each stands where it first occurs.
  lemma {:induction false} NamesInOrder(items: seq<Json>, k: nat)
    requires k <= |items|
    ensures Names(items[..k]) <= Names(items)
  {
    if k < |items| {
      NamesInOrder(items[..|items| - 1], k);
      assert items[..|items| - 1][..k] == items[..k];
    } else {
      assert items[..k] == items;
    }
  }

  // Reading a list of distinct names back changes nothing.
  lemma {:induction false} NamesOfTexts(names: seq<string>)
    requires forall i, j :: 0 <= i < j < |names| ==> names[i] != names[j]
    requires "" !in names
    ensures Names(Texts(names)) == names
  {
    if names != [] {
      var n := |names| - 1;
      NamesOfTexts(names[..n]);
      assert Texts(names)[..n] == Texts(names[..n]);
      assert names == names[..n] + [names[n]];
    }
  }

  lemma NamesTwice(items: seq<Json>)
    ensures Names(Texts(Names(items))) == Names(items)
  {
    NamesMeaning(items);
    NamesOfTexts(Names(items));
  }

  // Main result 2. What the queue accepted as a context policy is accepted again as it is,
  // and the engine uses it as it is.
  lemma ContextIsStable(input: Json)
    requires NormalizeContext(input).Ok?
    ensures ContextStable(NormalizeContext(input).value)
  {
  }

  // The queue refuses exactly what the engine would have dropped or what is no object.
  lemma ContextAccepted(input: Json)
    ensures NormalizeContext(input).Ok? <==>
      input.Null? ||
      (input.Obj? && forall key :: key in input.members && key in {"historyLimit", "carryover"} ==>
          key in RuntimeContext(input.members))
    ensures NormalizeContext(input).Ok? && input.Obj? ==> NormalizeContext(input).value == RuntimeContext(input.members)
  {
    if input.Obj? {
      assert "historyLimit" in input.members ==>
          ("historyLimit" in RuntimeContext(input.members) <==> LimitMember(input.members).Ok?);
      assert "carryover" in input.members ==>
          ("carryover" in RuntimeContext(input.members) <==> ModeMember(input.members).Ok?);
    }
  }

  // Main result 3. The same for tools policies.
  lemma ToolsAreStable(input: Json)
    ensures NormalizeTools(input).Ok? ==> ToolsStable(NormalizeTools(input).value)
  {
    if NormalizeTools(input).Ok? && input.Obj? {
      var allow := NamesMember(input.members, "allow", "invalid_tool_allow").value;
      var deny := NamesMember(input.members, "deny", "invalid_tool_deny").value;
      if "allow" in input.members {
        NamesTwice(input.members["allow"].items);
      }
      if "deny" in input.members {
        NamesTwice(input.members["deny"].items);
      }
      ListsReadBack(allow, deny);
    }
  }

  lemma ListsReadBack(allow: seq<string>, deny: seq<string>)
    requires Names(Texts(allow)) == allow && Names(Texts(deny)) == deny
    ensures NamesMember(ToolLists(allow, deny), "allow", "invalid_tool_allow") == Ok(allow)
    ensures NamesMember(ToolLists(allow, deny), "deny", "invalid_tool_deny") == Ok(deny)
    ensures RuntimeNames(ToolLists(allow, deny), "allow") == allow &&
      RuntimeNames(ToolLists(allow, deny), "deny") == deny
  {
  }

  // A list is refused exactly when it is no list, or holds members but no name.
  lemma NamesAccepted(input: Members, field: string, error: string)
    ensures NamesMember(input, field, error).Refused? <==>
      field in input && (!input[field].Arr? ||
          (input[field].items != [] && forall name :: name != "" ==> Str(name) !in input[field].items))
  {
    if field in input && input[field].Arr? {
      NamesMeaning(input[field].items);
      if Names(input[field].items) != [] {
        assert Names(input[field].items)[0] in Names(input[field].items);
      }
    }
  }

  // ------------------------------------------------------------------
  // What the normalisers accept and what comes out, member by member

  // A history limit of 1 to 200, the nearest to the number given.
  predicate LimitGiven(n: int, limit: Json) {
    limit == Num(if n < 1 then 1 else if n > 200 then 200 else n)
  }

  predicate LimitGood(input: Json) {
    input.Has("historyLimit") ==> input.At("historyLimit").Num?
  }

  predicate ModeGood(input: Json) {
    input.Has("carryover") ==>
      input.At("carryover") in [Str("inherit"), Str("minimal"), Str("none")]
  }

  // Both members of the input, the limit clamped, and nothing else.
  predicate ContextIs(input: Json, context: Members) {
    && context.Keys <= {"historyLimit", "carryover"}
    && ("historyLimit" in context <==> input.Has("historyLimit"))
    && ("historyLimit" in context ==>
          LimitGood(input) && LimitGiven(input.At("historyLimit").number, context["historyLimit"]))
    && ("carryover" in context <==> input.Has("carryover"))
    && ("carryover" in context ==> context["carryover"] == input.At("carryover"))
  }

  // Main result 4. A context policy is accepted exactly when it is null, or an object
  // whose two members are usable; the policy is then these two members. Every refusal
  // names what is wrong.
  lemma ContextMeaning(input: Json)
    ensures var r := NormalizeContext(input);
      && !r.Thrown?
      && (r.Ok? <==> input.Null? || (input.Obj? && LimitGood(input) && ModeGood(input)))
      && (r.Ok? ==> ContextIs(input, r.value))
      && (r == Refused("invalid_context_policy") <==> !input.Null? && !input.Obj?)
      && (r == Refused("invalid_context_history_limit") <==> input.Obj? && !LimitGood(input))
      && (r == Refused("invalid_context_carryover") <==> input.Obj? && LimitGood(input) && !ModeGood(input))
  {
  }

  // The names of a list: its non-empty strings, each once.
  ghost predicate ListIs(given: Json, names: Json) {
    && given.Arr? && names.Arr?
    && (forall i :: 0 <= i < |names.items| ==> names.items[i].Str?)
    && (forall i, j :: 0 <= i < j < |names.items| ==> names.items[i] != names.items[j])
    && (forall name :: Str(name) in names.items <==> name != "" && Str(name) in given.items)
  }

  ghost predicate SomeName(given: Json) {
    given.Arr? && exists name :: name != "" && Str(name) in given.items
  }

  ghost predicate ListGood(input: Json, field: string) {
    input.Has(field) ==> input.At(field) == Arr([]) || SomeName(input.At(field))
  }

  // The names of both lists of the input, and nothing else; a list without names is left out.
  ghost predicate ToolsAre(input: Json, tools: Members) {
    && tools.Keys <= {"allow", "deny"}
    && ("allow" in tools <==> SomeName(input.At("allow")))
    && ("allow" in tools ==> ListIs(input.At("allow"), tools["allow"]))
    && ("deny" in tools <==> SomeName(input.At("deny")))
    && ("deny" in tools ==> ListIs(input.At("deny"), tools["deny"]))
  }

  // Main result 5. The same for a tools policy: both lists come out, name by name.
  lemma ToolsMeaning(input: Json)
    ensures var r := NormalizeTools(input);
      && !r.Thrown?
      && (r.Ok? <==> input.Null? || (input.Obj? && ListGood(input, "allow") && ListGood(input, "deny")))
      && (r.Ok? ==> ToolsAre(input, r.value))
      && (r == Refused("invalid_tools_policy") <==> !input.Null? && !input.Obj?)
      && (r == Refused("invalid_tool_allow") <==> input.Obj? && !ListGood(input, "allow"))
      && (r == Refused("invalid_tool_deny") <==> input.Obj? && ListGood(input, "allow") && !ListGood(input, "deny"))
  {
    if input.Obj? {
      ListMeaning(input, "allow", "invalid_tool_allow");
      ListMeaning(input, "deny", "invalid_tool_deny");
      var allow, deny := NamesMember(input.members, "allow", "invalid_tool_allow"),
                         NamesMember(input.members, "deny", "invalid_tool_deny");
      if allow.Ok? && deny.Ok? {
        ListsAre(input, allow.value, deny.value);
      }
    }
  }

  lemma ListMeaning(input: Json, field: string, error: string)
    requires input.Obj?
    ensures var r := NamesMember(input.members, field, error);
      && (r.Ok? <==> ListGood(input, field))
      && (!r.Ok? ==> r == Refused(error))
      && (r.Ok? ==> NamesAre(input.At(field), r.value))
  {
    if field in input.members && input.members[field].Arr? {
      NamesMeaning(input.members[field].items);
      var names := Names(input.members[field].items);
      if names != [] {
        assert names[0] in names;
      }
    }
  }

  ghost predicate NamesAre(given: Json, names: seq<string>) {
    && (forall i, j :: 0 <= i < j < |names| ==> names[i] != names[j])
    && (forall name :: name in names <==> name != "" && given.Arr? && Str(name) in given.items)
  }

  lemma ListsAre(input: Json, allow: seq<string>, deny: seq<string>)
    requires NamesAre(input.At("allow"), allow) && NamesAre(input.At("deny"), deny)
    ensures ToolsAre(input, ToolLists(allow, deny))
  {
    TextsAre(input.At("allow"), allow);
    TextsAre(input.At("deny"), deny);
  }

  lemma TextsAre(given: Json, names: seq<string>)
    requires NamesAre(given, names)
    ensures names != [] <==> SomeName(given)
    ensures names != [] ==> ListIs(given, Arr(Texts(names)))
  {
    if names != [] {
      assert names[0] in names;
      forall name: string
        ensures Str(name) in Texts(names) <==> name in names
      {
        if name in names {
          var i :| 0 <= i < |names| && names[i] == name;
          assert Texts(names)[i] == Str(name);
        }
      }
    }
  }

  // The engine reads the same from any members, and leaves out what it cannot use.
  lemma RuntimeContextMeaning(context: Members)
    ensures var used, given := RuntimeContext(context), Obj(context);
      && used.Keys <= {"historyLimit", "carryover"}
      && ("historyLimit" in used <==> given.At("historyLimit").Num?)
      && ("historyLimit" in used ==> LimitGiven(context["historyLimit"].number, used["historyLimit"]))
      && ("carryover" in used <==> given.At("carryover") in [Str("inherit"), Str("minimal"), Str("none")])
      && ("carryover" in used ==> used["carryover"] == context["carryover"])
  {
  }

  lemma RuntimeToolsMeaning(tools: Members)
    ensures ToolsAre(Obj(tools), RuntimeTools(tools))
  {
    RuntimeNamesAre(tools, "allow");
    RuntimeNamesAre(tools, "deny");
    ListsAre(Obj(tools), RuntimeNames(tools, "allow"), RuntimeNames(tools, "deny"));
  }

  lemma RuntimeNamesAre(tools: Members, field: string)
    ensures NamesAre(Obj(tools).At(field), RuntimeNames(tools, field))
  {
    if field in tools && tools[field].Arr? {
      NamesMeaning(tools[field].items);
    }
  }
}
