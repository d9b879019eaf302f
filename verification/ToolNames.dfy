/** The names under which a model may call the tools. */
module ToolNames {
  import opened Text
  import opened AgentProtocol
  import opened AgentTrace

  function Lower(c: char): char { if 'A' <= c <= 'Z' then (c as int + 32) as char else c }

  /** `to_ascii_lowercase`. */
  function Lowered(s: string): (t: string)
    ensures |t| == |s|
  {
    seq(|s|, i requires 0 <= i < |s| => Lower(s[i]))
  }

  function FileTool(s: string): Option<ToolKind> {
    if s in {"shell", "bash", "run_terminal_command", "terminal", "cmd"} then Some(Shell)
    else if s in {"read", "read_file", "cat"} then Some(Read)
    else if s in {"write", "write_file", "create_file"} then Some(Write)
    else if s in {"edit", "search_replace", "str_replace"} then Some(Edit)
    else if s in {"glob", "find_files"} then Some(Glob)
    else if s in {"grep", "rg"} then Some(Grep)
    else if s in {"list", "ls", "list_dir"} then Some(List)
    else None
  }

  function PlanTool(s: string): Option<ToolKind> {
    if s in {"question", "ask", "ask_user"} then Some(Question)
    else if s in {"task", "delegate", "subagent", "spawn_subagent"} then Some(Task)
    else if s in {"skill_manage", "skill", "skills", "save_skill"} then Some(SkillManage)
    else if s in {"todowrite", "todo", "todos", "tasklist", "task_write"} then Some(TodoWrite)
    else if s in {"memory", "memories", "remember", "mem"} then Some(Memory)
    else None
  }

  function SymbolTool(s: string): Option<ToolKind> {
    if s in {"go_to_definition", "definition", "goto_definition"} then Some(GoToDefinition)
    else if s in {"find_references", "references", "find_refs"} then Some(FindReferences)
    else if s in {"hover", "hover_info"} then Some(Hover)
    else if s in {"document_symbols", "doc_symbols", "symbols"} then Some(DocumentSymbols)
    else if s in {"workspace_symbols", "workspace_symbol", "search_symbols"} then Some(WorkspaceSymbols)
    else None
  }

  function CheckTool(s: string): Option<ToolKind> {
    if s in {"go_to_implementation", "goto_implementation", "implementation"} then Some(GoToImplementation)
    else if s in {"call_hierarchy", "call_hier"} then Some(CallHierarchy)
    else if s in {"format_code", "format", "fmt"} then Some(FormatCode)
    else if s in {"get_diagnostics", "diagnostics", "diags"} then Some(GetDiagnostics)
    else if s in {"complete_code", "completion", "autocomplete"} then Some(CompleteCode)
    else None
  }

  /** Two underscores in a row: the name of a tool of another server. */
  predicate Doubled(s: string) { exists i :: 0 < i < |s| && s[i] == '_' && s[i - 1] == '_' }

  lemma {:induction false} DoubledIsContains(s: string)
    ensures Doubled(s) <==> Contains(s, "__")
  {
    ContainsAt(s, "__");
    if Doubled(s) {
      var i :| 0 < i < |s| && s[i] == '_' && s[i - 1] == '_';
      assert s[i - 1..][..2] == "__";
    }
    if Contains(s, "__") {
      var i :| 0 <= i <= |s| && "__" <= s[i..];
      assert s[i..][0] == "__"[0] && s[i..][1] == "__"[1];
      assert s[i + 1] == '_' && s[i] == '_';
    }
  }

  function OtherTool(s: string): Option<ToolKind> {
    if Doubled(s) then Some(McpTool)
    else if s in {"webfetch", "web_fetch", "fetch", "http", "web"} then Some(WebFetch)
    else if s in {"websearch", "web_search", "search_web"} then Some(WebSearch)
    else if s in {"apply_patch", "patch", "diff", "apply_diff", "unified_diff"} then Some(ApplyPatch)
    else None
  }

  function Listed(s: string): Option<ToolKind> {
    if FileTool(s).Some? then FileTool(s)
    else if PlanTool(s).Some? then PlanTool(s)
    else if SymbolTool(s).Some? then SymbolTool(s)
    else if CheckTool(s).Some? then CheckTool(s)
    else OtherTool(s)
  }

  /** `ToolKind::from_name`. */
  function FromName(s: string): Option<ToolKind> { Listed(Lowered(Trim(s))) }

  /** The names of the tools that run one after the other, without asking for permission. */
  const UNGATED: set<string> := {
    "question", "ask", "ask_user", "task", "delegate", "subagent", "spawn_subagent", "skill_manage", "skill", "skills",
    "save_skill", "todowrite", "todo", "todos", "tasklist", "task_write"}

  lemma UngatedListed(s: string)
    ensures s in UNGATED <==> PlanTool(s).Some? && PlanTool(s) != Some(Memory)
  {
  }

  lemma UngatedNoFile(s: string)
    requires s in UNGATED
    ensures FileTool(s).None?
  {
  }

  /** Whatever the case and the space around it: these names, and no others, escape the permission gate. */
  lemma EscapingNames(w: World, call: ToolCall)
    requires w.kindOf(call.name) == FromName(call.name)
    ensures IsSequential(w, call) <==> Lowered(Trim(call.name)) in UNGATED
  {
    var s := Lowered(Trim(call.name));
    UngatedListed(s);
    if s in UNGATED {
      UngatedNoFile(s);
    }
  }

  // ----- Names are understood -----

  predicate IsPlain(s: string) { forall i :: 0 <= i < |s| ==> 'a' <= s[i] <= 'z' || s[i] == '_' }

  /** Small letters and underscores are taken as they are. */
  lemma PlainStays(s: string)
    requires IsPlain(s)
    ensures Lowered(Trim(s)) == s
  {
    assert s != "" ==> !IsWhitespace(s[0]) && !IsWhitespace(s[|s| - 1]);
    assert TrimStart(s) == s && TrimEnd(s) == s;
  }

  lemma FilesFound()
    ensures IsPlain("shell") && Listed("shell") == Some(Shell)
    ensures IsPlain("read") && Listed("read") == Some(Read)
    ensures IsPlain("write") && Listed("write") == Some(Write)
    ensures IsPlain("edit") && Listed("edit") == Some(Edit)
  {
  }

  lemma ListsFound()
    ensures IsPlain("glob") && Listed("glob") == Some(Glob)
    ensures IsPlain("grep") && Listed("grep") == Some(Grep)
    ensures IsPlain("list") && Listed("list") == Some(List)
  {
  }

  lemma PlansFound()
    ensures IsPlain("question") && Listed("question") == Some(Question)
    ensures IsPlain("task") && Listed("task") == Some(Task)
    ensures IsPlain("skill_manage") && Listed("skill_manage") == Some(SkillManage)
  {
  }

  lemma NotesFound()
    ensures IsPlain("todowrite") && Listed("todowrite") == Some(TodoWrite)
    ensures IsPlain("memory") && Listed("memory") == Some(Memory)
  {
  }

  lemma PlacesFound()
    ensures IsPlain("go_to_definition") && Listed("go_to_definition") == Some(GoToDefinition)
    ensures IsPlain("find_references") && Listed("find_references") == Some(FindReferences)
    ensures IsPlain("hover") && Listed("hover") == Some(Hover)
  {
  }

  lemma SymbolsFound()
    ensures IsPlain("document_symbols") && Listed("document_symbols") == Some(DocumentSymbols)
    ensures IsPlain("workspace_symbols") && Listed("workspace_symbols") == Some(WorkspaceSymbols)
  {
  }

  lemma CallsFound()
    ensures IsPlain("go_to_implementation") && Listed("go_to_implementation") == Some(GoToImplementation)
    ensures IsPlain("call_hierarchy") && Listed("call_hierarchy") == Some(CallHierarchy)
  {
  }

  lemma ChecksFound()
    ensures IsPlain("format_code") && Listed("format_code") == Some(FormatCode)
    ensures IsPlain("get_diagnostics") && Listed("get_diagnostics") == Some(GetDiagnostics)
  {
  }

  lemma CompletionFound()
    ensures IsPlain("complete_code") && Listed("complete_code") == Some(CompleteCode)
  {
  }

  lemma FetchFound()
    ensures IsPlain("webfetch") && Listed("webfetch") == Some(WebFetch)
  {
  }

  lemma SearchFound()
    ensures IsPlain("websearch") && Listed("websearch") == Some(WebSearch)
  {
  }

  lemma PatchFound()
    ensures IsPlain("apply_patch") && Listed("apply_patch") == Some(ApplyPatch)
  {
  }

  lemma McpNotFound()
    ensures IsPlain("mcp_tool") && Listed("mcp_tool") == None
  {
  }

  predicate IsFileKind(k: ToolKind) {
    k.Shell? || k.Read? || k.Write? || k.Edit? || k.Glob? || k.Grep? || k.List?
  }

  /** The name of a tool is plain and found where it is listed. */
  predicate IsListed(k: ToolKind) {
    IsPlain(KindName(k)) && Listed(KindName(k)) == if k == McpTool then None else Some(k)
  }

  predicate IsSymbolKind(k: ToolKind) {
    k.GoToDefinition? || k.FindReferences? || k.Hover? || k.DocumentSymbols? || k.WorkspaceSymbols?
  }

  lemma SymbolListed(k: ToolKind)
    requires IsSymbolKind(k)
    ensures IsListed(k)
  {
    match k {
      case DocumentSymbols => SymbolsFound();
      case WorkspaceSymbols => SymbolsFound();
      case _ => PlacesFound();
    }
  }

  lemma CheckListed(k: ToolKind)
    requires IsCodeKind(k) && !IsSymbolKind(k)
    ensures IsListed(k)
  {
    match k {
      case GoToImplementation => CallsFound();
      case CallHierarchy => CallsFound();
      case CompleteCode => CompletionFound();
      case _ => ChecksFound();
    }
  }

  lemma FileListed(k: ToolKind)
    requires IsFileKind(k)
    ensures IsListed(k)
  {
    FilesFound();
    ListsFound();
  }

  lemma OtherListed(k: ToolKind)
    requires !IsFileKind(k) && !IsCodeKind(k)
    ensures IsListed(k)
  {
    PlansFound();
    NotesFound();
    FetchFound();
    SearchFound();
    PatchFound();
    McpNotFound();
  }

  /** Every tool is found under the name it goes by, except the one for tools of other servers. */
  lemma OwnNames(k: ToolKind)
    ensures FromName(KindName(k)) == if k == McpTool then None else Some(k)
  {
    if IsSymbolKind(k) {
      SymbolListed(k);
    } else if IsCodeKind(k) {
      CheckListed(k);
    } else if IsFileKind(k) {
      FileListed(k);
    } else {
      OtherListed(k);
    }
    PlainStays(KindName(k));
  }

  /** So different tools go by different names. */
  lemma NamesDiffer(k: ToolKind, l: ToolKind)
    ensures KindName(k) == KindName(l) <==> k == l
  {
    OwnNames(k);
    OwnNames(l);
  }
}
