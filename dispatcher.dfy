/**
 * The server's two request handlers (src/index.ts): `ListTools` answers
 * with a fixed list of tools, and `CallTool` looks the requested name up
 * and hands the raw arguments to that tool's handler.
 */
module Dispatcher {
  import opened Common

  /** The tools the server defines. */
  datatype Tool =
    | ListFiles | StatItems | ReadContent | WriteContent | DeleteItems | CreateDirectories
    | ChmodItems | ChownItems | MoveItems | CopyItems | SearchFiles | ReplaceContent

  /** The `name` of each tool definition. */
  function Name(t: Tool): string
  {
    match t
    case ListFiles => "list_files"
    case StatItems => "stat_items"
    case ReadContent => "read_content"
    case WriteContent => "write_content"
    case DeleteItems => "delete_items"
    case CreateDirectories => "create_directories"
    case ChmodItems => "chmod_items"
    case ChownItems => "chown_items"
    case MoveItems => "move_items"
    case CopyItems => "copy_items"
    case SearchFiles => "search_files"
    case ReplaceContent => "replace_content"
  }

  /** `availableTools`, in the order `ListTools` returns them. */
  const AvailableTools: seq<Tool> :=
    [ListFiles, StatItems, ReadContent, WriteContent, DeleteItems, CreateDirectories,
     ChmodItems, ChownItems, MoveItems, CopyItems, SearchFiles, ReplaceContent]

  /** The names in the `ListTools` answer. */
  function ListedNames(): (r: seq<string>)
    ensures |r| == |AvailableTools|
    ensures forall k :: 0 <= k < |r| ==> r[k] == Name(AvailableTools[k])
  {
    seq(|AvailableTools|, k requires 0 <= k < |AvailableTools| => Name(AvailableTools[k]))
  }

  /** The `switch` on the requested name: the first case whose tool name equals it. */
  function Lookup(name: string): (r: Option<Tool>)
    ensures r.Some? ==> Name(r.value) == name
  {
    if name == "list_files" then Some(ListFiles)
    else if name == "stat_items" then Some(StatItems)
    else if name == "read_content" then Some(ReadContent)
    else if name == "write_content" then Some(WriteContent)
    else if name == "delete_items" then Some(DeleteItems)
    else if name == "create_directories" then Some(CreateDirectories)
    else if name == "chmod_items" then Some(ChmodItems)
    else if name == "chown_items" then Some(ChownItems)
    else if name == "move_items" then Some(MoveItems)
    else if name == "copy_items" then Some(CopyItems)
    else if name == "search_files" then Some(SearchFiles)
    else if name == "replace_content" then Some(ReplaceContent)
    else None
  }

  /** How `CallTool` settles: what the handler returns, or the `McpError` for an unknown name. */
  datatype Call<T> = Handled(result: T) | Unknown(error: McpError)

  /**
   * `CallTool`: the handler of the named tool applied to the raw
   * arguments, or `MethodNotFound` with `Unknown tool: ` and the name.
   * The handlers themselves are the `handle` input.
   */
  function CallTool<T>(name: string, args: Json, handle: (Tool, Json) -> T): Call<T>
  {
    match Lookup(name)
    case Some(t) => Handled(handle(t, args))
    case None => Unknown(McpError(MethodNotFound, "Unknown tool: " + name))
  }

  /** `Lookup` inverts `Name`: every tool's name dispatches to that tool. */
  lemma LookupName(t: Tool)
    ensures Lookup(Name(t)) == Some(t)
  {
  }

  /** No tool appears twice in `availableTools`. */
  lemma ToolsDistinct()
    ensures forall i, j :: 0 <= i < j < |AvailableTools| ==> AvailableTools[i] != AvailableTools[j]
  {
  }

  /**
   * `ListTools` returns twelve tools, every tool once, with pairwise
   * distinct names.
   */
  lemma ListedToolsDistinct(t: Tool)
    ensures |AvailableTools| == 12
    ensures t in AvailableTools
    ensures forall i, j :: 0 <= i < j < |ListedNames()| ==> ListedNames()[i] != ListedNames()[j]
  {
    var names := ListedNames();
    ToolsDistinct();
    forall i, j | 0 <= i < j < |names|
      ensures names[i] != names[j]
    {
      LookupName(AvailableTools[i]);
      LookupName(AvailableTools[j]);
    }
  }

  /**
   * A name dispatches exactly when `ListTools` lists it; then its
   * handler's result is returned unchanged, and otherwise no handler runs
   * and the error is `MethodNotFound`.
   */
  lemma DispatchIffListed<T>(name: string, args: Json, handle: (Tool, Json) -> T)
    ensures CallTool(name, args, handle).Handled? <==> name in ListedNames()
    ensures CallTool(name, args, handle).Handled? ==>
      exists t :: t in AvailableTools && Name(t) == name && CallTool(name, args, handle).result == handle(t, args)
    ensures CallTool(name, args, handle).Unknown? ==>
      CallTool(name, args, handle).error == McpError(MethodNotFound, "Unknown tool: " + name)
      && Code(CallTool(name, args, handle).error.kind) == -32601
  {
    var names := ListedNames();
    match Lookup(name)
    case Some(t) =>
      ListedToolsDistinct(t);
      var k :| 0 <= k < |AvailableTools| && AvailableTools[k] == t;
      assert names[k] == name;
    case None =>
      if name in names {
        var k :| 0 <= k < |names| && names[k] == name;
        LookupName(AvailableTools[k]);
      }
  }
}
