// How the host classifies the frames it receives.
module HostEvents {
  import opened Frame

  datatype EventKind = DeviceFound | ToolsListed | ToolResult | Pong | ErrorEvent | Raw

  function MapEventType(f: Frame): EventKind {
    if f.flags / FLAG_ERR % 2 == 1 then ErrorEvent
    else if f.kind == DISCOVER then DeviceFound
    else if f.kind == TOOLS_LIST then ToolsListed
    else if f.kind == TOOL_CALL then ToolResult
    else if f.kind == PING then Pong
    else Raw
  }

  // Which kind each message type of the protocol becomes; flag 2 overrides them all.
  lemma EventKindIff(f: Frame)
    ensures MapEventType(f) == ErrorEvent <==> f.flags / 2 % 2 == 1
    ensures f.flags / 2 % 2 == 0 ==>
              && (MapEventType(f) == DeviceFound <==> f.kind == 1)
              && (MapEventType(f) == ToolsListed <==> f.kind == 2)
              && (MapEventType(f) == ToolResult <==> f.kind == 3)
              && (MapEventType(f) == Pong <==> f.kind == 4)
  {
  }
}
