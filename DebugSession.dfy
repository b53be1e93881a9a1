/** The protocol side of the adapter: the line and path conventions of the
    debugger and of the client, the `initialize` request that sets the
    client's, request dispatch with its error responses, and the conversions
    of line numbers and paths between the two sides. */
module DebugSession {
  import opened Base

  /** The arguments of an `initialize` request this layer reads; an absent
      argument is `None`. */
  datatype InitializeArguments = InitializeArguments(linesStartAt1: Option<bool>, pathFormat: Option<string>)

  /** What a request handler of the concrete adapter did: returned, or threw
      an exception with a message. */
  datatype Outcome = Returned | Threw(message: string)

  /** What `DispatchRequest` answered: the handler for the command ran (and
      sent its own response), or an error response with an id, a format and
      its variables. */
  datatype Reply =
    | Handled(command: string)
    | ErrorResponse(id: int, format: string, variables: seq<(string, string)>)

  const BadPathFormat := 1015
  const UnrecognizedRequest := 1014
  const RequestFailed := 1104
  const SourceNotSupported := 1020

  /** The commands routed to a handler of the concrete adapter; `source` is
      answered by this layer itself. */
  const Commands: seq<string> := [
    "initialize", "launch", "attach", "disconnect", "next", "continue", "stepIn", "stepOut", "pause",
    "stackTrace", "scopes", "variables", "threads", "setBreakpoints", "setFunctionBreakpoints",
    "setExceptionBreakpoints", "evaluate", "setVariable"]

  /** `source` and `initialize` take their own paths through dispatch. */
  lemma CommandsTable()
    ensures "source" !in Commands
    ensures "initialize" in Commands && "disconnect" in Commands
  {
    assert Commands[0] == "initialize" && Commands[3] == "disconnect";
    forall i | 0 <= i < |Commands|
      ensures Commands[i] != "source"
    {
      assert Commands[i][0] != 's' || |Commands[i]| != 6 || Commands[i][1] != 'o';
    }
  }

  /** The error response sent when a handler throws. */
  function Failure(command: string, message: string): (r: Reply)
    ensures r.ErrorResponse? && r.id == RequestFailed
  {
    ErrorResponse(RequestFailed, "error while processing request '{_request}' (exception: {_exception})",
                  [("_request", command), ("_exception", message)])
  }

  /** The reply of a handler that ran. */
  function AfterHandler(command: string, outcome: Outcome): (r: Reply)
    ensures outcome.Returned? ==> r == Handled(command)
    ensures outcome.Threw? ==> r == Failure(command, outcome.message)
  {
    match outcome
    case Returned => Handled(command)
    case Threw(message) => Failure(command, message)
  }

  // ---------------------------------------------------------------------
  // Line numbers

  /** `ConvertDebuggerLineToClient` for given conventions. */
  function DebuggerLineToClient(debuggerLinesStartAt1: bool, clientLinesStartAt1: bool, line: int): (r: int)
    ensures debuggerLinesStartAt1 == clientLinesStartAt1 ==> r == line
    ensures debuggerLinesStartAt1 && !clientLinesStartAt1 ==> r == line - 1
    ensures !debuggerLinesStartAt1 && clientLinesStartAt1 ==> r == line + 1
  {
    if debuggerLinesStartAt1 then (if clientLinesStartAt1 then line else line - 1)
    else (if clientLinesStartAt1 then line + 1 else line)
  }

  /** `ConvertClientLineToDebugger` for given conventions. */
  function ClientLineToDebugger(debuggerLinesStartAt1: bool, clientLinesStartAt1: bool, line: int): (r: int)
    ensures debuggerLinesStartAt1 == clientLinesStartAt1 ==> r == line
    ensures debuggerLinesStartAt1 && !clientLinesStartAt1 ==> r == line + 1
    ensures !debuggerLinesStartAt1 && clientLinesStartAt1 ==> r == line - 1
  {
    if debuggerLinesStartAt1 then (if clientLinesStartAt1 then line else line + 1)
    else (if clientLinesStartAt1 then line - 1 else line)
  }

  /** The two conversions undo each other, in both orders, for all four
      pairs of conventions. */
  lemma LineConversionsRoundTrip(debuggerLinesStartAt1: bool, clientLinesStartAt1: bool, line: int)
    ensures ClientLineToDebugger(debuggerLinesStartAt1, clientLinesStartAt1,
              DebuggerLineToClient(debuggerLinesStartAt1, clientLinesStartAt1, line)) == line
    ensures DebuggerLineToClient(debuggerLinesStartAt1, clientLinesStartAt1,
              ClientLineToDebugger(debuggerLinesStartAt1, clientLinesStartAt1, line)) == line
  {
  }

  // ---------------------------------------------------------------------
  // Paths

  /** `System.Uri`, as far as the converters use it: parsing a text into a
      URI (which throws `UriFormatException` on malformed input) and reading
      its local path or absolute form, and `Uri.IsWellFormedUriString` for
      absolute URIs. */
  datatype UriApi = UriApi(
    localPath: string -> Result<string>,
    absoluteUri: string -> Result<string>,
    isWellFormedAbsolute: string -> bool)

  /** `ConvertDebuggerPathToClient` for given conventions. Between file
      paths and URIs, a failure to parse the debugger's path gives `null`
      for a URI client but propagates for a file-path client; a null path
      reaches `new Uri` and throws there. */
  function DebuggerPathToClient(debuggerPathsAreUri: bool, clientPathsAreUri: bool, uris: UriApi, path: Option<string>)
    : (r: Result<Option<string>>)
    ensures debuggerPathsAreUri == clientPathsAreUri ==> r == Ok(path)
    ensures !debuggerPathsAreUri && clientPathsAreUri ==> r.Ok?
    ensures !debuggerPathsAreUri && clientPathsAreUri && path.Some? && uris.absoluteUri(path.value).Ok? ==>
      r == Ok(Some(uris.absoluteUri(path.value).value))
    ensures !debuggerPathsAreUri && clientPathsAreUri && (path.None? || uris.absoluteUri(path.value).Err?) ==> r == Ok(None)
    ensures debuggerPathsAreUri && !clientPathsAreUri && path.None? ==> r == Err(ArgumentNull("uriString"))
    ensures debuggerPathsAreUri && !clientPathsAreUri && path.Some? ==>
      (r.Ok? <==> uris.localPath(path.value).Ok?) && (r.Ok? ==> r.value == Some(uris.localPath(path.value).value))
  {
    if debuggerPathsAreUri then
      if clientPathsAreUri then Ok(path)
      else if path.None? then Err(ArgumentNull("uriString"))
      else
        match uris.localPath(path.value)
        case Err(f) => Err(f)
        case Ok(local) => Ok(Some(local))
    else
      if !clientPathsAreUri then Ok(path)
      else if path.None? then Ok(None)
      else
        match uris.absoluteUri(path.value)
        case Err(_) => Ok(None)
        case Ok(absolute) => Ok(Some(absolute))
  }

  /** `ConvertClientPathToDebugger` for given conventions. A null path stays
      null; a URI client's text that is not a well-formed absolute URI
      becomes null; parsing a file-system client's path as a URI may throw. */
  function ClientPathToDebugger(debuggerPathsAreUri: bool, clientPathsAreUri: bool, uris: UriApi, clientPath: Option<string>)
    : (r: Result<Option<string>>)
    ensures clientPath.None? ==> r == Ok(None)
    ensures debuggerPathsAreUri == clientPathsAreUri ==> r == Ok(clientPath)
    ensures !debuggerPathsAreUri && clientPathsAreUri && clientPath.Some? && !uris.isWellFormedAbsolute(clientPath.value) ==>
      r == Ok(None)
    ensures !debuggerPathsAreUri && clientPathsAreUri && clientPath.Some? && uris.isWellFormedAbsolute(clientPath.value) ==>
      (r.Ok? <==> uris.localPath(clientPath.value).Ok?) && (r.Ok? ==> r.value == Some(uris.localPath(clientPath.value).value))
    ensures debuggerPathsAreUri && !clientPathsAreUri && clientPath.Some? ==>
      (r.Ok? <==> uris.absoluteUri(clientPath.value).Ok?) && (r.Ok? ==> r.value == Some(uris.absoluteUri(clientPath.value).value))
  {
    if clientPath.None? then Ok(None)
    else if debuggerPathsAreUri then
      if clientPathsAreUri then Ok(clientPath)
      else
        match uris.absoluteUri(clientPath.value)
        case Err(f) => Err(f)
        case Ok(absolute) => Ok(Some(absolute))
    else
      if !clientPathsAreUri then Ok(clientPath)
      else if !uris.isWellFormedAbsolute(clientPath.value) then Ok(None)
      else
        match uris.localPath(clientPath.value)
        case Err(f) => Err(f)
        case Ok(local) => Ok(Some(local))
  }

  /** For a file-path debugger and a URI client, a path sent to the client
      comes back unchanged, provided the URI library turns a path into a
      well-formed absolute URI whose local path is that path again. */
  lemma FilePathRoundTrip(uris: UriApi, path: string)
    requires uris.absoluteUri(path).Ok?
    requires uris.isWellFormedAbsolute(uris.absoluteUri(path).value)
    requires uris.localPath(uris.absoluteUri(path).value) == Ok(path)
    ensures DebuggerPathToClient(false, true, uris, Some(path)).Ok?
    ensures ClientPathToDebugger(false, true, uris, DebuggerPathToClient(false, true, uris, Some(path)).value) == Ok(Some(path))
  {
  }

  // ---------------------------------------------------------------------
  // The session

  /** `DebugSession`: the debugger's conventions are fixed at construction;
      the client's start as 1-based lines and URI paths until `initialize`
      says otherwise. `stopped` records that `Stop` was called. */
  class Session {
    const debuggerLinesStartAt1: bool
    const debuggerPathsAreUri: bool
    var clientLinesStartAt1: bool
    var clientPathsAreUri: bool
    var stopped: bool

    constructor (debuggerLinesStartAt1: bool, debuggerPathsAreUri: bool)
      ensures this.debuggerLinesStartAt1 == debuggerLinesStartAt1 && this.debuggerPathsAreUri == debuggerPathsAreUri
      ensures clientLinesStartAt1 && clientPathsAreUri && !stopped
    {
      this.debuggerLinesStartAt1 := debuggerLinesStartAt1;
      this.debuggerPathsAreUri := debuggerPathsAreUri;
      clientLinesStartAt1 := true;
      clientPathsAreUri := true;
      stopped := false;
    }

    /** `DispatchRequest`. Missing arguments (`None`) are replaced by an
        object without members, from which `initialize` cannot read
        `linesStartAt1`: the binder's exception, whose message is
        `binderError`, answers 1104 and changes nothing. Otherwise
        `initialize` first takes `linesStartAt1` when given, then
        `pathFormat`, whose unknown values answer 1015 without running the
        handler; known commands run their handler (`handler` tells how it
        went) and a throw answers 1104; `source` answers 1020; anything else
        answers 1014. `disconnect` is followed by `Stop` however its handler
        ended. */
    method DispatchRequest(command: string, args: Option<InitializeArguments>, binderError: string, handler: string -> Outcome)
      returns (reply: Reply)
      modifies this
      ensures command == "initialize" && args.None? ==>
        && reply == Failure(command, binderError)
        && clientLinesStartAt1 == old(clientLinesStartAt1) && clientPathsAreUri == old(clientPathsAreUri)
      ensures command == "initialize" && args.Some? ==>
        var a := args.value;
        && (a.linesStartAt1.Some? ==> clientLinesStartAt1 == a.linesStartAt1.value)
        && (a.linesStartAt1.None? ==> clientLinesStartAt1 == old(clientLinesStartAt1))
        && (a.pathFormat == Some("uri") ==> clientPathsAreUri)
        && (a.pathFormat == Some("path") ==> !clientPathsAreUri)
        && (a.pathFormat !in {Some("uri"), Some("path")} ==> clientPathsAreUri == old(clientPathsAreUri))
        && (a.pathFormat.Some? && a.pathFormat.value !in {"uri", "path"} ==>
              reply == ErrorResponse(BadPathFormat, "initialize: bad value '{_format}' for pathFormat", [("_format", a.pathFormat.value)]))
        && (a.pathFormat.None? || a.pathFormat.value in {"uri", "path"} ==> reply == AfterHandler(command, handler(command)))
      ensures command != "initialize" ==> clientLinesStartAt1 == old(clientLinesStartAt1) && clientPathsAreUri == old(clientPathsAreUri)
      ensures command != "initialize" && command in Commands ==> reply == AfterHandler(command, handler(command))
      ensures command == "source" ==> reply == ErrorResponse(SourceNotSupported, "Source not supported", [])
      ensures command !in Commands && command != "source" ==>
        reply == ErrorResponse(UnrecognizedRequest, "unrecognized request: {_request}", [("_request", command)])
      ensures stopped == (old(stopped) || command == "disconnect")
    {
      CommandsTable();
      if command == "initialize" {
        if args.None? {
          return Failure(command, binderError);
        }
        if args.value.linesStartAt1.Some? {
          clientLinesStartAt1 := args.value.linesStartAt1.value;
        }
        if args.value.pathFormat.Some? {
          var pathFormat := args.value.pathFormat.value;
          if pathFormat == "uri" {
            clientPathsAreUri := true;
          } else if pathFormat == "path" {
            clientPathsAreUri := false;
          } else {
            return ErrorResponse(BadPathFormat, "initialize: bad value '{_format}' for pathFormat", [("_format", pathFormat)]);
          }
        }
        reply := AfterHandler(command, handler(command));
      } else if command in Commands {
        reply := AfterHandler(command, handler(command));
      } else if command == "source" {
        reply := ErrorResponse(SourceNotSupported, "Source not supported", []);
      } else {
        reply := ErrorResponse(UnrecognizedRequest, "unrecognized request: {_request}", [("_request", command)]);
      }
      if command == "disconnect" {
        stopped := true;
      }
    }

    function ConvertDebuggerLineToClient(line: int): (r: int)
      reads this
      ensures ClientLineToDebugger(debuggerLinesStartAt1, clientLinesStartAt1, r) == line
    {
      LineConversionsRoundTrip(debuggerLinesStartAt1, clientLinesStartAt1, line);
      DebuggerLineToClient(debuggerLinesStartAt1, clientLinesStartAt1, line)
    }

    function ConvertClientLineToDebugger(line: int): (r: int)
      reads this
      ensures DebuggerLineToClient(debuggerLinesStartAt1, clientLinesStartAt1, r) == line
    {
      LineConversionsRoundTrip(debuggerLinesStartAt1, clientLinesStartAt1, line);
      ClientLineToDebugger(debuggerLinesStartAt1, clientLinesStartAt1, line)
    }

    function ConvertDebuggerPathToClient(uris: UriApi, path: Option<string>): (r: Result<Option<string>>)
      reads this
      ensures debuggerPathsAreUri == clientPathsAreUri ==> r == Ok(path)
      ensures r == DebuggerPathToClient(debuggerPathsAreUri, clientPathsAreUri, uris, path)
    {
      DebuggerPathToClient(debuggerPathsAreUri, clientPathsAreUri, uris, path)
    }

    function ConvertClientPathToDebugger(uris: UriApi, clientPath: Option<string>): (r: Result<Option<string>>)
      reads this
      ensures clientPath.None? ==> r == Ok(None)
      ensures r == ClientPathToDebugger(debuggerPathsAreUri, clientPathsAreUri, uris, clientPath)
    {
      ClientPathToDebugger(debuggerPathsAreUri, clientPathsAreUri, uris, clientPath)
    }
  }
}
