/** The system controller of `oce/controller.py`: the argument checks of
    `Act.__init__`, the dispatch of client requests to the `exec_*` methods,
    the paging arithmetic of `exec_search`, the end of a watch (a shutdown
    asked for in the same watch as a restart wins), the client list, and the
    error replies of `langid_function`. */
module Controller {
  import opened Strings
  import opened Wrappers
  import LegacyQuery

  // ---------------------------------------------------------------------------
  // Construction: `Act.__init__`
  // ---------------------------------------------------------------------------

  /** A provider or interface object, built by its class from the value of
      its keyword argument. */
  datatype Instance = Instance(kind: string, value: string)

  /** The provider and the interfaces (`self.servers`) built so far. */
  datatype Setup = Setup(provider: Option<Instance>, servers: seq<Instance>)

  /** A keyword argument: its name and its value, `None` when the user left
      that provider or interface out. */
  type Kwarg = (string, Option<string>)

  const MoreThanOneProvider := "More than one data provider specified."
  const NoProvider := "No data provider specified."
  const NoInterfaces := "No interfaces specified."

  function InvalidKey(key: string): string
  {
    "Invalid provider/interface: '" + key + "'"
  }

  /** One pass of the loop of `Act.__init__` over a keyword argument. */
  function Step(s: Setup, kw: Kwarg, providers: set<string>, interfaces: set<string>): Result<Setup>
  {
    if kw.1.None? then Ok(s)
    else if kw.0 in providers then
      if s.provider.None? then Ok(s.(provider := Some(Instance(kw.0, kw.1.value)))) else Err(MoreThanOneProvider)
    else if kw.0 in interfaces then Ok(s.(servers := s.servers + [Instance(kw.0, kw.1.value)]))
    else Err(InvalidKey(kw.0))
  }

  /** The loop over the keyword arguments, in order; the first error raised
      ends it. */
  function Scan(kwargs: seq<Kwarg>, providers: set<string>, interfaces: set<string>): Result<Setup>
  {
    if kwargs == [] then Ok(Setup(None, []))
    else
      match Scan(kwargs[..|kwargs| - 1], providers, interfaces)
      case Err(e) => Err(e)
      case Ok(s) => Step(s, kwargs[|kwargs| - 1], providers, interfaces)
  }

  /** `Act.__init__`: the loop, then the checks that a provider and an
      interface were given. */
  function Construct(kwargs: seq<Kwarg>, providers: set<string>, interfaces: set<string>): Result<Setup>
  {
    match Scan(kwargs, providers, interfaces)
    case Err(e) => Err(e)
    case Ok(s) =>
      if s.provider.None? then Err(NoProvider)
      else if s.servers == [] then Err(NoInterfaces)
      else Ok(s)
  }

  /** The keyword arguments that were given a value. */
  function Given(kwargs: seq<Kwarg>): (r: seq<Kwarg>)
    ensures forall kw :: kw in r <==> kw in kwargs && kw.1.Some?
  {
    if kwargs == [] then []
    else
      var init := kwargs[..|kwargs| - 1];
      var last := kwargs[|kwargs| - 1];
      assert forall kw :: kw in kwargs <==> kw in init || kw == last;
      Given(init) + (if last.1.Some? then [last] else [])
  }

  /** Arguments whose value is `None` are passed over: construction goes
      exactly as if they had not been given. */
  lemma {:induction false} NoneSkipped(kwargs: seq<Kwarg>, providers: set<string>, interfaces: set<string>)
    ensures Scan(kwargs, providers, interfaces) == Scan(Given(kwargs), providers, interfaces)
    decreases |kwargs|
  {
    if kwargs != [] {
      var init := kwargs[..|kwargs| - 1];
      var last := kwargs[|kwargs| - 1];
      NoneSkipped(init, providers, interfaces);
      if last.1.Some? {
        var g := Given(init) + [last];
        assert Given(kwargs) == g;
        assert g[..|g| - 1] == Given(init) && g[|g| - 1] == last;
      } else {
        assert Given(kwargs) == Given(init) + [];
        assert Given(init) + [] == Given(init);
      }
    }
  }

  /** The provider arguments given a value, and the interface arguments (not
      also provider names) given a value, as built. */
  function ProviderArgs(kwargs: seq<Kwarg>, providers: set<string>): (r: seq<Instance>)
  {
    if kwargs == [] then []
    else
      var last := kwargs[|kwargs| - 1];
      ProviderArgs(kwargs[..|kwargs| - 1], providers)
        + (if last.1.Some? && last.0 in providers then [Instance(last.0, last.1.value)] else [])
  }

  function InterfaceArgs(kwargs: seq<Kwarg>, providers: set<string>, interfaces: set<string>): (r: seq<Instance>)
  {
    if kwargs == [] then []
    else
      var last := kwargs[|kwargs| - 1];
      InterfaceArgs(kwargs[..|kwargs| - 1], providers, interfaces)
        + (if last.1.Some? && last.0 !in providers && last.0 in interfaces then [Instance(last.0, last.1.value)] else [])
  }

  /** Every argument given a value names a provider or an interface. */
  predicate AllKnown(kwargs: seq<Kwarg>, providers: set<string>, interfaces: set<string>)
  {
    forall i :: 0 <= i < |kwargs| && kwargs[i].1.Some? ==> kwargs[i].0 in providers || kwargs[i].0 in interfaces
  }

  /** The loop gets through the arguments exactly when each given one is
      known and at most one is a provider; it then holds that provider and
      the interfaces in the order given. */
  lemma {:induction false} ScanSpec(kwargs: seq<Kwarg>, providers: set<string>, interfaces: set<string>)
    ensures var r := Scan(kwargs, providers, interfaces);
            var ps := ProviderArgs(kwargs, providers);
            (r.Ok? <==> AllKnown(kwargs, providers, interfaces) && |ps| <= 1) &&
            (r.Ok? ==> r.value.servers == InterfaceArgs(kwargs, providers, interfaces) &&
                       (r.value.provider.Some? <==> |ps| == 1) &&
                       (|ps| == 1 ==> r.value.provider == Some(ps[0])))
    decreases |kwargs|
  {
    if kwargs != [] {
      var init := kwargs[..|kwargs| - 1];
      var last := kwargs[|kwargs| - 1];
      ScanSpec(init, providers, interfaces);
      assert forall i :: 0 <= i < |init| ==> init[i] == kwargs[i];
      var ps := ProviderArgs(init, providers);
      if !AllKnown(init, providers, interfaces) {
        var i :| 0 <= i < |init| && init[i].1.Some? && init[i].0 !in providers && init[i].0 !in interfaces;
        assert kwargs[i] == init[i];
      }
      if |ps| > 1 {
        assert |ProviderArgs(kwargs, providers)| >= |ps|;
      }
    }
  }

  /** Construction succeeds exactly when every argument given a value is a
      provider or an interface, exactly one is a provider and at least one
      is an interface; the object then holds that provider and those
      interfaces, in order. Otherwise it raises the error of the first
      offending argument, or of the missing provider or interface. */
  lemma ConstructSpec(kwargs: seq<Kwarg>, providers: set<string>, interfaces: set<string>)
    ensures var r := Construct(kwargs, providers, interfaces);
            var ps := ProviderArgs(kwargs, providers);
            var ifs := InterfaceArgs(kwargs, providers, interfaces);
            (r.Ok? <==> AllKnown(kwargs, providers, interfaces) && |ps| == 1 && ifs != []) &&
            (r.Ok? ==> r.value == Setup(Some(ps[0]), ifs))
  {
    ScanSpec(kwargs, providers, interfaces);
  }

  /** Which error construction raises: a second provider or an unknown name
      as the loop meets it, then a missing provider, then missing
      interfaces. */
  lemma ConstructErrors(kwargs: seq<Kwarg>, providers: set<string>, interfaces: set<string>)
    ensures var r := Construct(kwargs, providers, interfaces);
            r.Err? ==> r.error == MoreThanOneProvider || r.error == NoProvider || r.error == NoInterfaces ||
                       exists i :: 0 <= i < |kwargs| && kwargs[i].1.Some? && r.error == InvalidKey(kwargs[i].0)
  {
    ScanErrors(kwargs, providers, interfaces);
  }

  lemma {:induction false} ScanErrors(kwargs: seq<Kwarg>, providers: set<string>, interfaces: set<string>)
    ensures var r := Scan(kwargs, providers, interfaces);
            r.Err? ==> r.error == MoreThanOneProvider ||
                       exists i :: 0 <= i < |kwargs| && kwargs[i].1.Some? && r.error == InvalidKey(kwargs[i].0)
    decreases |kwargs|
  {
    if kwargs != [] {
      var init := kwargs[..|kwargs| - 1];
      ScanErrors(init, providers, interfaces);
      var r := Scan(init, providers, interfaces);
      if r.Err? && r.error != MoreThanOneProvider {
        var i :| 0 <= i < |init| && init[i].1.Some? && r.error == InvalidKey(init[i].0);
        assert kwargs[i] == init[i];
      }
    }
  }

  // ---------------------------------------------------------------------------
  // `langid_function`
  // ---------------------------------------------------------------------------

  /** The exceptions `langid_function` tells apart, each with its `str`
      (for any other exception, its `repr`). */
  datatype LangidError = LookupError(text: string) | CustomError(text: string) | OtherError(text: string)

  /** A call of a wrapped function: its value, or the exception it raised. */
  datatype Outcome<T> = Returned(value: T) | Raised(error: LangidError)

  /** What a wrapped function returns: its value, or
      `{'error': True, 'message': message}`. */
  datatype Guarded<T> = Value(value: T) | ErrorReply(message: string)

  const LookupPrefix := "Server returned a LookupError:\n"
  const OtherPrefix := "Server returned an error:\n"

  /** `langid_function(func)` applied: the function's value, or an error
      reply saying what went wrong. */
  function LangidGuard<T>(outcome: Outcome<T>): (r: Guarded<T>)
    ensures r.Value? <==> outcome.Returned?
    ensures outcome.Returned? ==> r.value == outcome.value
  {
    match outcome
    case Returned(v) => Value(v)
    case Raised(LookupError(t)) => ErrorReply(LookupPrefix + Strip(t))
    case Raised(CustomError(t)) => ErrorReply(Strip(t))
    case Raised(OtherError(t)) => ErrorReply(OtherPrefix + Strip(t))
  }

  /** No exception escapes the wrapper. A lookup error and any other
      exception are announced by their own prefix, followed by the
      exception's text without surrounding white space; a custom error's
      message is its text without surrounding white space, so raising that
      message again gives the same reply. */
  lemma GuardMessages<T>(e: LangidError)
    ensures var r := LangidGuard<T>(Raised(e));
            r.ErrorReply? &&
            (e.LookupError? ==> LookupPrefix <= r.message && r.message[|LookupPrefix|..] == Strip(e.text)) &&
            (e.OtherError? ==> OtherPrefix <= r.message && r.message[|OtherPrefix|..] == Strip(e.text)) &&
            (e.CustomError? ==> IsStripped(r.message) && LangidGuard<T>(Raised(CustomError(r.message))) == r)
  {
    StripStripped(Strip(e.text));
    var p := match e case LookupError(_) => LookupPrefix case OtherError(_) => OtherPrefix case CustomError(_) => "";
    assert (p + Strip(e.text))[|p|..] == Strip(e.text);
  }

  // ---------------------------------------------------------------------------
  // Requests and their dispatch: `exec_command`
  // ---------------------------------------------------------------------------

  /** A value of a request dictionary. */
  datatype Field = Text(text: string) | Number(n: int)

  type Request = map<string, Field>

  /** A call into the provider (or the language identifier), with its
      arguments; what it returns is the provider's business. */
  datatype Call = Call(name: string, args: seq<Field>)

  /** The `data` of a reply. */
  datatype Data =
    | ErrorData
    | Provided(call: Call)
    | Viewed(records: Call, record: Field)
    | Totals(total: Call, tags: Call)
    | Failed(message: string)
    | Nested(inner: Message)

  /** `{'command': command, 'data': data}` */
  datatype Message = Message(command: string, data: Data)

  datatype Interrupt = RestartInterrupt | ShutdownInterrupt

  /** What a call of an `exec_*` method comes to: a reply, an interrupt,
      or an exception nothing in the controller catches. */
  datatype Executed = Replied(message: Message) | Interrupted(signal: Interrupt) | Crashed(error: string)

  const KeyError := "KeyError"
  const TypeError := "TypeError"
  const RecursionError := "RecursionError"

  /** The names `n` with a method `exec_n` on `Act` that handles a
      request. */
  const ExecNames: set<string> :=
    {"view", "meta", "update", "search", "literal_query", "drop", "recreate", "langid", "retrain",
     "find_features", "motd", "restart", "shutdown", "debug"}

  /** `hasattr(self, 'exec_' + command)`: besides the handlers, `exec_`
      followed by `command` names `exec_command` itself. */
  predicate HasExec(command: string)
  {
    command in ExecNames || command == "command"
  }

  /** `exec_view`: the records from `start` to `end`, and the record to
      show, which defaults to `start`. */
  function ExecView(request: Request): (r: Executed)
    ensures r.Replied? <==> "start" in request && "end" in request
    ensures r.Replied? ==>
              r.message.data.Viewed? &&
              r.message.data.records.args == [request["start"], request["end"]] &&
              r.message.data.record == if "record" in request then request["record"] else request["start"]
  {
    if "start" !in request || "end" !in request then Crashed(KeyError)
    else
      var record := if "record" in request then request["record"] else request["start"];
      Replied(Message("view", Viewed(Call("fetch_records", [request["start"], request["end"]]), record)))
  }

  /** The offset `exec_search` asks for: pages are numbered from 1. */
  function SearchOffset(page: int, perpage: int): int
  {
    (page - 1) * perpage
  }

  /** Page 1 starts at the first result, each page starts where the one
      before ends, and for a positive page size only page numbers from 1
      give an offset that is not negative. */
  lemma SearchOffsets(page: int, perpage: int)
    ensures SearchOffset(1, perpage) == 0
    ensures SearchOffset(page + 1, perpage) == SearchOffset(page, perpage) + perpage
    ensures perpage > 0 ==> (SearchOffset(page, perpage) >= 0 <==> page >= 1)
  {
    if perpage > 0 && page < 1 {
      assert (page - 1) * perpage <= -1 * perpage;
    }
  }

  /** The results the provider returns for page `page` of `perpage`
      results: SQLite's `LIMIT`/`OFFSET`, where a negative offset counts
      as none. */
  function SearchPage<T>(results: seq<T>, page: int, perpage: nat): seq<T>
  {
    LegacyQuery.ProviderPage(results, SearchOffset(page, perpage), perpage)
  }

  /** Pages 1 to `n`, one after another. */
  function SearchPages<T>(results: seq<T>, perpage: nat, n: nat): seq<T>
  {
    if n == 0 then [] else SearchPages(results, perpage, n - 1) + SearchPage(results, n, perpage)
  }

  /** The pages the controller asks for, put together, are the first
      results, with nothing skipped or repeated. */
  lemma {:induction false} SearchPagesCover<T>(results: seq<T>, perpage: nat, n: nat)
    requires perpage > 0
    ensures SearchPages(results, perpage, n) == LegacyQuery.Upto(results, n * perpage)
    decreases n
  {
    SearchPagesAre(results, perpage, n);
    LegacyQuery.PagesCover(results, perpage, n);
  }

  lemma {:induction false} SearchPagesAre<T>(results: seq<T>, perpage: nat, n: nat)
    requires perpage > 0
    ensures SearchPages(results, perpage, n) == LegacyQuery.Pages(results, perpage, n)
    decreases n
  {
    if n > 0 {
      SearchPagesAre(results, perpage, n - 1);
      SearchPageIsDbPage(results, n, perpage);
    }
  }

  /** One page of the controller is the page the database layer gives for
      the same offset. */
  lemma SearchPageIsDbPage<T>(results: seq<T>, n: nat, perpage: nat)
    requires n > 0 && perpage > 0
    ensures SearchPage(results, n, perpage) == LegacyQuery.DbPage(results, (n - 1) * perpage, perpage)
  {
    var offset := (n - 1) * perpage;
    assert SearchOffset(n, perpage) == offset;
    var a := LegacyQuery.ProviderPage(results, offset, perpage);
    var b := LegacyQuery.DbPage(results, offset, perpage);
    assert |a| == |b|;
    assert forall k :: 0 <= k < |a| ==> a[k] == b[k];
  }

  /** Page numbers below 1 give back the first page. */
  lemma FirstPageBelow<T>(results: seq<T>, page: int, perpage: nat)
    requires page < 1 && perpage > 0
    ensures SearchPage(results, page, perpage) == SearchPage(results, 1, perpage)
  {
    SearchOffsets(page, perpage);
  }

  /** What `exec_search` reads from the URL-encoded `query`: the `s`
      parameter and the `p` parameter as an integer, or the exception
      raised on the way (`KeyError` for a missing parameter, `ValueError`
      for a `p` that `int` refuses). */
  datatype Decoded = Decoded(s: string, p: int) | Undecodable(error: string)

  /** `text * n` for a text and an integer: `n` copies of `text`, none
      when `n` is not positive. */
  function Repeat(text: string, n: int): (r: string)
    ensures |r| == if n > 0 then n * |text| else 0
    ensures n > 0 ==> text <= r
    ensures forall k :: |text| <= k < |r| ==> r[k] == r[k - |text|]
    decreases n
  {
    if n <= 0 then []
    else
      var rest := Repeat(text, n - 1);
      assert n * |text| == |text| + (n - 1) * |text|;
      var r := text + rest;
      forall k | |text| <= k < |r| ensures r[k] == r[k - |text|] {
        var j := k - |text|;
        assert r[k] == rest[j];
        if j >= |text| {
          assert rest[j] == rest[j - |text|];
        } else {
          assert rest[j] == text[j];
        }
      }
      r
  }

  /** The offset `(page - 1) * limit` for the value of `perpage`: a
      number for a number, and for a text the text repeated. */
  function OffsetField(page: int, perpage: Field): (f: Field)
    ensures perpage.Number? ==> f == Number(SearchOffset(page, perpage.n))
    ensures perpage.Text? ==> f == Text(Repeat(perpage.text, page - 1))
  {
    match perpage
    case Number(n) => Number(SearchOffset(page, n))
    case Text(t) => Text(Repeat(t, page - 1))
  }

  /** `exec_search`: `query` is decoded first, then `perpage` is read;
      the provider gets the search text, the offset and `perpage`. */
  function ExecSearch(request: Request, decoded: Decoded): (r: Executed)
    ensures r.Replied? <==> "query" in request && decoded.Decoded? && "perpage" in request
    ensures "query" in request && decoded.Undecodable? ==> r == Crashed(decoded.error)
    ensures r.Replied? ==>
              r.message.data.Provided? && r.message.data.call.args ==
                [Text(decoded.s), OffsetField(decoded.p, request["perpage"]), request["perpage"]]
  {
    if "query" !in request then Crashed(KeyError)
    else if decoded.Undecodable? then Crashed(decoded.error)
    else if "perpage" !in request then Crashed(KeyError)
    else
      var limit := request["perpage"];
      var offset := OffsetField(decoded.p, limit);
      Replied(Message("search", Provided(Call("fetch_search_results", [Text(decoded.s), offset, limit]))))
  }

  /** `exec_literal_query`: the limit defaults to 0 (no limit). */
  function ExecLiteralQuery(request: Request): (r: Executed)
    ensures r.Replied? <==> "query" in request
    ensures r.Replied? ==>
              r.message.data.Provided? &&
              r.message.data.call.args == [request["query"], if "limit" in request then request["limit"] else Number(0)]
  {
    if "query" !in request then Crashed(KeyError)
    else
      var limit := if "limit" in request then request["limit"] else Number(0);
      Replied(Message("literal_query", Provided(Call("execute_literal", [request["query"], limit]))))
  }

  /** A handler that passes one request field to one provider method. */
  function ExecOne(command: string, call: string, request: Request, key: string): (r: Executed)
    ensures r.Replied? <==> key in request
  {
    if key in request then Replied(Message(command, Provided(Call(call, [request[key]])))) else Crashed(KeyError)
  }

  /** `exec_langid`, wrapped by `langid_function`: a missing `rowid`
      raises a `KeyError`, which is a `LookupError`, so the wrapper answers
      with the `LookupError` message and the text of the exception,
      `'rowid'`. */
  function ExecLangid(request: Request): (r: Executed)
    ensures r.Replied?
    ensures "rowid" !in request ==> r.message.data == Failed(LookupPrefix + "'rowid'")
  {
    if "rowid" in request then Replied(Message("langid", Provided(Call("langid", [request["rowid"]]))))
    else
      var g := LangidGuard<()>(Raised(LookupError("'rowid'")));
      Replied(Message("langid", Failed(g.message)))
  }

  /** The `exec_*` method named by a request's command, as written, with
      `budget` nested calls of `exec_command` left before the recursion
      limit. */
  function Exec(command: string, request: Request, decoded: Decoded, budget: nat): Executed
    requires HasExec(command)
    decreases budget, 1
  {
    if command == "restart" then Interrupted(RestartInterrupt)
    else if command == "shutdown" then Interrupted(ShutdownInterrupt)
    else if command == "command" then
      match ExecCommand(request, decoded, budget)
      case Replied(m) => Replied(Message(command, Nested(m)))
      case other => other
    else if command == "view" then ExecView(request)
    else if command == "search" then ExecSearch(request, decoded)
    else if command == "literal_query" then ExecLiteralQuery(request)
    else if command == "meta" then Replied(Message("meta", Totals(Call("fetch_total", []), Call("fetch_tags", []))))
    else if command == "update" then
      if "rowid" in request && "field" in request && "value" in request
      then Replied(Message("update", Provided(Call("update_record", [request["rowid"], request["field"], request["value"]]))))
      else Crashed(KeyError)
    else if command == "drop" then ExecOne("drop", "execute_drop", request, "target")
    else if command == "recreate" then ExecOne("recreate", "execute_recreate", request, "target")
    else if command == "langid" then ExecLangid(request)
    else Replied(Message(command, Provided(Call(command, []))))
  }

  /** `exec_command(request)`, as written: the reply carries the request's
      command and whatever its handler returned, or `"error"` when there is
      no `exec_` method of that name. */
  function ExecCommand(request: Request, decoded: Decoded, budget: nat): Executed
    decreases budget, 0
  {
    if "command" !in request then Crashed(KeyError)
    else if !request["command"].Text? then Crashed(TypeError)
    else
      var command := request["command"].text;
      if !HasExec(command) then Replied(Message(command, ErrorData))
      else if budget == 0 then Crashed(RecursionError)
      else
        match Exec(command, request, decoded, budget - 1)
        case Replied(m) => Replied(Message(command, m.data))
        case other => other
  }

  /** The reply always echoes the request's command, and a command without
      a handler gets `"error"`. */
  lemma ReplyEchoes(request: Request, decoded: Decoded, budget: nat)
    ensures var r := ExecCommand(request, decoded, budget);
            r.Replied? ==> "command" in request && request["command"] == Text(r.message.command)
    ensures "command" in request && request["command"].Text? && !HasExec(request["command"].text) ==>
              ExecCommand(request, decoded, budget) == Replied(Message(request["command"].text, ErrorData))
  {
  }

  /** `restart` and `shutdown` raise their interrupts, which the watch
      holds until it ends. */
  lemma InterruptCommands(request: Request, decoded: Decoded, budget: nat)
    requires "command" in request && budget > 0
    ensures request["command"] == Text("restart") ==> ExecCommand(request, decoded, budget) == Interrupted(RestartInterrupt)
    ensures request["command"] == Text("shutdown") ==> ExecCommand(request, decoded, budget) == Interrupted(ShutdownInterrupt)
  {
  }

  /** As written, the command `command` makes `exec_command` call itself
      with the same request until the recursion limit, whatever that limit
      is: the `RecursionError` is not caught and ends the controller's
      loop. */
  lemma {:induction false} CommandRecurses(request: Request, decoded: Decoded, budget: nat)
    requires "command" in request && request["command"] == Text("command")
    ensures ExecCommand(request, decoded, budget) == Crashed(RecursionError)
    decreases budget
  {
    if budget > 0 {
      CommandRecurses(request, decoded, budget - 1);
    }
  }

  /** `exec_command` as evidently meant: only the `exec_*` handlers count,
      so it never calls itself. */
  function ExecIntended(request: Request, decoded: Decoded): (r: Executed)
    ensures r.Crashed? ==> r.error == KeyError || r.error == TypeError || decoded == Undecodable(r.error)
  {
    if "command" !in request then Crashed(KeyError)
    else if !request["command"].Text? then Crashed(TypeError)
    else
      var command := request["command"].text;
      if command !in ExecNames then Replied(Message(command, ErrorData))
      else
        match Exec(command, request, decoded, 0)
        case Replied(m) => Replied(Message(command, m.data))
        case other => other
  }

  /** Corrected, a request whose command has no handler, `command`
      included, gets the `"error"` reply; a known command does what the
      code as written does. */
  lemma IntendedAnswers(request: Request, decoded: Decoded, budget: nat)
    requires "command" in request && request["command"].Text?
    ensures request["command"].text !in ExecNames ==>
              ExecIntended(request, decoded) == Replied(Message(request["command"].text, ErrorData))
    ensures request["command"].text in ExecNames && budget > 0 ==>
              ExecIntended(request, decoded) == ExecCommand(request, decoded, budget)
  {
  }

  // ---------------------------------------------------------------------------
  // The controller object
  // ---------------------------------------------------------------------------

  /** A client, by identity. */
  type Client = nat

  /** A future the watch may find done: the `clients_changed` future, or the
      watcher of a client that sent a request. */
  datatype Task = ClientsChanged | Input(client: Client, request: Request, decoded: Decoded)

  /** `self.exec_command`, as the watch sees it: what a request comes
      to. The watch is stated for any handler; `ExecCommand` with the
      recursion limit is the code as written, `ExecIntended` the
      correction. */
  type Handler = (Request, Decoded) -> Executed

  /** `exec_command` as written, with `budget` nested calls left before
      the recursion limit. */
  function AsWritten(budget: nat): Handler
  {
    (request, decoded) => ExecCommand(request, decoded, budget)
  }

  /** What the watch does with one request: a reply for the client, a
      held interrupt, or an exception that ends the loop. */
  function Handle(exec: Handler, t: Task): Executed
    requires t.Input?
  {
    exec(t.request, t.decoded)
  }

  /** The replies sent, the shutdown and restart flags, and the exception
      that ended the loop, for the done tasks `done`, in order. */
  datatype WatchEnd = WatchEnd(replies: seq<(Client, Message)>, shutdown: bool, restart: bool, crash: Option<string>, renewed: bool)

  function Watch(exec: Handler, done: seq<Task>): WatchEnd
  {
    if done == [] then WatchEnd([], false, false, None, false)
    else WatchStep(exec, Watch(exec, done[..|done| - 1]), done[|done| - 1])
  }

  /** One pass of the loop; after an uncaught exception nothing more is
      done. */
  function WatchStep(exec: Handler, w: WatchEnd, t: Task): WatchEnd
  {
    if w.crash.Some? then w
    else if t.ClientsChanged? then w.(renewed := true)
    else Apply(w, t.client, Handle(exec, t))
  }

  /** What the watch records of one handled request of `client`. */
  function Apply(w: WatchEnd, client: Client, e: Executed): WatchEnd
  {
    match e
    case Replied(m) => w.(replies := w.replies + [(client, m)])
    case Interrupted(ShutdownInterrupt) => w.(shutdown := true)
    case Interrupted(RestartInterrupt) => w.(restart := true)
    case Crashed(err) => w.(crash := Some(err))
  }

  /** A request that does not crash sets the flag of the interrupt it asks
      for, or adds its reply, and changes nothing else. */
  lemma ApplyFlags(w: WatchEnd, client: Client, e: Executed)
    requires !e.Crashed?
    ensures var v := Apply(w, client, e);
            v.crash == w.crash && v.renewed == w.renewed &&
            (v.shutdown <==> w.shutdown || e == Interrupted(ShutdownInterrupt)) &&
            (v.restart <==> w.restart || e == Interrupted(RestartInterrupt)) &&
            v.replies == w.replies + (if e.Replied? then [(client, e.message)] else [])
  {
  }

  lemma WatchLast(exec: Handler, done: seq<Task>, t: Task)
    ensures Watch(exec, done + [t]) == WatchStep(exec, Watch(exec, done), t)
  {
    assert (done + [t])[..|done|] == done;
  }

  /** What leaves `iterate_controller`: an uncaught exception first, then a
      shutdown over a restart. */
  function Escapes(w: WatchEnd): Option<Executed>
  {
    if w.crash.Some? then Some(Crashed(w.crash.value))
    else if w.shutdown then Some(Interrupted(ShutdownInterrupt))
    else if w.restart then Some(Interrupted(RestartInterrupt))
    else None
  }

  /** Before the first crash: the position of the first task whose request
      crashes, or `|done|`. */
  predicate HandledBefore(exec: Handler, done: seq<Task>, i: nat)
    requires i <= |done|
  {
    forall j :: 0 <= j < i && done[j].Input? ==> !Handle(exec, done[j]).Crashed?
  }

  /** Some request of the watch raised `signal`. */
  predicate Asked(exec: Handler, done: seq<Task>, signal: Interrupt)
  {
    exists j :: 0 <= j < |done| && done[j].Input? && Handle(exec, done[j]) == Interrupted(signal)
  }

  lemma AskedLast(exec: Handler, done: seq<Task>, t: Task, signal: Interrupt)
    ensures Asked(exec, done + [t], signal) <==>
              Asked(exec, done, signal) || (t.Input? && Handle(exec, t) == Interrupted(signal))
  {
    var d := done + [t];
    if Asked(exec, d, signal) && !(t.Input? && Handle(exec, t) == Interrupted(signal)) {
      var j :| 0 <= j < |d| && d[j].Input? && Handle(exec, d[j]) == Interrupted(signal);
      assert j < |done| && d[j] == done[j];
    }
    if Asked(exec, done, signal) {
      var j :| 0 <= j < |done| && done[j].Input? && Handle(exec, done[j]) == Interrupted(signal);
      assert d[j] == done[j];
    }
    if t.Input? && Handle(exec, t) == Interrupted(signal) {
      assert d[|done|] == t;
    }
  }

  /** With no request crashing, the flags of the watch say which interrupts
      were asked for, and whether `clients_changed` was met. */
  lemma {:induction false} WatchFlags(exec: Handler, done: seq<Task>)
    requires HandledBefore(exec, done, |done|)
    ensures var w := Watch(exec, done);
            w.crash == None && (w.shutdown <==> Asked(exec, done, ShutdownInterrupt)) &&
            (w.restart <==> Asked(exec, done, RestartInterrupt)) && (w.renewed <==> ClientsChanged in done)
    decreases |done|
  {
    if done != [] {
      var init, t := done[..|done| - 1], done[|done| - 1];
      assert done == init + [t];
      assert HandledBefore(exec, init, |init|) by {
        forall j | 0 <= j < |init| && init[j].Input? ensures !Handle(exec, init[j]).Crashed? {
          assert init[j] == done[j];
        }
      }
      WatchFlags(exec, init);
      AskedLast(exec, init, t, ShutdownInterrupt);
      AskedLast(exec, init, t, RestartInterrupt);
      if t.Input? {
        assert !Handle(exec, done[|done| - 1]).Crashed?;
        ApplyFlags(Watch(exec, init), t.client, Handle(exec, t));
      }
    }
  }

  /** A shutdown asked for anywhere in the watch wins over a restart asked
      for anywhere in it, whatever the order; a restart is raised only when
      no request asked for a shutdown; with neither, the loop goes on. */
  lemma ShutdownWins(exec: Handler, done: seq<Task>)
    requires HandledBefore(exec, done, |done|)
    ensures Escapes(Watch(exec, done)) ==
              if Asked(exec, done, ShutdownInterrupt) then Some(Interrupted(ShutdownInterrupt))
              else if Asked(exec, done, RestartInterrupt) then Some(Interrupted(RestartInterrupt))
              else None
  {
    WatchFlags(exec, done);
  }

  /** A request that asked for neither interrupt and did not crash is
      answered; requests are answered in the order they are met. */
  lemma {:induction false} RepliesInOrder(exec: Handler, done: seq<Task>)
    requires HandledBefore(exec, done, |done|)
    ensures Watch(exec, done).replies == RepliedTo(exec, done)
    decreases |done|
  {
    if done != [] {
      var init, t := done[..|done| - 1], done[|done| - 1];
      assert HandledBefore(exec, init, |init|) by {
        forall j | 0 <= j < |init| && init[j].Input? ensures !Handle(exec, init[j]).Crashed? {
          assert init[j] == done[j];
        }
      }
      RepliesInOrder(exec, init);
      WatchFlags(exec, init);
      if t.Input? {
        assert !Handle(exec, done[|done| - 1]).Crashed?;
        ApplyFlags(Watch(exec, init), t.client, Handle(exec, t));
      }
    }
  }

  /** The replies of the requests that got one, in order. */
  function RepliedTo(exec: Handler, done: seq<Task>): seq<(Client, Message)>
  {
    if done == [] then []
    else
      var t := done[|done| - 1];
      RepliedTo(exec, done[..|done| - 1]) +
        (if t.Input? && Handle(exec, t).Replied? then [(t.client, Handle(exec, t).message)] else [])
  }

  class Act {
    /** `self.provider` and `self.servers` */
    var provider: Option<Instance>
    var servers: seq<Instance>
    /** `self.clients` */
    var clients: seq<Client>
    /** Whether `self.clients_changed` is done. */
    var clientsChanged: bool
    /** The replies put on the clients' output queues. */
    var sent: seq<(Client, Message)>

    /** The state before the arguments are looked at. */
    constructor()
      ensures provider == None && servers == [] && clients == [] && !clientsChanged && sent == []
    {
      provider := None;
      servers := [];
      clients := [];
      clientsChanged := false;
      sent := [];
    }

    /** The loop and checks of `Act.__init__`; `error` is the exception
        raised, if any. */
    method Init(kwargs: seq<Kwarg>, providers: set<string>, interfaces: set<string>) returns (error: Option<string>)
      requires provider == None && servers == []
      modifies this
      ensures var r := Construct(kwargs, providers, interfaces);
              (r.Err? <==> error.Some?) && (r.Err? ==> error == Some(r.error)) &&
              (r.Ok? ==> provider == r.value.provider && servers == r.value.servers)
      ensures clients == old(clients) && clientsChanged == old(clientsChanged) && sent == old(sent)
    {
      for i := 0 to |kwargs|
        invariant Scan(kwargs[..i], providers, interfaces) == Ok(Setup(provider, servers))
        invariant clients == old(clients) && clientsChanged == old(clientsChanged) && sent == old(sent)
      {
        var (key, value) := kwargs[i];
        assert kwargs[..i + 1][..i] == kwargs[..i];
        if value.None? {
          continue;
        }
        if key in providers {
          if provider.None? {
            provider := Some(Instance(key, value.value));
          } else {
            ScanStops(kwargs, i + 1, providers, interfaces);
            return Some(MoreThanOneProvider);
          }
        } else if key in interfaces {
          servers := servers + [Instance(key, value.value)];
        } else {
          ScanStops(kwargs, i + 1, providers, interfaces);
          return Some(InvalidKey(key));
        }
      }
      assert kwargs[..|kwargs|] == kwargs;
      if provider.None? {
        return Some(NoProvider);
      }
      if servers == [] {
        return Some(NoInterfaces);
      }
      return None;
    }

    /** `register_client(client)` */
    method RegisterClient(client: Client)
      modifies this
      ensures clients == old(clients) + [client] && clientsChanged
      ensures provider == old(provider) && servers == old(servers) && sent == old(sent)
    {
      clients := clients + [client];
      if !clientsChanged {
        clientsChanged := true;
      }
    }

    /** `deregister_client(client)`: `list.remove` takes out the first
        occurrence, and raises when there is none. */
    method DeregisterClient(client: Client) returns (error: Option<string>)
      modifies this
      ensures error.Some? <==> client !in old(clients)
      ensures error.None? ==> clients == RemoveFirst(old(clients), client) && clientsChanged
      ensures error.Some? ==> clients == old(clients) && clientsChanged == old(clientsChanged)
      ensures provider == old(provider) && servers == old(servers) && sent == old(sent)
    {
      var i := 0;
      while i < |clients| && clients[i] != client
        invariant i <= |clients| && forall j :: 0 <= j < i ==> clients[j] != client
      {
        i := i + 1;
      }
      if i == |clients| {
        return Some("ValueError");
      }
      RemoveFirstAt(clients, client, i);
      clients := clients[..i] + clients[i + 1..];
      clientsChanged := true;
      return None;
    }

    /** The loop of `iterate_controller` over the tasks found done: each
        request is executed and its reply sent to its client; a `shutdown`
        or `restart` is held until the loop ends; a done `clients_changed`
        is replaced by a new future. */
    method EndWatch(exec: Handler, done: seq<Task>) returns (raised: Option<Executed>)
      modifies this
      ensures var w := Watch(exec, done);
              raised == Escapes(w) && sent == old(sent) + w.replies
      ensures clientsChanged == if Watch(exec, done).renewed then false else old(clientsChanged)
      ensures clients == old(clients) && provider == old(provider) && servers == old(servers)
    {
      var shutdown, restart := false, false;
      ghost var replies := [];
      ghost var renewed := false;
      for i := 0 to |done|
        invariant Watch(exec, done[..i]) == WatchEnd(replies, shutdown, restart, None, renewed)
        invariant sent == old(sent) + replies
        invariant clientsChanged == if renewed then false else old(clientsChanged)
        invariant clients == old(clients) && provider == old(provider) && servers == old(servers)
      {
        var task := done[i];
        assert done[..i + 1] == done[..i] + [task];
        WatchLast(exec, done[..i], task);
        if task.ClientsChanged? {
          clientsChanged := false;
          renewed := true;
        } else {
          var r := exec(task.request, task.decoded);
          if r.Crashed? {
            WatchStops(exec, done, i + 1);
            return Some(r);
          }
          ApplyFlags(WatchEnd(replies, shutdown, restart, None, renewed), task.client, r);
          if r.Replied? {
            sent := sent + [(task.client, r.message)];
            replies := replies + [(task.client, r.message)];
          } else if r == Interrupted(ShutdownInterrupt) {
            shutdown := true;
          } else {
            restart := true;
          }
        }
      }
      assert done[..|done|] == done;
      if shutdown {
        return Some(Interrupted(ShutdownInterrupt));
      } else if restart {
        return Some(Interrupted(RestartInterrupt));
      }
      return None;
    }
  }

  /** `list.remove(x)`: the list without its first `x`. */
  function RemoveFirst(s: seq<Client>, x: Client): seq<Client>
  {
    if s == [] then []
    else if s[0] == x then s[1..]
    else [s[0]] + RemoveFirst(s[1..], x)
  }

  /** Removing takes out exactly one `x` when there is one, and changes
      nothing otherwise. */
  lemma {:induction false} RemoveFirstSpec(s: seq<Client>, x: Client)
    ensures var r := RemoveFirst(s, x);
            (x in s ==> |r| == |s| - 1 && multiset(r) == multiset(s) - multiset{x}) && (x !in s ==> r == s)
    decreases |s|
  {
    if s != [] {
      RemoveFirstSpec(s[1..], x);
      assert s == [s[0]] + s[1..];
    }
  }

  lemma {:induction false} RemoveFirstAt(s: seq<Client>, x: Client, i: nat)
    requires i < |s| && s[i] == x && forall j :: 0 <= j < i ==> s[j] != x
    ensures RemoveFirst(s, x) == s[..i] + s[i + 1..]
    decreases i
  {
    if i > 0 {
      RemoveFirstAt(s[1..], x, i - 1);
      assert s[..i] == [s[0]] + s[1..][..i - 1];
    }
  }

  /** Once the loop raises, later arguments are not looked at. */
  lemma {:induction false} ScanStops(kwargs: seq<Kwarg>, i: nat, providers: set<string>, interfaces: set<string>)
    requires i <= |kwargs| && Scan(kwargs[..i], providers, interfaces).Err?
    ensures Construct(kwargs, providers, interfaces) == Scan(kwargs[..i], providers, interfaces)
    decreases |kwargs| - i
  {
    if i < |kwargs| {
      assert kwargs[..i + 1][..i] == kwargs[..i];
      ScanStops(kwargs, i + 1, providers, interfaces);
    } else {
      assert kwargs[..i] == kwargs;
    }
  }

  /** As written, a `command` request met before any crash ends the watch
      with the `RecursionError` of `exec_command`, whatever the recursion
      limit: it escapes `iterate_controller`, and later tasks are not
      handled. */
  lemma CommandEndsWatch(budget: nat, done: seq<Task>, i: nat)
    requires i < |done| && HandledBefore(AsWritten(budget), done, i)
    requires done[i].Input? && "command" in done[i].request && done[i].request["command"] == Text("command")
    ensures Watch(AsWritten(budget), done) == Watch(AsWritten(budget), done[..i]).(crash := Some(RecursionError))
    ensures Escapes(Watch(AsWritten(budget), done)) == Some(Crashed(RecursionError))
  {
    CommandRecurses(done[i].request, done[i].decoded, budget);
    assert Handle(AsWritten(budget), done[i]) == Crashed(RecursionError);
    CrashEndsWatch(AsWritten(budget), done, i);
  }

  /** Corrected, a `command` request is answered with `"error"` like any
      other command without a handler, and the watch goes on. */
  lemma CommandAnsweredIntended(done: seq<Task>, i: nat)
    requires i < |done| && HandledBefore(ExecIntended, done, i)
    requires done[i].Input? && "command" in done[i].request && done[i].request["command"] == Text("command")
    ensures Watch(ExecIntended, done[..i + 1]) ==
              Watch(ExecIntended, done[..i]).(replies := Watch(ExecIntended, done[..i]).replies +
                                                          [(done[i].client, Message("command", ErrorData))])
  {
    CommandUnhandled();
    IntendedAnswers(done[i].request, done[i].decoded, 0);
    assert Handle(ExecIntended, done[i]) == Replied(Message("command", ErrorData));
    AnsweredStep(ExecIntended, done, i);
  }

  lemma CommandUnhandled()
    ensures "command" !in ExecNames
  {
  }

  /** The watch up to a task holds no crash when no request before it
      crashed. */
  lemma NoCrashBefore(exec: Handler, done: seq<Task>, i: nat)
    requires i <= |done| && HandledBefore(exec, done, i)
    ensures Watch(exec, done[..i]).crash == None
  {
    assert HandledBefore(exec, done[..i], i) by {
      forall j | 0 <= j < i && done[..i][j].Input? ensures !Handle(exec, done[..i][j]).Crashed? {
        assert done[..i][j] == done[j];
      }
    }
    WatchFlags(exec, done[..i]);
  }

  /** The first request that crashes ends the watch with its exception. */
  lemma CrashEndsWatch(exec: Handler, done: seq<Task>, i: nat)
    requires i < |done| && HandledBefore(exec, done, i)
    requires done[i].Input? && Handle(exec, done[i]).Crashed?
    ensures Watch(exec, done) == Watch(exec, done[..i]).(crash := Some(Handle(exec, done[i]).error))
    ensures Escapes(Watch(exec, done)) == Some(Handle(exec, done[i]))
  {
    NoCrashBefore(exec, done, i);
    assert done[..i + 1] == done[..i] + [done[i]];
    WatchLast(exec, done[..i], done[i]);
    WatchStops(exec, done, i + 1);
  }

  /** A request answered before any crash adds its reply, and nothing
      else. */
  lemma AnsweredStep(exec: Handler, done: seq<Task>, i: nat)
    requires i < |done| && HandledBefore(exec, done, i)
    requires done[i].Input? && Handle(exec, done[i]).Replied?
    ensures Watch(exec, done[..i + 1]) ==
              Watch(exec, done[..i]).(replies := Watch(exec, done[..i]).replies +
                                                 [(done[i].client, Handle(exec, done[i]).message)])
  {
    NoCrashBefore(exec, done, i);
    assert done[..i + 1] == done[..i] + [done[i]];
    WatchLast(exec, done[..i], done[i]);
  }

  /** Once a request crashes, later tasks are not looked at. */
  lemma {:induction false} WatchStops(exec: Handler, done: seq<Task>, i: nat)
    requires i <= |done| && Watch(exec, done[..i]).crash.Some?
    ensures Watch(exec, done) == Watch(exec, done[..i])
    decreases |done| - i
  {
    if i < |done| {
      assert done[..i + 1] == done[..i] + [done[i]];
      WatchLast(exec, done[..i], done[i]);
      WatchStops(exec, done, i + 1);
    } else {
      assert done[..i] == done;
    }
  }
}
