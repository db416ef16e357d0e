/** The `TelnetParser` object of `oce/interfaces/telnet_parser.py` itself:
    its `last_command`, the `parsed_input` queue of requests for the server
    and the `client_output` queue of text for the client, changed in place
    by its methods. Each method is proved to do what the functions of
    `TelnetParser` and `TelnetCommands` say, so every property proved of
    those holds of the object. */
module TelnetObject {
  import opened Strings
  import opened Wrappers
  import opened TelnetCommands
  import opened TelnetParser

  /** The text put on `client_output` for each message sent, in order. */
  function ShownAll(wrap: string -> seq<string>, sent: seq<Sent>): (r: seq<string>)
    ensures |r| == |sent|
  {
    seq(|sent|, i requires 0 <= i < |sent| => Shown(wrap, sent[i]))
  }

  lemma ShownOne(wrap: string -> seq<string>, s: Sent)
    ensures ShownAll(wrap, [s]) == [Shown(wrap, s)]
  {
  }

  /** The state a parse starts from: the remembered message, nothing sent
      yet. */
  function Fresh(lastCommand: string): Snapshot
  {
    Snapshot(lastCommand, [], [])
  }

  class Parser {
    /** The reading of the code and the tables it dispatches with. */
    const rules: Rules
    /** `self.textwrap.wrap` */
    const wrap: string -> seq<string>
    /** `self.last_command` */
    var lastCommand: string
    /** What was put on `self.parsed_input`. */
    var parsedInput: seq<Request>
    /** What was put on `self.client_output`. */
    var clientOutput: seq<string>

    /** `TelnetParser.__init__`: nothing remembered, nothing queued. */
    constructor(reading: Reading, wrap: string -> seq<string>)
      ensures rules == Source(reading) && this.wrap == wrap
      ensures lastCommand == "" && parsedInput == [] && clientOutput == []
    {
      rules := Source(reading);
      this.wrap := wrap;
      lastCommand := "";
      parsedInput := [];
      clientOutput := [];
    }

    /** `send_to_client(msg, prompt)` */
    method SendToClient(msg: string, prompt: bool)
      modifies this
      ensures clientOutput == old(clientOutput) + [Frame(Wrapped(wrap, msg), prompt)]
      ensures lastCommand == old(lastCommand) && parsedInput == old(parsedInput)
    {
      var wrapped := Wrapped(wrap, msg);
      var toClient := if wrapped != "" then CRLF + wrapped + CRLF + CRLF else "";
      if prompt {
        toClient := toClient + Prompt;
      }
      assert toClient == Frame(wrapped, prompt);
      clientOutput := clientOutput + [toClient];
    }

    /** `send_to_server(request)` */
    method SendToServer(request: Request)
      modifies this
      ensures parsedInput == old(parsedInput) + [request]
      ensures lastCommand == old(lastCommand) && clientOutput == old(clientOutput)
    {
      parsedInput := parsedInput + [request];
    }

    /** `send_to_client` of one of the parser's own messages. */
    method Notify(n: Notice, prompt: bool)
      modifies this
      ensures clientOutput == old(clientOutput) + ShownAll(wrap, [Sent(n, prompt)])
      ensures lastCommand == old(lastCommand) && parsedInput == old(parsedInput)
    {
      SendToClient(Text(n), prompt);
      ShownOne(wrap, Sent(n, prompt));
    }

    /** The loop of `parse_client_input` over the sorted keys: the entry of
        the first key that starts with the word. */
    method FindCommand(table: Table, word: string) returns (h: Option<Handler>)
      ensures h == Pick(table, word)
    {
      var fnList := Sort(table.keys);
      SortedScanFindsLeast(table.keys, word);
      var i := 0;
      while i < |fnList|
        invariant i <= |fnList|
        invariant FirstMatch(fnList[i..], word) == FirstMatch(fnList, word)
      {
        if word <= fnList[i] {
          return Lookup(table, fnList[i]);
        }
        assert fnList[i..][1..] == fnList[i + 1..];
        i := i + 1;
      }
      return None;
    }

    /** `parse_client_input(fn_table, msg)`: the parse the functions
        describe, with the remembered message, the requests and the client
        text as the object's own fields. */
    method ParseClientInput(table: Table, msg: string, typed: bool, budget: nat) returns (raised: Option<Raised>)
      modifies this
      ensures var o := Parse(rules, Fresh(old(lastCommand)), table, msg, typed, budget);
              raised == o.raised && lastCommand == o.state.lastCommand &&
              parsedInput == old(parsedInput) + o.state.toServer &&
              clientOutput == old(clientOutput) + ShownAll(wrap, o.state.toClient)
      ensures LastOk(rules.reading, old(lastCommand)) ==> LastOk(rules.reading, lastCommand)
      decreases budget, 1
    {
      ParseGrows(rules, Fresh(lastCommand), table, msg, typed, budget);
      if budget == 0 {
        return Some(RecursionError);
      }
      if Remembers(rules.reading, msg, typed) {
        lastCommand := msg;
      }
      raised := ParseRemembered(table, msg, typed, budget);
    }

    /** The rest of `parse_client_input`, once the message is remembered:
        split into words, the first looked up, the method called. */
    method ParseRemembered(table: Table, msg: string, typed: bool, budget: nat) returns (raised: Option<Raised>)
      requires budget > 0 && Remember(rules.reading, Fresh(lastCommand), msg, typed) == Fresh(lastCommand)
      modifies this
      ensures var o := Parse(rules, Fresh(old(lastCommand)), table, msg, typed, budget);
              raised == o.raised && lastCommand == o.state.lastCommand &&
              parsedInput == old(parsedInput) + o.state.toServer &&
              clientOutput == old(clientOutput) + ShownAll(wrap, o.state.toClient)
      decreases budget, 0
    {
      var words := Words(msg);
      if words == [] {
        Notify(PromptOnly, true);
        return None;
      }
      var h := FindCommand(table, words[0]);
      if h.None? {
        Notify(InvalidCommand, true);
        return None;
      }
      raised := CallCommand(h.value, words[1..], budget - 1);
    }

    /** `getattr(self, command_fn)(*command_array)`: the command methods. */
    method CallCommand(h: Handler, args: seq<string>, budget: nat) returns (raised: Option<Raised>)
      modifies this
      ensures var o := Dispatch(rules, Fresh(old(lastCommand)), h, args, budget);
              raised == o.raised && lastCommand == o.state.lastCommand &&
              parsedInput == old(parsedInput) + o.state.toServer &&
              clientOutput == old(clientOutput) + ShownAll(wrap, o.state.toClient)
      decreases budget, 2
    {
      match h
      case RepeatLast =>
        if args != [] {
          return Some(TypeError);
        }
        raised := ParseClientInput(rules.commands, lastCommand, false, budget);
      case DbBranch =>
        if args == [] {
          Notify(DbHelp, true);
          return None;
        }
        raised := ParseClientInput(rules.branch, Join(" ", args), false, budget);
      case Exit =>
        raised := if args != [] then Some(TypeError) else Some(TelnetExit);
      case _ =>
        raised := FinishCommand(h, args);
    }

    /** The command methods that never parse again and take no arguments:
        called with some, they raise before doing anything. */
    method FinishCommand(h: Handler, args: seq<string>) returns (raised: Option<Raised>)
      requires h != RepeatLast && h != DbBranch && h != Exit
      modifies this
      ensures var o := Command(rules, Fresh(old(lastCommand)), h, args).outcome;
              raised == o.raised && lastCommand == o.state.lastCommand &&
              parsedInput == old(parsedInput) + o.state.toServer &&
              clientOutput == old(clientOutput) + ShownAll(wrap, o.state.toClient)
    {
      if h in {DebugSleep, DbConfig, Query, DropCommand, RecreateCommand} {
        raised := ArgsCommand(h, args);
        return;
      }
      if args != [] {
        return Some(TypeError);
      }
      raised := None;
      match h {
        case Commands => Notify(CommandsHelp, true);
        case MotdCommand => SendToServer(Motd);
        case NeedFull => Notify(NeedFullText, true);
        case RestartCommand =>
          Notify(Restarting, false);
          SendToServer(Restart);
        case ShutdownCommand =>
          Notify(ShuttingDown, false);
          SendToServer(Shutdown);
        case MetaCommand => SendToServer(Meta);
      }
    }

    /** The command methods that take any number of arguments. */
    method ArgsCommand(h: Handler, args: seq<string>) returns (raised: Option<Raised>)
      requires h in {DebugSleep, DbConfig, Query, DropCommand, RecreateCommand}
      modifies this
      ensures var o := Command(rules, Fresh(old(lastCommand)), h, args).outcome;
              raised == o.raised && lastCommand == o.state.lastCommand &&
              parsedInput == old(parsedInput) + o.state.toServer &&
              clientOutput == old(clientOutput) + ShownAll(wrap, o.state.toClient)
    {
      raised := None;
      match h {
        case DebugSleep =>
          if args == [] {
            Notify(SleepHelp, true);
          } else if !IntLiteral(args[0]) {
            raised := Some(ValueError);
          }
        case DbConfig => SendToServer(ConfigRequest(args));
        case Query =>
          var q := QueryFound(rules.reading, Join(" ", args));
          if q.None? {
            Notify(QueryHelp, true);
          } else {
            SendToServer(LiteralQuery(q.value, QueryLimit));
          }
        case DropCommand =>
          if args == [] {
            Notify(DropHelp, true);
          } else {
            SendToServer(Drop(args[0]));
          }
        case RecreateCommand =>
          if args == [] {
            Notify(RecreateHelp, true);
          } else {
            SendToServer(Recreate(args[0]));
          }
      }
    }

    /** `parse_server_output(msg)`: the reply formatted by its entry of
        `format_table` and sent with the prompt; data the formatter cannot
        read raises instead. */
    method ParseServerOutput(reply: ServerReply) returns (raised: Option<string>)
      modifies this
      ensures lastCommand == old(lastCommand) && parsedInput == old(parsedInput)
      ensures FormatReply(reply).Ok? ==>
                raised == None && clientOutput == old(clientOutput) + [Frame(Wrapped(wrap, FormatReply(reply).value), true)]
      ensures FormatReply(reply).Err? ==> raised == Some(FormatReply(reply).error) && clientOutput == old(clientOutput)
    {
      var formatted := Format(reply);
      if formatted.Err? {
        return Some(formatted.error);
      }
      SendToClient(formatted.value, true);
      return None;
    }
  }

  /** `getattr(self, format_fn)(msg['data'])`, with the table lookup of
      `parse_server_output`. */
  method Format(reply: ServerReply) returns (formatted: Result<string>)
    ensures formatted == FormatReply(reply)
  {
    match FormatterOf(reply.command) {
      case Raw =>
        formatted := Ok(reply.shown);
      case GetConfigFormat =>
        if !reply.data.Options? {
          return Err(TelnetCommands.TypeError);
        }
        var text := FormatDbGetConfig(reply.data.opts);
        formatted := Ok(text);
      case SetConfigFormat =>
        if !reply.data.SetReply? {
          return Err(TelnetCommands.TypeError);
        }
        formatted := Ok(FormatSetConfig(reply.data.reply));
      case LiteralQueryFormat =>
        formatted := Ok(reply.shown + CRLF + CRLF + LiteralWarning);
    }
  }
}
