/** The telnet parser of `oce/interfaces/telnet_parser.py`: how a line typed
    by a client becomes requests for the server and text for the client,
    and how the server's replies are shown. */
module TelnetParser {
  import opened Strings
  import opened Wrappers
  import opened TelnetCommands

  /** What the parser holds between messages: the message `!` repeats, the
      requests put on `parsed_input`, and the messages given to
      `send_to_client` (`Shown` turns them into the text put on
      `client_output`). */
  datatype Snapshot = Snapshot(lastCommand: string, toServer: seq<Request>, toClient: seq<Sent>)

  /** The exceptions a command can raise: `TelnetExit`, the `TypeError` of
      calling a command that takes no arguments with some, the `ValueError`
      of `int` on an argument that is not a number, and the `RecursionError`
      of nested parses past the interpreter's limit. */
  datatype Raised = TelnetExit | TypeError | ValueError | RecursionError

  /** The exception raised, if any, and the state when the parse ended. */
  datatype Outcome = Outcome(raised: Option<Raised>, state: Snapshot)

  /** The code as written, or with the corrections of its two findings. */
  datatype Reading = AsWritten | Corrected

  /** What a parser dispatches with: the reading of the code, `command_table`
      and the `branch_table` of `command_db_branch` (`Source`). */
  datatype Rules = Rules(reading: Reading, commands: Table, branch: Table)

  /** The parser with the tables of the source. */
  function Source(reading: Reading): Rules
  {
    Rules(reading, CommandTable, BranchTable)
  }

  /** The messages the parser itself sends to the client, by name; `Text`
      spells them out. */
  datatype Notice =
    | PromptOnly | InvalidCommand | CommandsHelp | NeedFullText | Restarting | ShuttingDown | DbHelp
    | QueryHelp | DropHelp | RecreateHelp | SleepHelp

  /** What one call of `send_to_client(msg, prompt)` passes. */
  datatype Sent = Sent(notice: Notice, prompt: bool)

  function Text(n: Notice): string
  {
    match n
    case PromptOnly => ""
    case InvalidCommand => "Invalid command."
    case CommandsHelp => "Commands:\r\n" + CommandList
    case NeedFullText => "You need to type that command out in full."
    case Restarting => "[Server restarting]"
    case ShuttingDown => "[Server shutting down]"
    case DbHelp => "You need to specify a DB operation to perform.\r\nOptions are:\r\n" + BranchList
    case QueryHelp => "The query to be executed needs to be properly wrapped in double inverted commas."
    case DropHelp => "You need to specify a target to drop."
    case RecreateHelp => "You need to specify a target to rebuild."
    case SleepHelp => "Syntax: debugsleep [seconds]"
  }

  /** The sorted keys `command_commands` and `command_db_branch` list
      (`Listings`). */
  const CommandList := Join(" ", CommandKeys)
  const BranchList := Join(" ", BranchKeys)

  /** Whatever order the dictionaries give their keys in, sorting them
      gives the listings shown. */
  lemma Listings(commandKeys: seq<string>, branchKeys: seq<string>)
    requires multiset(commandKeys) == multiset(CommandTable.keys)
    requires multiset(branchKeys) == multiset(BranchTable.keys)
    ensures Join(" ", Sort(commandKeys)) == CommandList && Join(" ", Sort(branchKeys)) == BranchList
  {
    TablesSorted();
    SortedPermutationUnique(Sort(commandKeys), CommandKeys);
    SortedPermutationUnique(Sort(branchKeys), BranchKeys);
  }

  /** `send_to_client(msg, prompt)` */
  function Send(st: Snapshot, n: Notice, prompt: bool): Snapshot
  {
    st.(toClient := st.toClient + [Sent(n, prompt)])
  }

  /** The text `send_to_client` puts on `client_output`. */
  function Shown(wrap: string -> seq<string>, s: Sent): string
  {
    Frame(Wrapped(wrap, Text(s.notice)), s.prompt)
  }

  /** `send_to_server(request)` */
  function Ask(st: Snapshot, r: Request): Snapshot
  {
    st.(toServer := st.toServer + [r])
  }

  function Done(st: Snapshot): Outcome
  {
    Outcome(None, st)
  }

  /** A command that takes no arguments, called with some, raises before
      doing anything. */
  function NoArgs(args: seq<string>, st: Snapshot, after: Snapshot): Outcome
  {
    if args != [] then Outcome(Some(TypeError), st) else Done(after)
  }

  /** Whether a parse stores its message for `!`: as written, every message
      that does not start with `!`; corrected, only a message the client
      typed whose first non-blank character is not `!`. */
  predicate Remembers(reading: Reading, msg: string, typed: bool)
  {
    match reading
    case AsWritten => !("!" <= msg)
    case Corrected => typed && !("!" <= LStrip(msg))
  }

  /** The state once `msg` is stored for `!`, if it is. */
  function Remember(reading: Reading, st: Snapshot, msg: string, typed: bool): Snapshot
  {
    if Remembers(reading, msg, typed) then st.(lastCommand := msg) else st
  }

  /** `parse_client_input(fn_table, msg)`. `typed` tells a message the
      client typed from one the parser passes on itself (for `!` and `db`);
      `budget` counts the nested parses left before the interpreter's
      recursion limit. */
  function Parse(rules: Rules, st: Snapshot, table: Table, msg: string,
                 typed: bool, budget: nat): Outcome
    decreases budget, 1
  {
    if budget == 0 then Outcome(Some(RecursionError), st)
    else
      var st1 := Remember(rules.reading, st, msg, typed);
      match Resolve(table, msg)
      case Blank => Done(Send(st1, PromptOnly, true))
      case Invalid => Done(Send(st1, InvalidCommand, true))
      case Call(h, args) => Dispatch(rules, st1, h, args, budget - 1)
  }

  /** What a command method does: either it finishes, or it hands a message
      back to `parse_client_input` with a table (`!` and `db`). */
  datatype Step = Finish(outcome: Outcome) | Reparse(table: Table, msg: string)

  /** The query `command_query` finds between the quotes of its words:
      by the pattern as written, or as it is evidently meant. */
  function QueryFound(reading: Reading, raw: string): Option<string>
  {
    if reading == AsWritten then QueryOf(raw) else QueryIntended(raw)
  }

  predicate IsDigit(c: char)
  {
    '0' <= c <= '9'
  }

  /** The character at `i` is a digit, or an underscore between two. */
  predicate GroupChar(b: string, i: int)
    requires 0 <= i < |b|
  {
    IsDigit(b[i]) || (b[i] == '_' && 0 < i < |b| - 1 && IsDigit(b[i - 1]) && IsDigit(b[i + 1]))
  }

  /** Digits, with single underscores allowed between two of them. */
  predicate DigitGroups(b: string)
  {
    |b| > 0 && IsDigit(b[0]) && IsDigit(b[|b| - 1]) &&
    forall i :: 0 <= i < |b| ==> GroupChar(b, i)
  }

  /** Whether `int(s)` returns rather than raising `ValueError`: after the
      surrounding white space, an optional sign and then ASCII digits in
      groups joined by single underscores. */
  predicate IntLiteral(s: string)
  {
    var t := Strip(s);
    DigitGroups(if |t| > 0 && t[0] in "+-" then t[1..] else t)
  }

  /** The command methods, called with the remaining words. */
  function Command(rules: Rules, st: Snapshot, h: Handler, args: seq<string>): Step
  {
    match h
    case RepeatLast =>
      if args != [] then Finish(Outcome(Some(TypeError), st)) else Reparse(rules.commands, st.lastCommand)
    case Commands => Finish(NoArgs(args, st, Send(st, CommandsHelp, true)))
    case MotdCommand => Finish(NoArgs(args, st, Ask(st, Motd)))
    case Exit => Finish(if args != [] then Outcome(Some(TypeError), st) else Outcome(Some(TelnetExit), st))
    case NeedFull => Finish(NoArgs(args, st, Send(st, NeedFullText, true)))
    case RestartCommand => Finish(NoArgs(args, st, Ask(Send(st, Restarting, false), Restart)))
    case ShutdownCommand => Finish(NoArgs(args, st, Ask(Send(st, ShuttingDown, false), Shutdown)))
    case DbBranch =>
      if args == [] then Finish(Done(Send(st, DbHelp, true)))
      else Reparse(rules.branch, Join(" ", args))
    case DebugSleep =>
      Finish(if args == [] then Done(Send(st, SleepHelp, true))
             else if IntLiteral(args[0]) then Done(st)
             else Outcome(Some(ValueError), st))
    case DbConfig => Finish(Done(Ask(st, ConfigRequest(args))))
    case MetaCommand => Finish(NoArgs(args, st, Ask(st, Meta)))
    case Query =>
      var q := QueryFound(rules.reading, Join(" ", args));
      Finish(if q.None? then Done(Send(st, QueryHelp, true)) else Done(Ask(st, LiteralQuery(q.value, QueryLimit))))
    case DropCommand =>
      Finish(if args == [] then Done(Send(st, DropHelp, true)) else Done(Ask(st, Drop(args[0]))))
    case RecreateCommand =>
      Finish(if args == [] then Done(Send(st, RecreateHelp, true)) else Done(Ask(st, Recreate(args[0]))))
  }

  /** A command method, with the nested parse it may start. */
  function Dispatch(rules: Rules, st: Snapshot, h: Handler, args: seq<string>,
                    budget: nat): Outcome
    decreases budget, 2
  {
    match Command(rules, st, h, args)
    case Finish(o) => o
    case Reparse(table, msg) => Parse(rules, st, table, msg, false, budget)
  }

  // ---------------------------------------------------------------------------
  // What every parse keeps
  // ---------------------------------------------------------------------------

  /** The remembered message never starts with `!` (as written), or never
      has `!` as its first non-blank character (corrected). */
  predicate LastOk(reading: Reading, s: string)
  {
    match reading
    case AsWritten => !("!" <= s)
    case Corrected => !("!" <= LStrip(s))
  }

  /** Requests and client text are only ever appended, and a remembered
      message that `!` may repeat stays one. */
  predicate Grows(reading: Reading, a: Snapshot, b: Snapshot)
  {
    a.toServer <= b.toServer && a.toClient <= b.toClient &&
    (LastOk(reading, a.lastCommand) ==> LastOk(reading, b.lastCommand))
  }

  lemma GrowsTrans(reading: Reading, a: Snapshot, b: Snapshot, c: Snapshot)
    requires Grows(reading, a, b) && Grows(reading, b, c)
    ensures Grows(reading, a, c)
  {
    assert a.toServer == c.toServer[..|b.toServer|][..|a.toServer|];
    assert a.toClient == c.toClient[..|b.toClient|][..|a.toClient|];
  }

  /** A parse only appends to what was sent, and never leaves behind a
      remembered message that would make `!` repeat `!`. */
  lemma {:induction false} ParseGrows(rules: Rules, st: Snapshot, table: Table,
                                      msg: string, typed: bool, budget: nat)
    ensures Grows(rules.reading, st, Parse(rules, st, table, msg, typed, budget).state)
    decreases budget, 1
  {
    if budget > 0 {
      var st1 := Remember(rules.reading, st, msg, typed);
      var r := Resolve(table, msg);
      if r.Call? {
        var o := Dispatch(rules, st1, r.handler, r.args, budget - 1);
        DispatchGrows(rules, st1, r.handler, r.args, budget - 1);
        GrowsTrans(rules.reading, st, st1, o.state);
      }
    }
  }

  /** A command method that finishes only appends to what was sent, leaves
      the remembered message alone and raises no `RecursionError`; the
      methods other than `!` and `db` always finish. */
  lemma CommandGrows(rules: Rules, st: Snapshot, h: Handler, args: seq<string>)
    ensures Command(rules, st, h, args).Finish? ==>
              var o := Command(rules, st, h, args).outcome;
              o.state.lastCommand == st.lastCommand && st.toServer <= o.state.toServer &&
              st.toClient <= o.state.toClient && o.raised != Some(RecursionError)
    ensures h != RepeatLast && h != DbBranch ==> Command(rules, st, h, args).Finish?
  {
  }

  lemma {:induction false} DispatchGrows(rules: Rules, st: Snapshot, h: Handler,
                                         args: seq<string>, budget: nat)
    ensures Grows(rules.reading, st, Dispatch(rules, st, h, args, budget).state)
    decreases budget, 2
  {
    CommandGrows(rules, st, h, args);
    match Command(rules, st, h, args)
    case Finish(o) =>
    case Reparse(table, msg) =>
      ParseGrows(rules, st, table, msg, false, budget);
  }

  /** A message whose first word picks a method calls it with the other
      words, one level down, once the message is remembered. */
  lemma ParseCalls(rules: Rules, st: Snapshot, table: Table, msg: string, typed: bool, budget: nat)
    ensures budget > 0 && Resolve(table, msg).Call? ==>
              Parse(rules, st, table, msg, typed, budget) ==
              Dispatch(rules, Remember(rules.reading, st, msg, typed), Resolve(table, msg).handler,
                       Resolve(table, msg).args, budget - 1)
  {
  }

  /** A command method that finishes is all the dispatch does. */
  lemma DispatchFinishes(rules: Rules, st: Snapshot, h: Handler, args: seq<string>, budget: nat)
    ensures Command(rules, st, h, args).Finish? ==>
              Dispatch(rules, st, h, args, budget) == Command(rules, st, h, args).outcome
  {
  }

  /** A command method that hands a message back is followed by the parse
      of that message. */
  lemma DispatchReparses(rules: Rules, st: Snapshot, h: Handler, args: seq<string>, budget: nat)
    ensures var c := Command(rules, st, h, args);
            c.Reparse? ==> Dispatch(rules, st, h, args, budget) == Parse(rules, st, c.table, c.msg, false, budget)
  {
  }

  /** A message whose first word picks a method that finishes ends with what
      that method does, once the message is remembered. */
  lemma ParseFinishes(rules: Rules, st: Snapshot, table: Table, msg: string, typed: bool, budget: nat)
    ensures var r := Resolve(table, msg);
            var st1 := Remember(rules.reading, st, msg, typed);
            budget > 0 && r.Call? && Command(rules, st1, r.handler, r.args).Finish? ==>
              Parse(rules, st, table, msg, typed, budget) == Command(rules, st1, r.handler, r.args).outcome
  {
    var r := Resolve(table, msg);
    ParseCalls(rules, st, table, msg, typed, budget);
    if budget > 0 && r.Call? {
      DispatchFinishes(rules, Remember(rules.reading, st, msg, typed), r.handler, r.args, budget - 1);
    }
  }

  // ---------------------------------------------------------------------------
  // Single commands
  // ---------------------------------------------------------------------------

  /** A blank line shows the prompt again and asks nothing of the server. */
  lemma BlankLine(rules: Rules, st: Snapshot, table: Table, msg: string,
                  typed: bool, budget: nat)
    requires Words(msg) == [] && budget > 0
    ensures var o := Parse(rules, st, table, msg, typed, budget);
            o.raised == None && o.state.toServer == st.toServer && o.state.toClient == st.toClient + [Sent(PromptOnly, true)]
  {
  }

  /** A first word that starts no key is answered with `Invalid command.`
      and asks nothing of the server. */
  lemma InvalidLine(rules: Rules, st: Snapshot, table: Table, msg: string,
                    typed: bool, budget: nat)
    requires Words(msg) != [] && budget > 0
    requires forall k :: k in table.keys ==> !(Words(msg)[0] <= k)
    ensures var o := Parse(rules, st, table, msg, typed, budget);
            o.raised == None && o.state.toServer == st.toServer &&
            o.state.toClient == st.toClient + [Sent(InvalidCommand, true)]
  {
    assert Resolve(table, msg) == Invalid by {
      NoKeyInvalid(table, msg);
    }
    InvalidCalled(rules, st, table, msg, typed, budget);
  }

  lemma InvalidCalled(rules: Rules, st: Snapshot, table: Table, msg: string, typed: bool, budget: nat)
    requires Resolve(table, msg) == Invalid && budget > 0
    ensures Parse(rules, st, table, msg, typed, budget) ==
            Done(Send(Remember(rules.reading, st, msg, typed), InvalidCommand, true))
  {
  }

  /** `command_exit` ends the session and sends nothing; with arguments it
      raises `TypeError` instead. Which messages call it is `ExitResolves`. */
  lemma ExitCalled(rules: Rules, st: Snapshot, table: Table, msg: string, typed: bool, budget: nat,
                   args: seq<string>)
    requires Resolve(table, msg) == Call(Exit, args) && budget > 0
    ensures Parse(rules, st, table, msg, typed, budget) ==
            Outcome(Some(if args == [] then TelnetExit else TypeError), Remember(rules.reading, st, msg, typed))
  {
    ParseFinishes(rules, st, table, msg, typed, budget);
  }

  /** `command_debugsleep` without an argument tells the client its syntax.
      With one, `int` of the first argument raises `ValueError` unless it is
      a number; a number sends nothing to the server. */
  lemma DebugSleepCalled(rules: Rules, st: Snapshot, table: Table, msg: string, typed: bool, budget: nat,
                         args: seq<string>)
    requires Resolve(table, msg) == Call(DebugSleep, args) && budget > 0
    ensures var st1 := Remember(rules.reading, st, msg, typed);
            var o := Parse(rules, st, table, msg, typed, budget);
            (args == [] ==> o == Done(Send(st1, SleepHelp, true))) &&
            (args != [] ==> o.state == st1 && (o.raised == Some(ValueError) <==> !IntLiteral(args[0])))
  {
    ParseFinishes(rules, st, table, msg, typed, budget);
  }

  /** On a word of the message, `int` needs no stripping: a sign, then
      digit groups. */
  lemma IntLiteralWord(w: string)
    requires IsWord(w)
    ensures IntLiteral(w) <==> DigitGroups(if w[0] in "+-" then w[1..] else w)
  {
    StripStripped(w);
  }

  /** A word of digits is a number. */
  lemma DigitsAreInt(w: string)
    requires |w| > 0 && forall i :: 0 <= i < |w| ==> IsDigit(w[i])
    ensures IntLiteral(w)
  {
    StripStripped(w);
  }

  /** A word holding a character other than a digit or an underscore, and
      not a leading sign, is not a number: `debugsleep` on it raises. */
  lemma OtherCharNotInt(w: string, i: nat)
    requires IsWord(w) && i < |w|
    requires !IsDigit(w[i]) && w[i] != '_' && !(i == 0 && w[i] in "+-")
    ensures !IntLiteral(w)
  {
    IntLiteralWord(w);
    if w[0] in "+-" {
      OtherCharNotGroups(w[1..], i - 1);
    } else {
      OtherCharNotGroups(w, i);
    }
  }

  lemma OtherCharNotGroups(b: string, i: int)
    requires 0 <= i < |b| && !IsDigit(b[i]) && b[i] != '_'
    ensures !DigitGroups(b)
  {
    assert !GroupChar(b, i);
  }

  /** A sign followed by digits is a number. */
  lemma SignedDigits(w: string, d: string)
    requires w == "-" + d && |d| > 0 && forall i :: 0 <= i < |d| ==> IsDigit(d[i])
    ensures IntLiteral(w)
  {
    assert IsWord(w);
    IntLiteralWord(w);
    assert w[1..] == d;
  }

  /** Underscores may join digit groups, */
  lemma UnderscoreGroups(w: string)
    requires w == "1_000"
    ensures IntLiteral(w)
  {
    assert IsWord(w);
    IntLiteralWord(w);
  }

  /** but only one at a time. */
  lemma DoubleUnderscore(w: string)
    requires w == "1__0"
    ensures !IntLiteral(w)
  {
    assert IsWord(w);
    IntLiteralWord(w);
    assert w[1] == '_' && w[2] == '_' && !GroupChar(w, 1);
  }

  /** `command_restart` tells the client, without a prompt, that the server
      is restarting and then asks the server to restart; which messages call
      it is `RestartResolves`. */
  lemma RestartCalled(rules: Rules, st: Snapshot, table: Table, msg: string, typed: bool, budget: nat)
    requires Resolve(table, msg) == Call(RestartCommand, []) && budget > 0
    ensures var st1 := Remember(rules.reading, st, msg, typed);
            Parse(rules, st, table, msg, typed, budget) ==
            Done(st1.(toServer := st1.toServer + [Restart], toClient := st1.toClient + [Sent(Restarting, false)]))
  {
    ParseFinishes(rules, st, table, msg, typed, budget);
  }

  /** `command_shutdown` tells the client, without a prompt, that the server
      is shutting down and then asks the server to shut down; which messages
      call it is `ShutdownResolves`. */
  lemma ShutdownCalled(rules: Rules, st: Snapshot, table: Table, msg: string, typed: bool, budget: nat)
    requires Resolve(table, msg) == Call(ShutdownCommand, []) && budget > 0
    ensures var st1 := Remember(rules.reading, st, msg, typed);
            Parse(rules, st, table, msg, typed, budget) ==
            Done(st1.(toServer := st1.toServer + [Shutdown], toClient := st1.toClient + [Sent(ShuttingDown, false)]))
  {
    ParseFinishes(rules, st, table, msg, typed, budget);
  }

  /** `command_need_full` only asks for the full word: nothing reaches the
      server. */
  lemma NeedFullCalled(rules: Rules, st: Snapshot, table: Table, msg: string, typed: bool, budget: nat)
    requires Resolve(table, msg) == Call(NeedFull, []) && budget > 0
    ensures var st1 := Remember(rules.reading, st, msg, typed);
            Parse(rules, st, table, msg, typed, budget) == Done(st1.(toClient := st1.toClient + [Sent(NeedFullText, true)]))
  {
    ParseFinishes(rules, st, table, msg, typed, budget);
  }

  /** `db` alone lists the operations of the `db` table and asks nothing of
      the server. */
  lemma DbAlone(rules: Rules, st: Snapshot, table: Table, msg: string, typed: bool, budget: nat)
    requires Resolve(table, msg) == Call(DbBranch, []) && budget > 0
    ensures var st1 := Remember(rules.reading, st, msg, typed);
            Parse(rules, st, table, msg, typed, budget) == Done(st1.(toClient := st1.toClient + [Sent(DbHelp, true)]))
  {
    ParseFinishes(rules, st, table, msg, typed, budget);
  }

  /** `db` with more words parses those words, joined with spaces, against
      the `db` table, as a message of the parser's own, one level down. */
  lemma DbCalled(rules: Rules, st: Snapshot, table: Table, msg: string, typed: bool, budget: nat,
                 args: seq<string>)
    requires Resolve(table, msg) == Call(DbBranch, args) && args != [] && budget > 0
    ensures Parse(rules, st, table, msg, typed, budget) ==
            Parse(rules, Remember(rules.reading, st, msg, typed), rules.branch, Join(" ", args), false, budget - 1)
  {
    var st1 := Remember(rules.reading, st, msg, typed);
    ParseCalls(rules, st, table, msg, typed, budget);
    assert Command(rules, st1, DbBranch, args) == Reparse(rules.branch, Join(" ", args));
    DispatchReparses(rules, st1, DbBranch, args, budget - 1);
  }

  /** A method other than `!` and `db` (every method of the `db` table)
      never parses again: a message that picks one ends with what that
      method does. */
  lemma BranchCalled(rules: Rules, st: Snapshot, msg: string, typed: bool, budget: nat,
                     h: Handler, args: seq<string>)
    requires Resolve(rules.branch, msg) == Call(h, args) && h != RepeatLast && h != DbBranch && budget > 0
    ensures Parse(rules, st, rules.branch, msg, typed, budget) ==
            Command(rules, Remember(rules.reading, st, msg, typed), h, args).outcome
  {
    CommandGrows(rules, Remember(rules.reading, st, msg, typed), h, args);
    ParseFinishes(rules, st, rules.branch, msg, typed, budget);
  }

  /** The state once a `db` message and the words it passes on are both
      remembered. */
  function RememberBoth(rules: Rules, st: Snapshot, msg: string, typed: bool, args: seq<string>): Snapshot
  {
    Remember(rules.reading, Remember(rules.reading, st, msg, typed), Join(" ", args), false)
  }

  /** `msg` calls `db` with the words `args`, and those words, joined
      again, call `h` of the `db` table with the words `rest`. */
  predicate DbCall(rules: Rules, table: Table, msg: string, args: seq<string>, h: Handler, rest: seq<string>)
  {
    Resolve(table, msg) == Call(DbBranch, args) && args != [] && Resolve(rules.branch, Join(" ", args)) == Call(h, rest)
  }

  /** `db` followed by an operation of the `db` table ends with what that
      operation's method does, once both messages are remembered. */
  lemma DbThrough(rules: Rules, st: Snapshot, table: Table, msg: string, typed: bool, budget: nat,
                  args: seq<string>, h: Handler, rest: seq<string>)
    requires DbCall(rules, table, msg, args, h, rest) && budget > 1
    ensures h != RepeatLast && h != DbBranch ==>
              Parse(rules, st, table, msg, typed, budget) ==
              Command(rules, RememberBoth(rules, st, msg, typed, args), h, rest).outcome
  {
    var st1 := Remember(rules.reading, st, msg, typed);
    DbCalled(rules, st, table, msg, typed, budget, args);
    if h != RepeatLast && h != DbBranch {
      BranchCalled(rules, st1, Join(" ", args), false, budget - 1, h, rest);
    }
  }

  /** `db config` sends the server exactly one request, built from the words
      after `config` (`ConfigRequest`), and nothing to the client. */
  lemma DbConfigSends(rules: Rules, st: Snapshot, table: Table, msg: string, typed: bool, budget: nat,
                      args: seq<string>, rest: seq<string>)
    requires DbCall(rules, table, msg, args, DbConfig, rest) && budget > 1
    ensures Parse(rules, st, table, msg, typed, budget) ==
            Done(Ask(RememberBoth(rules, st, msg, typed, args), ConfigRequest(rest)))
  {
    DbThrough(rules, st, table, msg, typed, budget, args, DbConfig, rest);
  }

  /** `db drop` without a target tells the client so and sends nothing to
      the server; with one, it asks the server to drop the first word after
      `drop`. */
  lemma DbDropSends(rules: Rules, st: Snapshot, table: Table, msg: string, typed: bool, budget: nat,
                    args: seq<string>, rest: seq<string>)
    requires DbCall(rules, table, msg, args, DropCommand, rest) && budget > 1
    ensures var st2 := RememberBoth(rules, st, msg, typed, args);
            Parse(rules, st, table, msg, typed, budget) ==
            Done(if rest == [] then Send(st2, DropHelp, true) else Ask(st2, Drop(rest[0])))
  {
    DbThrough(rules, st, table, msg, typed, budget, args, DropCommand, rest);
  }

  /** `db recreate` without a target tells the client so and sends nothing
      to the server; with one, it asks the server to rebuild the first word
      after `recreate`. */
  lemma DbRecreateSends(rules: Rules, st: Snapshot, table: Table, msg: string, typed: bool, budget: nat,
                        args: seq<string>, rest: seq<string>)
    requires DbCall(rules, table, msg, args, RecreateCommand, rest) && budget > 1
    ensures var st2 := RememberBoth(rules, st, msg, typed, args);
            Parse(rules, st, table, msg, typed, budget) ==
            Done(if rest == [] then Send(st2, RecreateHelp, true) else Ask(st2, Recreate(rest[0])))
  {
    DbThrough(rules, st, table, msg, typed, budget, args, RecreateCommand, rest);
  }

  /** `db query` sends the server one literal query, limited to
      `QueryLimit` rows, when the words after `query` hold a query the
      pattern accepts (`QueryFound`); otherwise it tells the client how to
      quote the query. */
  lemma DbQuerySends(rules: Rules, st: Snapshot, table: Table, msg: string, typed: bool, budget: nat,
                     args: seq<string>, rest: seq<string>)
    requires DbCall(rules, table, msg, args, Query, rest) && budget > 1
    ensures var st2 := RememberBoth(rules, st, msg, typed, args);
            var q := QueryFound(rules.reading, Join(" ", rest));
            Parse(rules, st, table, msg, typed, budget) ==
            Done(if q.None? then Send(st2, QueryHelp, true) else Ask(st2, LiteralQuery(q.value, QueryLimit)))
  {
    DbThrough(rules, st, table, msg, typed, budget, args, Query, rest);
  }

  /** `db meta` asks the server for the meta-information; with more words it
      raises `TypeError` and sends nothing. */
  lemma DbMetaSends(rules: Rules, st: Snapshot, table: Table, msg: string, typed: bool, budget: nat,
                    args: seq<string>, rest: seq<string>)
    requires DbCall(rules, table, msg, args, MetaCommand, rest) && budget > 1
    ensures var st2 := RememberBoth(rules, st, msg, typed, args);
            Parse(rules, st, table, msg, typed, budget) ==
            if rest == [] then Done(Ask(st2, Meta)) else Outcome(Some(TypeError), st2)
  {
    DbThrough(rules, st, table, msg, typed, budget, args, MetaCommand, rest);
  }

  // ---------------------------------------------------------------------------
  // `!` and the remembered message
  // ---------------------------------------------------------------------------

  /** As written, a message whose first word picks `!` but which does not
      itself start with `!` (` !`, say) is remembered, and `!` then parses
      it again, and again: whatever the depth left, the parse ends in
      `RecursionError`. */
  lemma {:induction false} BangLoops(rules: Rules, st: Snapshot, msg: string, typed: bool, budget: nat)
    requires rules.reading == AsWritten && !("!" <= msg)
    requires Resolve(rules.commands, msg) == Call(RepeatLast, [])
    ensures Parse(rules, st, rules.commands, msg, typed, budget).raised == Some(RecursionError)
    decreases budget
  {
    if budget > 0 {
      var st1 := Remember(rules.reading, st, msg, typed);
      ParseCalls(rules, st, rules.commands, msg, typed, budget);
      DispatchReparses(rules, st1, RepeatLast, [], budget - 1);
      BangLoops(rules, st1, msg, false, budget - 1);
    }
  }

  /** Typing ` !` once is enough. */
  lemma SpaceBangLoops(st: Snapshot, typed: bool, budget: nat)
    ensures Parse(Source(AsWritten), st, CommandTable, " !", typed, budget).raised == Some(RecursionError)
  {
    SpaceBangResolves();
    BangLoops(Source(AsWritten), st, " !", typed, budget);
  }

  /** A parse against a table whose methods all finish never runs out of
      depth once it has one level. */
  lemma FlatSafe(rules: Rules, st: Snapshot, table: Table, msg: string, typed: bool, budget: nat)
    requires Flat(table) && budget > 0
    ensures Parse(rules, st, table, msg, typed, budget).raised != Some(RecursionError)
  {
    var r := Resolve(table, msg);
    if r.Call? {
      var st1 := Remember(rules.reading, st, msg, typed);
      CommandGrows(rules, st1, r.handler, r.args);
      ParseFinishes(rules, st, table, msg, typed, budget);
    }
  }

  /** A message that does not call `!` needs at most two levels: `db` parses
      once more, against the `db` table. */
  lemma NoBangSafe(rules: Rules, st: Snapshot, table: Table, msg: string, typed: bool, budget: nat)
    requires Flat(rules.branch) && budget > 1
    requires !(Resolve(table, msg).Call? && Resolve(table, msg).handler == RepeatLast)
    ensures Parse(rules, st, table, msg, typed, budget).raised != Some(RecursionError)
  {
    var r := Resolve(table, msg);
    if r.Call? {
      var st1 := Remember(rules.reading, st, msg, typed);
      if r.handler == DbBranch && r.args != [] {
        DbCalled(rules, st, table, msg, typed, budget, r.args);
        FlatSafe(rules, st1, rules.branch, Join(" ", r.args), false, budget - 1);
      } else {
        CommandGrows(rules, st1, r.handler, r.args);
        ParseFinishes(rules, st, table, msg, typed, budget);
      }
    }
  }

  /** Corrected, a message that calls `!` is not remembered, and the
      remembered message never calls `!`: three levels always suffice, so
      no parse ends in `RecursionError`. */
  lemma CorrectedSafe(rules: Rules, st: Snapshot, msg: string, typed: bool, budget: nat)
    requires rules.reading == Corrected && BangOnly(rules.commands) && Flat(rules.branch)
    requires LastOk(Corrected, st.lastCommand) && budget > 2
    ensures Parse(rules, st, rules.commands, msg, typed, budget).raised != Some(RecursionError)
  {
    var r := Resolve(rules.commands, msg);
    BangFirst(rules.commands, msg);
    if r.Call? && r.handler == RepeatLast && r.args == [] {
      assert Remember(Corrected, st, msg, typed) == st;
      ParseCalls(rules, st, rules.commands, msg, typed, budget);
      DispatchReparses(rules, st, RepeatLast, [], budget - 1);
      BangFirst(rules.commands, st.lastCommand);
      NoBangSafe(rules, st, rules.commands, st.lastCommand, false, budget - 1);
    } else if r.Call? && r.handler == RepeatLast {
      ParseFinishes(rules, st, rules.commands, msg, typed, budget);
    } else {
      NoBangSafe(rules, st, rules.commands, msg, typed, budget);
    }
  }

  /** With the source's tables, from a remembered message whose first
      non-blank character is not `!` (the empty one to begin with). */
  lemma CorrectedSourceSafe(st: Snapshot, msg: string, typed: bool, budget: nat)
    requires LastOk(Corrected, st.lastCommand) && budget > 2
    ensures Parse(Source(Corrected), st, CommandTable, msg, typed, budget).raised != Some(RecursionError)
  {
    SourceTables();
    CorrectedSafe(Source(Corrected), st, msg, typed, budget);
  }

  /** `!` parses the remembered message again, as a message of the parser's
      own, and is not remembered itself. */
  lemma BangRepeats(rules: Rules, st: Snapshot, msg: string, typed: bool, budget: nat)
    requires Resolve(rules.commands, msg) == Call(RepeatLast, []) && "!" <= msg && budget > 0
    ensures Parse(rules, st, rules.commands, msg, typed, budget) ==
            Parse(rules, st, rules.commands, st.lastCommand, false, budget - 1)
  {
    assert LStrip(msg) == msg;
    assert Remember(rules.reading, st, msg, typed) == st;
    ParseCalls(rules, st, rules.commands, msg, typed, budget);
    DispatchReparses(rules, st, RepeatLast, [], budget - 1);
  }

  /** As written, the nested parse of a `db` message remembers the words
      after `db` in place of the message. */
  lemma DbRemembersTail(rules: Rules, st: Snapshot, table: Table, msg: string, typed: bool, budget: nat,
                        args: seq<string>, h: Handler, rest: seq<string>)
    requires rules.reading == AsWritten && DbCall(rules, table, msg, args, h, rest) && budget > 1
    requires h != RepeatLast && h != DbBranch && !("!" <= Join(" ", args))
    ensures Parse(rules, st, table, msg, typed, budget).state.lastCommand == Join(" ", args)
  {
    DbThrough(rules, st, table, msg, typed, budget, args, h, rest);
    CommandGrows(rules, RememberBoth(rules, st, msg, typed, args), h, rest);
  }

  /** So, as written, `!` after `db drop t` parses `drop t` against
      `command_table` and answers `Invalid command.`, where the client
      meant to drop `t` again. */
  lemma DbDropThenBang(st: Snapshot, typed: bool, budget: nat)
    requires budget > 2
    ensures var rules := Source(AsWritten);
            var s1 := Parse(rules, st, CommandTable, "db drop t", typed, budget).state;
            s1.lastCommand == "drop t" &&
            Parse(rules, s1, CommandTable, "!", true, budget) == Done(Send(s1, InvalidCommand, true))
  {
    var rules := Source(AsWritten);
    DbDropWords();
    DropTarget();
    DbRemembersTail(rules, st, CommandTable, "db drop t", typed, budget, ["drop", "t"], DropCommand, ["t"]);
    var s1 := Parse(rules, st, CommandTable, "db drop t", typed, budget).state;
    BangAfterTail(s1, budget);
  }

  lemma BangAfterTail(s1: Snapshot, budget: nat)
    requires s1.lastCommand == "drop t" && budget > 2
    ensures Parse(Source(AsWritten), s1, CommandTable, "!", true, budget) == Done(Send(s1, InvalidCommand, true))
  {
    var rules := Source(AsWritten);
    BangResolves();
    BangRepeats(rules, s1, "!", true, budget);
    DropNoCommand();
    InvalidCalled(rules, s1, CommandTable, "drop t", false, budget - 1);
  }

  /** A parse of a message of the parser's own, corrected, leaves the
      remembered message alone. */
  lemma {:induction false} CorrectedKeepsLast(rules: Rules, st: Snapshot, table: Table, msg: string, budget: nat)
    requires rules.reading == Corrected
    ensures Parse(rules, st, table, msg, false, budget).state.lastCommand == st.lastCommand
    decreases budget, 1
  {
    if budget > 0 {
      var r := Resolve(table, msg);
      if r.Call? {
        ParseCalls(rules, st, table, msg, false, budget);
        DispatchKeepsLast(rules, st, r.handler, r.args, budget - 1);
      }
    }
  }

  lemma {:induction false} DispatchKeepsLast(rules: Rules, st: Snapshot, h: Handler, args: seq<string>, budget: nat)
    requires rules.reading == Corrected
    ensures Dispatch(rules, st, h, args, budget).state.lastCommand == st.lastCommand
    decreases budget, 2
  {
    CommandGrows(rules, st, h, args);
    match Command(rules, st, h, args)
    case Finish(o) =>
    case Reparse(table, msg) =>
      CorrectedKeepsLast(rules, st, table, msg, budget);
  }

  /** Corrected, a message the client typed is what is remembered, however
      it is then parsed, unless its first non-blank character is `!`. */
  lemma CorrectedRemembersTyped(rules: Rules, st: Snapshot, table: Table, msg: string, budget: nat)
    requires rules.reading == Corrected && !("!" <= LStrip(msg)) && budget > 0
    ensures Parse(rules, st, table, msg, true, budget).state.lastCommand == msg
  {
    var st1 := Remember(rules.reading, st, msg, true);
    var r := Resolve(table, msg);
    if r.Call? {
      ParseCalls(rules, st, table, msg, true, budget);
      DispatchKeepsLast(rules, st1, r.handler, r.args, budget - 1);
    }
  }

  /** So, corrected, `!` after `db drop t` asks the server to drop `t`
      again. */
  lemma CorrectedDropThenBang(st: Snapshot, budget: nat)
    requires budget > 3
    ensures var rules := Source(Corrected);
            var s1 := Parse(rules, st, CommandTable, "db drop t", true, budget).state;
            s1.lastCommand == "db drop t" &&
            Parse(rules, s1, CommandTable, "!", true, budget) == Done(Ask(s1, Drop("t")))
  {
    var rules := Source(Corrected);
    assert LStrip("db drop t") == "db drop t";
    CorrectedRemembersTyped(rules, st, CommandTable, "db drop t", budget);
    var s1 := Parse(rules, st, CommandTable, "db drop t", true, budget).state;
    BangAfterDrop(s1, budget);
  }

  lemma BangAfterDrop(s1: Snapshot, budget: nat)
    requires s1.lastCommand == "db drop t" && budget > 3
    ensures Parse(Source(Corrected), s1, CommandTable, "!", true, budget) == Done(Ask(s1, Drop("t")))
  {
    var rules := Source(Corrected);
    BangResolves();
    BangRepeats(rules, s1, "!", true, budget);
    DbDropWords();
    DropTarget();
    DbDropSends(rules, s1, CommandTable, "db drop t", false, budget - 1, ["drop", "t"], ["t"]);
  }
}
