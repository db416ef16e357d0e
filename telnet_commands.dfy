/** The tables and text builders of the telnet parser
    (`oce/interfaces/telnet_parser.py`): the command and branch tables and
    how a typed word picks an entry, the framing of every message sent to
    the client, the requests sent to the server, and the formatting of the
    server's replies. */
module TelnetCommands {
  import opened Strings
  import opened Wrappers
  import SqliteProvider

  // ---------------------------------------------------------------------------
  // Command tables
  // ---------------------------------------------------------------------------

  /** The command methods the tables name. */
  datatype Handler =
    | RepeatLast | Commands | MotdCommand | Exit | NeedFull | RestartCommand | ShutdownCommand
    | DbBranch | DebugSleep
    | DbConfig | MetaCommand | Query | DropCommand | RecreateCommand

  /** A table: its keys and, at the same positions, the methods they name.
      Every use of a table sorts its keys first, so the keys are listed here
      in code-point order (`TablesSorted`) rather than in declaration order. */
  datatype Table = Table(keys: seq<string>, handlers: seq<Handler>)

  /** The keys of `command_table`. */
  const CommandKeys: seq<string> :=
    ["!", "commands", "db", "debugsleep", "exit", "motd", "quit", "restar", "restart", "shutdow", "shutdown"]

  /** `command_table` */
  const CommandTable := Table(
    CommandKeys,
    [RepeatLast, Commands, DbBranch, DebugSleep, Exit, MotdCommand, Exit, NeedFull, RestartCommand, NeedFull,
     ShutdownCommand])

  /** The keys of `branch_table` in `command_db_branch`. */
  const BranchKeys: seq<string> := ["config", "drop", "meta", "query", "recreate"]

  /** `branch_table` of `command_db_branch` */
  const BranchTable := Table(
    BranchKeys,
    [DbConfig, DropCommand, MetaCommand, Query, RecreateCommand])

  /** Both tables list their keys in code-point order, so the listings of
      `command_commands` and `command_db_branch` show them as written. */
  lemma TablesSorted()
    ensures Sorted(CommandTable.keys) && Sorted(BranchTable.keys)
  {
    CommandKeysChained();
    ChainedSorted(CommandKeys);
    BranchKeysChained();
    ChainedSorted(BranchKeys);
  }

  lemma BranchKeysChained()
    ensures Chained(BranchKeys)
  {
    var k := BranchKeys;
    assert Chained(k[3..]);
    assert Chained(k[2..]) by { assert k[2..][1..] == k[3..]; }
    assert Chained(k[1..]) by { assert k[1..][1..] == k[2..]; }
    assert k[1..] == k[0..][1..] && k[0..] == k;
  }

  lemma CommandKeysChained()
    ensures Chained(CommandKeys)
  {
    var k := CommandKeys;
    assert Chained(k[9..]);
    assert Chained(k[8..]) by { assert k[8..][1..] == k[9..]; }
    assert Chained(k[7..]) by { assert k[7..][1..] == k[8..]; }
    assert Chained(k[6..]) by { assert k[6..][1..] == k[7..]; }
    assert Chained(k[5..]) by { assert k[5..][1..] == k[6..]; }
    assert Chained(k[4..]) by { assert k[4..][1..] == k[5..]; }
    assert Chained(k[3..]) by { assert k[3..][1..] == k[4..]; }
    assert Chained(k[2..]) by { assert k[2..][1..] == k[3..]; }
    assert Chained(k[1..]) by { assert k[1..][1..] == k[2..]; }
    assert k[1..] == k[0..][1..] && k[0..] == k;
  }

  /** The first position of `key`, or `|keys|` when it is absent. */
  function Position(keys: seq<string>, key: string): (i: nat)
    ensures i <= |keys|
  {
    if keys == [] then 0
    else if keys[0] == key then 0
    else 1 + Position(keys[1..], key)
  }

  /** `Position` finds the first occurrence, and finds one exactly when the
      key is present. */
  lemma {:induction false} PositionSpec(keys: seq<string>, key: string)
    ensures var i := Position(keys, key);
            (i < |keys| <==> key in keys) && (i < |keys| ==> keys[i] == key) &&
            forall j :: 0 <= j < i ==> keys[j] != key
    decreases |keys|
  {
    if keys != [] && keys[0] != key {
      PositionSpec(keys[1..], key);
      assert forall k :: k in keys ==> k == keys[0] || k in keys[1..];
      forall j | 0 <= j < Position(keys, key) ensures keys[j] != key {
        if j > 0 {
          assert keys[j] == keys[1..][j - 1];
        }
      }
    }
  }

  /** `fn_table[key]` */
  function Lookup(t: Table, key: string): (r: Option<Handler>)
    ensures r.Some? <==> key in t.keys && Position(t.keys, key) < |t.handlers|
    ensures r.Some? ==> r.value == t.handlers[Position(t.keys, key)]
  {
    PositionSpec(t.keys, key);
    var i := Position(t.keys, key);
    if i < |t.keys| && i < |t.handlers| then Some(t.handlers[i]) else None
  }

  /** The first key, in the order given, that starts with the typed word. */
  function FirstMatch(keys: seq<string>, word: string): (r: Option<string>)
    ensures r.Some? ==> r.value in keys && word <= r.value
    ensures r.None? <==> forall k :: k in keys ==> !(word <= k)
  {
    if keys == [] then None
    else if word <= keys[0] then Some(keys[0])
    else
      assert forall k :: k in keys ==> k == keys[0] || k in keys[1..];
      FirstMatch(keys[1..], word)
  }

  /** The least key, in code-point order, that starts with `word`. */
  function LeastMatch(keys: seq<string>, word: string): (r: Option<string>)
    ensures r.Some? ==> r.value in keys && word <= r.value
  {
    if keys == [] then None
    else
      var rest := LeastMatch(keys[1..], word);
      if !(word <= keys[0]) then rest
      else if rest.Some? && !Le(keys[0], rest.value) then rest
      else Some(keys[0])
  }

  /** `LeastMatch` finds a key below every other key that starts with the
      word, and finds none only when no key starts with it. */
  lemma {:induction false} LeastMatchSpec(keys: seq<string>, word: string)
    ensures var r := LeastMatch(keys, word);
            (r.Some? ==> forall k :: k in keys && word <= k ==> Le(r.value, k)) &&
            (r.None? <==> forall k :: k in keys ==> !(word <= k))
    decreases |keys|
  {
    if keys != [] {
      var rest := LeastMatch(keys[1..], word);
      LeastMatchSpec(keys[1..], word);
      assert forall k :: k in keys ==> k == keys[0] || k in keys[1..];
      if word <= keys[0] && rest.Some? && !Le(keys[0], rest.value) {
        LeTotal(keys[0], rest.value);
      } else if word <= keys[0] {
        LeRefl(keys[0]);
        if rest.Some? {
          forall k | k in keys[1..] && word <= k ensures Le(keys[0], k) {
            LeTrans(keys[0], rest.value, k);
          }
        }
      }
    }
  }

  /** The method named by the least key that starts with `word`: the entry
      `parse_client_input` finds by sorting the keys and taking the first
      that starts with the word (see `SortedScanFindsLeast`). */
  function Pick(table: Table, word: string): (r: Option<Handler>)
    ensures r.Some? ==> r.value in table.handlers
  {
    match LeastMatch(table.keys, word)
    case None => None
    case Some(k) => Lookup(table, k)
  }

  /** What `parse_client_input` makes of a message: nothing typed, no key
      starting with the first word, or a method with the remaining words
      as its arguments. */
  datatype Resolution = Blank | Invalid | Call(handler: Handler, args: seq<string>)

  function Resolve(table: Table, msg: string): (r: Resolution)
    ensures r.Blank? <==> Words(msg) == []
    ensures r.Invalid? <==> Words(msg) != [] && Pick(table, Words(msg)[0]).None?
    ensures r.Call? ==> Pick(table, Words(msg)[0]) == Some(r.handler) && r.args == Words(msg)[1..]
  {
    var words := Words(msg);
    if words == [] then Blank
    else
      match Pick(table, words[0])
      case None => Invalid
      case Some(h) => Call(h, words[1..])
  }

  /** A message whose first word starts no key is invalid. */
  lemma NoKeyInvalid(table: Table, msg: string)
    requires Words(msg) != [] && forall k :: k in table.keys ==> !(Words(msg)[0] <= k)
    ensures Resolve(table, msg) == Invalid
  {
    LeastMatchSpec(table.keys, Words(msg)[0]);
  }

  /** A message whose first word picks `h` calls `h` with the other words. */
  lemma ResolvesTo(table: Table, msg: string, h: Handler)
    requires Words(msg) != [] && Pick(table, Words(msg)[0]) == Some(h)
    ensures Resolve(table, msg) == Call(h, Words(msg)[1..])
  {
  }

  // ---------------------------------------------------------------------------
  // Which entry a word picks
  // ---------------------------------------------------------------------------

  /** The first match in a sorted list is the least matching key. */
  lemma {:induction false} FirstMatchLeast(keys: seq<string>, word: string)
    requires Sorted(keys)
    ensures FirstMatch(keys, word).Some? ==>
      forall k :: k in keys && word <= k ==> Le(FirstMatch(keys, word).value, k)
    decreases |keys|
  {
    if keys != [] {
      if word <= keys[0] {
        forall k | k in keys && word <= k ensures Le(keys[0], k) {
          SortedHeadLeast(keys, k);
        }
      } else {
        assert Sorted(keys[1..]) by {
          forall i, j | 0 <= i < j < |keys| - 1 ensures Le(keys[1..][i], keys[1..][j]) {
            assert keys[1..][i] == keys[i + 1] && keys[1..][j] == keys[j + 1];
          }
        }
        FirstMatchLeast(keys[1..], word);
      }
    }
  }

  /** Scanning the sorted keys for the first that starts with the word,
      as the source does, finds the least matching key. */
  lemma SortedScanFindsLeast(keys: seq<string>, word: string)
    ensures FirstMatch(Sort(keys), word) == LeastMatch(keys, word)
  {
    var sorted := Sort(keys);
    var first, least := FirstMatch(sorted, word), LeastMatch(keys, word);
    LeastMatchSpec(keys, word);
    assert forall k :: k in sorted <==> k in keys by {
      forall k ensures k in sorted <==> k in keys {
        assert k in sorted <==> k in multiset(sorted);
        assert k in keys <==> k in multiset(keys);
      }
    }
    if first.Some? {
      assert first.value in keys;
      FirstMatchLeast(sorted, word);
      LeAntisym(first.value, least.value);
    }
  }

  /** A word picks the entry whose key is the least, in code-point order,
      of the keys starting with it. */
  lemma PicksLeast(table: Table, word: string, i: nat)
    requires i < |table.keys| && i < |table.handlers| && word <= table.keys[i]
    requires forall j :: 0 <= j < i ==> table.keys[j] != table.keys[i]
    requires forall k :: k in table.keys && word <= k ==> Le(table.keys[i], k)
    ensures Pick(table, word) == Some(table.handlers[i])
  {
    var key := table.keys[i];
    assert key in table.keys;
    LeastMatchSpec(table.keys, word);
    PositionSpec(table.keys, key);
    var k := LeastMatch(table.keys, word).value;
    LeAntisym(k, key);
    assert Position(table.keys, key) == i;
  }

  /** A word that starts only one key picks that key's entry. */
  lemma PrefixOfOnly(table: Table, w: string, i: nat)
    requires i < |table.keys| && i < |table.handlers| && w <= table.keys[i]
    requires forall j :: 0 <= j < i ==> table.keys[j] != table.keys[i]
    requires forall k :: k in table.keys && w <= k ==> k == table.keys[i]
    ensures Pick(table, w) == Some(table.handlers[i])
  {
    forall k | k in table.keys && w <= k ensures Le(table.keys[i], k) {
      LeRefl(k);
    }
    PicksLeast(table, w, i);
  }

  /** A word that starts a key agrees with it letter by letter. */
  lemma PrefixAt(w: string, k: string, i: nat)
    requires i < |w|
    ensures w <= k ==> i < |k| && k[i] == w[i]
  {
  }

  /** A prefix comes first in code-point order. */
  lemma {:induction false} PrefixLe(a: string, b: string)
    requires a <= b
    ensures Le(a, b)
    decreases |a|
  {
    if |a| > 0 {
      assert a[1..] <= b[1..];
      PrefixLe(a[1..], b[1..]);
    }
  }

  /** For a pair of entries where the first key is the second without its
      last letter, and no other key starts with the same letter: a
      non-empty prefix of the second key picks the first entry unless it
      is the second key in full. */
  lemma PrefixOfPair(table: Table, w: string, i: nat)
    requires i + 1 < |table.keys| && i + 1 < |table.handlers|
    requires |table.keys[i + 1]| > 1 && table.keys[i] == table.keys[i + 1][..|table.keys[i + 1]| - 1]
    requires forall j :: 0 <= j < i ==> table.keys[j] != table.keys[i] && table.keys[j] != table.keys[i + 1]
    requires w != [] && w <= table.keys[i + 1]
    requires forall k :: k in table.keys && k != [] && k[0] == w[0] ==> k == table.keys[i] || k == table.keys[i + 1]
    ensures Pick(table, w) == Some(table.handlers[if w == table.keys[i + 1] then i + 1 else i])
  {
    var short, full := table.keys[i], table.keys[i + 1];
    var n := if w == full then i + 1 else i;
    assert w <= table.keys[n] by {
      if w != full {
        assert w == full[..|w|];
      }
    }
    assert Le(short, full) by {
      PrefixLe(short, full);
    }
    forall k | k in table.keys && w <= k ensures Le(table.keys[n], k) {
      assert k[0] == w[0];
      LeRefl(table.keys[n]);
    }
    PicksLeast(table, w, n);
  }

  /** `exit`, `quit` and every non-empty start of them pick `command_exit`. */
  lemma ExitWords(w: string)
    requires w != [] && (w <= "exit" || w <= "quit")
    ensures Pick(CommandTable, w) == Some(Exit)
  {
    var t := CommandTable;
    var i := if w <= "exit" then 4 else 6;
    assert w[0] == t.keys[i][0];
    PrefixOfOnly(t, w, i);
  }

  /** A message whose first word starts `exit` or `quit` calls
      `command_exit` with the other words. */
  lemma ExitResolves(msg: string)
    requires Words(msg) != [] && (Words(msg)[0] <= "exit" || Words(msg)[0] <= "quit")
    ensures Resolve(CommandTable, msg) == Call(Exit, Words(msg)[1..])
  {
    var w := Words(msg)[0];
    assert w != [] by {
      WordsAreWords(msg);
    }
    ExitWords(w);
  }

  /** Every non-empty prefix of `restart` short of the full word asks for
      the word in full; only `restart` itself restarts the server. */
  lemma NeedFullRestart(w: string)
    requires w != [] && w <= "restart"
    ensures Pick(CommandTable, w) == Some(if w == "restart" then RestartCommand else NeedFull)
  {
    var keys := CommandTable.keys;
    assert keys[7] == "restar" && keys[8] == "restart";
    assert w[0] == 'r';
    PrefixOfPair(CommandTable, w, 7);
  }

  /** Every non-empty prefix of `shutdown` short of the full word asks for
      the word in full; only `shutdown` itself shuts the server down. */
  lemma NeedFullShutdown(w: string)
    requires w != [] && w <= "shutdown"
    ensures Pick(CommandTable, w) == Some(if w == "shutdown" then ShutdownCommand else NeedFull)
  {
    var keys := CommandTable.keys;
    assert keys[9] == "shutdow" && keys[10] == "shutdown";
    assert w[0] == 's';
    PrefixOfPair(CommandTable, w, 9);
  }

  /** A message of one word that starts `restart` calls `command_restart`
      when the word is in full and `command_need_full` otherwise. */
  lemma RestartResolves(msg: string)
    requires |Words(msg)| == 1 && Words(msg)[0] <= "restart"
    ensures Resolve(CommandTable, msg) == Call(if Words(msg)[0] == "restart" then RestartCommand else NeedFull, [])
  {
    var w := Words(msg)[0];
    assert w != [] by {
      WordsAreWords(msg);
    }
    NeedFullRestart(w);
  }

  /** A message of one word that starts `shutdown` calls `command_shutdown`
      when the word is in full and `command_need_full` otherwise. */
  lemma ShutdownResolves(msg: string)
    requires |Words(msg)| == 1 && Words(msg)[0] <= "shutdown"
    ensures Resolve(CommandTable, msg) == Call(if Words(msg)[0] == "shutdown" then ShutdownCommand else NeedFull, [])
  {
    var w := Words(msg)[0];
    assert w != [] by {
      WordsAreWords(msg);
    }
    NeedFullShutdown(w);
  }

  /** Only `!` itself picks `command_repeat_last`: it is the one key of
      `command_table` naming that method, and a word starting it is `!`
      or empty. */
  lemma OnlyBangRepeats(w: string)
    ensures Pick(CommandTable, w) == Some(RepeatLast) ==> w <= "!"
  {
    var keys := CommandTable.keys;
    if Pick(CommandTable, w) == Some(RepeatLast) {
      var k := LeastMatch(keys, w).value;
      PositionSpec(keys, k);
      var i := Position(keys, k);
      assert CommandTable.handlers[i] == RepeatLast;
      RepeatFirst(i);
    }
  }

  /** `command_repeat_last` is the first entry of `command_table` and no
      other. */
  lemma RepeatFirst(i: nat)
    requires i < |CommandTable.handlers| && CommandTable.handlers[i] == RepeatLast
    ensures i == 0
  {
  }

  /** Only words that start `!` pick `command_repeat_last` in `table`. */
  ghost predicate BangOnly(table: Table)
  {
    forall w :: Pick(table, w) == Some(RepeatLast) ==> w <= "!"
  }

  /** No method of `table` hands a message back for another parse. */
  predicate Flat(table: Table)
  {
    forall h :: h in table.handlers ==> h != RepeatLast && h != DbBranch
  }

  /** `command_table` gives `!` only to `!`, and the `db` table has neither
      `!` nor `db` in it. */
  lemma SourceTables()
    ensures BangOnly(CommandTable) && Flat(BranchTable)
  {
    forall w ensures Pick(CommandTable, w) == Some(RepeatLast) ==> w <= "!" {
      OnlyBangRepeats(w);
    }
  }

  /** When only `!` picks `command_repeat_last`, a message that calls it has
      `!` as its first non-blank character. */
  lemma BangFirst(table: Table, msg: string)
    requires BangOnly(table)
    ensures var r := Resolve(table, msg);
            r.Call? && r.handler == RepeatLast ==> "!" <= LStrip(msg)
  {
    var r := Resolve(table, msg);
    if r.Call? && r.handler == RepeatLast {
      var w := Words(msg)[0];
      assert w != [] by {
        WordsAreWords(msg);
      }
      assert w <= "!";
      WordsHead(msg);
    }
  }

  /** `!` picks `command_repeat_last` with no arguments. */
  lemma BangResolves()
    ensures Resolve(CommandTable, "!") == Call(RepeatLast, [])
  {
    SingleWord("!");
    PrefixOfOnly(CommandTable, "!", 0);
  }

  /** ` !` (a space, then `!`) picks `command_repeat_last` with no
      arguments, although it does not start with `!`. */
  lemma SpaceBangResolves()
    ensures Resolve(CommandTable, " !") == Call(RepeatLast, []) && !("!" <= " !")
  {
    assert " !" == [' '] + "!";
    WordsAfterSpace(' ', "!");
    SingleWord("!");
    PrefixOfOnly(CommandTable, "!", 0);
  }

  /** `db drop t` calls `command_db_branch` with the words `drop t`. */
  lemma DbDropWords()
    ensures Resolve(CommandTable, "db drop t") == Call(DbBranch, ["drop", "t"])
  {
    assert IsWord("db") && IsWord("drop") && IsWord("t");
    assert "db drop t" == Join(" ", ["db", "drop", "t"]);
    WordsJoin(["db", "drop", "t"]);
    DbWords("db");
  }

  /** The words `drop t`, joined again, call `command_drop` with the
      target `t`. */
  lemma DropTarget()
    ensures Resolve(BranchTable, Join(" ", ["drop", "t"])) == Call(DropCommand, ["t"])
    ensures Join(" ", ["drop", "t"]) == "drop t"
  {
    assert IsWord("drop") && IsWord("t");
    assert "drop t" == Join(" ", ["drop", "t"]);
    BranchResolves(["drop", "t"], 1);
  }

  /** Against `command_table`, `drop t` is no command at all. */
  lemma DropNoCommand()
    ensures Resolve(CommandTable, "drop t") == Invalid
  {
    assert IsWord("drop") && IsWord("t");
    assert "drop t" == Join(" ", ["drop", "t"]);
    WordsJoin(["drop", "t"]);
    forall k | k in CommandTable.keys ensures !("drop" <= k) {
      PrefixAt("drop", k, 1);
    }
    NoKeyInvalid(CommandTable, "drop t");
  }

  /** `db` and `d` pick `command_db_branch`: `db` comes before `debugsleep`
      in code-point order. */
  lemma DbWords(w: string)
    requires w != [] && w <= "db"
    ensures Pick(CommandTable, w) == Some(DbBranch)
  {
    var keys := CommandTable.keys;
    assert w[0] == 'd';
    forall k | k in keys && w <= k ensures Le(keys[2], k) {
      if k == keys[2] {
        LeRefl(k);
      } else {
        assert k == keys[3];
      }
    }
    PicksLeast(CommandTable, w, 2);
  }

  /** A message of two or more words whose first word starts `db` calls
      `command_db_branch` with the other words. */
  lemma DbResolves(msg: string)
    requires |Words(msg)| > 1 && Words(msg)[0] <= "db"
    ensures Resolve(CommandTable, msg) == Call(DbBranch, Words(msg)[1..])
  {
    var w := Words(msg)[0];
    assert w != [] by {
      WordsAreWords(msg);
    }
    DbWords(w);
  }

  /** The keys of the `db` table start with different letters, so every
      non-empty start of a key picks that key's method. */
  lemma BranchWords(w: string, i: nat)
    requires i < |BranchKeys| && w != [] && w <= BranchKeys[i]
    ensures Pick(BranchTable, w) == Some(BranchTable.handlers[i])
  {
    var keys := BranchTable.keys;
    assert w[0] == keys[i][0];
    forall k | k in keys && w <= k ensures k == keys[i] {
      assert k[0] == w[0];
    }
    PrefixOfOnly(BranchTable, w, i);
  }

  /** The words `command_db_branch` joins back into a message are parsed
      again as they were: the first picks a method of the `db` table and the
      rest are its arguments. */
  lemma BranchResolves(args: seq<string>, i: nat)
    requires AllWords(args) && args != [] && i < |BranchKeys| && args[0] <= BranchKeys[i]
    ensures Resolve(BranchTable, Join(" ", args)) == Call(BranchTable.handlers[i], args[1..])
  {
    WordsJoin(args);
    BranchWords(args[0], i);
  }

  // ---------------------------------------------------------------------------
  // Messages to the client
  // ---------------------------------------------------------------------------

  const CRLF := "\r\n"
  const Prompt := "> "

  /** The line boundaries of `str.splitlines`. */
  predicate IsLineBreak(c: char)
  {
    c == '\n' || c == '\r' || c == '\U{b}' || c == '\U{c}' || ('\U{1c}' <= c <= '\U{1e}')
    || c == '\U{85}' || c == '\U{2028}' || c == '\U{2029}'
  }

  /** The index of the first line boundary at or after `i`, or `|s|`. */
  function LineEnd(s: string, i: nat): (n: nat)
    requires i <= |s|
    ensures i <= n <= |s| && (n == |s| || IsLineBreak(s[n]))
    ensures forall k :: i <= k < n ==> !IsLineBreak(s[k])
    decreases |s| - i
  {
    if i == |s| || IsLineBreak(s[i]) then i else LineEnd(s, i + 1)
  }

  /** `s.splitlines()`: `\r\n` is one boundary, and a final boundary does
      not start another line. */
  function SplitLines(s: string): (r: seq<string>)
    ensures s == [] <==> r == []
    ensures forall k :: 0 <= k < |r| ==> forall c :: c in r[k] ==> !IsLineBreak(c)
    decreases |s|
  {
    if s == [] then []
    else
      var n := LineEnd(s, 0);
      if n == |s| then [s]
      else
        var next := if s[n] == '\r' && n + 1 < |s| && s[n + 1] == '\n' then n + 2 else n + 1;
        [s[..n]] + SplitLines(s[next..])
  }

  /** The lines of `msg`, each wrapped by `wrap` (`TextWrapper.wrap`) and
      rejoined, all with `\r\n`. */
  function Wrapped(wrap: string -> seq<string>, msg: string): (r: string)
    ensures msg == [] ==> r == []
  {
    Join(CRLF, WrapLines(wrap, SplitLines(msg)))
  }

  /** Each line wrapped and rejoined with `\r\n`. */
  function WrapLines(wrap: string -> seq<string>, lines: seq<string>): (r: seq<string>)
    ensures |r| == |lines|
  {
    if lines == [] then [] else [Join(CRLF, wrap(lines[0]))] + WrapLines(wrap, lines[1..])
  }

  /** What `send_to_client` puts on the output queue for a wrapped message:
      a non-empty message between one `\r\n` and two, then the prompt if
      asked for. */
  function Frame(wrapped: string, prompt: bool): (r: string)
    ensures |r| == (if wrapped != [] then |wrapped| + 6 else 0) + (if prompt then |Prompt| else 0)
    ensures forall k :: 0 <= k < |wrapped| ==> r[k + 2] == wrapped[k]
    ensures wrapped == [] ==> r == if prompt then Prompt else []
    ensures prompt <==> |r| >= 2 && r[|r| - 2..] == Prompt
  {
    var body := if wrapped != [] then CRLF + wrapped + CRLF + CRLF else [];
    assert body != [] ==> body[|body| - 2..] == CRLF && CRLF[0] != Prompt[0];
    body + (if prompt then Prompt else [])
  }

  /** A single line that the wrapper leaves whole comes out as it is. */
  lemma WrappedShortLine(wrap: string -> seq<string>, msg: string)
    requires msg != [] && forall c :: c in msg ==> !IsLineBreak(c)
    requires wrap(msg) == [msg]
    ensures Wrapped(wrap, msg) == msg
  {
    assert LineEnd(msg, 0) == |msg|;
    assert SplitLines(msg) == [msg];
  }

  /** The client can take a framed message apart again: the wrapped text
      and whether a prompt follows are determined by what was sent. */
  lemma FrameInjective(w1: string, p1: bool, w2: string, p2: bool)
    requires Frame(w1, p1) == Frame(w2, p2)
    ensures w1 == w2 && p1 == p2
  {
    var f := Frame(w1, p1);
    assert p1 == p2;
    assert w1 == [] <==> w2 == [];
    if w1 != [] {
      assert |w1| == |w2|;
      forall k | 0 <= k < |w1| ensures w1[k] == w2[k] {
        assert f[k + 2] == w1[k] && f[k + 2] == w2[k];
      }
    }
  }

  // ---------------------------------------------------------------------------
  // Requests to the server
  // ---------------------------------------------------------------------------

  /** The request dictionaries put on `parsed_input`. */
  datatype Request =
    | Motd | Restart | Shutdown | Meta
    | GetConfig | SetConfig(option: string, value: string)
    | LiteralQuery(query: string, limit: int)
    | Drop(target: string) | Recreate(target: string)

  const QueryLimit := 100

  /** `db config [option value...]`: no arguments asks for the
      configuration; otherwise the first word is the option and the rest,
      joined with spaces, the value. */
  function ConfigRequest(args: seq<string>): (r: Request)
    ensures args == [] <==> r == GetConfig
    ensures args != [] ==> r.SetConfig? && r.option == args[0]
  {
    if args == [] then GetConfig else SetConfig(args[0], Join(" ", args[1..]))
  }

  /** The value sent splits back into the words after the option. */
  lemma ConfigValueWords(args: seq<string>)
    requires AllWords(args) && args != []
    ensures Words(ConfigRequest(args).value) == args[1..]
  {
    WordsJoin(args[1..]);
  }

  /** The characters the query pattern `[^\]\"|[^"]` refuses. */
  predicate Refused(c: char)
  {
    c == ']' || c == '"' || c == '|' || c == '[' || c == '^'
  }

  /** The index of the first `"` at or after `i`, or `|s|`. */
  function QuoteAt(s: string, i: nat): (n: nat)
    requires i <= |s|
    ensures i <= n <= |s| && (n == |s| || s[n] == '"')
    ensures forall k :: i <= k < n ==> s[k] != '"'
    decreases |s| - i
  {
    if i == |s| || s[i] == '"' then i else QuoteAt(s, i + 1)
  }

  /** The two quotes of `raw` and the text between them, when `raw` has
      exactly two. */
  function Quoted(raw: string): (r: Option<string>)
    ensures r.Some? ==> '"' !in r.value
  {
    var i := QuoteAt(raw, 0);
    if i == |raw| then None
    else
      var j := QuoteAt(raw, i + 1);
      if j == |raw| || QuoteAt(raw, j + 1) != |raw| then None
      else
        assert forall k {:trigger raw[i + 1 + k]} :: 0 <= k < j - i - 1 ==> raw[i + 1..j][k] == raw[i + 1 + k];
        Some(raw[i + 1..j])
  }

  /** `re.search(r'^([^"]*)"(([^\]\"|[^"])+)"([^"]*)$', raw_string)`: group 2
      is the text between the only two quotes, which must be non-empty and
      free of the refused characters. */
  function QueryOf(raw: string): (r: Option<string>)
    ensures r.Some? ==> Quoted(raw) == r && r.value != [] && forall c :: c in r.value ==> !Refused(c)
    ensures Quoted(raw).Some? && Quoted(raw).value != [] && (forall c :: c in Quoted(raw).value ==> !Refused(c)) ==>
      r == Quoted(raw)
  {
    match Quoted(raw)
    case None => None
    case Some(q) => if q != [] && forall c :: c in q ==> !Refused(c) then Some(q) else None
  }

  /** What the pattern is evidently meant to accept: any non-empty text
      between the only two quotes. */
  function QueryIntended(raw: string): (r: Option<string>)
    ensures r.Some? <==> Quoted(raw).Some? && Quoted(raw).value != []
    ensures r.Some? ==> r == Quoted(raw)
  {
    match Quoted(raw)
    case None => None
    case Some(q) => if q != [] then Some(q) else None
  }

  /** A query wrapped in quotes, with no other quote anywhere, is found
      again between them. */
  lemma QuotedFindsQuery(pre: string, q: string, post: string)
    requires '"' !in pre && '"' !in q && '"' !in post
    ensures Quoted(pre + "\"" + q + "\"" + post) == Some(q)
  {
    var raw := pre + "\"" + q + "\"" + post;
    var i, j := |pre|, |pre| + 1 + |q|;
    assert raw[i] == '"' && raw[j] == '"';
    assert forall k :: 0 <= k < i ==> raw[k] == pre[k];
    assert forall k :: i < k < j ==> raw[k] == q[k - i - 1];
    assert forall k :: j < k < |raw| ==> raw[k] == post[k - j - 1];
    assert QuoteAt(raw, 0) == i by {
      QuoteAtFirst(raw, 0, i);
    }
    assert QuoteAt(raw, i + 1) == j by {
      QuoteAtFirst(raw, i + 1, j);
    }
    assert QuoteAt(raw, j + 1) == |raw| by {
      QuoteAtNone(raw, j + 1);
    }
    assert raw[i + 1..j] == q;
  }

  lemma {:induction false} QuoteAtFirst(s: string, i: nat, n: nat)
    requires i <= n < |s| && s[n] == '"' && forall k :: i <= k < n ==> s[k] != '"'
    ensures QuoteAt(s, i) == n
    decreases n - i
  {
    if i < n {
      QuoteAtFirst(s, i + 1, n);
    }
  }

  lemma {:induction false} QuoteAtNone(s: string, i: nat)
    requires i <= |s| && forall k :: i <= k < |s| ==> s[k] != '"'
    ensures QuoteAt(s, i) == |s|
    decreases |s| - i
  {
    if i < |s| {
      QuoteAtNone(s, i + 1);
    }
  }

  /** As written, a query holding `|`, `[`, `]` or `^` between its quotes
      (such as SQL's `||` concatenation) is refused, though it is properly
      quoted. */
  lemma QueryRefusesBar(pre: string, q: string, post: string)
    requires '"' !in pre && '"' !in q && '"' !in post && '|' in q
    ensures QueryOf(pre + "\"" + q + "\"" + post) == None
    ensures QueryIntended(pre + "\"" + q + "\"" + post) == Some(q)
  {
    QuotedFindsQuery(pre, q, post);
  }

  // ---------------------------------------------------------------------------
  // Replies from the server
  // ---------------------------------------------------------------------------

  /** One entry of the provider's configuration; `value` is its `str`. */
  datatype ConfigOption = ConfigOption(name: string, value: string, desc: string, readOnly: bool)

  const ConfigIntro := "DB Provider Configuration\r\n=========================\r\n[Read-Only Options]\r\n\r\n"
  const ConfigMiddle := "[Configurable Options]\r\n\r\n"
  const ConfigOutro := "\r\nUse 'db config <option_name> <new_value>' to change any of the configurable options."

  /** The two heading rows of the configurable section. */
  const HeaderRows: seq<ConfigOption> :=
    [ConfigOption("Name", "Value", "Description", false), ConfigOption("----", "-----", "-----------", false)]

  function ReadOnlyEntry(o: ConfigOption): string
  {
    "o " + o.desc + CRLF + "    " + o.value + CRLF + CRLF
  }

  /** The read-only section: one entry per read-only option, in order. */
  function ReadOnlyText(opts: seq<ConfigOption>): string
  {
    if opts == [] then []
    else
      var last := opts[|opts| - 1];
      ReadOnlyText(opts[..|opts| - 1]) + (if last.readOnly then ReadOnlyEntry(last) else [])
  }

  /** The options that may be changed, in order. */
  function Configurable(opts: seq<ConfigOption>): (r: seq<ConfigOption>)
    ensures |r| <= |opts|
  {
    if opts == [] then []
    else
      var last := opts[|opts| - 1];
      Configurable(opts[..|opts| - 1]) + (if last.readOnly then [] else [last])
  }

  /** The name column's width: the longest configurable name, at least 4. */
  function NameWidth(opts: seq<ConfigOption>): (w: int)
    ensures w >= 4
  {
    if opts == [] then 4
    else
      var last := opts[|opts| - 1];
      var w := NameWidth(opts[..|opts| - 1]);
      if last.readOnly then w else Max(w, |last.name|)
  }

  /** The value column's width: the longest configurable value, at least 5. */
  function ValWidth(opts: seq<ConfigOption>): (w: int)
    ensures w >= 5
  {
    if opts == [] then 5
    else
      var last := opts[|opts| - 1];
      var w := ValWidth(opts[..|opts| - 1]);
      if last.readOnly then w else Max(w, |last.value|)
  }

  /** The configurable options are exactly the options not marked
      read-only, and both columns are wide enough for each of them. */
  lemma {:induction false} ConfigurableSpec(opts: seq<ConfigOption>)
    ensures forall o :: o in Configurable(opts) <==> o in opts && !o.readOnly
    ensures forall o :: o in opts && !o.readOnly ==> |o.name| <= NameWidth(opts) && |o.value| <= ValWidth(opts)
    decreases |opts|
  {
    if opts != [] {
      var init, last := opts[..|opts| - 1], opts[|opts| - 1];
      ConfigurableSpec(init);
      assert opts == init + [last];
    }
  }

  function Max(a: int, b: int): int
  {
    if a >= b then a else b
  }

  /** `"{:<w}".format(s)`: `s` padded with spaces to `w` characters, never
      cut. */
  function PadRight(s: string, w: int): (r: string)
    ensures |r| == Max(|s|, w)
    ensures forall k :: 0 <= k < |r| ==> r[k] == if k < |s| then s[k] else ' '
    decreases w - |s|
  {
    if |s| >= w then s else PadRight(s, w - 1) + " "
  }

  function Row(o: ConfigOption, nameWidth: int, valWidth: int): string
  {
    PadRight(o.name, nameWidth + 4) + PadRight(o.value, valWidth + 4) + (o.desc + CRLF)
  }

  function RowsText(rows: seq<ConfigOption>, nameWidth: int, valWidth: int): string
  {
    if rows == [] then []
    else RowsText(rows[..|rows| - 1], nameWidth, valWidth) + Row(rows[|rows| - 1], nameWidth, valWidth)
  }

  /** What `format_db_get_config(reply)` returns. */
  function GetConfigText(opts: seq<ConfigOption>): string
  {
    ConfigIntro + ReadOnlyText(opts) + ConfigMiddle +
      RowsText(HeaderRows + Configurable(opts), NameWidth(opts), ValWidth(opts)) + ConfigOutro
  }

  /** `format_db_get_config`: the loop over the options, which writes the
      read-only entries and measures the columns, and the loop over the
      rows. */
  method FormatDbGetConfig(reply: seq<ConfigOption>) returns (output: string)
    ensures output == GetConfigText(reply)
  {
    var nameWidth, valWidth, configurable;
    output, nameWidth, valWidth, configurable := ScanOptions(ConfigIntro, HeaderRows, reply);
    output := output + ConfigMiddle;
    output := AppendRows(output, configurable, nameWidth, valWidth);
    output := output + ConfigOutro;
  }

  /** The loop over the options: read-only ones are written out after
      `before`, the others are put after the heading rows `heads` and
      measured. */
  method ScanOptions(before: string, heads: seq<ConfigOption>, reply: seq<ConfigOption>)
    returns (output: string, nameWidth: int, valWidth: int, configurable: seq<ConfigOption>)
    ensures output == before + ReadOnlyText(reply)
    ensures nameWidth == NameWidth(reply) && valWidth == ValWidth(reply)
    ensures configurable == heads + Configurable(reply)
  {
    output := before;
    nameWidth := 4;
    valWidth := 5;
    configurable := heads;
    for i := 0 to |reply|
      invariant output == before + ReadOnlyText(reply[..i])
      invariant nameWidth == NameWidth(reply[..i]) && valWidth == ValWidth(reply[..i])
      invariant configurable == heads + Configurable(reply[..i])
    {
      var option := reply[i];
      ghost var done := reply[..i];
      assert reply[..i + 1] == done + [option];
      ConfigStep(done, option);
      if option.readOnly {
        Associative(before, ReadOnlyText(done), ReadOnlyEntry(option));
        output := output + ReadOnlyEntry(option);
      } else {
        Associative(heads, Configurable(done), [option]);
        nameWidth := Max(nameWidth, |option.name|);
        valWidth := Max(valWidth, |option.value|);
        configurable := configurable + [option];
      }
    }
    assert reply[..|reply|] == reply;
  }

  /** The loop over the rows of the configurable section. */
  method AppendRows(before: string, rows: seq<ConfigOption>, nameWidth: int, valWidth: int) returns (output: string)
    ensures output == before + RowsText(rows, nameWidth, valWidth)
  {
    output := before;
    for j := 0 to |rows|
      invariant output == before + RowsText(rows[..j], nameWidth, valWidth)
    {
      assert rows[..j + 1][..j] == rows[..j];
      Associative(before, RowsText(rows[..j], nameWidth, valWidth), Row(rows[j], nameWidth, valWidth));
      output := output + Row(rows[j], nameWidth, valWidth);
    }
    assert rows[..|rows|] == rows;
  }

  /** How the accumulations of `format_db_get_config` take one more option. */
  lemma ConfigStep(prefix: seq<ConfigOption>, o: ConfigOption)
    ensures var s := prefix + [o];
      ReadOnlyText(s) == ReadOnlyText(prefix) + (if o.readOnly then ReadOnlyEntry(o) else []) &&
      Configurable(s) == Configurable(prefix) + (if o.readOnly then [] else [o]) &&
      NameWidth(s) == (if o.readOnly then NameWidth(prefix) else Max(NameWidth(prefix), |o.name|)) &&
      ValWidth(s) == (if o.readOnly then ValWidth(prefix) else Max(ValWidth(prefix), |o.value|))
  {
    assert (prefix + [o])[..|prefix|] == prefix;
  }

  lemma ThreeParts(a: string, b: string, c: string)
    ensures |a + b + c| == |a| + |b| + |c|
    ensures (a + b + c)[|a| + |b|..] == c
    ensures forall k :: 0 <= k < |a| ==> (a + b + c)[k] == a[k]
    ensures forall k :: 0 <= k < |b| ==> (a + b + c)[|a| + k] == b[k]
  {
    assert (a + b + c)[|a| + |b|..] == c;
  }

  /** A row whose name and value fit their columns has the name padded
      with spaces to `nameWidth + 4` characters, then the value padded to
      `valWidth + 4`, then the description. */
  lemma RowAlign(o: ConfigOption, nameWidth: nat, valWidth: nat)
    requires |o.name| <= nameWidth && |o.value| <= valWidth
    ensures var r := Row(o, nameWidth, valWidth);
      |r| == nameWidth + valWidth + 8 + |o.desc| + 2 &&
      (forall k :: 0 <= k < nameWidth + 4 ==> r[k] == if k < |o.name| then o.name[k] else ' ') &&
      (forall k :: 0 <= k < valWidth + 4 ==> r[nameWidth + 4 + k] == if k < |o.value| then o.value[k] else ' ') &&
      r[nameWidth + valWidth + 8..] == o.desc + CRLF
  {
    var a, b := PadRight(o.name, nameWidth + 4), PadRight(o.value, valWidth + 4);
    ThreeParts(a, b, o.desc + CRLF);
  }

  /** Every row of the configurable section, the headings included, fits
      the widths measured over the options, so all rows line up in the
      same columns. */
  lemma ColumnsAlign(opts: seq<ConfigOption>, o: ConfigOption)
    requires o in HeaderRows + Configurable(opts)
    ensures |o.name| <= NameWidth(opts) && |o.value| <= ValWidth(opts)
    ensures var nw, vw := NameWidth(opts), ValWidth(opts);
      var r := Row(o, nw, vw);
      |r| == nw + vw + 8 + |o.desc| + 2 &&
      (forall k :: 0 <= k < nw + 4 ==> r[k] == if k < |o.name| then o.name[k] else ' ') &&
      (forall k :: 0 <= k < vw + 4 ==> r[nw + 4 + k] == if k < |o.value| then o.value[k] else ' ') &&
      r[nw + vw + 8..] == o.desc + CRLF
  {
    assert |o.name| <= NameWidth(opts) && |o.value| <= ValWidth(opts) by {
      ConfigurableSpec(opts);
      if o !in HeaderRows {
        assert o in Configurable(opts);
      }
    }
    RowAlign(o, NameWidth(opts), ValWidth(opts));
  }

  /** `format_db_set_config(reply)` on the provider's `set_config` reply;
      `str` of a flag is `True` or `False`. */
  function FormatSetConfig(reply: SqliteProvider.ConfigReply): string
  {
    var shown := match reply
      case Set(_, b) => if b then "True" else "False"
      case Rejected(_, reason) => reason;
    if reply.Rejected? && reply.reason == SqliteProvider.InvalidValue then
      "Invalid value given for '" + reply.option + "'."
    else if reply.Rejected? && reply.reason == SqliteProvider.InvalidOption then
      "'" + reply.option + "' is not a valid option."
    else "'" + reply.option + "' set to '" + shown + "'."
  }

  /** What the client reads after `db config <option> <value>`: a bad value
      for `suffix_search`, an unknown option, or the new setting, which is
      `True` exactly when the value was `true` in any case. */
  lemma SetConfigMessages(option: string, value: string)
    ensures var m := FormatSetConfig(SqliteProvider.ConfigAnswer(option, value));
      var lv := LowerStr(value);
      (option != SqliteProvider.SuffixSearch ==> m == "'" + option + "' is not a valid option.") &&
      (option == SqliteProvider.SuffixSearch && lv != SqliteProvider.TrueWord && lv != SqliteProvider.FalseWord ==>
        m == "Invalid value given for '" + option + "'.") &&
      (option == SqliteProvider.SuffixSearch && lv == SqliteProvider.TrueWord ==> m == "'" + option + "' set to 'True'.") &&
      (option == SqliteProvider.SuffixSearch && lv == SqliteProvider.FalseWord ==> m == "'" + option + "' set to 'False'.")
  {
  }

  const LiteralWarning := "[Warning for Literal SQL Queries]\r\nREMINDER: If the suffixer is not in search mode, suffix search results will be inaccurate.  If the suffixer is in search mode, rebuilding the suffix table will not work. Use the 'db config' command to switch between the two modes."

  /** The formatting methods of `format_table`. */
  datatype Formatter = Raw | GetConfigFormat | SetConfigFormat | LiteralQueryFormat

  /** `format_table[command_name]`, where a command without an entry uses
      the entry for `default`; `default` and `motd` show the raw reply. */
  function FormatterOf(command: string): Formatter
  {
    if command == "db_get_config" then GetConfigFormat
    else if command == "db_set_config" then SetConfigFormat
    else if command == "literal_query" then LiteralQueryFormat
    else Raw
  }

  /** The data of a reply: its `str` is given as `shown`. */
  datatype Data = Other | Options(opts: seq<ConfigOption>) | SetReply(reply: SqliteProvider.ConfigReply)
  datatype ServerReply = ServerReply(command: string, data: Data, shown: string)

  const TypeError := "TypeError"

  /** What the formatter makes of a reply; data of a shape the formatter
      cannot read raises. */
  function FormatReply(r: ServerReply): (out: Result<string>)
    ensures r.command !in {"db_get_config", "db_set_config", "literal_query"} ==> out == Ok(r.shown)
    ensures out.Err? <==>
      (r.command == "db_get_config" && !r.data.Options?) || (r.command == "db_set_config" && !r.data.SetReply?)
  {
    match FormatterOf(r.command)
    case Raw => Ok(r.shown)
    case GetConfigFormat => if r.data.Options? then Ok(GetConfigText(r.data.opts)) else Err(TypeError)
    case SetConfigFormat => if r.data.SetReply? then Ok(FormatSetConfig(r.data.reply)) else Err(TypeError)
    case LiteralQueryFormat => Ok(r.shown + CRLF + CRLF + LiteralWarning)
  }
}
