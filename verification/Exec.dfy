/**
  EXEC from the client's argv to the server's shell command: joining, counting and
  printing on one side, splitting, renaming and rebuilding in the same buffer on the other.
*/
module Exec {
  import opened CStrings
  import opened Tokenizer
  import opened Numbers
  import opened Protocol

  const EXTRA_ARGS: nat := 1024

  // ------------------------------------------------------------------ the client

  /** Every argument followed by a space. */
  function Spaced(argv: seq<string>): string {
    if argv == [] then "" else Spaced(argv[..|argv| - 1]) + argv[|argv| - 1] + " "
  }

  /** The arguments with single spaces between them. */
  function Join(argv: seq<string>): string {
    if argv == [] then "" else if |argv| == 1 then argv[0] else argv[0] + " " + Join(argv[1..])
  }

  lemma {:induction false} SpacedJoin(argv: seq<string>)
    requires argv != []
    ensures Spaced(argv) == Join(argv) + " "
  {
    if |argv| == 1 {
      assert argv[..0] == [];
    } else {
      SpacedFront(argv);
      SpacedJoin(argv[1..]);
    }
  }

  lemma SpacedLast(argv: seq<string>)
    requires argv != []
    ensures Spaced(argv) == Spaced(argv[..|argv| - 1]) + argv[|argv| - 1] + " "
  {
  }

  lemma {:induction false} SpacedFront(argv: seq<string>)
    requires argv != []
    ensures Spaced(argv) == argv[0] + " " + Spaced(argv[1..])
  {
    var n := |argv| - 1;
    if n == 0 {
      assert argv[..0] == [] && argv[1..] == [];
    } else {
      hide Spaced;
      var front, tail := argv[..n], argv[1..];
      SpacedFront(front);
      assert front[0] == argv[0] && front[1..] == tail[..n - 1] && tail[n - 1] == argv[n];
      SpacedLast(argv);
      SpacedLast(tail);
      var first, middle := argv[0] + " ", Spaced(front[1..]);
      assert (first + middle) + argv[n] + " " == first + (middle + argv[n] + " ");
    }
  }

  predicate AllNulFree(argv: seq<string>) { forall i :: 0 <= i < |argv| ==> NulFree(argv[i]) }

  lemma {:induction false} SpacedNulFree(argv: seq<string>)
    requires AllNulFree(argv)
    ensures NulFree(Spaced(argv))
  {
    if argv != [] {
      SpacedNulFree(argv[..|argv| - 1]);
    }
  }

  /** setCommand: the buffer grows by Realloc with every argument. */
  method SetCommand(argv: seq<string>) returns (commandArgument: array<char>)
    requires argv != [] && AllNulFree(argv)
    ensures fresh(commandArgument) && commandArgument.Length == |Join(argv)| + 16
    ensures Str(commandArgument[..], 0) == Join(argv)
  {
    hide Str, Join;
    commandArgument := new char[0];
    var total := 0;
    var index := 0;
    while index < |argv|
      invariant index <= |argv| && fresh(commandArgument)
      invariant total == |Spaced(argv[..index])| <= commandArgument.Length
      invariant commandArgument[..total] == Spaced(argv[..index])
      invariant index > 0 ==> commandArgument.Length == total + 15
    {
      var argument := argv[index];
      commandArgument := Realloc(commandArgument, total, total + |argument| + 16);
      forall k | 0 <= k < |argument| {
        commandArgument[total + k] := argument[k];
      }
      assert commandArgument[..total + |argument|] == Spaced(argv[..index]) + argument;
      total := total + |argument| + 1;
      commandArgument[total - 1] := ' ';
      assert argv[..index + 1][..index] == argv[..index];
      assert commandArgument[..total] == Spaced(argv[..index]) + argument + " ";
      index := index + 1;
    }
    assert argv[..|argv|] == argv;
    SpacedJoin(argv);
    SpacedNulFree(argv);
    commandArgument[total - 1] := NUL;
    assert commandArgument[..total - 1] == Join(argv);
    JoinNulFree(argv);
    assert commandArgument[..][..total - 1] == commandArgument[..total - 1];
    StrOfPrefix(commandArgument[..], Join(argv));
  }

  method Realloc(buffer: array<char>, used: nat, size: nat) returns (grown: array<char>)
    requires used <= buffer.Length && used <= size
    ensures fresh(grown) && grown.Length == size && grown[..used] == buffer[..used]
  {
    grown := new char[size];
    forall k | 0 <= k < used {
      grown[k] := buffer[k];
    }
  }

  lemma JoinNulFree(argv: seq<string>)
    requires argv != [] && AllNulFree(argv)
    ensures NulFree(Join(argv))
  {
    SpacedNulFree(argv);
    SpacedJoin(argv);
    forall c | c in Join(argv) ensures c != NUL {
      assert c in Join(argv) + " ";
    }
  }

  function Spaces(t: string): nat {
    if t == "" then 0 else (if t[|t| - 1] == ' ' then 1 else 0) + Spaces(t[..|t| - 1])
  }

  lemma {:induction false} SpacesBound(t: string)
    ensures Spaces(t) <= |t|
  {
    if t != "" {
      SpacesBound(t[..|t| - 1]);
    }
  }

  function Request(joined: string): string {
    EXEC + " " + Digits(Spaces(joined)) + " " + joined
  }

  /** protocol: the argument moves to extra_args, and its buffer takes the count of its
      spaces, so that the command is printed with the count in front. */
  method BuildRequest(argv: seq<string>) returns (buff: string)
    requires argv != [] && AllNulFree(argv) && |Join(argv)| < EXTRA_ARGS
    ensures buff == Request(Join(argv)) && NulFree(buff) && |buff| < BUFF_SIZE
  {
    hide Str, Join, Spaces, Digits;
    var commandArgument := SetCommand(argv);
    JoinNulFree(argv);
    var length := CountSpaces(commandArgument);
    var extraArgs := Str(commandArgument[..], 0);
    RequestLength(extraArgs);
    PrintCount(commandArgument, length);
    buff := EXEC + " " + Str(commandArgument[..], 0) + extraArgs;
  }

  lemma RequestLength(joined: string)
    requires |joined| < EXTRA_ARGS
    ensures |Digits(Spaces(joined))| <= 4
  {
    SpacesBound(joined);
    assert Power10(4) == 10000;
    DigitsLength(Spaces(joined), 4);
  }

  method CountSpaces(commandArgument: array<char>) returns (length: nat)
    requires Terminated(commandArgument[..], 0)
    ensures length == Spaces(Str(commandArgument[..], 0))
  {
    ghost var text := commandArgument[..];
    ghost var joined := Str(text, 0);
    length := 0;
    var i := 0;
    StrAt(text, 0, 0);
    while commandArgument[i] != NUL
      invariant i <= |joined| && length == Spaces(joined[..i])
      invariant i < commandArgument.Length && (commandArgument[i] == NUL <==> i == |joined|)
      invariant i < |joined| ==> commandArgument[i] == joined[i]
      decreases |joined| - i
    {
      StrAt(text, 0, i + 1);
      assert joined[..i + 1][..i] == joined[..i];
      if commandArgument[i] == ' ' {
        length := length + 1;
      }
      i := i + 1;
    }
    assert joined[..i] == joined;
  }

  /** sprintf(command_argument, "%lu ", length) */
  method PrintCount(commandArgument: array<char>, length: nat)
    requires |Digits(length)| + 1 < commandArgument.Length
    modifies commandArgument
    ensures Str(commandArgument[..], 0) == Digits(length) + " "
  {
    hide Str, Digits;
    var count := Digits(length) + " ";
    forall k | 0 <= k < |count| {
      commandArgument[k] := count[k];
    }
    commandArgument[|count|] := NUL;
    assert commandArgument[..][..|count|] == count;
    StrOfPrefix(commandArgument[..], count);
  }

  // ------------------------------------------------------------------ the server

  const EXEC_COMMANDS := ["copy", "remove", "printworkdir"]
  const UNIX_EXEC_COMMANDS := ["cp", "rm", "pwd"]

  /** The shell's name of a command. */
  function Renamed(cmd: string): (name: string)
    ensures |name| <= |cmd| && (NulFree(cmd) ==> NulFree(name))
  {
    if cmd == "copy" then "cp" else if cmd == "remove" then "rm" else if cmd == "printworkdir" then "pwd" else cmd
  }

  /** execCommand: the replacement, or None when the pointer stays where it is. */
  method ExecCommand(cmd: string) returns (name: Option<string>)
    ensures cmd == "copy" ==> name == Some("cp")
    ensures cmd == "remove" ==> name == Some("rm")
    ensures cmd == "printworkdir" ==> name == Some("pwd")
    ensures cmd !in {"copy", "remove", "printworkdir"} ==> name == None
    ensures Renamed(cmd) == if name.Some? then name.value else cmd
  {
    var i := 0;
    while i < |EXEC_COMMANDS|
      invariant i <= |EXEC_COMMANDS| && forall j :: 0 <= j < i ==> cmd != EXEC_COMMANDS[j]
    {
      if cmd == EXEC_COMMANDS[i] {
        return Some(UNIX_EXEC_COMMANDS[i]);
      }
      i := i + 1;
    }
    assert cmd != EXEC_COMMANDS[0] && cmd != EXEC_COMMANDS[1] && cmd != EXEC_COMMANDS[2];
    return None;
  }

  /** `%s` of sprintf from another place of the same buffer, byte by byte: `write` stays
      strictly below `read`, so no byte is overwritten before it is copied. */
  method CopyForward(buf: array<char>, start: nat, from: nat) returns (write: nat)
    requires start < from <= buf.Length && Terminated(buf[..], from)
    modifies buf
    ensures write == start + |Str(old(buf[..]), from)| < from + |Str(old(buf[..]), from)| < buf.Length
    ensures buf[..write] == old(buf[..start]) + Str(old(buf[..]), from)
    ensures forall k :: write <= k < buf.Length ==> buf[k] == old(buf[k])
  {
    hide Str;
    ghost var before := buf[..];
    ghost var t := Str(before, from);
    StrParts(before, from);
    StrAt(before, from, 0);
    write := start;
    var read := from;
    while buf[read] != NUL
      invariant start <= write < read && write - start == read - from <= |t|
      invariant forall k :: 0 <= k < start ==> buf[k] == before[k]
      invariant forall k :: start <= k < write ==> buf[k] == t[k - start]
      invariant forall k :: write <= k < buf.Length ==> buf[k] == before[k]
      invariant read < buf.Length && (buf[read] == NUL <==> read - from == |t|)
      decreases |t| - (read - from)
    {
      StrAt(before, from, read - from);
      StrAt(before, from, read + 1 - from);
      buf[write] := buf[read];
      write, read := write + 1, read + 1;
    }
  }

  /** A count and a command, at least. */
  predicate HasCommand(t: string) {
    First(t, SPACE) < |t| && First(Rest(t, SPACE), SPACE) < |Rest(t, SPACE)|
  }

  function CommandOf(t: string): string { Token(Rest(t, SPACE), SPACE) }

  function ArgumentsOf(t: string): string { Rest(Rest(t, SPACE), SPACE) }

  /** Where the two splits of the argument leave the command and the rest of the line. */
  method SplitCommand(arg: array<char>) returns (command: nat, rest: nat)
    requires Terminated(arg[..], 0) && HasCommand(Str(arg[..], 0))
    modifies arg
    ensures var t := Str(old(arg[..]), 0);
      && 2 <= command && command + |CommandOf(t)| <= rest <= |t|
      && Str(arg[..], command) == CommandOf(t) && Terminated(arg[..], command)
      && Str(arg[..], rest) == ArgumentsOf(t) && Terminated(arg[..], rest)
  {
    hide SpanIn, SpanOut, Str;
    ghost var before := arg[..];
    ghost var t := Str(before, 0);
    StrParts(before, 0);
    var count, save := StrtokS(arg, Some(0), 0, SPACE);
    CutStrings(before, 0, SPACE, arg[..], count, save);
    TokenNotEmpty(t, SPACE);
    ghost var now, start := arg[..], save;
    ghost var u := Rest(t, SPACE);
    assert save == Last(t, SPACE) + 1 && |u| == |t| - save;
    var second;
    second, save := StrtokS(arg, None, save, SPACE);
    CutStrings(now, start, SPACE, arg[..], second, save);
    command, rest := second.value, save;
  }

  /** The first `%s`: the replacement, or the command moved to the front. */
  method WriteCommand(arg: array<char>, command: nat) returns (write: nat)
    requires 0 < command <= arg.Length && Terminated(arg[..], command)
    modifies arg
    ensures var cmd := Str(old(arg[..]), command);
      && write == |Renamed(cmd)| <= |cmd|
      && write < arg.Length && arg[..write] == Renamed(cmd)
    ensures forall k :: write <= k < arg.Length ==> arg[k] == old(arg[k])
  {
    hide SpanIn, SpanOut, Str, Renamed;
    ghost var before := arg[..];
    ghost var cmd := Str(before, command);
    StrParts(before, command);
    var name := ExecCommand(Str(arg[..], command));
    if name.Some? {
      write := |name.value|;
      forall k | 0 <= k < write {
        arg[k] := name.value[k];
      }
      assert arg[..write] == Renamed(cmd);
    } else {
      write := CopyForward(arg, 0, command);
      assert before[..0] + cmd == cmd;
    }
  }

  /** executeCommand, EXEC: the shell command line replaces the argument it is built from. */
  method RebuildCommand(arg: array<char>)
    requires Terminated(arg[..], 0) && HasCommand(Str(arg[..], 0))
    modifies arg
    ensures var t := Str(old(arg[..]), 0);
      && Str(arg[..], 0) == Renamed(CommandOf(t)) + " " + ArgumentsOf(t)
      && Terminated(arg[..], 0)
  {
    hide SpanIn, SpanOut, Str, First, Last, Token, Rest, HasCommand, CommandOf, ArgumentsOf, Renamed;
    ghost var t := Str(arg[..], 0);
    var command, save := SplitCommand(arg);
    ghost var now := arg[..];
    ghost var renamed, arguments := Renamed(CommandOf(t)), ArgumentsOf(t);
    StrParts(now, save);
    StrParts(now, command);
    var write := WriteCommand(arg, command);
    arg[write] := ' ';
    StrFrame(now, arg[..], save);
    assert arg[..write + 1] == renamed + " ";
    var end := CopyForward(arg, write + 1, save);
    arg[end] := NUL;
    ghost var line := renamed + " " + arguments;
    assert arg[..end] == line && arg[..][..end] == arg[..end];
    StrOfPrefix(arg[..], line);
  }

  /** A request that arrived in one read: its command word, at most eight characters of
      it, and the command line made of the rest. */
  method ServeExec(message: string) returns (command: string, shell: string)
    requires NulFree(message) && |message| < BUFF_SIZE && First(message, SPACE) < |message|
    requires HasCommand(Rest(message, SPACE))
    ensures command == Token(message, SPACE)[..if |Token(message, SPACE)| < 8 then |Token(message, SPACE)| else 8]
    ensures var t := Rest(message, SPACE); shell == Renamed(CommandOf(t)) + " " + ArgumentsOf(t)
  {
    hide SpanIn, SpanOut, Str, First, Last, Token, Rest, HasCommand;
    var buff := new char[BUFF_SIZE](i requires 0 <= i < BUFF_SIZE => if i < |message| then message[i] else NUL);
    StrIs(buff[..], 0, message);
    ghost var before := buff[..];
    var tempCommand, save := StrtokS(buff, Some(0), 0, SPACE);
    CutStrings(before, 0, SPACE, buff[..], tempCommand, save);
    var word, rest := Str(buff[..], tempCommand.value), Str(buff[..], save);
    command := word[..if |word| < 8 then |word| else 8];
    StrParts(buff[..], save);
    var argument := new char[|rest| + 1](i requires 0 <= i < |rest| + 1 => if i < |rest| then rest[i] else NUL);
    StrIs(argument[..], 0, rest);
    RebuildCommand(argument);
    shell := Str(argument[..], 0);
  }

  lemma JoinFirst(argv: seq<string>)
    requires argv != []
    ensures Join(argv) == argv[0] + (if |argv| == 1 then "" else " " + Join(argv[1..]))
    ensures |argv| == 1 ==> Join(argv[1..]) == ""
  {
  }

  lemma RequestSplits(argv: seq<string>)
    requires argv != [] && argv[0] != "" && ' ' !in argv[0]
    ensures var message := Request(Join(argv));
      var t := Rest(message, SPACE);
      && First(message, SPACE) == 0 && Token(message, SPACE) == EXEC && |message| > 0
      && HasCommand(t) && CommandOf(t) == argv[0] && ArgumentsOf(t) == Join(argv[1..])
  {
    hide SpanIn, SpanOut, First, Last, Token, Rest, Digits, Join;
    var joined := Join(argv);
    var count := Digits(Spaces(joined));
    var message := Request(joined);
    JoinFirst(argv);
    assert message == EXEC + (" " + count + " " + joined);
    FirstWord(EXEC, " " + count + " " + joined, SPACE);
    assert (" " + count + " " + joined)[1..] == count + (" " + joined);
    assert ' ' !in count;
    FirstWord(count, " " + joined, SPACE);
    assert (" " + joined)[1..] == joined;
    var rest := if |argv| == 1 then "" else " " + Join(argv[1..]);
    FirstWord(argv[0], rest, SPACE);
    assert rest != "" ==> rest[1..] == Join(argv[1..]);
  }

  /** From argv to the server's shell: the command under its Unix name, a space, and the
      other arguments as the client joined them. */
  method ExecEndToEnd(argv: seq<string>) returns (command: string, shell: string)
    requires argv != [] && AllNulFree(argv) && |Join(argv)| < 1024
    requires argv[0] != "" && ' ' !in argv[0]
    ensures command == "EXEC"
    ensures argv[0] == "copy" ==> shell == "cp " + Join(argv[1..])
    ensures argv[0] == "remove" ==> shell == "rm " + Join(argv[1..])
    ensures argv[0] == "printworkdir" ==> shell == "pwd " + Join(argv[1..])
    ensures argv[0] !in {"copy", "remove", "printworkdir"} ==> shell == argv[0] + " " + Join(argv[1..])
  {
    hide SpanIn, SpanOut, First, Last, Token, Rest, HasCommand, CommandOf, ArgumentsOf, Join, Request;
    var message := BuildRequest(argv);
    RequestSplits(argv);
    command, shell := ServeExec(message);
    assert "cp" + " " == "cp " && "rm" + " " == "rm " && "pwd" + " " == "pwd ";
  }

  /** The words of a text, as repeated splits find them. */
  function Words(t: string): seq<string>
    decreases |t|
  {
    if First(t, SPACE) == |t| then [] else [Token(t, SPACE)] + Words(Rest(t, SPACE))
  }

  /** Joining is undone by splitting, for arguments that are words. */
  lemma {:induction false} JoinSplits(argv: seq<string>)
    requires forall i :: 0 <= i < |argv| ==> argv[i] != "" && ' ' !in argv[i]
    ensures Words(Join(argv)) == argv
  {
    hide SpanIn, SpanOut, Last, Token, Rest;
    if argv == [] {
      assert First("", SPACE) == 0;
    } else {
      var rest := if |argv| == 1 then "" else " " + Join(argv[1..]);
      JoinFirst(argv);
      FirstWord(argv[0], rest, SPACE);
      assert Join(argv) == argv[0] + rest;
      assert rest != "" ==> rest[1..] == Join(argv[1..]);
      JoinSplits(argv[1..]);
    }
  }

  /** The request, when no argument has a space in it: the count is that of the arguments
      behind the command. */
  lemma RequestText(argv: seq<string>)
    requires argv != [] && forall i :: 0 <= i < |argv| ==> ' ' !in argv[i]
    ensures Request(Join(argv)) == "EXEC " + Digits(|argv| - 1) + " " + Join(argv)
  {
    hide Digits, Join;
    CountIsArguments(argv);
    assert EXEC + " " == "EXEC ";
  }

  /** The count in the request is the number of arguments behind the command, when no
      argument has a space in it. */
  lemma {:induction false} CountIsArguments(argv: seq<string>)
    requires argv != [] && forall i :: 0 <= i < |argv| ==> ' ' !in argv[i]
    ensures Spaces(Join(argv)) == |argv| - 1
  {
    if |argv| == 1 {
      NoSpaces(argv[0]);
    } else {
      CountIsArguments(argv[1..]);
      SpacesAppend(argv[0], " " + Join(argv[1..]));
      SpacesAppend(" ", Join(argv[1..]));
      NoSpaces(argv[0]);
      assert argv[0] + " " + Join(argv[1..]) == argv[0] + (" " + Join(argv[1..]));
      assert " "[..0] == "";
    }
  }

  lemma {:induction false} NoSpaces(t: string)
    requires ' ' !in t
    ensures Spaces(t) == 0
  {
    if t != "" {
      assert t[|t| - 1] in t;
      NoSpaces(t[..|t| - 1]);
    }
  }

  lemma {:induction false} SpacesAppend(s: string, t: string)
    ensures Spaces(s + t) == Spaces(s) + Spaces(t)
  {
    if t == "" {
      assert s + t == s;
    } else {
      assert (s + t)[..|s + t| - 1] == s + t[..|t| - 1];
      SpacesAppend(s, t[..|t| - 1]);
    }
  }
}
