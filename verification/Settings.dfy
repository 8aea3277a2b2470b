/**
  The server's settings: command line, configuration file, and the reload on SIGHUP.
*/
module Settings {
  import opened CStrings
  import opened Tokenizer
  import opened Numbers
  import opened Protocol
  import PoolModel

  const DEFAULT_THREADS_NUMBER: nat := 10
  const DEFAULT_PORT_NUMBER: nat := 8888
  const EQUAL: set<char> := {'='}

  datatype Values = Values(threads: nat, port: nat, reloading: bool)

  const DEFAULTS := Values(DEFAULT_THREADS_NUMBER, DEFAULT_PORT_NUMBER, false)

  predicate InRange(n: int, max: int) { 0 < n <= max }

  function WithThreads(v: Values, n: int, viaConfig: bool): Values {
    if InRange(n, PoolModel.MAX_THREADS_NUM) && (!viaConfig || v.reloading || v.threads == DEFAULT_THREADS_NUMBER)
    then v.(threads := n) else v
  }

  function WithPort(v: Values, n: int, viaConfig: bool): Values {
    if InRange(n, PoolModel.MAX_PORT_NUMBER) && (!viaConfig || v.reloading || v.port == DEFAULT_PORT_NUMBER)
    then v.(port := n) else v
  }

  function Parameter(line: string): string { Token(line, EQUAL) }

  function ValueIn(line: string): int { Atoi(Token(Rest(line, EQUAL), EQUAL)) }

  /** A line of the file that names a parameter has, after an equals sign, a value, which
      is an int: atoi is defined for no other. */
  predicate HasValue(line: string) {
    First(line, EQUAL) < |line| ==>
      && First(Rest(line, EQUAL), EQUAL) < |Rest(line, EQUAL)|
      && 0 - INT_LIMIT <= ValueIn(line) < INT_LIMIT
  }

  predicate Sets(line: string, parameter: string) {
    First(line, EQUAL) < |line| && Parameter(line) == parameter && ValueIn(line) > 0
  }

  function WithLine(v: Values, line: string): Values {
    if Sets(line, "PORT_NUMBER") then WithPort(v, ValueIn(line), true)
    else if Sets(line, "THREADS_NUMBER") then WithThreads(v, ValueIn(line), true)
    else v
  }

  function WithLines(v: Values, lines: seq<string>): Values
    decreases |lines|
  {
    if lines == [] then v else WithLines(WithLine(v, lines[0]), lines[1..])
  }

  class Server {
    var threadsNumber: nat
    var portNumber: nat
    var forceReloading: bool
    var forceRestart: bool

    function Current(): Values
      reads this
    {
      Values(threadsNumber, portNumber, forceReloading)
    }

    constructor ()
      ensures Current() == DEFAULTS && !forceRestart
    {
      threadsNumber, portNumber := DEFAULT_THREADS_NUMBER, DEFAULT_PORT_NUMBER;
      forceReloading, forceRestart := false, false;
    }

    method SetThreadsNumber(temp: int, viaConfig: bool)
      modifies `threadsNumber
      ensures Current() == WithThreads(old(Current()), temp, viaConfig)
    {
      if 0 < temp && PoolModel.MAX_THREADS_NUM >= temp
         && (!viaConfig || forceReloading || DEFAULT_THREADS_NUMBER == threadsNumber) {
        threadsNumber := temp;
      }
    }

    method SetPortNumber(temp: int, viaConfig: bool)
      modifies `portNumber
      ensures Current() == WithPort(old(Current()), temp, viaConfig)
    {
      if 0 < temp && PoolModel.MAX_PORT_NUMBER >= temp {
        if !viaConfig || forceReloading || DEFAULT_PORT_NUMBER == portNumber {
          portNumber := temp;
        }
      }
    }

    /** The file's lines as getline returns them; each is split where it stands. */
    method GetParametersFromConfig(lines: seq<string>)
      requires forall i :: 0 <= i < |lines| ==> NulFree(lines[i]) && HasValue(lines[i])
      modifies `threadsNumber, `portNumber
      ensures Current() == WithLines(old(Current()), lines)
    {
      var i := 0;
      while i < |lines|
        invariant i <= |lines| && forceReloading == old(forceReloading)
        invariant WithLines(old(Current()), lines) == WithLines(Current(), lines[i..])
      {
        var parameter, value := ParseLine(lines[i]);
        assert lines[i..][0] == lines[i] && lines[i..][1..] == lines[i + 1..];
        if parameter.Some? {
          if value > 0 {
            if parameter.value == "PORT_NUMBER" {
              SetPortNumber(value, true);
            } else if parameter.value == "THREADS_NUMBER" {
              SetThreadsNumber(value, true);
            }
          }
        }
        i := i + 1;
      }
    }

    method ParseLine(line: string) returns (parameter: Option<string>, value: int)
      requires NulFree(line) && HasValue(line)
      ensures parameter == if First(line, EQUAL) < |line| then Some(Parameter(line)) else None
      ensures parameter.Some? ==> value == ValueIn(line)
    {
      hide SpanIn, SpanOut, Str, First, Last, Token, Rest, Atoi;
      var buf := new char[|line| + 1](i requires 0 <= i < |line| + 1 => if i < |line| then line[i] else NUL);
      assert buf[..][..|line|] == line;
      StrOfPrefix(buf[..], line);
      ghost var before := buf[..];
      var token, save := StrtokS(buf, Some(0), 0, EQUAL);
      CutStrings(before, 0, EQUAL, buf[..], token, save);
      TokenOrNone(before, 0, EQUAL, buf[..], token, save);
      parameter, value := None, 0;
      if token.Some? {
        parameter := Some(Str(buf[..], token.value));
        ghost var now, start := buf[..], save;
        StrParts(now, start);
        token, save := StrtokS(buf, None, save, EQUAL);
        TokenOrNone(now, start, EQUAL, buf[..], token, save);
        CutStrings(now, start, EQUAL, buf[..], token, save);
        value := Atoi(Str(buf[..], token.value));
      }
    }

    /** An option of the command line, or the signal. */
    method Apply(a: Assignment)
      requires a.ConfigOption? || a.Sighup? ==>
        forall i :: 0 <= i < |a.lines| ==> NulFree(a.lines[i]) && HasValue(a.lines[i])
      modifies this
      ensures Current() == After(old(Current()), a)
      ensures forceRestart == (old(forceRestart) || a.Sighup?)
    {
      match a
      case ThreadsOption(n) => SetThreadsNumber(n, false);
      case PortOption(n) => SetPortNumber(n, false);
      case ConfigOption(lines) => GetParametersFromConfig(lines);
      case Sighup(lines) => HandlerSighup(lines);
    }

    /** The SIGHUP handler. */
    method HandlerSighup(lines: seq<string>)
      requires forall i :: 0 <= i < |lines| ==> NulFree(lines[i]) && HasValue(lines[i])
      modifies this
      ensures forceRestart
      ensures Current() == WithLines(old(Current()).(reloading := true), lines)
    {
      if !forceReloading {
        forceReloading := true;
      }
      forceRestart := true;
      GetParametersFromConfig(lines);
    }
  }

  lemma TokenOrNone(before: seq<char>, start: nat, delim: set<char>, after: seq<char>, token: Option<nat>, save: nat)
    requires Cut(before, start, delim, after, token, save)
    ensures token.Some? <==> First(Str(before, start), delim) < |Str(before, start)|
  {
  }

  // ------------------------------------------------------------- over any history

  datatype Assignment =
    | ThreadsOption(n: int)         // -n
    | PortOption(n: int)            // -p
    | ConfigOption(lines: seq<string>) // -c
    | Sighup(lines: seq<string>)

  function After(v: Values, a: Assignment): Values {
    match a
    case ThreadsOption(n) => WithThreads(v, n, false)
    case PortOption(n) => WithPort(v, n, false)
    case ConfigOption(lines) => WithLines(v, lines)
    case Sighup(lines) => WithLines(v.(reloading := true), lines)
  }

  function AfterAll(v: Values, history: seq<Assignment>): Values
    decreases |history|
  {
    if history == [] then v else AfterAll(After(v, history[0]), history[1..])
  }

  predicate Valid(v: Values) { PoolModel.ValidSettings(v.threads, v.port) }

  lemma {:induction false} LinesStayValid(v: Values, lines: seq<string>)
    requires Valid(v)
    ensures Valid(WithLines(v, lines)) && WithLines(v, lines).reloading == v.reloading
    decreases |lines|
  {
    if lines != [] {
      LinesStayValid(WithLine(v, lines[0]), lines[1..]);
    }
  }

  lemma {:induction false} HistoryStaysValid(v: Values, history: seq<Assignment>)
    requires Valid(v)
    ensures Valid(AfterAll(v, history))
    decreases |history|
  {
    if history != [] {
      match history[0] {
        case ConfigOption(lines) => LinesStayValid(v, lines);
        case Sighup(lines) => LinesStayValid(v.(reloading := true), lines);
        case _ =>
      }
      HistoryStaysValid(After(v, history[0]), history[1..]);
    }
  }

  /** Whatever options and reloads there have been, the next pool has between 1 and 256
      threads and a real port; a reload is a Hangup step of the pool. */
  lemma SettingsAlwaysValid(history: seq<Assignment>)
    ensures var v := AfterAll(DEFAULTS, history);
      1 <= v.threads <= 256 && 1 <= v.port <= 65535 && PoolModel.ValidSettings(v.threads, v.port)
  {
    HistoryStaysValid(DEFAULTS, history);
  }

  /** The valid values the lines give a parameter, in order. */
  function Given(lines: seq<string>, parameter: string, max: int): seq<int> {
    if lines == [] then []
    else (if Sets(lines[0], parameter) && InRange(ValueIn(lines[0]), max) then [ValueIn(lines[0])] else [])
         + Given(lines[1..], parameter, max)
  }

  function FirstOther(values: seq<int>, default: int): int {
    if values == [] then default else if values[0] != default then values[0] else FirstOther(values[1..], default)
  }

  lemma FirstOfGiven(lines: seq<string>, parameter: string, max: int, default: int)
    requires lines != []
    ensures FirstOther(Given(lines, parameter, max), default) ==
      if Sets(lines[0], parameter) && InRange(ValueIn(lines[0]), max) && ValueIn(lines[0]) != default
      then ValueIn(lines[0])
      else FirstOther(Given(lines[1..], parameter, max), default)
  {
    var rest := Given(lines[1..], parameter, max);
    assert ([ValueIn(lines[0])] + rest)[1..] == rest && [] + rest == rest;
  }

  /** Before any reload a file decides only what still has its default value, by its
      first valid line with another value. */
  lemma {:induction false} FileBeforeReload(v: Values, lines: seq<string>)
    requires !v.reloading
    ensures WithLines(v, lines).threads ==
      if v.threads != DEFAULT_THREADS_NUMBER then v.threads
      else FirstOther(Given(lines, "THREADS_NUMBER", PoolModel.MAX_THREADS_NUM), DEFAULT_THREADS_NUMBER)
    ensures WithLines(v, lines).port ==
      if v.port != DEFAULT_PORT_NUMBER then v.port
      else FirstOther(Given(lines, "PORT_NUMBER", PoolModel.MAX_PORT_NUMBER), DEFAULT_PORT_NUMBER)
    decreases |lines|
  {
    hide First, Last, Token, Rest, Atoi;
    if lines != [] {
      FileBeforeReload(WithLine(v, lines[0]), lines[1..]);
      FirstOfGiven(lines, "THREADS_NUMBER", PoolModel.MAX_THREADS_NUM, DEFAULT_THREADS_NUMBER);
      FirstOfGiven(lines, "PORT_NUMBER", PoolModel.MAX_PORT_NUMBER, DEFAULT_PORT_NUMBER);
    }
  }

  function LastOr(values: seq<int>, default: int): int {
    if values == [] then default else values[|values| - 1]
  }

  /** From the first reload on a file decides everything it has a valid line for, by the
      last one. */
  lemma {:induction false} FileAfterReload(v: Values, lines: seq<string>)
    requires v.reloading
    ensures WithLines(v, lines).threads ==
      LastOr(Given(lines, "THREADS_NUMBER", PoolModel.MAX_THREADS_NUM), v.threads)
    ensures WithLines(v, lines).port ==
      LastOr(Given(lines, "PORT_NUMBER", PoolModel.MAX_PORT_NUMBER), v.port)
    decreases |lines|
  {
    hide First, Last, Token, Rest, Atoi;
    if lines != [] {
      FileAfterReload(WithLine(v, lines[0]), lines[1..]);
    }
  }

  // ------------------------------------------------------------ what a line says

  /** A name, an equals sign and a number in decimal give the parameter of that name that
      number, whatever comes behind the digits. */
  lemma LineSays(name: string, n: nat, tail: string)
    requires name != "" && '=' !in name && (tail == "" || !IsDigit(tail[0]))
    ensures var line := name + "=" + Digits(n) + tail;
      && Parameter(line) == name && ValueIn(line) == n
      && (Sets(line, name) <==> n > 0)
      && (n < INT_LIMIT ==> HasValue(line))
  {
    hide First, Last, Token, Rest, SpanIn, SpanOut, Digits, Atoi;
    var digits := Digits(n);
    var line, value := name + "=" + digits + tail, digits + tail;
    assert line == name + ("=" + value);
    FirstWord(name, "=" + value, EQUAL);
    assert ("=" + value)[1..] == value;
    forall c | c in digits ensures c !in EQUAL {
      assert IsDigit(c);
    }
    LongerWord(digits, tail, EQUAL);
    WordStarts(digits, tail, EQUAL);
    var rest := tail[..SpanOut(tail, EQUAL)];
    assert rest == "" || rest[0] == tail[0];
    AtoiReads(n, rest);
  }

  lemma WordStarts(word: string, rest: string, delim: set<char>)
    requires word != "" && word[0] !in delim
    ensures First(word + rest, delim) == 0
  {
  }

  /** The file that comes with the server, line by line as getline returns it. */
  const SHIPPED := ["PORT_NUMBER=9000\n", "THREADS_NUMBER=20\n"]

  /** It takes the defaults, 10 threads and port 8888, to 20 threads and port 9000. */
  lemma ShippedFile()
    ensures DEFAULTS == Values(10, 8888, false)
    ensures WithLines(DEFAULTS, SHIPPED) == Values(20, 9000, false)
  {
    hide First, Last, Token, Rest, SpanIn, SpanOut, Atoi;
    SmallDigits();
    LineSays("PORT_NUMBER", 9000, "\n");
    LineSays("THREADS_NUMBER", 20, "\n");
    assert "PORT_NUMBER" + "=" + "9000" + "\n" == SHIPPED[0] && "THREADS_NUMBER" + "=" + "20" + "\n" == SHIPPED[1];
    assert SHIPPED[1..] == [SHIPPED[1]] && [SHIPPED[1]][1..] == [];
    var v := WithLine(DEFAULTS, SHIPPED[0]);
    assert v == Values(10, 9000, false);
    assert WithLine(v, SHIPPED[1]) == Values(20, 9000, false);
    assert "THREADS_NUMBER"[0] != "PORT_NUMBER"[0];
  }

  lemma SmallDigits()
    ensures Digits(9000) == "9000" && Digits(20) == "20"
  {
    assert Digits(9) == "9" && Digits(90) == "90" && Digits(900) == "900";
    assert Digits(2) == "2";
  }

  // ------------------------------------------------- options against files

  datatype Field = Threads | Port

  function Get(v: Values, f: Field): nat { if f.Threads? then v.threads else v.port }

  function DefaultOf(f: Field): nat { if f.Threads? then DEFAULT_THREADS_NUMBER else DEFAULT_PORT_NUMBER }

  function MaxOf(f: Field): int { if f.Threads? then PoolModel.MAX_THREADS_NUM else PoolModel.MAX_PORT_NUMBER }

  function OptionFor(f: Field, n: int): Assignment { if f.Threads? then ThreadsOption(n) else PortOption(n) }

  /** An option on the command line that sets this field. */
  predicate Chooses(a: Assignment, f: Field) {
    match a
    case ThreadsOption(n) => f.Threads? && InRange(n, MaxOf(f))
    case PortOption(n) => f.Port? && InRange(n, MaxOf(f))
    case _ => false
  }

  predicate NoReload(history: seq<Assignment>) {
    forall i :: 0 <= i < |history| ==> !history[i].Sighup?
  }

  lemma {:induction false} NotReloading(v: Values, history: seq<Assignment>)
    requires NoReload(history)
    ensures AfterAll(v, history).reloading == v.reloading
    decreases |history|
  {
    if history != [] {
      if history[0].ConfigOption? {
        LinesKeepReloading(v, history[0].lines);
      }
      NotReloading(After(v, history[0]), history[1..]);
    }
  }

  lemma {:induction false} LinesKeepReloading(v: Values, lines: seq<string>)
    ensures WithLines(v, lines).reloading == v.reloading
    decreases |lines|
  {
    if lines != [] {
      LinesKeepReloading(WithLine(v, lines[0]), lines[1..]);
    }
  }

  lemma {:induction false} Kept(v: Values, f: Field, history: seq<Assignment>)
    requires NoReload(history) && forall i :: 0 <= i < |history| ==> !Chooses(history[i], f)
    requires !v.reloading && Get(v, f) != DefaultOf(f)
    ensures Get(AfterAll(v, history), f) == Get(v, f)
    decreases |history|
  {
    if history != [] {
      if history[0].ConfigOption? {
        FileBeforeReload(v, history[0].lines);
        LinesKeepReloading(v, history[0].lines);
      }
      assert !history[0].Sighup? && !Chooses(history[0], f);
      Kept(After(v, history[0]), f, history[1..]);
    }
  }

  lemma {:induction false} AfterBoth(v: Values, first: seq<Assignment>, second: seq<Assignment>)
    ensures AfterAll(v, first + second) == AfterAll(AfterAll(v, first), second)
    decreases |first|
  {
    hide After;
    if first == [] {
      assert first + second == second;
    } else {
      assert (first + second)[1..] == first[1..] + second;
      AfterBoth(After(v, first[0]), first[1..], second);
    }
  }

  /** The last valid option for a field decides it, unless it asks for the default, in
      whatever order options and files come, until the first reload. */
  lemma OptionWins(before: seq<Assignment>, f: Field, n: int, later: seq<Assignment>)
    requires n > 0 && (if f.Threads? then n <= 256 && n != 10 else n <= 65535 && n != 8888)
    requires NoReload(before) && NoReload(later) && forall i :: 0 <= i < |later| ==> !Chooses(later[i], f)
    ensures Get(AfterAll(DEFAULTS, before + ([OptionFor(f, n)] + later)), f) == n
  {
    var v := AfterAll(DEFAULTS, before);
    AfterBoth(DEFAULTS, before, [OptionFor(f, n)] + later);
    NotReloading(DEFAULTS, before);
    assert ([OptionFor(f, n)] + later)[1..] == later;
    Kept(After(v, OptionFor(f, n)), f, later);
  }

  function NameOf(f: Field): string { if f.Threads? then "THREADS_NUMBER" else "PORT_NUMBER" }

  /** Right after a reload a field has the last valid value the file gives it, or what it
      had before, whatever that came from. */
  lemma ReloadWins(before: seq<Assignment>, lines: seq<string>, f: Field)
    ensures var given := Given(lines, NameOf(f), if f.Threads? then 256 else 65535);
      Get(AfterAll(DEFAULTS, before + [Sighup(lines)]), f) ==
        if given == [] then Get(AfterAll(DEFAULTS, before), f) else given[|given| - 1]
  {
    var v := AfterAll(DEFAULTS, before);
    AfterBoth(DEFAULTS, before, [Sighup(lines)]);
    assert [Sighup(lines)][1..] == [];
    assert AfterAll(v, [Sighup(lines)]) == After(v, Sighup(lines));
    FileAfterReload(v.(reloading := true), lines);
  }

  /** The values that lines of this form give a field are their numbers in range, in order. */
  lemma {:induction false} GivenNumbers(names: seq<string>, numbers: seq<nat>, f: Field)
    requires |names| == |numbers|
    requires forall i :: 0 <= i < |names| ==> names[i] != "" && '=' !in names[i]
    ensures Given(LinesOf(names, numbers), NameOf(f), MaxOf(f)) == InRangeOf(names, numbers, f)
    decreases |names|
  {
    hide First, Last, Token, Rest, SpanIn, SpanOut, Atoi, Digits;
    if names != [] {
      LineSays(names[0], numbers[0], "\n");
      GivenNumbers(names[1..], numbers[1..], f);
    }
  }

  function LinesOf(names: seq<string>, numbers: seq<nat>): seq<string>
    requires |names| == |numbers|
  {
    if names == [] then []
    else [names[0] + "=" + Digits(numbers[0]) + "\n"] + LinesOf(names[1..], numbers[1..])
  }

  function InRangeOf(names: seq<string>, numbers: seq<nat>, f: Field): seq<int>
    requires |names| == |numbers|
  {
    if names == [] then []
    else (if names[0] == NameOf(f) && 0 < numbers[0] <= (if f.Threads? then 256 else 65535) then [numbers[0]] else [])
         + InRangeOf(names[1..], numbers[1..], f)
  }
}
