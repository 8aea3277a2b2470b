/**
  The answer to LSF and EXEC: the server streams the command's output line by line and
  closes it with a terminator; the client collects whatever pieces arrive until it sees
  the terminator in its buffer.
*/
module Response {
  import opened CStrings
  import opened Network
  import opened Numbers
  import opened Protocol

  const BLOCK: nat := BUFF_SIZE - 1 // what the client's buffer holds before it is printed

  // ---------------------------------------------------------------------- server

  /** What one fgets(buff, BUFF_SIZE - 1, io) takes of the unread output. */
  function LineLength(t: string, limit: nat): (n: nat)
    ensures n <= |t| && n <= limit
    ensures t != "" && limit > 0 ==> n > 0
  {
    if t == "" || limit == 0 then 0
    else if t[0] == '\n' then 1
    else 1 + LineLength(t[1..], limit - 1)
  }

  function Lines(t: string): seq<string> {
    var n := LineLength(t, BUFF_SIZE - 2);
    if t == "" then [] else [t[..n]] + Lines(t[n..])
  }

  /** LSF writes CR LF over the last character of what fgets returned. */
  function Converted(line: string): string
    requires line != ""
  {
    line[..|line| - 1] + "\r\n"
  }

  predicate NoEmptyLine(lines: seq<string>) { forall i :: 0 <= i < |lines| ==> lines[i] != "" }

  function ConvertedLines(lines: seq<string>): string
    requires NoEmptyLine(lines)
  {
    if lines == [] then "" else Converted(lines[0]) + ConvertedLines(lines[1..])
  }

  lemma {:induction false} LinesNotEmpty(t: string)
    ensures NoEmptyLine(Lines(t)) && Flatten(Lines(t)) == t
    decreases |t|
  {
    if t != "" {
      var n := LineLength(t, BUFF_SIZE - 2);
      LinesNotEmpty(t[n..]);
      assert Lines(t)[1..] == Lines(t[n..]);
      assert t[..n] + t[n..] == t;
    }
  }

  function Body(output: string, lsf: bool): string {
    LinesNotEmpty(output);
    if lsf then ConvertedLines(Lines(output)) else output
  }

  /** The exit status, when it is not zero, goes directly before the terminator. */
  function Trailer(status: int): string {
    if status == 0 then END_OF_LINE else Printed(status) + END_OF_LINE
  }

  function Printed(n: int): string { if n < 0 then "-" + Digits(-n) else Digits(n) }

  function Answer(output: string, lsf: bool, status: int): string {
    Body(output, lsf) + Trailer(status)
  }

  /** What goes out for the first piece fgets returns, and what is left to send. */
  lemma BodyUnfold(t: string, lsf: bool)
    ensures t == "" ==> Body(t, lsf) == ""
    ensures t != "" ==>
      var n := LineLength(t, BUFF_SIZE - 2);
      0 < n && Body(t, lsf) == (if lsf then Converted(t[..n]) else t[..n]) + Body(t[n..], lsf)
  {
    if t != "" {
      var n := LineLength(t, BUFF_SIZE - 2);
      LinesNotEmpty(t);
      LinesNotEmpty(t[n..]);
      assert Lines(t)[0] == t[..n] && Lines(t)[1..] == Lines(t[n..]);
      assert t[..n] + t[n..] == t;
    }
  }

  /** The command's output holds no NUL, at which the server would cut a line. */
  method Serve(output: string, lsf: bool, status: int, down: Stream)
    requires NulFree(output)
    modifies down
    ensures down.bytes == old(down.bytes) + "300" + Answer(output, lsf, status)
  {
    hide Body, Trailer, LineLength;
    down.Write(CONTINUE);
    ghost var before := down.bytes;
    var io := output;
    ghost var body := "";
    while io != ""
      invariant down.bytes == before + body
      invariant Body(output, lsf) == body + Body(io, lsf)
      decreases |io|
    {
      BodyUnfold(io, lsf);
      var n := LineLength(io, BUFF_SIZE - 2);
      var buff := io[..n];
      io := io[n..];
      if lsf {
        buff := Converted(buff);
      }
      down.Write(buff);
      body := body + buff;
    }
    BodyUnfold(io, lsf);
    down.Write(Trailer(status));
  }

  /** Between the output and the terminator an answer has nothing when the command
      succeeded, and otherwise text that atoi reads as its exit status. */
  lemma AnswerText(output: string, lsf: bool, status: int) returns (text: string)
    ensures Answer(output, lsf, status) == Body(output, lsf) + text + " \r\n.\r\n"
    ensures !lsf ==> Body(output, lsf) == output
    ensures status == 0 ==> text == ""
    ensures status != 0 ==> Atoi(text) == status
    ensures status > 0 ==> text == Digits(status)
  {
    hide Digits, Atoi, ConvertedLines, Lines, Printed, NoEmptyLine, Flatten;
    text := if status == 0 then "" else Printed(status);
    assert Body(output, lsf) + "" == Body(output, lsf);
    assert Body(output, lsf) + (text + END_OF_LINE) == Body(output, lsf) + text + END_OF_LINE;
    PrintedReads(status);
  }

  lemma PrintedReads(status: int)
    ensures Atoi(Printed(status)) == status && (status > 0 ==> Printed(status) == Digits(status))
  {
    hide Digits, Atoi;
    if status < 0 {
      SignedParse("", '-', -status, "", -status + 1);
      assert "" + (['-'] + (Digits(-status) + "")) == Printed(status);
    } else {
      PrintAtoi(status);
    }
  }

  // ---------------------------------------------------- what LSF's conversion means

  /** Every line feed becomes CR LF. */
  function CrLf(t: string): string {
    if t == "" then "" else (if t[0] == '\n' then "\r\n" else [t[0]]) + CrLf(t[1..])
  }

  function LineFeeds(t: string): nat {
    if t == "" then 0 else (if t[0] == '\n' then 1 else 0) + LineFeeds(t[1..])
  }

  predicate EndsLine(line: string) { line != "" && line[|line| - 1] == '\n' }

  /** Every piece fgets returns is a whole line. */
  predicate WholeLines(t: string) { forall i :: 0 <= i < |Lines(t)| ==> EndsLine(Lines(t)[i]) }

  lemma {:induction false} CrLfLength(t: string)
    ensures |CrLf(t)| == |t| + LineFeeds(t)
  {
    if t != "" {
      CrLfLength(t[1..]);
    }
  }

  lemma {:induction false} CrLfAppend(s: string, t: string)
    ensures CrLf(s + t) == CrLf(s) + CrLf(t) && LineFeeds(s + t) == LineFeeds(s) + LineFeeds(t)
  {
    if s == "" {
      assert s + t == t;
    } else {
      assert (s + t)[1..] == s[1..] + t;
      CrLfAppend(s[1..], t);
    }
  }

  /** A piece has one line feed at most, at its end. */
  lemma {:induction false} OneLineFeed(t: string, limit: nat)
    requires t != "" && limit > 0
    ensures var line := t[..LineLength(t, limit)];
      && LineFeeds(line) == (if EndsLine(line) then 1 else 0)
      && (EndsLine(line) ==> CrLf(line) == Converted(line))
  {
    var line := t[..LineLength(t, limit)];
    if t[0] == '\n' || limit == 1 || |t| == 1 {
      assert line == [t[0]];
      assert line[1..] == "" && line[..0] == "";
    } else {
      var rest := t[1..][..LineLength(t[1..], limit - 1)];
      OneLineFeed(t[1..], limit - 1);
      assert line[1..] == rest && line == [t[0]] + rest;
      assert EndsLine(rest) ==> [t[0]] + rest[..|rest| - 1] == line[..|line| - 1];
    }
  }

  lemma {:induction false} ConversionLength(t: string)
    ensures NoEmptyLine(Lines(t))
    ensures |ConvertedLines(Lines(t))| == |t| + |Lines(t)|
    ensures LineFeeds(t) <= |Lines(t)|
    ensures LineFeeds(t) == |Lines(t)| <==> WholeLines(t)
    ensures WholeLines(t) ==> ConvertedLines(Lines(t)) == CrLf(t)
    decreases |t|
  {
    LinesNotEmpty(t);
    if t != "" {
      var n := LineLength(t, BUFF_SIZE - 2);
      var line, rest := t[..n], t[n..];
      OneLineFeed(t, BUFF_SIZE - 2);
      ConversionLength(rest);
      CrLfAppend(line, rest);
      assert t == line + rest && Lines(t)[1..] == Lines(rest);
      if WholeLines(t) {
        assert EndsLine(Lines(t)[0]);
        forall i | 0 <= i < |Lines(rest)| ensures EndsLine(Lines(rest)[i]) {
          assert Lines(rest)[i] == Lines(t)[i + 1];
        }
      } else if EndsLine(line) {
        assert !WholeLines(rest);
      }
    }
  }

  /** The LSF answer is the output with CR LF line ends exactly when the output consists
      of whole lines that fit the server's buffer; otherwise characters are lost. */
  lemma LsfConvertsIff(t: string)
    ensures Body(t, true) == CrLf(t) <==> WholeLines(t)
  {
    ConversionLength(t);
    CrLfLength(t);
  }

  /** Text made of these records, each ended by a line feed, as awk prints it. */
  function Printout(records: seq<string>): string {
    if records == [] then "" else records[0] + "\n" + Printout(records[1..])
  }

  /** Records without a line feed that fit the server's buffer together with theirs. */
  predicate Fit(records: seq<string>) {
    forall i :: 0 <= i < |records| ==> '\n' !in records[i] && |records[i]| < BUFF_SIZE - 2
  }

  lemma {:induction false} RecordLength(record: string, rest: string, limit: nat)
    requires '\n' !in record && |record| < limit
    ensures LineLength(record + "\n" + rest, limit) == |record| + 1
  {
    var t := record + "\n" + rest;
    if record == "" {
      assert t[0] == '\n';
    } else {
      assert t[0] == record[0] && record[0] in record;
      assert t[1..] == record[1..] + "\n" + rest;
      RecordLength(record[1..], rest, limit - 1);
    }
  }

  function FedLines(records: seq<string>): seq<string> {
    if records == [] then [] else [records[0] + "\n"] + FedLines(records[1..])
  }

  lemma {:induction false} FedLinesEnd(records: seq<string>)
    ensures |FedLines(records)| == |records|
    ensures forall i :: 0 <= i < |records| ==> FedLines(records)[i] == records[i] + "\n"
  {
    if records != [] {
      FedLinesEnd(records[1..]);
    }
  }

  lemma {:induction false} RecordsAreLines(records: seq<string>, last: string)
    requires Fit(records)
    ensures Lines(Printout(records) + last) == FedLines(records) + Lines(last)
  {
    if records == [] {
      assert Printout(records) + last == last;
      assert FedLines(records) + Lines(last) == Lines(last);
    } else {
      var t, record := Printout(records) + last, records[0];
      var rest := Printout(records[1..]) + last;
      assert t == record + "\n" + rest;
      RecordLength(record, rest, BUFF_SIZE - 2);
      RecordsAreLines(records[1..], last);
      assert t[..|record| + 1] == record + "\n" && t[|record| + 1..] == rest;
      assert Lines(t) == [record + "\n"] + Lines(rest);
    }
  }

  predicate NoFeeds(records: seq<string>) { forall i :: 0 <= i < |records| ==> '\n' !in records[i] }

  /** fgets stops in the middle of a record that does not fit. */
  lemma {:induction false} LongIsCut(record: string, rest: string, limit: nat)
    requires '\n' !in record && |record| >= limit > 0
    ensures LineLength(record + "\n" + rest, limit) == limit
  {
    var t := record + "\n" + rest;
    assert t[0] == record[0] && record[0] in record;
    if limit > 1 {
      assert t[1..] == record[1..] + "\n" + rest;
      LongIsCut(record[1..], rest, limit - 1);
    }
  }

  /** Up to the first record that does not fit, the pieces are the records. */
  lemma {:induction false} LongRecord(records: seq<string>, k: nat)
    requires NoFeeds(records) && k < |records| && Fit(records[..k]) && |records[k]| >= BUFF_SIZE - 2
    ensures !WholeLines(Printout(records))
  {
    var last := Printout(records[k..]);
    PrintoutSplits(records, k);
    RecordsAreLines(records[..k], last);
    FedLinesEnd(records[..k]);
    var record, rest := records[k], Printout(records[k..][1..]);
    assert last == record + "\n" + rest;
    LongIsCut(record, rest, BUFF_SIZE - 2);
    var piece := last[..BUFF_SIZE - 2];
    assert Lines(last)[0] == piece == record[..BUFF_SIZE - 2];
    assert piece[|piece| - 1] in record;
    assert Lines(Printout(records))[k] == piece;
  }

  lemma {:induction false} PrintoutSplits(records: seq<string>, k: nat)
    requires k <= |records|
    ensures Printout(records) == Printout(records[..k]) + Printout(records[k..])
  {
    if k > 0 {
      PrintoutSplits(records[1..], k - 1);
      assert records[..k][1..] == records[1..][..k - 1] && records[1..][k - 1..] == records[k..];
      assert records[..k][0] == records[0];
    } else {
      assert records[..0] == [] && records[0..] == records;
    }
  }

  lemma FitIsWhole(records: seq<string>)
    requires Fit(records)
    ensures WholeLines(Printout(records))
  {
    RecordsAreLines(records, "");
    FedLinesEnd(records);
    assert Printout(records) + "" == Printout(records) && Lines("") == [];
    assert Lines(Printout(records)) == FedLines(records);
  }

  lemma {:induction false} FirstUnfit(records: seq<string>) returns (k: nat)
    requires NoFeeds(records) && !Fit(records)
    ensures k < |records| && Fit(records[..k]) && |records[k]| >= BUFF_SIZE - 2
  {
    assert records[..|records|] == records;
    k := 0;
    while k < |records| && |records[k]| < BUFF_SIZE - 2
      invariant k <= |records| && Fit(records[..k])
    {
      k := k + 1;
    }
  }

  /** What awk prints is such records.  An LSF answer made of them is exact, every line feed
      having become CR LF and nothing else having changed, if and only if no record is
      longer than 65532 characters. */
  lemma RecordsConvertIff(records: seq<string>)
    requires NoFeeds(records)
    ensures Body(Printout(records), true) == CrLf(Printout(records)) <==>
      forall i :: 0 <= i < |records| ==> |records[i]| <= 65532
  {
    LsfConvertsIff(Printout(records));
    if Fit(records) {
      FitIsWhole(records);
    } else {
      var k := FirstUnfit(records);
      LongRecord(records, k);
    }
  }

  /** A last line without a line feed loses its last character to the CR LF. */
  lemma LastLineCut(records: seq<string>, last: string)
    requires Fit(records) && last != "" && '\n' !in last && |last| <= BUFF_SIZE - 2
    ensures Body(Printout(records) + last, true) == CrLf(Printout(records)) + last[..|last| - 1] + "\r\n"
  {
    RecordsAreLines(records, last);
    FedLinesEnd(records);
    UnfedLine(last, BUFF_SIZE - 2);
    assert Lines(last) == [last] by {
      assert last[..|last|] == last && last[|last|..] == "";
    }
    ConvertedAppend(FedLines(records), [last]);
    RecordsConvertIff(records);
    RecordsAreLines(records, "");
    assert Printout(records) + "" == Printout(records) && Lines("") == [];
    assert Lines(Printout(records)) == FedLines(records);
    assert [last][1..] == [];
    LinesNotEmpty(Printout(records) + last);
  }

  lemma {:induction false} UnfedLine(t: string, limit: nat)
    requires '\n' !in t && |t| <= limit
    ensures LineLength(t, limit) == |t|
  {
    if t != "" {
      assert t[0] in t;
      UnfedLine(t[1..], limit - 1);
    }
  }

  lemma {:induction false} ConvertedAppend(first: seq<string>, second: seq<string>)
    requires NoEmptyLine(first) && NoEmptyLine(second)
    ensures NoEmptyLine(first + second)
    ensures ConvertedLines(first + second) == ConvertedLines(first) + ConvertedLines(second)
  {
    if first == [] {
      assert first + second == second;
    } else {
      assert (first + second)[1..] == first[1..] + second;
      ConvertedAppend(first[1..], second);
    }
  }

  // ---------------------------------------------------------------------- client

  predicate At(t: string, p: string, i: nat) {
    i + |p| <= |t| && t[i..i + |p|] == p
  }

  /** strstr finds p in t. */
  predicate Occurs(t: string, p: string) {
    exists i: nat :: i <= |t| && At(t, p, i)
  }

  /** NUL-free, and the terminator is at its end and nowhere else. */
  ghost predicate Terminates(r: string) {
    && NulFree(r)
    && |r| >= |END_OF_LINE|
    && forall i: nat :: At(r, END_OF_LINE, i) <==> i == |r| - |END_OF_LINE|
  }

  lemma AtInside(r: string, p: string, a: nat, b: nat, i: nat)
    requires a <= b <= |r|
    ensures At(r[a..b], p, i) <==> a + i + |p| <= b && At(r, p, a + i)
  {
    if i + |p| <= b - a {
      var inner, outer := r[a..b][i..i + |p|], r[a + i..a + i + |p|];
      forall k | 0 <= k < |p| ensures inner[k] == outer[k] {
        assert inner[k] == r[a..b][i + k] == r[a + i + k];
      }
      assert inner == outer;
    }
  }

  /** A piece of such an answer holds the terminator when it reaches the end and is as
      long as the terminator. */
  lemma OccursAtEnd(r: string, a: nat, b: nat)
    requires Terminates(r) && a <= b <= |r|
    ensures Occurs(r[a..b], END_OF_LINE) <==> b == |r| && b - a >= |END_OF_LINE|
  {
    hide At;
    var piece, n := r[a..b], |END_OF_LINE|;
    forall i: nat ensures At(piece, END_OF_LINE, i) <==> a + i + n <= b && At(r, END_OF_LINE, a + i) {
      AtInside(r, END_OF_LINE, a, b, i);
    }
    if b == |r| && b - a >= n {
      var i: nat := |piece| - n;
      assert At(piece, END_OF_LINE, i);
    }
  }

  // ------------------------------------------------------------ reading by pieces

  /** The client between two reads: what it has printed, what its buffer holds, what it
      has not read, and whether it has stopped. */
  datatype Client = Client(printed: string, kept: string, unread: string, done: bool)

  /** A read of n bytes; of none at the end of the stream. */
  predicate CanRead(c: Client, n: nat) {
    && !c.done
    && if c.unread == "" then n == 0 else 1 <= n <= |c.unread| && |c.kept| + n <= BLOCK
  }

  /** A full buffer is printed and emptied, and printed again with all it holds if it had
      the terminator in it, as strstr still finds it there. */
  function AfterRead(c: Client, n: nat): Client
    requires CanRead(c, n)
  {
    if n == 0 then c.(done := true)
    else
      var text := c.kept + c.unread[..n];
      var seen := Occurs(text, END_OF_LINE);
      Client(c.printed + (if |text| == BLOCK then text else "") + (if seen then text else ""),
             if |text| == BLOCK then "" else text, c.unread[n..], seen)
  }

  /** The answer can be cut into these reads. */
  predicate Cuts(r: string, cuts: seq<nat>)
    decreases |cuts|, 0
  {
    cuts == [] || (Cuts(r, cuts[..|cuts| - 1]) && CanRead(After(r, cuts[..|cuts| - 1]), cuts[|cuts| - 1]))
  }

  function After(r: string, cuts: seq<nat>): Client
    requires Cuts(r, cuts)
    decreases |cuts|, 1
  {
    if cuts == [] then Client("", "", r, false)
    else AfterRead(After(r, cuts[..|cuts| - 1]), cuts[|cuts| - 1])
  }

  lemma NoReads(r: string)
    ensures Cuts(r, []) && After(r, []) == Client("", "", r, false)
  {
  }

  lemma OneMoreRead(r: string, cuts: seq<nat>, n: nat)
    requires Cuts(r, cuts) && CanRead(After(r, cuts), n)
    ensures Cuts(r, cuts + [n]) && After(r, cuts + [n]) == AfterRead(After(r, cuts), n)
  {
    assert (cuts + [n])[..|cuts|] == cuts;
  }

  /** The client has printed whole buffers, holds less than one, and has not seen the
      terminator in what it holds nor in the buffer before. */
  ghost predicate Reading(r: string, c: Client) {
    var f := |c.printed|;
    && !c.done && f % BLOCK == 0 && |c.kept| < BLOCK
    && f + |c.kept| + |c.unread| == |r|
    && c.printed == r[..f] && c.kept == r[f..f + |c.kept|] && c.unread == r[f + |c.kept|..]
    && !Occurs(c.kept, END_OF_LINE)
    && (f > 0 ==> f >= BLOCK && !Occurs(r[f - BLOCK..f], END_OF_LINE))
  }

  /** How it stops: at the end of the stream, or with the terminator in this text. */
  ghost predicate Stopped(r: string, before: Client, c: Client) {
    var f := |before.printed|;
    var b := |r| - |c.unread|;
    && Reading(r, before) && c.done && f <= b <= |r| && b - f <= BLOCK
    && c.unread == r[b..]
    && if before.unread == "" then b == |r| && c.printed == r[..f] && b - f == |before.kept|
       else
         && Occurs(r[f..b], END_OF_LINE)
         && c.printed == r[..b] + (if b - f == BLOCK then r[f..b] else "")
  }

  lemma NothingOccurs()
    ensures !Occurs("", END_OF_LINE)
  {
  }

  lemma ReadKeeps(r: string, c: Client, n: nat)
    requires Reading(r, c) && CanRead(c, n)
    ensures var c' := AfterRead(c, n); if c'.done then Stopped(r, c, c') else Reading(r, c')
  {
    hide Occurs;
    NothingOccurs();
    if n > 0 {
      var f := |c.printed|;
      var b := f + |c.kept| + n;
      var text := r[f..b];
      ReadPieces(r, f, f + |c.kept|, n);
      BlockRest(f, b - f);
      assert AfterRead(c, n) ==
        Client(r[..f] + (if b - f == BLOCK then text else "") + (if Occurs(text, END_OF_LINE) then text else ""),
               if b - f == BLOCK then "" else text, r[b..], Occurs(text, END_OF_LINE));
    }
  }

  lemma ReadPieces(r: string, f: nat, a: nat, n: nat)
    requires f <= a && a + n <= |r|
    ensures r[f..a] + r[a..][..n] == r[f..a + n] && r[a..][n..] == r[a + n..]
    ensures r[..f] + r[f..a + n] == r[..a + n]
    ensures r[..f] + "" == r[..f] && r[..a + n] + "" == r[..a + n]
  {
  }

  /** After any reads the client is reading, or stopped at the last of them. */
  lemma {:induction false} AlongCuts(r: string, cuts: seq<nat>) returns (before: Client)
    requires Cuts(r, cuts)
    ensures var c := After(r, cuts); if c.done then Stopped(r, before, c) else Reading(r, c)
    decreases |cuts|
  {
    hide Occurs;
    if cuts == [] {
      NothingOccurs();
      before := After(r, cuts);
    } else {
      var earlier := AlongCuts(r, cuts[..|cuts| - 1]);
      before := After(r, cuts[..|cuts| - 1]);
      ReadKeeps(r, before, cuts[|cuts| - 1]);
    }
  }

  // ---------------------------------------------------- one terminator, at the end

  /** What the client prints of such an answer: it prints each full buffer and starts
      again, so a terminator that ends a full buffer is seen a second time, and one cut
      by the end of a buffer is not seen. */
  function Shown(r: string): string {
    if |r| % BLOCK >= |END_OF_LINE| then r
    else if |r| % BLOCK == 0 && |r| > 0 then r + r[|r| - BLOCK..]
    else r[..|r| - |r| % BLOCK]
  }

  lemma BlockRest(f: nat, n: nat)
    requires f % BLOCK == 0 && n <= BLOCK
    ensures n < BLOCK ==> (f + n) % BLOCK == n
    ensures n == BLOCK ==> (f + n) % BLOCK == 0
  {
  }

  /** However such an answer is cut into reads, the client reads all of it and prints
      Shown(r), which is the answer, once, exactly when the last partial buffer holds the
      whole terminator. */
  lemma ShownAlways(r: string, cuts: seq<nat>)
    requires Terminates(r) && Cuts(r, cuts) && After(r, cuts).done
    ensures var c := After(r, cuts);
      && c.unread == "" && c.printed == Shown(r)
      && (c.printed == r <==> |r| % BLOCK >= |END_OF_LINE|)
  {
    var before := AlongCuts(r, cuts);
    ShownAtStop(r, before, After(r, cuts));
    ShownIff(r);
  }

  lemma ShownAtStop(r: string, before: Client, c: Client)
    requires Terminates(r) && Stopped(r, before, c)
    ensures c.unread == "" && c.printed == Shown(r)
  {
    var f := |before.printed|;
    var b := |r| - |c.unread|;
    BlockRest(f, b - f);
    OccursAtEnd(r, f, b);
    hide Occurs, At;
    if before.unread == "" {
      if f > 0 {
        OccursAtEnd(r, f - BLOCK, f);
      }
      assert r[f..|r|] == before.kept;
    } else {
      assert r[..|r|] == r && r + "" == r;
    }
  }

  lemma ShownIff(r: string)
    requires |r| >= |END_OF_LINE|
    ensures Shown(r) == r <==> |r| % BLOCK >= |END_OF_LINE|
  {
    if |r| % BLOCK == 0 {
      assert |r + r[|r| - BLOCK..]| == |r| + BLOCK;
    }
  }

  /** Plain text before the terminator makes an answer that ends with its terminator and
      has it nowhere else. */
  lemma PlainTerminates(text: string)
    requires NulFree(text) && ' ' !in text
    ensures Terminates(text + END_OF_LINE)
  {
    var r := text + END_OF_LINE;
    forall k | 0 <= k < |text| ensures r[k] != ' ' {
      assert r[k] in text;
    }
    forall i: nat ensures At(r, END_OF_LINE, i) <==> i == |text| {
      if At(r, END_OF_LINE, i) {
        assert r[i] == r[i..i + |END_OF_LINE|][0] == ' ';
      }
      assert r[|text|..|text| + |END_OF_LINE|] == END_OF_LINE;
    }
  }

  /** A command that prints 65530 letters and succeeds: the client shows all but the last
      two characters of the answer. */
  lemma ShownWrongly() returns (output: string)
    ensures NulFree(output) && Terminates(Answer(output, false, 0))
    ensures |Answer(output, false, 0)| == 65536
    ensures Shown(Answer(output, false, 0)) == Answer(output, false, 0)[..65534]
  {
    output := seq(BLOCK - 4, _ => 'a');
    PlainTerminates(output);
    assert Answer(output, false, 0) == output + END_OF_LINE;
  }

  // --------------------------------------------------------- terminators anywhere

  /** However the answer is cut, the client reads all of it and prints it, once. */
  ghost predicate AlwaysWhole(r: string) {
    forall cuts: seq<nat> ::
      Cuts(r, cuts) && After(r, cuts).done ==> After(r, cuts).printed == r && After(r, cuts).unread == ""
  }

  /** The terminator is inside one of the client's buffers, and not across two. */
  predicate Fits(i: nat) { i % BLOCK + |END_OF_LINE| <= BLOCK }

  /** The last buffer is partial and holds the terminator at the end; no other terminator
      is inside a buffer. */
  ghost predicate SeenOnce(r: string) {
    && |r| % BLOCK >= |END_OF_LINE|
    && forall i: nat :: At(r, END_OF_LINE, i) && Fits(i) ==> i == |r| - |END_OF_LINE|
  }

  ghost predicate Ends(r: string) { |r| >= |END_OF_LINE| && At(r, END_OF_LINE, |r| - |END_OF_LINE|) }

  /** A terminator in a piece of one buffer is one of the answer that fits. */
  lemma OccursFits(r: string, f: nat, b: nat) returns (i: nat)
    requires f % BLOCK == 0 && f <= b <= |r| && b - f <= BLOCK && Occurs(r[f..b], END_OF_LINE)
    ensures f <= i && i + |END_OF_LINE| <= b && At(r, END_OF_LINE, i) && Fits(i)
  {
    var j: nat :| j <= b - f && At(r[f..b], END_OF_LINE, j);
    AtInside(r, END_OF_LINE, f, b, j);
    i := f + j;
    BlockRest(f, j);
  }

  lemma OccursIn(r: string, f: nat, b: nat, i: nat)
    requires f <= i && i + |END_OF_LINE| <= b <= |r| && At(r, END_OF_LINE, i)
    ensures Occurs(r[f..b], END_OF_LINE)
  {
    AtInside(r, END_OF_LINE, f, b, i - f);
    assert At(r[f..b], END_OF_LINE, i - f);
  }

  /** At the end of the stream a last partial buffer that holds the terminator has been
      seen, and so has a last full one. */
  lemma NotMissed(r: string, c: Client)
    requires Ends(r) && Reading(r, c) && c.unread == ""
    ensures 0 < |c.kept| < |END_OF_LINE|
  {
    var f, i := |c.printed|, |r| - |END_OF_LINE|;
    assert c.kept == r[f..|r|];
    if |c.kept| >= |END_OF_LINE| {
      OccursIn(r, f, |r|, i);
    }
    if |c.kept| == 0 {
      OccursIn(r, f - BLOCK, f, i);
    }
  }

  lemma SeenOnceIsWhole(r: string, cuts: seq<nat>)
    requires Ends(r) && SeenOnce(r) && Cuts(r, cuts) && After(r, cuts).done
    ensures After(r, cuts).printed == r && After(r, cuts).unread == ""
  {
    var before := AlongCuts(r, cuts);
    var c := After(r, cuts);
    var f, b := |before.printed|, |r| - |c.unread|;
    hide Occurs, At;
    BlockRest(f, b - f);
    if before.unread == "" {
      NotMissed(r, before);
    } else {
      var i := OccursFits(r, f, b);
      assert r[..|r|] == r && r + "" == r;
    }
  }

  /** With fewer bytes than the terminator in the last buffer, nothing is shown whole. */
  lemma ShortLastBuffer(r: string, cuts: seq<nat>)
    requires Ends(r) && |r| % BLOCK < |END_OF_LINE| && Cuts(r, cuts) && After(r, cuts).done
    ensures After(r, cuts).printed != r || After(r, cuts).unread != ""
  {
    var before := AlongCuts(r, cuts);
    var c := After(r, cuts);
    var f, b := |before.printed|, |r| - |c.unread|;
    hide Occurs, At;
    BlockRest(f, b - f);
    if before.unread == "" {
      NotMissed(r, before);
    } else if c.unread == "" {
      var i := OccursFits(r, f, b);
      assert |r[..b] + r[f..b]| == |r| + (b - f);
    }
  }

  /** Reading byte by byte, the client stops before position b or is there. */
  lemma {:induction false} ByteByByte(r: string, b: nat) returns (cuts: seq<nat>)
    requires b <= |r|
    ensures Cuts(r, cuts)
    ensures var c := After(r, cuts); |c.unread| >= |r| - b && (!c.done ==> |c.unread| == |r| - b)
    decreases b
  {
    if b == 0 {
      cuts := [];
    } else {
      cuts := ByteByByte(r, b - 1);
      var c := After(r, cuts);
      if !c.done {
        var before := AlongCuts(r, cuts);
        OneMoreRead(r, cuts, 1);
        cuts := cuts + [1];
      }
    }
  }

  lemma {:induction false} SomeCuts(r: string) returns (cuts: seq<nat>)
    ensures Cuts(r, cuts) && After(r, cuts).done
  {
    cuts := ByteByByte(r, |r|);
    if !After(r, cuts).done {
      OneMoreRead(r, cuts, 0);
      cuts := cuts + [0];
    }
  }

  lemma BlockStart(f: nat, i: nat)
    requires f % BLOCK == 0 && f <= i + |END_OF_LINE| - 1 < f + BLOCK && Fits(i)
    ensures f <= i
  {
  }

  /** Byte by byte, the client stops at a terminator inside a buffer, at the latest. */
  lemma EarlyStop(r: string, i: nat) returns (cuts: seq<nat>)
    requires At(r, END_OF_LINE, i) && Fits(i) && i + |END_OF_LINE| < |r|
    ensures Cuts(r, cuts) && After(r, cuts).done && After(r, cuts).unread != ""
  {
    var b := i + |END_OF_LINE|;
    cuts := ByteByByte(r, b - 1);
    var c := After(r, cuts);
    if !c.done {
      var before := AlongCuts(r, cuts);
      var f := |c.printed|;
      BlockStart(f, i);
      OccursIn(r, f, b, i);
      assert c.kept + c.unread[..1] == r[f..b];
      OneMoreRead(r, cuts, 1);
      cuts := cuts + [1];
    }
  }

  /** An answer is shown whole under every fragmentation exactly when its last partial
      buffer holds the terminator at its end and no buffer holds another one. */
  lemma AlwaysWholeIff(r: string)
    requires Ends(r)
    ensures AlwaysWhole(r) <==> SeenOnce(r)
  {
    hide At, Occurs;
    if SeenOnce(r) {
      forall cuts: seq<nat> | Cuts(r, cuts) && After(r, cuts).done
        ensures After(r, cuts).printed == r && After(r, cuts).unread == ""
      {
        SeenOnceIsWhole(r, cuts);
      }
    } else if |r| % BLOCK < |END_OF_LINE| {
      var cuts := SomeCuts(r);
      ShortLastBuffer(r, cuts);
    } else {
      var i: nat :| At(r, END_OF_LINE, i) && Fits(i) && i != |r| - |END_OF_LINE|;
      AtEndsInside(r, i);
      var cuts := EarlyStop(r, i);
    }
  }

  lemma AtEndsInside(r: string, i: nat)
    requires At(r, END_OF_LINE, i)
    ensures i + |END_OF_LINE| <= |r|
  {
  }

  /** Every answer of the server ends with the terminator. */
  lemma AnswerEnds(output: string, lsf: bool, status: int)
    ensures Ends(Answer(output, lsf, status))
  {
    var r := Answer(output, lsf, status);
    var front := Body(output, lsf) + if status == 0 then "" else Printed(status);
    assert r == front + END_OF_LINE;
  }

  // --------------------------------------------------------------------- the loop

  /** The client's loop, on a stream without NUL. */
  method Show(down: Stream) returns (printed: string, ghost cuts: seq<nat>)
    requires NulFree(down.bytes)
    modifies down
    ensures Cuts(old(down.bytes), cuts)
    ensures var c := After(old(down.bytes), cuts); c.done && printed == c.printed && down.bytes == c.unread
    ensures Terminates(old(down.bytes)) ==> printed == Shown(old(down.bytes)) && down.bytes == ""
    ensures Terminates(old(down.bytes)) ==>
      (printed == old(down.bytes) <==> |old(down.bytes)| % BLOCK >= |END_OF_LINE|)
  {
    hide Terminates, At, Occurs, Shown, Str, Reading, Stopped, Cuts, After;
    ghost var r := down.bytes;
    cuts := [];
    var buff := new char[BUFF_SIZE](_ => NUL);
    var length := 0;
    printed := "";
    NoReads(r);
    while true
      invariant buff.Length == BUFF_SIZE && fresh(buff) && length < BLOCK
      invariant NulFree(buff[..length]) && NulFree(down.bytes)
      invariant Cuts(r, cuts) && After(r, cuts) == Client(printed, buff[..length], down.bytes, false)
      decreases |down.bytes|
    {
      ghost var kept, unread := buff[..length], down.bytes;
      var bytes := down.Read(BUFF_SIZE - length - 1);
      OneMoreRead(r, cuts, |bytes|);
      cuts := cuts + [|bytes|];
      assert unread[..|bytes|] == bytes && unread[|bytes|..] == down.bytes;
      if bytes == "" {
        break;
      }
      length := ReadInto(buff, length, bytes);
      ghost var text := kept + bytes;
      assert buff[..][..length] == text;
      StrOfPrefix(buff[..], text);
      if length == BUFF_SIZE - 1 {
        printed := printed + Str(buff[..], 0);
        length := 0;
      }
      if Occurs(Str(buff[..], 0), END_OF_LINE) {
        printed := printed + Str(buff[..], 0);
        break;
      }
    }
    if Terminates(r) {
      ShownAlways(r, cuts);
    }
  }

  /** read into buff + length, and a NUL behind. */
  method ReadInto(buff: array<char>, length: nat, bytes: string) returns (total: nat)
    requires length + |bytes| < buff.Length
    modifies buff
    ensures total == length + |bytes| && buff[total] == NUL
    ensures buff[..total] == old(buff[..length]) + bytes
  {
    total := length + |bytes|;
    forall k | 0 <= k < |bytes| {
      buff[length + k] := bytes[k];
    }
    buff[total] := NUL;
  }

  lemma {:induction false} ConvertedNulFree(t: string)
    requires NulFree(t)
    ensures NoEmptyLine(Lines(t)) && NulFree(ConvertedLines(Lines(t)))
    decreases |t|
  {
    LinesNotEmpty(t);
    if t != "" {
      var n := LineLength(t, BUFF_SIZE - 2);
      ConvertedNulFree(t[n..]);
      assert Lines(t)[1..] == Lines(t[n..]) && Lines(t)[0] == t[..n];
    }
  }

  lemma AnswerNulFree(output: string, lsf: bool, status: int)
    requires NulFree(output)
    ensures NulFree(Answer(output, lsf, status))
  {
    ConvertedNulFree(output);
    DigitsArePlain(if status < 0 then -status else status);
  }

  /** A whole command: the server's answer and the client's display of it.  The client
      looks for the three bytes of the code in one read, and goes on exactly when it got
      all three. */
  method Command(output: string, lsf: bool, status: int) returns (code: string, printed: string)
    requires NulFree(output)
    ensures 0 < |code| <= |CONTINUE| && code == CONTINUE[..|code|]
    ensures code != CONTINUE ==> printed == ""
    ensures
      var r := Answer(output, lsf, status);
      code == CONTINUE && SeenOnce(r) ==> printed == r
    ensures
      var r := Answer(output, lsf, status);
      Terminates(r) && code == CONTINUE ==> printed == Shown(r)
    ensures
      var r := Answer(output, lsf, status);
      Terminates(r) ==> (printed == r <==> code == CONTINUE && |r| % BLOCK >= |END_OF_LINE|)
  {
    hide Terminates, Answer, Shown, SeenOnce, Ends, Cuts, After;
    var down := new Stream("");
    Serve(output, lsf, status, down);
    ghost var r := Answer(output, lsf, status);
    AnswerNulFree(output, lsf, status);
    AnswerEnds(output, lsf, status);
    AnswerLength(r);
    code := down.Read(|CONTINUE|);
    assert CONTINUE + r == code + down.bytes;
    assert code == (CONTINUE + r)[..|code|] == CONTINUE[..|code|];
    if code != CONTINUE {
      return code, "";
    }
    assert (CONTINUE + r)[3..] == r && (code + down.bytes)[3..] == down.bytes;
    ghost var cuts;
    printed, cuts := Show(down);
    if SeenOnce(r) {
      SeenOnceIsWhole(r, cuts);
    }
  }

  lemma AnswerLength(r: string)
    requires Ends(r)
    ensures r != ""
  {
  }
}
