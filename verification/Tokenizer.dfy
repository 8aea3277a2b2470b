/**
  strtok_s, the tokenizer that splits a C string in place, keeping a cursor between calls.
*/
module Tokenizer {
  import opened CStrings

  /** strspn and strcspn, on the text they scan. */
  function SpanIn(t: string, delim: set<char>): (n: nat)
    ensures n <= |t|
  {
    if t == "" || t[0] !in delim then 0 else 1 + SpanIn(t[1..], delim)
  }

  function SpanOut(t: string, delim: set<char>): (n: nat)
    ensures n <= |t|
  {
    if t == "" || t[0] in delim then 0 else 1 + SpanOut(t[1..], delim)
  }

  lemma {:induction false} SpanInStops(t: string, delim: set<char>)
    ensures
      var n := SpanIn(t, delim);
      && (forall k :: 0 <= k < n ==> t[k] in delim)
      && (n < |t| ==> t[n] !in delim)
  {
    if t != "" && t[0] in delim {
      SpanInStops(t[1..], delim);
      forall k | 0 <= k < SpanIn(t, delim) ensures t[k] in delim {
        assert k > 0 ==> t[k] == t[1..][k - 1];
      }
    }
  }

  lemma {:induction false} SpanOutStops(t: string, delim: set<char>)
    ensures
      var n := SpanOut(t, delim);
      && (forall k :: 0 <= k < n ==> t[k] !in delim)
      && (n < |t| ==> t[n] in delim)
  {
    if t != "" && t[0] !in delim {
      SpanOutStops(t[1..], delim);
      forall k | 0 <= k < SpanOut(t, delim) ensures t[k] !in delim {
        assert k > 0 ==> t[k] == t[1..][k - 1];
      }
    }
  }

  /** The first token of t is t[First(t)..Last(t)]; Rest(t) is what is left to split. */
  function First(t: string, delim: set<char>): (n: nat)
    ensures n <= |t|
  {
    SpanIn(t, delim)
  }

  function Last(t: string, delim: set<char>): (n: nat)
    ensures First(t, delim) <= n <= |t|
  {
    First(t, delim) + SpanOut(t[First(t, delim)..], delim)
  }

  function Token(t: string, delim: set<char>): string {
    t[First(t, delim)..Last(t, delim)]
  }

  function Rest(t: string, delim: set<char>): string {
    if Last(t, delim) < |t| then t[Last(t, delim) + 1..] else ""
  }

  method StrSpn(buf: array<char>, from: nat, delim: set<char>) returns (n: nat)
    requires from <= buf.Length && Terminated(buf[..], from) && NUL !in delim
    ensures n == SpanIn(Str(buf[..], from), delim)
  {
    ghost var t := Str(buf[..], from);
    StrParts(buf[..], from);
    n := 0;
    while buf[from + n] in delim
      invariant n <= |t|
      invariant SpanIn(t, delim) == n + SpanIn(t[n..], delim)
      decreases |t| - n
    {
      assert buf[from + n] == if n < |t| then t[n] else NUL;
      assert t[n..][1..] == t[n + 1..];
      n := n + 1;
    }
    assert buf[from + n] == if n < |t| then t[n] else NUL;
  }

  method StrCSpn(buf: array<char>, from: nat, delim: set<char>) returns (n: nat)
    requires from <= buf.Length && Terminated(buf[..], from)
    ensures n == SpanOut(Str(buf[..], from), delim)
  {
    ghost var t := Str(buf[..], from);
    StrParts(buf[..], from);
    n := 0;
    while buf[from + n] != NUL && buf[from + n] !in delim
      invariant n <= |t|
      invariant SpanOut(t, delim) == n + SpanOut(t[n..], delim)
      decreases |t| - n
    {
      assert t[n..][1..] == t[n + 1..];
      n := n + 1;
    }
    assert n < |t| ==> t[n..][0] == t[n];
  }

  /** What one call does to the buffer, where it finds the token and where it stops. */
  predicate Cut(before: seq<char>, start: nat, delim: set<char>, after: seq<char>, token: Option<nat>, save: nat) {
    var t := Str(before, start);
    var b, e := First(t, delim), Last(t, delim);
    if b == |t| then
      token == None && save == start + |t| && after == before
    else if e == |t| then
      token == Some(start + b) && save == start + |t| && after == before
    else
      && start + e < |before| && before[start + e] in delim
      && token == Some(start + b) && save == start + e + 1 && after == before[start + e := NUL]
  }

  /** After the call the token and the unread rest are C strings of the buffer. */
  lemma CutStrings(before: seq<char>, start: nat, delim: set<char>, after: seq<char>, token: Option<nat>, save: nat)
    requires start <= |before| && Terminated(before, start)
    requires Cut(before, start, delim, after, token, save)
    ensures
      var t := Str(before, start);
      && |after| == |before| && start <= save <= start + |t| && Terminated(after, save)
      && Str(after, save) == (if token.Some? then Rest(t, delim) else "")
      && (token.Some? ==>
            token.value < save && Str(after, token.value) == Token(t, delim) && Terminated(after, token.value))
  {
    hide SpanIn, SpanOut, Str;
    var t := Str(before, start);
    StrParts(before, start);
    StrSuffix(before, start, |t|);
    if token.Some? {
      var b, e := First(t, delim), Last(t, delim);
      TokenNotEmpty(t, delim);
      CutToken(before, start, t, after, b, e);
    }
  }

  lemma TokenNotEmpty(t: string, delim: set<char>)
    requires First(t, delim) < |t|
    ensures First(t, delim) < Last(t, delim)
  {
    SpanInStops(t, delim);
    assert t[First(t, delim)..][0] == t[First(t, delim)];
  }

  /** Cutting the text t of a buffer at e leaves t[b..e], and what follows e. */
  lemma CutToken(before: seq<char>, start: nat, t: string, after: seq<char>, b: nat, e: nat)
    requires start + |t| < |before| && NulFree(t) && before[start + |t|] == NUL
    requires forall k :: 0 <= k < |t| ==> before[start + k] == t[k]
    requires b <= e <= |t|
    requires after == if e < |t| then before[start + e := NUL] else before
    ensures Str(after, start + b) == t[b..e] && Terminated(after, start + b)
    ensures e < |t| ==> Str(after, start + e + 1) == t[e + 1..] && Terminated(after, start + e + 1)
  {
    forall k | 0 <= k < e - b ensures after[start + b + k] == t[b..e][k] {
      assert before[start + (b + k)] == t[b + k];
    }
    StrIs(after, start + b, t[b..e]);
    if e < |t| {
      var rest := t[e + 1..];
      forall k | 0 <= k < |rest| ensures after[start + e + 1 + k] == rest[k] {
        assert before[start + (e + 1 + k)] == t[e + 1 + k];
      }
      StrIs(after, start + e + 1, t[e + 1..]);
    }
  }

  lemma LastIs(t: string, b: nat, n: nat, delim: set<char>)
    requires b == SpanIn(t, delim) && n == SpanOut(t[b..], delim)
    ensures Last(t, delim) == b + n && (b + n < |t| ==> t[b + n] in delim)
  {
    SpanOutStops(t[b..], delim);
    assert n < |t[b..]| ==> t[b..][n] == t[b + n];
  }

  /** One call: skip delimiters, find the end of the token, cut it with a NUL.  `s` is
      the string argument, None for NULL, in which case scanning goes on at savePtr. */
  method StrtokS(buf: array<char>, s: Option<nat>, savePtr: nat, delim: set<char>)
    returns (token: Option<nat>, save: nat)
    requires var start := if s.Some? then s.value else savePtr;
      start <= buf.Length && Terminated(buf[..], start)
    requires NUL !in delim
    modifies buf
    ensures Cut(old(buf[..]), if s.Some? then s.value else savePtr, delim, buf[..], token, save)
  {
    hide SpanIn, SpanOut;
    var at := if s.Some? then s.value else savePtr;
    ghost var start, before := at, buf[..];
    ghost var t := Str(before, at);
    StrParts(before, at);
    if buf[at] == NUL {
      return None, at;
    }
    var skipped := StrSpn(buf, at, delim);
    StrSuffix(before, at, skipped);
    at := at + skipped;
    assert before[at] == if skipped < |t| then t[skipped] else NUL;
    if buf[at] == NUL {
      return None, at;
    }
    var length := StrCSpn(buf, at, delim);
    LastIs(t, skipped, length, delim);
    var end := at + length;
    assert before[end] == if skipped + length < |t| then t[skipped + length] else NUL;
    if buf[end] == NUL {
      return Some(at), end;
    }
    buf[end] := NUL;
    assert buf[..] == before[end := NUL];
    return Some(at), end + 1;
  }

  lemma {:induction false} SpanOutWord(word: string, rest: string, delim: set<char>)
    requires forall c :: c in word ==> c !in delim
    ensures SpanOut(word + rest, delim) == |word| + SpanOut(rest, delim)
  {
    if word == "" {
      assert word + rest == rest;
    } else {
      assert word[0] in word && (word + rest)[1..] == word[1..] + rest;
      SpanOutWord(word[1..], rest, delim);
    }
  }

  /** A non-empty word followed by a delimiter or the end is the first token. */
  lemma FirstWord(word: string, rest: string, delim: set<char>)
    requires word != "" && forall c :: c in word ==> c !in delim
    requires rest == "" || rest[0] in delim
    ensures var t := word + rest;
      && First(t, delim) == 0 && Last(t, delim) == |word|
      && Token(t, delim) == word && Rest(t, delim) == if rest == "" then "" else rest[1..]
  {
    var t := word + rest;
    assert t[0] == word[0] && word[0] in word;
    assert t[0..] == t;
    SpanOutWord(word, rest, delim);
  }

  /** A first token that starts with this word ends where the next delimiter is. */
  lemma LongerWord(word: string, rest: string, delim: set<char>)
    requires word != "" && forall c :: c in word ==> c !in delim
    ensures Token(word + rest, delim) == word + rest[..SpanOut(rest, delim)]
  {
    var t := word + rest;
    assert t[0] == word[0] && word[0] in word;
    assert t[0..] == t;
    SpanOutWord(word, rest, delim);
  }

  // ------------------------------------------------------------- whole strings

  datatype Piece = Piece(begin: nat, end: nat)

  function Begin(t: string, from: nat, delim: set<char>): (n: nat)
    requires from <= |t|
    ensures from <= n <= |t|
  {
    from + First(t[from..], delim)
  }

  function End(t: string, from: nat, delim: set<char>): (n: nat)
    requires from <= |t|
    ensures Begin(t, from, delim) <= n <= |t|
  {
    from + Last(t[from..], delim)
  }

  /** The tokens found from position `from` on. */
  function Runs(t: string, from: nat, delim: set<char>): seq<Piece>
    requires from <= |t|
    decreases |t| - from, 1
  {
    if Begin(t, from, delim) == |t| then []
    else [Piece(Begin(t, from, delim), End(t, from, delim))] + RunsAfter(t, End(t, from, delim), delim)
  }

  /** The tokens after one that ends at e. */
  function RunsAfter(t: string, e: nat, delim: set<char>): seq<Piece>
    requires e <= |t|
    decreases |t| - e, 0
  {
    if e < |t| then Runs(t, e + 1, delim) else []
  }

  predicate Run(t: string, delim: set<char>, r: Piece) {
    && r.begin < r.end <= |t|
    && (forall k :: r.begin <= k < r.end ==> t[k] !in delim)
    && (r.begin == 0 || t[r.begin - 1] in delim)
    && (r.end == |t| || t[r.end] in delim)
  }

  /** These are all the maximal delimiter-free runs of t, from left to right. */
  ghost predicate IsSplit(t: string, delim: set<char>, runs: seq<Piece>) {
    && (forall i :: 0 <= i < |runs| ==> Run(t, delim, runs[i]))
    && (forall i, j :: 0 <= i < j < |runs| ==> runs[i].end < runs[j].begin)
    && (forall r: Piece :: Run(t, delim, r) ==> r in runs)
  }

  /** The first token of the text from `from` on is its first run. */
  lemma FirstRun(t: string, from: nat, delim: set<char>)
    requires from <= |t| && (from == 0 || t[from - 1] in delim)
    ensures
      var b, e := Begin(t, from, delim), End(t, from, delim);
      && (forall k :: from <= k < b ==> t[k] in delim)
      && (b < |t| ==> Run(t, delim, Piece(b, e)))
      && (e < |t| ==> b < |t|)
  {
    var rest := t[from..];
    var b, e := Begin(t, from, delim), End(t, from, delim);
    SpanInStops(rest, delim);
    SpanOutStops(rest[First(rest, delim)..], delim);
    forall k | from <= k < b ensures t[k] in delim {
      assert t[k] == rest[k - from];
    }
    if b < |t| {
      var tail := rest[First(rest, delim)..];
      assert t[b] == rest[b - from] == tail[0];
      forall k | b <= k < e ensures t[k] !in delim {
        assert t[k] == tail[k - b];
      }
      assert e < |t| ==> t[e] == tail[e - b];
    }
  }

  /** A run that starts before the end of another one is that run. */
  lemma RunsDoNotOverlap(t: string, delim: set<char>, r: Piece, q: Piece)
    requires Run(t, delim, r) && Run(t, delim, q) && r.begin <= q.begin < r.end
    ensures r == q
  {
  }

  /** Runs of t, one after the other, none before `from`. */
  ghost predicate InOrder(t: string, delim: set<char>, from: nat, runs: seq<Piece>) {
    && (forall i :: 0 <= i < |runs| ==> Run(t, delim, runs[i]) && from <= runs[i].begin)
    && (forall i, j :: 0 <= i < j < |runs| ==> runs[i].end < runs[j].begin)
  }

  lemma InOrderCons(t: string, delim: set<char>, from: nat, r: Piece, later: seq<Piece>)
    requires Run(t, delim, r) && from <= r.begin && InOrder(t, delim, r.end + 1, later)
    ensures InOrder(t, delim, from, [r] + later)
  {
  }

  lemma {:induction false} RunsSound(t: string, from: nat, delim: set<char>)
    requires from <= |t| && (from == 0 || t[from - 1] in delim)
    ensures InOrder(t, delim, from, Runs(t, from, delim))
    decreases |t| - from
  {
    hide SpanIn, SpanOut, Run, First, Last;
    var b, e := Begin(t, from, delim), End(t, from, delim);
    FirstRun(t, from, delim);
    if b < |t| {
      var later := RunsAfter(t, e, delim);
      if e < |t| {
        RunsSound(t, e + 1, delim);
        assert later == Runs(t, e + 1, delim);
      }
      assert InOrder(t, delim, e + 1, later);
      InOrderCons(t, delim, from, Piece(b, e), later);
      assert Runs(t, from, delim) == [Piece(b, e)] + later;
    }
  }

  /** A run from `from` on is the first one or starts after its end. */
  lemma FirstRunBounds(t: string, delim: set<char>, from: nat, b: nat, e: nat, r: Piece)
    requires from <= b <= e <= |t| && (forall k :: from <= k < b ==> t[k] in delim)
    requires b < |t| ==> Run(t, delim, Piece(b, e))
    requires Run(t, delim, r) && from <= r.begin
    ensures b < |t| && (r == Piece(b, e) || (e < |t| && t[e] in delim && e < r.begin))
  {
    assert t[r.begin] !in delim;
    if r.begin < e {
      RunsDoNotOverlap(t, delim, Piece(b, e), r);
    }
  }

  lemma {:induction false} RunsComplete(t: string, from: nat, delim: set<char>, r: Piece)
    requires from <= |t| && (from == 0 || t[from - 1] in delim)
    requires Run(t, delim, r) && from <= r.begin
    ensures r in Runs(t, from, delim)
    decreases |t| - from
  {
    hide SpanIn, SpanOut, Run, Begin, End;
    var b, e := Begin(t, from, delim), End(t, from, delim);
    FirstRun(t, from, delim);
    FirstRunBounds(t, delim, from, b, e, r);
    if r != Piece(b, e) {
      RunsComplete(t, e + 1, delim, r);
      assert Runs(t, from, delim) == [Piece(b, e)] + RunsAfter(t, e, delim);
    }
  }

  /** What repeated calls return is the split of the text, and nothing else is. */
  lemma RunsAreTheSplit(t: string, delim: set<char>)
    ensures IsSplit(t, delim, Runs(t, 0, delim))
  {
    RunsSound(t, 0, delim);
    forall r: Piece | Run(t, delim, r) ensures r in Runs(t, 0, delim) {
      RunsComplete(t, 0, delim, r);
    }
  }

  /** A run ends at k. */
  ghost predicate EndsAt(runs: seq<Piece>, k: int) {
    exists i :: 0 <= i < |runs| && runs[i].end == k
  }

  /** The buffer with a NUL written at the end of each of these runs of its text t. */
  ghost predicate CutAt(before: seq<char>, t: string, runs: seq<Piece>, after: seq<char>) {
    && |after| == |before|
    && (forall k :: 0 <= k < |before| ==>
          after[k] == if k < |t| && EndsAt(runs, k) then NUL else before[k])
  }

  /** Each token is the C string found where its run begins. */
  ghost predicate Found(after: seq<char>, t: string, runs: seq<Piece>, tokens: seq<nat>) {
    && |tokens| == |runs|
    && (forall i :: 0 <= i < |runs| ==>
          && runs[i].begin <= runs[i].end <= |t|
          && tokens[i] == runs[i].begin
          && Str(after, tokens[i]) == t[runs[i].begin..runs[i].end])
  }

  lemma OwnEnd(t: string, delim: set<char>, runs: seq<Piece>, i: nat)
    requires InOrder(t, delim, 0, runs) && i < |runs|
    ensures runs[i].begin <= runs[i].end <= |t| && EndsAt(runs, runs[i].end)
  {
    assert Run(t, delim, runs[i]);
  }

  /** No run ends inside another one. */
  lemma NoEndInside(t: string, delim: set<char>, runs: seq<Piece>, i: nat, k: nat)
    requires InOrder(t, delim, 0, runs) && i < |runs| && runs[i].begin <= k < runs[i].end
    ensures !EndsAt(runs, k)
  {
    forall j | 0 <= j < |runs| ensures runs[j].end != k {
      assert Run(t, delim, runs[j]);
      if j < i { assert runs[j].end < runs[i].begin; }
      if i < j { assert runs[i].end < runs[j].begin; }
    }
  }

  /** Once all runs are cut, each is a C string of its own. */
  lemma CutRunsAreStrings(before: seq<char>, t: string, delim: set<char>, runs: seq<Piece>, after: seq<char>, i: nat)
    requires |t| < |before| && Str(before, 0) == t
    requires InOrder(t, delim, 0, runs) && CutAt(before, t, runs, after) && i < |runs|
    ensures var r := runs[i]; r.begin <= r.end <= |t| && Str(after, r.begin) == t[r.begin..r.end]
  {
    hide SpanIn, SpanOut, Str, Runs, RunsAfter, Run, EndsAt, InOrder;
    var r := runs[i];
    StrParts(before, 0);
    OwnEnd(t, delim, runs, i);
    var token := t[r.begin..r.end];
    forall k | 0 <= k < |token| ensures after[r.begin + k] == token[k] {
      NoEndInside(t, delim, runs, i, r.begin + k);
      assert before[0 + (r.begin + k)] == t[r.begin + k];
    }
    assert r.end == |t| ==> before[0 + |t|] == NUL;
    StrIs(after, r.begin, token);
  }

  /** Half way: `done` are the first runs, cut, and `save` is where the others start. */
  ghost predicate SoFar(before: seq<char>, t: string, delim: set<char>, done: seq<Piece>, now: seq<char>, save: nat) {
    && save <= |t| < |before| && Str(before, 0) == t
    && (save == 0 || save == |t| || t[save - 1] in delim)
    && Runs(t, 0, delim) == done + Runs(t, save, delim)
    && (forall i :: 0 <= i < |done| ==> done[i].end < save || done[i].end == |t|)
    && CutAt(before, t, done, now)
  }

  lemma NoEndAfter(t: string, done: seq<Piece>, save: nat, k: nat)
    requires forall i :: 0 <= i < |done| ==> done[i].end < save || done[i].end == |t|
    requires save <= k < |t|
    ensures !EndsAt(done, k)
  {
  }

  lemma UnreadText(before: seq<char>, t: string, delim: set<char>, done: seq<Piece>, now: seq<char>, save: nat)
    requires SoFar(before, t, delim, done, now, save)
    ensures Str(now, save) == t[save..] && Terminated(now, save)
  {
    hide SpanIn, SpanOut, Str, Runs, RunsAfter, EndsAt;
    StrParts(before, 0);
    var rest := t[save..];
    forall k | 0 <= k < |rest| ensures now[save + k] == rest[k] {
      NoEndAfter(t, done, save, save + k);
      assert before[0 + (save + k)] == t[save + k];
    }
    assert now[|t|] == before[0 + |t|];
    StrIs(now, save, rest);
  }

  /** The split of the text from `from` on, when a first token is there. */
  lemma RunsUnfold(t: string, from: nat, delim: set<char>)
    requires from <= |t|
    ensures Begin(t, from, delim) == |t| ==> Runs(t, from, delim) == []
    ensures Begin(t, from, delim) < |t| ==>
      var e := End(t, from, delim);
      && Begin(t, from, delim) < e
      && Runs(t, from, delim) == [Piece(Begin(t, from, delim), e)] + Runs(t, if e < |t| then e + 1 else e, delim)
  {
    if Begin(t, from, delim) < |t| {
      TokenNotEmpty(t[from..], delim);
      assert t[|t|..] == "";
    }
  }

  lemma EndIsDelimiter(t: string, from: nat, delim: set<char>)
    requires from <= |t|
    ensures End(t, from, delim) < |t| ==> t[End(t, from, delim)] in delim
  {
    var rest := t[from..];
    LastIs(rest, SpanIn(rest, delim), SpanOut(rest[SpanIn(rest, delim)..], delim), delim);
  }

  /** A call that returns NULL has nothing left to cut. */
  lemma NoMoreRuns(before: seq<char>, t: string, delim: set<char>, done: seq<Piece>, now: seq<char>, save: nat,
                   after: seq<char>, save': nat)
    requires SoFar(before, t, delim, done, now, save)
    requires Cut(now, save, delim, after, None, save')
    ensures after == now && save' == |t| && Runs(t, 0, delim) == done
  {
    UnreadText(before, t, delim, done, now, save);
    RunsUnfold(t, save, delim);
  }

  /** A call that returns a token cuts the next run, and moves on. */
  lemma NextRun(before: seq<char>, t: string, delim: set<char>, done: seq<Piece>, now: seq<char>, save: nat,
                after: seq<char>, token: nat, save': nat)
    requires SoFar(before, t, delim, done, now, save)
    requires Cut(now, save, delim, after, Some(token), save')
    ensures
      var r := Piece(Begin(t, save, delim), End(t, save, delim));
      && token == r.begin && save < save'
      && SoFar(before, t, delim, done + [r], after, save')
  {
    hide SpanIn, SpanOut, Str;
    UnreadText(before, t, delim, done, now, save);
    RunsUnfold(t, save, delim);
    EndIsDelimiter(t, save, delim);
    var r := Piece(Begin(t, save, delim), End(t, save, delim));
    assert save' == if r.end < |t| then r.end + 1 else r.end;
    assert Runs(t, 0, delim) == (done + [r]) + Runs(t, save', delim);
    CutOneMore(before, t, done, now, r, after);
  }

  lemma CutOneMore(before: seq<char>, t: string, done: seq<Piece>, now: seq<char>, r: Piece, after: seq<char>)
    requires CutAt(before, t, done, now) && r.end <= |t| < |before|
    requires after == if r.end < |t| then now[r.end := NUL] else now
    ensures CutAt(before, t, done + [r], after)
  {
    var cut := done + [r];
    assert cut[|done|] == r;
    forall k ensures EndsAt(cut, k) <==> EndsAt(done, k) || k == r.end {
      if EndsAt(done, k) {
        var i :| 0 <= i < |done| && done[i].end == k;
        assert cut[i].end == k;
      }
    }
  }

  predicate Starts(tokens: seq<nat>, runs: seq<Piece>) {
    |tokens| == |runs| && forall i :: 0 <= i < |runs| ==> tokens[i] == runs[i].begin
  }

  lemma AllFound(before: seq<char>, t: string, delim: set<char>, runs: seq<Piece>, after: seq<char>, tokens: seq<nat>)
    requires |t| < |before| && Str(before, 0) == t && runs == Runs(t, 0, delim)
    requires CutAt(before, t, runs, after) && Starts(tokens, runs)
    ensures Found(after, t, runs, tokens)
  {
    RunsSound(t, 0, delim);
    forall i | 0 <= i < |runs|
      ensures runs[i].begin <= runs[i].end <= |t| && Str(after, runs[i].begin) == t[runs[i].begin..runs[i].end]
    {
      CutRunsAreStrings(before, t, delim, runs, after, i);
    }
  }

  /** Splitting a whole buffer: one call on the string, then calls with NULL until NULL
      comes back, after which it comes back for ever, as save is at an empty string. */
  method Tokenize(buf: array<char>, delim: set<char>) returns (tokens: seq<nat>, save: nat)
    requires Terminated(buf[..], 0) && NUL !in delim
    modifies buf
    ensures
      var t := Str(old(buf[..]), 0);
      var runs := Runs(t, 0, delim);
      && Found(buf[..], t, runs, tokens)
      && CutAt(old(buf[..]), t, runs, buf[..])
      && save == |t| && Str(buf[..], save) == ""
  {
    hide SpanIn, SpanOut, Run, EndsAt;
    ghost var before := buf[..];
    ghost var t := Str(before, 0);
    ghost var done: seq<Piece> := [];
    StrParts(before, 0);
    NothingCut(before, t);
    tokens, save := [], 0;
    var s: Option<nat> := Some(0);
    while true
      invariant SoFar(before, t, delim, done, buf[..], save)
      invariant s == None || (s == Some(0) && save == 0)
      invariant Starts(tokens, done)
      decreases |t| - save
    {
      UnreadText(before, t, delim, done, buf[..], save);
      ghost var now, at := buf[..], save;
      var token;
      token, save := StrtokS(buf, s, save, delim);
      if token == None {
        NoMoreRuns(before, t, delim, done, now, at, buf[..], save);
        break;
      }
      NextRun(before, t, delim, done, now, at, buf[..], token.value, save);
      s := None;
      done := done + [Piece(Begin(t, at, delim), End(t, at, delim))];
      tokens := tokens + [token.value];
    }
    AllFound(before, t, delim, done, buf[..], tokens);
    CutStringEnds(before, t, done, buf[..]);
  }

  lemma NothingCut(before: seq<char>, t: string)
    ensures CutAt(before, t, [], before)
  {
  }

  lemma CutStringEnds(before: seq<char>, t: string, runs: seq<Piece>, after: seq<char>)
    requires Str(before, 0) == t && |t| < |before| && CutAt(before, t, runs, after)
    ensures Str(after, |t|) == ""
  {
    StrParts(before, 0);
    assert after[|t|] == before[0 + |t|];
  }
}
