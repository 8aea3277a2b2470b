/** TCP connections, one direction at a time. */
module Network {
  function Flatten(chunks: seq<string>): string {
    if chunks == [] then "" else chunks[0] + Flatten(chunks[1..])
  }

  function Min(a: nat, b: nat): nat { if a <= b then a else b }

  /** A read that gets the first j unread writes at once, up to its limit. */
  predicate Coalesced(before: seq<string>, j: nat, count: nat, got: string, after: seq<string>)
    requires j <= |before|
  {
    var there := Flatten(before[..j]);
    var n := Min(count, |there|);
    got == there[..n] && after == (if n < |there| then [there[n..]] else []) + before[j..]
  }

  /** What a read may return when these writes are unread. */
  ghost predicate Delivers(before: seq<string>, count: nat, got: string, after: seq<string>) {
    exists j: nat :: 1 <= j <= |before| && Coalesced(before, j, count, got, after)
  }

  lemma FlattenOne(m: string)
    ensures Flatten([m]) == m
  {
    assert [m][1..] == [];
  }

  /** The only unread write, when it fits the read, is what is read. */
  lemma DeliversOnly(m: string, count: nat, got: string, after: seq<string>)
    requires Delivers([m], count, got, after) && |m| <= count
    ensures got == m && after == []
  {
    FlattenOne(m);
    assert [m][..1] == [m];
  }

  /** A read of just the first write leaves the second, whether or not they arrive together. */
  lemma DeliversFirst(m: string, n: string, got: string, after: seq<string>)
    requires Delivers([m, n], |m|, got, after) && n != ""
    ensures got == m && after == [n]
  {
    FlattenOne(m);
    FlattenOne(n);
    assert [m, n][..1] == [m] && [m, n][..2] == [m, n] && [m, n][1..] == [n];
    var j: nat :| 1 <= j <= 2 && Coalesced([m, n], j, |m|, got, after);
    assert Flatten([m, n]) == m + n;
    assert (m + n)[|m|..] == n && (m + n)[..|m|] == m;
  }

  /** Two writes may be delivered one by one, together, or as much as fits of both. */
  lemma MayCoalesce(m: string, n: string, count: nat)
    requires |m| <= count <= |m| + |n| && m != ""
    ensures Delivers([m, n], count, m, [n])
    ensures Delivers([m, n], count, m + n[..count - |m|], if count < |m| + |n| then [n[count - |m|..]] else [])
  {
    FlattenOne(m);
    FlattenOne(n);
    assert [m, n][..1] == [m] && [m, n][..2] == [m, n] && [m, n][1..] == [n] && [m, n][2..] == [];
    assert m[..|m|] == m && [] + [n] == [n];
    assert Coalesced([m, n], 1, count, m, [n]);
    assert Flatten([m, n]) == m + n;
    assert (m + n)[..count] == m + n[..count - |m|] && (m + n)[count..] == n[count - |m|..];
    assert Coalesced([m, n], 2, count, m + n[..count - |m|], if count < |m| + |n| then [n[count - |m|..]] else []);
  }

  /** A connection whose writes arrive whole but may be delivered together. */
  class Pipe {
    var pending: seq<string>

    constructor ()
      ensures pending == []
    {
      pending := [];
    }

    method Write(bytes: string)
      requires bytes != ""
      modifies this
      ensures pending == old(pending) + [bytes]
    {
      pending := pending + [bytes];
    }

    method Read(count: nat) returns (got: string)
      requires count > 0 && pending != []
      modifies this
      ensures Delivers(old(pending), count, got, pending)
    {
      ghost var before := pending;
      var j: nat :| 1 <= j <= |pending|;
      var there := Flatten(pending[..j]);
      var n := Min(count, |there|);
      got := there[..n];
      pending := (if n < |there| then [there[n..]] else []) + pending[j..];
      assert Coalesced(before, j, count, got, pending);
    }
  }

  /** A connection seen as bytes: a read returns any non-empty piece up to its limit,
      and nothing only at the end of the stream. */
  class Stream {
    var bytes: string

    constructor (initial: string)
      ensures bytes == initial
    {
      bytes := initial;
    }

    method Write(chunk: string)
      modifies this
      ensures bytes == old(bytes) + chunk
    {
      bytes := bytes + chunk;
    }

    method Read(count: nat) returns (got: string)
      requires count > 0
      modifies this
      ensures old(bytes) == got + bytes && |got| <= count
      ensures got == "" <==> old(bytes) == ""
    {
      if bytes == "" {
        return "";
      }
      var n :| 1 <= n <= count && n <= |bytes|;
      got, bytes := bytes[..n], bytes[n..];
    }
  }
}
