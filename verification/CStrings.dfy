/**
  C strings inside buffers.
*/
module CStrings {
  const NUL: char := '\0'

  datatype Option<T> = None | Some(value: T)

  /** The C string that starts at index `from` of a buffer. */
  function Str(s: seq<char>, from: nat): string
    decreases |s| - from
  {
    if from >= |s| || s[from] == NUL then "" else [s[from]] + Str(s, from + 1)
  }

  /** A NUL follows inside the buffer, as every C string function demands. */
  predicate Terminated(s: seq<char>, from: nat) {
    from + |Str(s, from)| < |s|
  }

  predicate NulFree(t: string) { NUL !in t }

  lemma {:induction false} StrParts(s: seq<char>, from: nat)
    requires from <= |s|
    ensures from + |Str(s, from)| <= |s|
    ensures forall k :: 0 <= k < |Str(s, from)| ==> Str(s, from)[k] == s[from + k]
    ensures NulFree(Str(s, from))
    ensures Terminated(s, from) ==> s[from + |Str(s, from)|] == NUL
    decreases |s| - from
  {
    if from < |s| && s[from] != NUL {
      StrParts(s, from + 1);
    }
  }

  /** NUL-free text followed by a NUL is the C string at its first character. */
  lemma {:induction false} StrIs(s: seq<char>, from: nat, t: string)
    requires from + |t| < |s| && NulFree(t) && s[from + |t|] == NUL
    requires forall k :: 0 <= k < |t| ==> s[from + k] == t[k]
    ensures Str(s, from) == t && Terminated(s, from)
    decreases |t|
  {
    if t != "" {
      assert s[from + 0] == t[0];
      forall k | 0 <= k < |t[1..]| ensures s[from + 1 + k] == t[1..][k] {
        assert s[from + (k + 1)] == t[k + 1];
      }
      StrIs(s, from + 1, t[1..]);
    }
  }

  /** The same for text at the front of a buffer, seen as a slice. */
  lemma StrOfPrefix(s: seq<char>, t: string)
    requires |t| < |s| && s[..|t|] == t && NulFree(t) && s[|t|] == NUL
    ensures Str(s, 0) == t && Terminated(s, 0)
  {
    hide Str;
    forall k | 0 <= k < |t| ensures s[0 + k] == t[k] {
      assert s[..|t|][k] == s[k];
    }
    StrIs(s, 0, t);
  }

  /** The NUL is where the string ends, not before. */
  lemma StrAt(s: seq<char>, from: nat, k: nat)
    requires from <= |s| && Terminated(s, from) && k <= |Str(s, from)|
    ensures from + k < |s| && (s[from + k] == NUL <==> k == |Str(s, from)|)
    ensures k < |Str(s, from)| ==> s[from + k] == Str(s, from)[k]
  {
    StrParts(s, from);
    if k < |Str(s, from)| {
      assert Str(s, from)[k] in Str(s, from);
    }
  }

  /** A string depends only on the buffer from its start on. */
  lemma {:induction false} StrFrame(s: seq<char>, s': seq<char>, from: nat)
    requires |s'| == |s| && forall k :: from <= k < |s| ==> s'[k] == s[k]
    ensures Str(s', from) == Str(s, from)
    decreases |s| - from
  {
    if from < |s| {
      StrFrame(s, s', from + 1);
    }
  }

  /** A later position inside a C string starts its suffix. */
  lemma StrSuffix(s: seq<char>, from: nat, k: nat)
    requires from <= |s| && Terminated(s, from) && k <= |Str(s, from)|
    ensures Str(s, from + k) == Str(s, from)[k..] && Terminated(s, from + k)
  {
    StrParts(s, from);
    var t := Str(s, from);
    forall j | 0 <= j < |t[k..]| ensures s[from + k + j] == t[k..][j] {
      assert s[from + (k + j)] == t[k + j];
    }
    StrIs(s, from + k, t[k..]);
  }

  /** Text before more bytes: the C string goes on until their first NUL. */
  lemma StrOfAppend(t: string, more: string)
    requires NulFree(t)
    ensures Str(t + more, 0) == t + Str(more, 0)
  {
    StrFrom(t, more, 0);
  }

  lemma {:induction false} StrFrom(t: string, more: string, k: nat)
    requires NulFree(t) && k <= |t|
    ensures Str(t + more, k) == t[k..] + Str(more, 0)
    decreases |t| - k
  {
    if k < |t| {
      assert (t + more)[k] == t[k] && t[k] in t;
      StrFrom(t, more, k + 1);
      assert t[k..] == [t[k]] + t[k + 1..];
    } else {
      StrTail(t, more, 0);
    }
  }

  lemma {:induction false} StrTail(t: string, more: string, k: nat)
    requires k <= |more|
    ensures Str(t + more, |t| + k) == Str(more, k)
    decreases |more| - k
  {
    if k < |more| {
      StrTail(t, more, k + 1);
    }
  }
}
