/** Character buffers as the C library sees them. */
module CStrings {

  const NUL: char := '\0'

  predicate NulFree(s: string) {
    forall i :: 0 <= i < |s| ==> s[i] != NUL
  }

  function Zeros(n: nat): (s: string)
    ensures |s| == n && forall i :: 0 <= i < n ==> s[i] == NUL
  {
    seq(n, _ => NUL)
  }

  // The string a buffer holds: everything before the first NUL, or all of it.
  function CString(buffer: seq<char>): string {
    if buffer == [] || buffer[0] == NUL then "" else [buffer[0]] + CString(buffer[1..])
  }

  // The buffer after `s` is copied in at `off`.
  function Put(buffer: seq<char>, off: nat, s: seq<char>): (r: seq<char>)
    requires off + |s| <= |buffer|
    ensures |r| == |buffer|
  {
    buffer[..off] + s + buffer[off + |s|..]
  }

  lemma PutPut(buffer: seq<char>, s: seq<char>, t: seq<char>)
    requires |s| + |t| <= |buffer|
    ensures Put(Put(buffer, 0, s), |s|, t) == Put(buffer, 0, s + t)
  {
  }

  method CopyIn(buffer: array<char>, off: nat, s: seq<char>)
    requires off + |s| <= buffer.Length
    modifies buffer
    ensures buffer[..] == Put(old(buffer[..]), off, s)
  {
    forall p | 0 <= p < |s| {
      buffer[off + p] := s[p];
    }
  }

  lemma {:induction false} CStringOf(s: string, rest: seq<char>)
    requires NulFree(s)
    requires rest == [] || rest[0] == NUL
    ensures CString(s + rest) == s
  {
    if s == [] {
      assert s + rest == rest;
    } else {
      assert (s + rest)[1..] == s[1..] + rest;
      CStringOf(s[1..], rest);
    }
  }

  // A string held with nothing to end it runs on into what follows.
  lemma {:induction false} CStringRunsOn(s: string, rest: seq<char>)
    requires NulFree(s)
    ensures CString(s + rest) == s + CString(rest)
  {
    if s == [] {
      assert s + rest == rest;
      assert s + CString(rest) == CString(rest);
    } else {
      assert (s + rest)[1..] == s[1..] + rest;
      CStringRunsOn(s[1..], rest);
    }
  }
}
