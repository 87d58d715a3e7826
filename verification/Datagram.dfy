/** The token-and-username datagram between the login server and the chat and match servers:
    how it is put together, and how the receive loop takes it apart in buffers that are
    cleared before the loop and not between packets, and that are read as C strings whether or
    not they hold a NUL. */
module Datagram {
  import opened CStrings
  import Hex

  const TOKEN_LENGTH: nat := 64
  const BUFFER_LENGTH: nat := 85

  datatype Credential = Credential(token: string, user: string) {
    // A token is a printed digest, and a username leaves room for the final NUL.
    predicate Valid() {
      |token| == TOKEN_LENGTH && NulFree(token) && NulFree(user) && TOKEN_LENGTH + |user| < BUFFER_LENGTH
    }

    // strcpy of the token followed by strcat of the username, sent up to the NUL.
    function Contents(): string {
      token + user
    }
  }

  // A token that is a printed digest is a valid token.
  lemma PrintedTokenValid(d: Hex.Digest, user: string)
    requires NulFree(user) && |user| <= 20
    ensures Credential(Hex.Print(d), user).Valid()
  {
    Hex.PrintShape(d);
  }

  // A receive never stores more than the buffer holds.
  function Stored(datagram: string): (r: string)
    ensures |r| <= BUFFER_LENGTH
  {
    if |datagram| <= BUFFER_LENGTH then datagram else datagram[..BUFFER_LENGTH]
  }

  // The buffer after a number of packets of one call.
  function BufferAfter(datagrams: seq<string>): (r: seq<char>)
    ensures |r| == BUFFER_LENGTH
  {
    if datagrams == [] then Zeros(BUFFER_LENGTH)
    else Put(BufferAfter(datagrams[..|datagrams| - 1]), 0, Stored(datagrams[|datagrams| - 1]))
  }

  lemma NextBuffer(datagrams: seq<string>, i: nat)
    requires i < |datagrams|
    ensures BufferAfter(datagrams[..i + 1]) == Put(BufferAfter(datagrams[..i]), 0, Stored(datagrams[i]))
  {
    assert datagrams[..i + 1][..i] == datagrams[..i];
  }

  // Byte p of the last datagram to have one, or NUL.
  function LastChar(datagrams: seq<string>, p: nat): char {
    if datagrams == [] then NUL
    else
      var last := datagrams[|datagrams| - 1];
      if p < |last| then last[p] else LastChar(datagrams[..|datagrams| - 1], p)
  }

  // The buffer has 85 bytes, each from the last datagram of the call that reached it.
  lemma {:induction false} BufferByte(datagrams: seq<string>, p: nat)
    requires p < 85
    ensures |BufferAfter(datagrams)| == 85 && BufferAfter(datagrams)[p] == LastChar(datagrams, p)
  {
    if datagrams != [] {
      BufferByte(datagrams[..|datagrams| - 1], p);
      assert p < |datagrams[|datagrams| - 1]| ==> p < |Stored(datagrams[|datagrams| - 1])|;
    }
  }

  // The characters that happen to follow the token's and the name's buffers in memory.
  datatype Memory = Memory(afterToken: string, afterName: string) {
    // A string that fills the token's buffer ends there.
    predicate EndsToken() {
      afterToken == "" || afterToken[0] == NUL
    }
  }

  // Each part is copied to a buffer of its own length and read from there up to a NUL, which
  // may be outside that buffer.
  function Decode(buffer: seq<char>, memory: Memory): Credential
    requires |buffer| == BUFFER_LENGTH
  {
    Credential(CString(buffer[..TOKEN_LENGTH] + memory.afterToken), CString(buffer[TOKEN_LENGTH..] + memory.afterName))
  }

  // One call of receive_new: what each packet is taken to say.
  method ReceiveNew(datagrams: seq<string>, memory: nat -> Memory) returns (decoded: seq<Credential>)
    ensures |decoded| == |datagrams|
    ensures forall k :: 0 <= k < |datagrams| ==> decoded[k] == Decode(BufferAfter(datagrams[..k + 1]), memory(k))
  {
    hide Decode, CString;
    var buffer := new char[BUFFER_LENGTH](_ => NUL);
    assert buffer[..] == Zeros(BUFFER_LENGTH);
    decoded := [];
    for i := 0 to |datagrams|
      invariant buffer[..] == BufferAfter(datagrams[..i])
      invariant |decoded| == i
      invariant forall k :: 0 <= k < i ==> decoded[k] == Decode(BufferAfter(datagrams[..k + 1]), memory(k))
    {
      CopyIn(buffer, 0, Stored(datagrams[i]));
      NextBuffer(datagrams, i);
      decoded := decoded + [Decode(buffer[..], memory(i))];
    }
  }

  function AllContents(sent: seq<Credential>): seq<string> {
    seq(|sent|, i requires 0 <= i < |sent| => sent[i].Contents())
  }

  ghost predicate AllValid(sent: seq<Credential>) {
    forall i :: 0 <= i < |sent| ==> sent[i].Valid()
  }

  ghost predicate SomeReaches(sent: seq<Credential>, p: int) {
    exists j :: 0 <= j < |sent| && TOKEN_LENGTH + |sent[j].user| > p
  }

  lemma SomeReachesStep(sent: seq<Credential>, p: int)
    requires sent != []
    ensures SomeReaches(sent, p)
       <==> SomeReaches(sent[..|sent| - 1], p) || TOKEN_LENGTH + |sent[|sent| - 1].user| > p
  {
    var before := sent[..|sent| - 1];
    if j :| 0 <= j < |before| && TOKEN_LENGTH + |before[j].user| > p {
      assert TOKEN_LENGTH + |sent[j].user| > p;
    }
    if j :| 0 <= j < |sent| && TOKEN_LENGTH + |sent[j].user| > p {
      assert j < |before| ==> TOKEN_LENGTH + |before[j].user| > p;
    }
  }

  lemma LastPacket(sent: seq<Credential>, p: int)
    requires sent != [] && sent[|sent| - 1].Valid() && 0 <= p < BUFFER_LENGTH
    ensures BufferAfter(AllContents(sent))[p] ==
              (if p < |sent[|sent| - 1].Contents()| then sent[|sent| - 1].Contents()[p]
               else BufferAfter(AllContents(sent[..|sent| - 1]))[p])
  {
    assert AllContents(sent)[..|sent| - 1] == AllContents(sent[..|sent| - 1]);
  }

  // A byte of the username part is stale or fresh text exactly if some packet so far reached it.
  lemma {:induction false} Residue(sent: seq<Credential>, p: int)
    requires AllValid(sent) && TOKEN_LENGTH <= p < BUFFER_LENGTH
    ensures BufferAfter(AllContents(sent))[p] != NUL <==> SomeReaches(sent, p)
  {
    if sent != [] {
      var last := sent[|sent| - 1];
      Residue(sent[..|sent| - 1], p);
      SomeReachesStep(sent, p);
      LastPacket(sent, p);
      assert p < |last.Contents()| ==> last.Contents()[p] == last.user[p - TOKEN_LENGTH];
    }
  }

  lemma DecodesText(c: Credential, rest: seq<char>, memory: Memory)
    requires c.Valid() && |c.Contents()| + |rest| == BUFFER_LENGTH
    ensures Decode(c.Contents() + rest, memory)
         == Credential(c.token + CString(memory.afterToken), c.user + CString(rest + memory.afterName))
  {
    Slices(c.token, c.user, rest);
    CStringRunsOn(c.token, memory.afterToken);
    RunsOnThrough(c.user, rest, memory.afterName);
  }

  lemma RunsOnThrough(s: string, rest: string, more: string)
    requires NulFree(s)
    ensures CString(s + rest + more) == s + CString(rest + more)
  {
    assert s + rest + more == s + (rest + more);
    CStringRunsOn(s, rest + more);
  }

  lemma Slices(a: string, b: string, c: string)
    ensures (a + b + c)[..|a|] == a
    ensures (a + b + c)[|a|..] == b + c
  {
  }

  // What the last packet of a call decodes to: its own text, and whatever follows it.
  lemma DecodesLast(sent: seq<Credential>, memory: Memory)
    requires sent != [] && sent[|sent| - 1].Valid()
    ensures var buffer, last := BufferAfter(AllContents(sent)), sent[|sent| - 1];
      Decode(buffer, memory)
      == Credential(last.token + CString(memory.afterToken),
                    last.user + CString(buffer[TOKEN_LENGTH + |last.user|..] + memory.afterName))
  {
    var last := sent[|sent| - 1];
    var before := BufferAfter(AllContents(sent)[..|sent| - 1]);
    var rest := before[|last.Contents()|..];
    PutSplits(before, last.Contents());
    DecodesText(last, rest, memory);
  }

  lemma PutSplits(buffer: seq<char>, s: string)
    requires |s| <= |buffer|
    ensures Put(buffer, 0, s) == s + buffer[|s|..]
    ensures (s + buffer[|s|..])[|s|..] == buffer[|s|..]
  {
  }

  lemma RunsOnExactly(s: string, rest: string)
    ensures s + CString(rest) == s <==> rest == "" || rest[0] == NUL
  {
    assert |s + CString(rest)| == |s| + |CString(rest)|;
    if rest == "" || rest[0] == NUL { assert s + "" == s; }
  }

  // The last packet of a call yields its token if and only if the 64 characters that fill the
  // token's buffer happen to be followed by a NUL in memory. It yields its username if and only
  // if no earlier packet of the same call carried a longer one, because the tail of a longer
  // name is still in the buffer and is read as a continuation.
  lemma DecodesExactly(sent: seq<Credential>, memory: Memory)
    requires sent != [] && AllValid(sent)
    ensures Decode(BufferAfter(AllContents(sent)), memory).token == sent[|sent| - 1].token <==> memory.EndsToken()
    ensures Decode(BufferAfter(AllContents(sent)), memory).user == sent[|sent| - 1].user
       <==> forall j :: 0 <= j < |sent| ==> |sent[j].user| <= |sent[|sent| - 1].user|
  {
    var last := sent[|sent| - 1];
    var end := TOKEN_LENGTH + |last.user|;
    var rest := BufferAfter(AllContents(sent))[end..];
    DecodesLast(sent, memory);
    RunsOnExactly(last.token, memory.afterToken);
    RunsOnExactly(last.user, rest + memory.afterName);
    Residue(sent, end);
    assert (rest + memory.afterName)[0] == rest[0] == BufferAfter(AllContents(sent))[end];
    NobodyReaches(sent, |last.user|);
  }

  lemma NobodyReaches(sent: seq<Credential>, n: nat)
    ensures !SomeReaches(sent, TOKEN_LENGTH + n) <==> forall j :: 0 <= j < |sent| ==> |sent[j].user| <= n
  {
    if !SomeReaches(sent, TOKEN_LENGTH + n) {
      forall j | 0 <= j < |sent| ensures |sent[j].user| <= n {
        assert !(TOKEN_LENGTH + |sent[j].user| > TOKEN_LENGTH + n);
      }
    }
  }

  // In particular a packet that finds the buffer cleared splits back into what was sent, if the
  // read of the token ends.
  lemma ClearedBufferSplits(c: Credential, memory: Memory)
    requires c.Valid()
    ensures Decode(BufferAfter([c.Contents()]), memory).user == c.user
    ensures Decode(BufferAfter([c.Contents()]), memory) == c <==> memory.EndsToken()
  {
    assert AllContents([c]) == [c.Contents()];
    DecodesExactly([c], memory);
  }

  // A shorter name after a longer one in the same call: "bob" is taken for "bobce", whatever
  // the tokens and the memory.
  lemma ShorterNameMisread(token: string, memory: Memory)
    requires |token| == TOKEN_LENGTH && NulFree(token)
    ensures var first, second := Credential(token, "alice"), Credential(token, "bob");
      Decode(BufferAfter([first.Contents(), second.Contents()]), memory).user == "bobce"
  {
    var first, second := Credential(token, "alice"), Credential(token, "bob");
    var sent := [first, second];
    assert AllContents(sent) == [first.Contents(), second.Contents()];
    DecodesLast(sent, memory);
    var rest := BufferAfter(AllContents(sent))[TOKEN_LENGTH + 3..];
    LeftOver(first, second);
    var whole := rest + memory.afterName;
    assert whole[0] == rest[0] && whole[1] == rest[1] && whole[2] == rest[2];
    Ce(whole);
  }

  lemma Ce(s: string)
    requires |s| >= 3 && s[0] == 'c' && s[1] == 'e' && s[2] == NUL
    ensures CString(s) == "ce"
  {
    assert s == "ce" + s[2..];
    CStringOf("ce", s[2..]);
  }

  // What stays behind the second of two packets.
  lemma LeftOver(first: Credential, second: Credential)
    requires first.Valid() && second.Valid() && first.user == "alice" && second.user == "bob"
    ensures var rest := BufferAfter(AllContents([first, second]))[TOKEN_LENGTH + 3..];
      rest[0] == 'c' && rest[1] == 'e' && rest[2] == NUL
  {
    assert [first, second][..1] == [first] && [first][..0] == [];
    forall p | TOKEN_LENGTH + 3 <= p < TOKEN_LENGTH + 6
      ensures BufferAfter(AllContents([first, second]))[p]
           == if p < TOKEN_LENGTH + 5 then first.user[p - TOKEN_LENGTH] else NUL
    {
      LastPacket([first, second], p);
      LastPacket([first], p);
    }
  }
}
