/** The three read loops of the login exchange, against a channel that may hand over a
    message in pieces of any positive sizes: the password and token loops, which read each
    piece behind the previous one, and the username loop, which reads every piece to the
    start of the buffer. */
module ChunkedRead {
  import opened CStrings

  const PASSWORD_BUFFER: nat := 64
  const TOKEN_BUFFER: nat := 64
  const NAME_BUFFER: nat := 16

  function Flatten(chunks: seq<string>): string {
    if chunks == [] then "" else Flatten(chunks[..|chunks| - 1]) + chunks[|chunks| - 1]
  }

  ghost predicate Positive(chunks: seq<string>) {
    forall i :: 0 <= i < |chunks| ==> chunks[i] != ""
  }

  lemma {:induction false} FlattenPrefix(chunks: seq<string>, n: nat)
    requires n <= |chunks|
    ensures Flatten(chunks[..n]) <= Flatten(chunks)
    ensures Positive(chunks) && n < |chunks| ==> |Flatten(chunks[..n])| < |Flatten(chunks)|
  {
    if n < |chunks| {
      var most := chunks[..|chunks| - 1];
      FlattenPrefix(most, n);
      assert most[..n] == chunks[..n];
    } else {
      assert chunks[..n] == chunks;
    }
  }

  lemma NextPiece(chunks: seq<string>, used: nat)
    requires Positive(chunks) && used < |chunks|
    ensures Flatten(chunks[..used + 1]) == Flatten(chunks[..used]) + chunks[used]
    ensures |Flatten(chunks[..used + 1])| <= |Flatten(chunks)|
  {
    FlattenPrefix(chunks, used + 1);
    assert chunks[..used + 1][..used] == chunks[..used];
  }

  // The loop has read `used` pieces: enough, and not one more than needed.
  ghost predicate StopsAt(chunks: seq<string>, announced: int, used: nat) {
    && used <= |chunks|
    && announced <= |Flatten(chunks[..used])|
    && (used > 0 ==> |Flatten(chunks[..used - 1])| < announced)
  }

  // The password loop of the server and the token loop of the client.
  method ReadBehind(buffer: array<char>, announced: int, chunks: seq<string>) returns (totalBytes: nat, used: nat)
    requires Positive(chunks)
    requires announced <= |Flatten(chunks)| <= buffer.Length
    modifies buffer
    ensures StopsAt(chunks, announced, used)
    ensures totalBytes == |Flatten(chunks[..used])| <= buffer.Length
    ensures buffer[..] == Put(old(buffer[..]), 0, Flatten(chunks[..used]))
  {
    totalBytes, used := 0, 0;
    while totalBytes < announced
      invariant used <= |chunks|
      invariant totalBytes == |Flatten(chunks[..used])| <= buffer.Length
      invariant used > 0 ==> |Flatten(chunks[..used - 1])| < announced
      invariant buffer[..] == Put(old(buffer[..]), 0, Flatten(chunks[..used]))
      decreases |chunks| - used
    {
      assert used < |chunks| by { assert chunks[..|chunks|] == chunks; }
      NextPiece(chunks, used);
      var piece := chunks[used];
      PutPut(old(buffer[..]), Flatten(chunks[..used]), piece);
      CopyIn(buffer, totalBytes, piece);
      totalBytes := totalBytes + |piece|;
      used := used + 1;
    }
  }

  // When the announced length is the message's own, every piece is read and nothing is left.
  lemma ReadsWholeMessage(chunks: seq<string>, used: nat)
    requires Positive(chunks) && StopsAt(chunks, |Flatten(chunks)|, used)
    ensures used == |chunks| && Flatten(chunks[..used]) == Flatten(chunks)
  {
    FlattenPrefix(chunks, used);
    assert chunks[..|chunks|] == chunks;
  }

  // The server's password: whatever the pieces, the string it hashes is the one sent.
  method RecvPassword(passLen: int, chunks: seq<string>) returns (password: string, ghost used: nat)
    requires Positive(chunks) && passLen <= |Flatten(chunks)| <= 64
    ensures passLen == |Flatten(chunks)| && NulFree(Flatten(chunks)) ==> password == Flatten(chunks)
    ensures StopsAt(chunks, passLen, used) && |Flatten(chunks[..used])| <= PASSWORD_BUFFER
    ensures password == CString(Flatten(chunks[..used]) + Zeros(PASSWORD_BUFFER - |Flatten(chunks[..used])|))
  {
    var buffer := new char[PASSWORD_BUFFER](_ => NUL);
    assert buffer[..] == Zeros(PASSWORD_BUFFER);
    var total;
    total, used := ReadBehind(buffer, passLen, chunks);
    var read := Flatten(chunks[..used]);
    assert buffer[..] == read + Zeros(PASSWORD_BUFFER - total);
    password := CString(buffer[..]);
    if passLen == |Flatten(chunks)| && NulFree(Flatten(chunks)) {
      ReadsWholeMessage(chunks, used);
      CStringOf(read, Zeros(PASSWORD_BUFFER - total));
    }
  }

  // The client's token: 64 bytes, whatever the pieces, fill its buffer exactly.
  method RecvToken(chunks: seq<string>) returns (token: string)
    requires Positive(chunks) && |Flatten(chunks)| == 64
    ensures token == Flatten(chunks)
  {
    var buffer := new char[TOKEN_BUFFER](_ => NUL);
    var total, used := ReadBehind(buffer, TOKEN_BUFFER, chunks);
    ReadsWholeMessage(chunks, used);
    token := buffer[..];
  }

  // ---------- The username loop ----------

  // What the buffer holds after the loop has read as many pieces as it wants.
  function Overlaid(buffer: seq<char>, chunks: seq<string>, wanted: int): (r: seq<char>)
    requires forall i :: 0 <= i < |chunks| ==> |chunks[i]| <= |buffer|
    ensures |r| == |buffer|
    decreases |chunks|
  {
    if wanted <= 0 || chunks == [] then buffer
    else Overlaid(Put(buffer, 0, chunks[0]), chunks[1..], wanted - |chunks[0]|)
  }

  method ReadName(nameLen: int, chunks: seq<string>) returns (name: string)
    requires Positive(chunks) && nameLen <= |Flatten(chunks)|
    requires forall i :: 0 <= i < |chunks| ==> |chunks[i]| <= NAME_BUFFER
    ensures name == CString(Overlaid(Zeros(NAME_BUFFER), chunks, nameLen))
  {
    var buffer := new char[NAME_BUFFER](_ => NUL);
    assert buffer[..] == Zeros(NAME_BUFFER);
    var bytesReceived := 0;
    var used := 0;
    assert chunks[..0] == [] && chunks[0..] == chunks;
    while bytesReceived < nameLen
      invariant used <= |chunks|
      invariant bytesReceived == |Flatten(chunks[..used])|
      invariant Overlaid(buffer[..], chunks[used..], nameLen - bytesReceived)
             == Overlaid(Zeros(NAME_BUFFER), chunks, nameLen)
      decreases |chunks| - used
    {
      assert used < |chunks| by { assert chunks[..|chunks|] == chunks; }
      var piece := chunks[used];
      CopyIn(buffer, 0, piece);
      assert chunks[used..][1..] == chunks[used + 1..] && chunks[used..][0] == piece;
      assert chunks[..used + 1][..used] == chunks[..used];
      bytesReceived := bytesReceived + |piece|;
      used := used + 1;
    }
    name := CString(buffer[..]);
  }

  function Sum(sizes: seq<nat>): nat {
    if sizes == [] then 0 else sizes[0] + Sum(sizes[1..])
  }

  ghost predicate Cuts(sizes: seq<nat>, length: nat) {
    (forall i :: 0 <= i < |sizes| ==> sizes[i] > 0) && Sum(sizes) == length
  }

  // A record handed over in pieces of the given sizes.
  function Cut(record: string, sizes: seq<nat>): (r: seq<string>)
    requires Sum(sizes) == |record|
    ensures |r| == |sizes|
    ensures forall i :: 0 <= i < |r| ==> |r[i]| <= |record|
    ensures (forall i :: 0 <= i < |sizes| ==> sizes[i] > 0) ==> Positive(r)
  {
    if sizes == [] then []
    else [record[..sizes[0]]] + Cut(record[sizes[0]..], sizes[1..])
  }

  // The client always sends the full, zero-padded name buffer.
  function Padded(name: string): (r: string)
    requires |name| < NAME_BUFFER
    ensures |r| == NAME_BUFFER
  {
    name + Zeros(NAME_BUFFER - |name|)
  }

  ghost predicate NameSurvives(name: string, sizes: seq<nat>)
    requires |name| < NAME_BUFFER && Sum(sizes) == NAME_BUFFER
  {
    CString(Overlaid(Zeros(NAME_BUFFER), Cut(Padded(name), sizes), |name|)) == name
  }

  lemma FirstPieceEnough(name: string, sizes: seq<nat>)
    requires 0 < |name| < NAME_BUFFER && NulFree(name)
    requires Cuts(sizes, NAME_BUFFER) && sizes != [] && sizes[0] >= |name|
    ensures NameSurvives(name, sizes)
  {
    var k := sizes[0];
    var first := Padded(name)[..k];
    assert Cut(Padded(name), sizes)[0] == first;
    var after := Put(Zeros(NAME_BUFFER), 0, first);
    assert Overlaid(Zeros(NAME_BUFFER), Cut(Padded(name), sizes), |name|)
        == Overlaid(after, Cut(Padded(name), sizes)[1..], |name| - k);
    assert after == name + Zeros(NAME_BUFFER - |name|);
    CStringOf(name, Zeros(NAME_BUFFER - |name|));
  }

  // A byte that is NUL, and that no later piece has a byte of the name for, stays NUL.
  lemma {:induction false} NulStays(buffer: seq<char>, record: string, sizes: seq<nat>, at: nat, q: nat, wanted: int)
    requires 0 < at <= |record| <= |buffer| && q < |buffer| && buffer[q] == NUL
    requires Cuts(sizes, |record| - at)
    requires forall p :: q < p < |record| ==> record[p] == NUL
    ensures Overlaid(buffer, Cut(record[at..], sizes), wanted)[q] == NUL
    decreases |sizes|
  {
    if wanted > 0 && sizes != [] {
      var k := sizes[0];
      var piece := record[at..][..k];
      assert record[at..][k..] == record[at + k..];
      assert Cut(record[at..], sizes) == [piece] + Cut(record[at + k..], sizes[1..]);
      TailCuts(sizes, |record| - at);
      assert q < k ==> piece[q] == record[at + q];
      NulStays(Put(buffer, 0, piece), record, sizes[1..], at + k, q, wanted - k);
    }
  }

  lemma TailCuts(sizes: seq<nat>, length: nat)
    requires Cuts(sizes, length) && sizes != []
    ensures sizes[0] <= length && Cuts(sizes[1..], length - sizes[0])
  {
    forall i | 0 <= i < |sizes[1..]| ensures sizes[1..][i] > 0 { assert sizes[1..][i] == sizes[i + 1]; }
  }

  // A string ends before any NUL.
  lemma {:induction false} EndsBefore(buffer: seq<char>, q: nat)
    requires q < |buffer| && buffer[q] == NUL
    ensures |CString(buffer)| <= q
  {
    if q > 0 && buffer[0] != NUL { EndsBefore(buffer[1..], q - 1); }
  }

  // When the first piece is too short for the name, the byte of the name's last character is
  // never written, and the name is lost.
  lemma SplitNameLost(name: string, sizes: seq<nat>)
    requires 0 < |name| < NAME_BUFFER && NulFree(name)
    requires Cuts(sizes, NAME_BUFFER) && sizes[0] < |name|
    ensures !NameSurvives(name, sizes)
  {
    var k, q := sizes[0], |name| - 1;
    var record := Padded(name);
    var after := Put(Zeros(NAME_BUFFER), 0, record[..k]);
    assert Cut(record, sizes) == [record[..k]] + Cut(record[k..], sizes[1..]);
    TailCuts(sizes, NAME_BUFFER);
    assert after[q] == NUL;
    NulStays(after, record, sizes[1..], k, q, |name| - k);
    EndsBefore(Overlaid(Zeros(NAME_BUFFER), Cut(record, sizes), |name|), q);
  }

  // A name survives a given fragmentation if and only if the first piece carries all of it.
  lemma NameLoopExactly(name: string, sizes: seq<nat>)
    requires 0 < |name| < 16 && NulFree(name) && Cuts(sizes, 16)
    ensures NameSurvives(name, sizes) <==> sizes[0] >= |name|
  {
    if sizes[0] >= |name| {
      FirstPieceEnough(name, sizes);
    } else {
      SplitNameLost(name, sizes);
    }
  }
}
