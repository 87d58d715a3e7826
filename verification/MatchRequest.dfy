/** The match request: built from a token, a username and a position, written to a buffer as
    fixed fields followed by a decimal number, and read back. */
module MatchRequest {
  import opened CStrings

  const TOKEN_LENGTH: nat := 64
  const NAME_LENGTH: nat := 16
  const POSITION_AT: nat := TOKEN_LENGTH + NAME_LENGTH

  // ---------- sprintf "%d" and atoi ----------

  function DigitChar(n: int): char
    requires 0 <= n < 10
  {
    '0' + (n as char)
  }

  predicate IsDigit(c: char) {
    '0' <= c <= '9'
  }

  predicate IsSpace(c: char) {
    c == ' ' || ('\t' <= c <= '\r')
  }

  function Digits(n: nat): string {
    if n < 10 then [DigitChar(n)] else Digits(n / 10) + [DigitChar(n % 10)]
  }

  function Decimal(n: int): string {
    if n < 0 then "-" + Digits(-n) else Digits(n)
  }

  function ParseDigits(s: string, sofar: int): int {
    if s == "" || !IsDigit(s[0]) then sofar
    else ParseDigits(s[1..], 10 * sofar + (s[0] as int - '0' as int))
  }

  function Atoi(s: string): int {
    if s == "" then 0
    else if IsSpace(s[0]) then Atoi(s[1..])
    else if s[0] == '-' then -ParseDigits(s[1..], 0)
    else if s[0] == '+' then ParseDigits(s[1..], 0)
    else ParseDigits(s, 0)
  }

  lemma {:induction false} DigitsParse(n: nat, rest: string)
    ensures Digits(n) != "" && IsDigit(Digits(n)[0])
    ensures ParseDigits(Digits(n) + rest, 0) == ParseDigits(rest, n)
  {
    var c := DigitChar(n % 10);
    assert ([c] + rest)[1..] == rest;
    if n >= 10 {
      DigitsParse(n / 10, [c] + rest);
      assert Digits(n) + rest == Digits(n / 10) + ([c] + rest);
    }
  }

  lemma AtoiUnsigned(s: string)
    requires s != "" && IsDigit(s[0])
    ensures Atoi(s) == ParseDigits(s, 0)
  {
  }

  lemma AtoiSigned(s: string)
    ensures Atoi("-" + s) == -ParseDigits(s, 0)
  {
    assert ("-" + s)[1..] == s;
  }

  lemma MinusSign(digits: string, rest: string)
    ensures ("-" + digits) + rest == "-" + (digits + rest)
  {
  }

  // Reading back a printed number gives the number, whatever non-digit follows it.
  lemma AtoiInvertsDecimal(n: int, rest: string)
    requires rest == "" || !IsDigit(rest[0])
    ensures Atoi(Decimal(n) + rest) == n
  {
    var digits := Digits(if n < 0 then -n else n);
    DigitsParse(if n < 0 then -n else n, rest);
    if n < 0 {
      AtoiSigned(digits + rest);
      MinusSign(digits, rest);
    } else {
      AtoiUnsigned(digits + rest);
    }
  }

  // Reading skips blanks and takes either sign.
  lemma {:induction false} AtoiSkips(blanks: string, s: string)
    requires forall i :: 0 <= i < |blanks| ==> blanks[i] in " \t\n" || blanks[i] as int in {11, 12, 13}
    ensures Atoi(blanks + s) == Atoi(s)
  {
    if blanks == [] {
      assert blanks + s == s;
    } else {
      assert (blanks + s)[1..] == blanks[1..] + s;
      AtoiSkips(blanks[1..], s);
    }
  }

  // In full: blanks, a sign or none, digits, and anything that is not a digit.
  lemma AtoiReads(blanks: string, n: nat, rest: string)
    requires forall i :: 0 <= i < |blanks| ==> blanks[i] in " \t\n" || blanks[i] as int in {11, 12, 13}
    requires rest == "" || !IsDigit(rest[0])
    ensures Atoi(blanks + (Digits(n) + rest)) == n
    ensures Atoi(blanks + ("+" + (Digits(n) + rest))) == n
    ensures Atoi(blanks + ("-" + (Digits(n) + rest))) == 0 - n
    ensures Atoi(blanks + rest) == Atoi(rest)
  {
    DigitsParse(n, rest);
    AtoiSkips(blanks, Digits(n) + rest);
    AtoiUnsigned(Digits(n) + rest);
    AtoiSkips(blanks, "+" + (Digits(n) + rest));
    assert ("+" + (Digits(n) + rest))[1..] == Digits(n) + rest;
    AtoiSkips(blanks, "-" + (Digits(n) + rest));
    AtoiSigned(Digits(n) + rest);
    AtoiSkips(blanks, rest);
  }

  predicate AllDigits(s: string) {
    forall i :: 0 <= i < |s| ==> IsDigit(s[i])
  }

  // A printed number is digits, without a leading zero unless it is 0 itself, and behind a
  // minus sign if it is negative.
  lemma {:induction false} DigitsShape(n: nat)
    ensures Digits(n) != "" && AllDigits(Digits(n))
    ensures Digits(n)[0] == '0' <==> n == 0
    ensures n < 10 ==> |Digits(n)| == 1
  {
    assert DigitChar(n % 10) as int == '0' as int + n % 10;
    if n >= 10 { DigitsShape(n / 10); }
  }

  lemma DecimalShape(n: int)
    ensures n >= 0 ==> Decimal(n) != "" && AllDigits(Decimal(n)) && (Decimal(n)[0] == '0' <==> n == 0)
    ensures n == 0 ==> Decimal(n) == "0"
    ensures n < 0 ==> |Decimal(n)| > 1 && Decimal(n)[0] == '-' && AllDigits(Decimal(n)[1..]) && Decimal(n)[1] != '0'
  {
    DigitsShape(if n < 0 then -n else n);
    if n < 0 { assert Decimal(n)[1..] == Digits(-n); }
  }

  // ---------- The request ----------

  class Request {
    var token: string
    var username: string
    var pos: int

    // Both character fields are fixed-size arrays.
    ghost predicate Valid()
      reads this
    {
      |token| == TOKEN_LENGTH && |username| == NAME_LENGTH
    }

    constructor ()
      ensures Valid()
    {
      token, username, pos := Zeros(TOKEN_LENGTH), Zeros(NAME_LENGTH), 0;
    }

    method Build(authToken: string, uname: string, position: int)
      requires |authToken| >= TOKEN_LENGTH && |uname| <= NAME_LENGTH
      modifies this
      ensures Valid() && pos == position
      ensures token == authToken[..TOKEN_LENGTH] && username == Padded(uname)
    {
      token := authToken[..TOKEN_LENGTH];
      username := Zeros(NAME_LENGTH);
      username := Put(username, 0, uname);
      pos := position;
    }

    method Serialize(buffer: array<char>)
      requires Valid() && |Wire(token, username, pos)| <= buffer.Length
      modifies buffer
      ensures buffer[..] == Put(old(buffer[..]), 0, Wire(token, username, pos))
      ensures buffer[..64] == token && buffer[64..80] == username
      ensures 80 + |Decimal(pos)| < buffer.Length
      ensures buffer[80..80 + |Decimal(pos)|] == Decimal(pos) && buffer[80 + |Decimal(pos)|] == NUL
    {
      ghost var before := buffer[..];
      CopyIn(buffer, 0, token);
      var uname := Put(Zeros(NAME_LENGTH), 0, username);
      assert uname == username;
      PutPut(before, token, uname);
      CopyIn(buffer, TOKEN_LENGTH, uname);
      PutPut(before, token + uname, Decimal(pos) + [NUL]);
      CopyIn(buffer, POSITION_AT, Decimal(pos) + [NUL]);
      WireParts(before, token, username, Decimal(pos));
    }

    method Deserialize(buffer: array<char>)
      requires POSITION_AT <= buffer.Length
      modifies this
      ensures Valid()
      ensures Read(buffer[..]) == (token, username, pos)
      ensures token == buffer[..64] && username == buffer[64..80] && pos == Atoi(buffer[80..])
    {
      token := buffer[..TOKEN_LENGTH];
      username := buffer[TOKEN_LENGTH..POSITION_AT];
      pos := Atoi(buffer[POSITION_AT..]);
      assert buffer[..][TOKEN_LENGTH..POSITION_AT] == username && buffer[..][..TOKEN_LENGTH] == token;
      assert buffer[..][POSITION_AT..] == buffer[POSITION_AT..];
    }
  }

  function Padded(uname: string): string
    requires |uname| <= NAME_LENGTH
  {
    uname + Zeros(NAME_LENGTH - |uname|)
  }

  function Wire(token: string, username: string, pos: int): string {
    token + username + (Decimal(pos) + [NUL])
  }

  function Read(buffer: seq<char>): (string, string, int)
    requires POSITION_AT <= |buffer|
  {
    (buffer[..TOKEN_LENGTH], buffer[TOKEN_LENGTH..POSITION_AT], Atoi(buffer[POSITION_AT..]))
  }

  lemma WireParts(buffer: seq<char>, a: string, b: string, c: string)
    requires |a + b + (c + [NUL])| <= |buffer|
    ensures var wire := Put(buffer, 0, a + b + (c + [NUL]));
      && wire[..|a|] == a && wire[|a|..|a| + |b|] == b
      && wire[|a| + |b|..|a| + |b| + |c|] == c && wire[|a| + |b| + |c|] == NUL
  {
  }

  // A request written over any buffer reads back as itself, position included, for every
  // integer position.
  lemma RoundTrip(buffer: seq<char>, token: string, username: string, pos: int)
    requires |token| == TOKEN_LENGTH && |username| == NAME_LENGTH
    requires |Wire(token, username, pos)| <= |buffer|
    ensures Read(Put(buffer, 0, Wire(token, username, pos))) == (token, username, pos)
  {
    var rest := [NUL] + buffer[|Wire(token, username, pos)|..];
    AtoiInvertsDecimal(pos, rest);
    ThreeParts(token, username, Decimal(pos) + rest);
    PutThree(buffer, token + username, Decimal(pos));
  }

  lemma PutThree(buffer: seq<char>, a: string, b: string)
    requires |a + (b + [NUL])| <= |buffer|
    ensures Put(buffer, 0, a + (b + [NUL])) == a + (b + ([NUL] + buffer[|a + (b + [NUL])|..]))
  {
  }

  lemma ThreeParts(a: string, b: string, c: string)
    ensures (a + b + c)[..|a|] == a
    ensures (a + b + c)[|a|..|a| + |b|] == b
    ensures (a + b + c)[|a| + |b|..] == c
  {
  }

  // End to end: what the receiver holds is the sender's token, the padded name, whose text
  // is the name itself, and the position.
  method Transfer(authToken: string, uname: string, position: int, buffer: array<char>)
    returns (token: string, name: string, pos: int)
    requires |authToken| == TOKEN_LENGTH && |uname| <= NAME_LENGTH && NulFree(uname)
    requires POSITION_AT + |Decimal(position)| + 1 <= buffer.Length
    modifies buffer
    ensures token == authToken && name == uname && pos == position
  {
    var sent := new Request();
    sent.Build(authToken, uname, position);
    ghost var before := buffer[..];
    sent.Serialize(buffer);
    RoundTrip(before, sent.token, sent.username, sent.pos);
    var received := new Request();
    received.Deserialize(buffer);
    CStringOf(uname, Zeros(NAME_LENGTH - |uname|));
    token, name, pos := received.token, CString(received.username), received.pos;
  }
}
