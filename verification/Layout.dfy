/** Packets as tables of fields copied into a buffer, in general: who wrote each byte, when a
    field reads back, and what a payload with two headers behind it looks like on the wire. */
module Layout {
  import opened Bytes

  datatype Field = Field(at: nat, bytes: seq<byte>) {
    function End(): nat { at + |bytes| }
  }

  function Put(buffer: seq<byte>, at: nat, bytes: seq<byte>): (r: seq<byte>)
    requires at + |bytes| <= |buffer|
    ensures |r| == |buffer|
  {
    seq(|buffer|, p requires 0 <= p < |buffer| => if at <= p < at + |bytes| then bytes[p - at] else buffer[p])
  }

  method Memcpy(data: array<byte>, at: nat, source: seq<byte>)
    requires at + |source| <= data.Length
    modifies data
    ensures data[..] == Put(old(data[..]), at, source)
  {
    forall p | 0 <= p < |source| {
      data[at + p] := source[p];
    }
  }

  lemma SliceOfSlice(s: seq<byte>, a: nat, b: nat, c: nat, d: nat)
    requires a + d <= b <= |s| && c <= d
    ensures s[a..b][c..d] == s[a + c..a + d]
  {
    forall i | 0 <= i < d - c ensures s[a..b][c..d][i] == s[a + c..a + d][i] {
      assert s[a..b][c..d][i] == s[a..b][c + i] == s[a + (c + i)];
    }
  }

  lemma SlicesMeet(s: seq<byte>, a: nat, b: nat, c: nat)
    requires a <= b <= c <= |s|
    ensures s[a..b] + s[b..c] == s[a..c]
  {
  }

  ghost predicate Fits(fields: seq<Field>, n: nat) {
    forall i :: 0 <= i < |fields| ==> fields[i].End() <= n
  }

  lemma FitsLarger(fields: seq<Field>, n: nat, m: nat)
    requires Fits(fields, n) && n <= m
    ensures Fits(fields, m)
  {
  }

  // The buffer after the first k fields of a table have been copied in, in order.
  function Written(buffer: seq<byte>, fields: seq<Field>, k: nat): (r: seq<byte>)
    requires Fits(fields, |buffer|) && k <= |fields|
    ensures |r| == |buffer|
    decreases |fields|, k
  {
    if k == 0 then buffer
    else
      assert fields[k - 1].End() <= |buffer|;
      Put(Written(buffer, fields, k - 1), fields[k - 1].at, fields[k - 1].bytes)
  }

  function WriteAll(buffer: seq<byte>, fields: seq<Field>): (r: seq<byte>)
    requires Fits(fields, |buffer|)
    ensures |r| == |buffer|
  {
    Written(buffer, fields, |fields|)
  }

  // One memcpy, which is field k of the table that is being written.
  method Copy(data: array<byte>, at: nat, source: seq<byte>,
              ghost before: seq<byte>, ghost table: seq<Field>, ghost k: nat)
    requires data.Length == |before| && Fits(table, |before|)
    requires k < |table| && table[k] == Field(at, source)
    requires data[..] == Written(before, table, k)
    requires at + |source| <= data.Length
    modifies data
    ensures data[..] == Written(before, table, k + 1)
  {
    Memcpy(data, at, source);
  }

  // ---------- Who wrote a byte ----------

  // The last of the first k fields that covers a position, or -1.
  function LastWriter(fields: seq<Field>, k: nat, p: nat): (w: int)
    requires k <= |fields|
    ensures -1 <= w < k
    ensures w >= 0 ==> fields[w].at <= p < fields[w].End()
    ensures forall j :: w < j < k ==> !(fields[j].at <= p < fields[j].End())
  {
    if k == 0 then -1
    else if fields[k - 1].at <= p < fields[k - 1].End() then k - 1
    else LastWriter(fields, k - 1, p)
  }

  // For any table, overlapping or not: each byte is that of the last field to cover it, and
  // bytes no field covers keep their value.
  lemma {:induction false} WrittenAt(buffer: seq<byte>, fields: seq<Field>, k: nat, p: nat)
    requires Fits(fields, |buffer|) && p < |buffer| && k <= |fields|
    ensures var w := LastWriter(fields, k, p);
      Written(buffer, fields, k)[p] == if w < 0 then buffer[p] else fields[w].bytes[p - fields[w].at]
  {
    if k > 0 { WrittenAt(buffer, fields, k - 1, p); }
  }

  ghost predicate Apart(f: Field, g: Field) {
    f.End() <= g.at || g.End() <= f.at
  }

  ghost predicate Disjoint(fields: seq<Field>) {
    forall i, j :: 0 <= i < j < |fields| ==> Apart(fields[i], fields[j])
  }

  // A field reads back whole if no later field overlaps it.
  lemma ReadBack(buffer: seq<byte>, fields: seq<Field>, k: nat)
    requires Fits(fields, |buffer|) && k < |fields|
    requires forall j :: k < j < |fields| ==> Apart(fields[k], fields[j])
    ensures WriteAll(buffer, fields)[fields[k].at..fields[k].End()] == fields[k].bytes
  {
    var f := fields[k];
    forall p | f.at <= p < f.End() ensures WriteAll(buffer, fields)[p] == f.bytes[p - f.at] {
      WrittenAt(buffer, fields, |fields|, p);
    }
  }

  ghost predicate Uncovered(fields: seq<Field>, p: int) {
    forall k :: 0 <= k < |fields| ==> !(fields[k].at <= p < fields[k].End())
  }

  // A disjoint table recovers every field and leaves every other byte alone.
  lemma DisjointRoundTrip(buffer: seq<byte>, fields: seq<Field>)
    requires Fits(fields, |buffer|) && Disjoint(fields)
    ensures forall k :: 0 <= k < |fields| ==>
              WriteAll(buffer, fields)[fields[k].at..fields[k].End()] == fields[k].bytes
    ensures forall p :: 0 <= p < |buffer| && Uncovered(fields, p) ==> WriteAll(buffer, fields)[p] == buffer[p]
  {
    forall k | 0 <= k < |fields|
      ensures WriteAll(buffer, fields)[fields[k].at..fields[k].End()] == fields[k].bytes
    {
      ReadBack(buffer, fields, k);
    }
    forall p | 0 <= p < |buffer| && Uncovered(fields, p) ensures WriteAll(buffer, fields)[p] == buffer[p] {
      WrittenAt(buffer, fields, |fields|, p);
    }
  }

  // `cut` is the table with field k cut short where the next field starts, which covers the rest.
  ghost predicate CutShort(fields: seq<Field>, cut: seq<Field>, k: nat, rest: seq<byte>) {
    && k + 1 < |fields| == |cut|
    && (forall i :: 0 <= i < |fields| && i != k ==> cut[i] == fields[i])
    && cut[k].at == fields[k].at && fields[k].bytes == cut[k].bytes + rest
    && fields[k + 1].at == cut[k].End() && |rest| <= |fields[k + 1].bytes|
  }

  lemma PutTrimmed(buffer: seq<byte>, at: nat, short: seq<byte>, rest: seq<byte>, next: seq<byte>)
    requires |rest| <= |next| && at + |short| + |next| <= |buffer|
    ensures Put(Put(buffer, at, short + rest), at + |short|, next) == Put(Put(buffer, at, short), at + |short|, next)
  {
  }

  // A field whose end the next field covers might as well have been cut short there.
  lemma {:induction false} Trimmed(buffer: seq<byte>, fields: seq<Field>, cut: seq<Field>, k: nat,
                                   rest: seq<byte>, n: nat)
    requires Fits(fields, |buffer|) && Fits(cut, |buffer|) && CutShort(fields, cut, k, rest)
    requires n <= |fields| && (n <= k || n > k + 1)
    ensures Written(buffer, cut, n) == Written(buffer, fields, n)
  {
    if n == k + 2 {
      Trimmed(buffer, fields, cut, k, rest, k);
      PutTrimmed(Written(buffer, fields, k), fields[k].at, cut[k].bytes, rest, fields[k + 1].bytes);
      assert Written(buffer, fields, k + 1) == Put(Written(buffer, fields, k), fields[k].at, fields[k].bytes);
      assert Written(buffer, cut, k + 1) == Put(Written(buffer, cut, k), cut[k].at, cut[k].bytes);
    } else if n > 0 {
      Trimmed(buffer, fields, cut, k, rest, n - 1);
    }
  }

  // ---------- Tables without gaps ----------

  // Each field starts where the one before it ends, and the first at 0.
  predicate Packed(fields: seq<Field>) {
    && (fields != [] ==> fields[0].at == 0)
    && forall i :: 0 <= i < |fields| - 1 ==> fields[i + 1].at == fields[i].End()
  }

  // The bytes of the first k fields, one after another.
  function Joined(fields: seq<Field>, k: nat): seq<byte>
    requires k <= |fields|
    decreases |fields|, k
  {
    if k == 0 then [] else Joined(fields, k - 1) + fields[k - 1].bytes
  }

  function Join(fields: seq<Field>): seq<byte> {
    Joined(fields, |fields|)
  }

  lemma {:induction false} PackedEnd(fields: seq<Field>, k: nat)
    requires Packed(fields) && 0 < k <= |fields|
    ensures fields[k - 1].End() == |Joined(fields, k)|
  {
    if k > 1 {
      PackedEnd(fields, k - 1);
      assert fields[k - 2 + 1].at == fields[k - 2].End();
    } else {
      assert Joined(fields, 0) == [];
    }
  }

  lemma PutBehind(buffer: seq<byte>, s: seq<byte>, t: seq<byte>)
    requires |s| + |t| <= |buffer|
    ensures Put(Put(buffer, 0, s), |s|, t) == Put(buffer, 0, s + t)
  {
  }

  // Writing a packed table is one copy of its bytes joined together.
  lemma {:induction false} PackedIsPut(buffer: seq<byte>, fields: seq<Field>, k: nat)
    requires Packed(fields) && Fits(fields, |buffer|) && k <= |fields|
    ensures |Joined(fields, k)| <= |buffer| && Written(buffer, fields, k) == Put(buffer, 0, Joined(fields, k))
  {
    if k > 0 {
      PackedEnd(fields, k);
      PackedIsPut(buffer, fields, k - 1);
      PutBehind(buffer, Joined(fields, k - 1), fields[k - 1].bytes);
    }
  }

  // Each field is a slice of the joined bytes.
  lemma {:induction false} PackedSlice(fields: seq<Field>, i: nat, k: nat)
    requires Packed(fields) && i < k <= |fields|
    ensures fields[i].End() <= |Joined(fields, k)|
    ensures Joined(fields, k)[fields[i].at..fields[i].End()] == fields[i].bytes
  {
    PackedEnd(fields, k);
    if i < k - 1 {
      PackedSlice(fields, i, k - 1);
      assert Joined(fields, k)[fields[i].at..fields[i].End()] == Joined(fields, k - 1)[fields[i].at..fields[i].End()];
    }
  }

  // ---------- A payload with two headers behind it ----------

  const BASE_LENGTH: nat := 12

  // Payload, then the layer header, then the base header `gap` bytes after the layer's start.
  function Frame(buffer: seq<byte>, payload: seq<byte>, layer: seq<byte>, base: seq<byte>, gap: nat): (r: seq<byte>)
    requires |payload| + gap + |base| <= |buffer| && |payload| + |layer| <= |buffer|
    ensures |r| == |buffer|
  {
    Put(Put(Put(buffer, 0, payload), |payload|, layer), |payload| + gap, base)
  }

  // What three deserialisers take from the tail: base header, layer header, payload.
  function Parse(wire: seq<byte>, n: nat, k: nat): (seq<byte>, seq<byte>, seq<byte>)
    requires n + k + BASE_LENGTH <= |wire|
  {
    (wire[..n], wire[n..n + k], wire[n + k..n + k + BASE_LENGTH])
  }

  lemma PutOver(buffer: seq<byte>, at: nat, s: seq<byte>, t: seq<byte>)
    requires |s| <= |t| && at + |t| <= |buffer|
    ensures Put(Put(buffer, at, s), at, t) == Put(buffer, at, t)
  {
  }

  lemma FourParts(a: seq<byte>, b: seq<byte>, c: seq<byte>, d: seq<byte>)
    ensures (a + b + c + d)[..|a|] == a
    ensures (a + b + c + d)[|a|..|a| + |b|] == b
    ensures (a + b + c + d)[|a| + |b|..|a| + |b| + |c|] == c
  {
  }

  // With the headers one after another, all three are recovered and the rest is untouched.
  lemma AdjacentHeaders(buffer: seq<byte>, payload: seq<byte>, layer: seq<byte>, base: seq<byte>)
    requires |base| == BASE_LENGTH && |payload| + |layer| + BASE_LENGTH <= |buffer|
    ensures Parse(Frame(buffer, payload, layer, base, |layer|), |payload|, |layer|) == (payload, layer, base)
    ensures Frame(buffer, payload, layer, base, |layer|) == Put(buffer, 0, payload + layer + base)
  {
    PutBehind(buffer, payload, layer);
    PutBehind(buffer, payload + layer, base);
    var rest := buffer[|payload + layer + base|..];
    assert Frame(buffer, payload, layer, base, |layer|) == payload + layer + base + rest;
    FourParts(payload, layer, base, rest);
  }

  // The wire when both headers are put at the same place: the second replaces the first.
  lemma OverwrittenWire(buffer: seq<byte>, payload: seq<byte>, layer: seq<byte>, base: seq<byte>)
    requires |base| == BASE_LENGTH && |layer| <= BASE_LENGTH
    requires |payload| + BASE_LENGTH <= |buffer|
    ensures Frame(buffer, payload, layer, base, 0) == payload + base + buffer[|payload| + BASE_LENGTH..]
  {
    PutOver(Put(buffer, 0, payload), |payload|, layer, base);
    PutBehind(buffer, payload, base);
  }

  // So the wire holds the payload, the base header and whatever the buffer held next. The
  // payload is still recovered. The headers are if and only if the bytes happen to coincide.
  lemma OverwrittenHeaders(buffer: seq<byte>, payload: seq<byte>, layer: seq<byte>, base: seq<byte>)
    requires |base| == BASE_LENGTH && |layer| <= BASE_LENGTH
    requires |payload| + |layer| + BASE_LENGTH <= |buffer|
    ensures var residue := buffer[|payload| + BASE_LENGTH..|payload| + BASE_LENGTH + |layer|];
      var parsed := Parse(Frame(buffer, payload, layer, base, 0), |payload|, |layer|);
      && parsed.0 == payload
      && parsed.1 + parsed.2 == base + residue
      && (parsed == (payload, layer, base) <==> layer + base == base + residue)
  {
    var n, k := |payload|, |layer|;
    var residue, rest := buffer[n + BASE_LENGTH..n + BASE_LENGTH + k], buffer[n + BASE_LENGTH + k..];
    var wire := Frame(buffer, payload, layer, base, 0);
    var parsed := Parse(wire, n, k);
    OverwrittenWire(buffer, payload, layer, base);
    assert buffer[n + BASE_LENGTH..] == residue + rest;
    assert wire == payload + (base + residue) + rest + [];
    FourParts(payload, base + residue, rest, []);
    assert parsed.1 + parsed.2 == wire[n..n + k + BASE_LENGTH];
    SplitEqual(parsed.1, parsed.2, layer, base);
  }

  lemma SplitEqual(a: seq<byte>, b: seq<byte>, c: seq<byte>, d: seq<byte>)
    requires |a| == |c|
    ensures a + b == c + d <==> a == c && b == d
  {
    if a + b == c + d {
      assert (a + b)[..|a|] == (c + d)[..|c|];
      assert (a + b)[|a|..] == (c + d)[|c|..];
    }
  }

  // In a cleared buffer that coincidence means headers that are zero throughout.
  lemma OverwrittenInClearedBuffer(layer: seq<byte>, base: seq<byte>, residue: seq<byte>)
    requires |layer| == |residue| > 0
    requires forall i :: 0 <= i < |residue| ==> residue[i] == 0
    ensures layer + base == base + residue <==>
              (forall i :: 0 <= i < |layer| ==> layer[i] == 0) && (forall i :: 0 <= i < |base| ==> base[i] == 0)
  {
    if layer + base == base + residue {
      var k := |layer|;
      forall i | 0 <= i < |base| ensures base[i] == 0 { ZeroFrom(layer, base, residue, i); }
      forall i | 0 <= i < k ensures layer[i] == 0 {
        assert layer[i] == (base + residue)[i];
      }
    }
  }

  lemma {:induction false} ZeroFrom(layer: seq<byte>, base: seq<byte>, residue: seq<byte>, i: nat)
    requires |layer| == |residue| > 0 && layer + base == base + residue && i < |base|
    requires forall i :: 0 <= i < |residue| ==> residue[i] == 0
    ensures base[i] == 0
    decreases |base| - i
  {
    var k := |layer|;
    assert base[i] == (layer + base)[k + i] == (base + residue)[k + i];
    if k + i < |base| { ZeroFrom(layer, base, residue, k + i); }
  }
}
