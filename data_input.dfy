/** A little-endian cursor over the bytes of a file: the fixed-width reads the
    archive parser uses and the bounded reader of zero-terminated strings. */
module DataInput {
  import opened Bytes
  import opened Results

  /** The limit `readStringNull()` uses when the caller gives none. */
  const DEFAULT_LIMIT: int := 256

  /** The US-ASCII decoder: bytes above 0x7F become the replacement character. */
  function AsciiChar(b: byte): char
  {
    if b < 0x80 then (b as int) as char else '�'
  }

  function Decode(raw: seq<byte>): (s: string)
    ensures |s| == |raw|
    ensures forall i :: 0 <= i < |raw| ==> (s[i] == '\0' <==> raw[i] == 0)
    ensures forall i :: 0 <= i < |raw| && raw[i] < 0x80 ==> s[i] as int == raw[i] as int
  {
    seq(|raw|, i requires 0 <= i < |raw| => AsciiChar(raw[i]))
  }

  /** What one read yields, and where it leaves the cursor. */
  datatype Step<T> = Step(result: Result<T>, next: nat)

  // Fixed-width reads at `pos`. A read that finds too few bytes fails and
  // leaves the cursor where it was.

  function ByteAt(data: seq<byte>, pos: nat): Step<byte>
  {
    if pos < |data| then Step(Ok(data[pos]), pos + 1) else Step(Err(Truncated), pos)
  }

  function BytesAt(data: seq<byte>, pos: nat, n: nat): Step<seq<byte>>
  {
    if pos + n <= |data| then Step(Ok(data[pos..pos + n]), pos + n) else Step(Err(Truncated), pos)
  }

  function IntAt(data: seq<byte>, pos: nat): Step<int32>
  {
    if pos + 4 <= |data| then Step(Ok(Wrap32(LeUint32(data[pos..pos + 4]))), pos + 4)
    else Step(Err(Truncated), pos)
  }

  function UnsignedShortAt(data: seq<byte>, pos: nat): Step<uint16>
  {
    if pos + 2 <= |data| then Step(Ok(LeUint16(data[pos], data[pos + 1])), pos + 2)
    else Step(Err(Truncated), pos)
  }

  function UnsignedIntAt(data: seq<byte>, pos: nat): Step<uint32>
  {
    var s := IntAt(data, pos);
    if s.result.Ok? then Step(Ok(Unsigned32(s.result.value)), s.next) else Step(Err(s.result.error), s.next)
  }

  /** `readUnsignedInt` is the little-endian unsigned value of the next four bytes. */
  lemma UnsignedIntIsLittleEndian(data: seq<byte>, pos: nat)
    ensures UnsignedIntAt(data, pos) ==
      if pos + 4 <= |data| then Step(Ok(LeUint32(data[pos..pos + 4])), pos + 4)
      else Step(Err(Truncated), pos)
  {
    if pos + 4 <= |data| {
      UnsignedOfWrapped(LeUint32(data[pos..pos + 4]));
    }
  }

  /** The bytes of a zero-terminated string at the front of `rest`, at most
      `limit` of them; the input running out first is an error. */
  function TakeString(rest: seq<byte>, limit: nat): Result<seq<byte>>
    decreases limit
  {
    if limit == 0 then Ok([])
    else if rest == [] then Err(Truncated)
    else if rest[0] == 0 then Ok([])
    else Prepend([rest[0]], TakeString(rest[1..], limit - 1))
  }

  function Prepend(bs: seq<byte>, r: Result<seq<byte>>): Result<seq<byte>>
  {
    if r.Ok? then Ok(bs + r.value) else r
  }

  lemma PrependNothing(r: Result<seq<byte>>)
    ensures Prepend([], r) == r
  {
    if r.Ok? {
      assert [] + r.value == r.value;
    }
  }

  lemma PrependTwice(a: seq<byte>, b: seq<byte>, r: Result<seq<byte>>)
    ensures Prepend(a, Prepend(b, r)) == Prepend(a + b, r)
  {
    if r.Ok? {
      assert a + (b + r.value) == (a + b) + r.value;
    }
  }

  /** A non-zero byte joins the string and the rest is read with one byte
      less of the limit. */
  lemma TakeNonZero(data: seq<byte>, at: nat, limit: nat, prefix: seq<byte>)
    requires at < |data| && data[at] != 0 && 0 < limit
    ensures Prepend(prefix, TakeString(data[at..], limit))
         == Prepend(prefix + [data[at]], TakeString(data[at + 1..], limit - 1))
  {
    var rest := data[at..];
    assert rest[0] == data[at] && rest[1..] == data[at + 1..];
    PrependTwice(prefix, [data[at]], TakeString(rest[1..], limit - 1));
  }

  /** The string read is the prefix of the input before its first zero byte,
      cut at `limit`, and it holds no zero byte. */
  lemma {:induction false} TakeStringShape(rest: seq<byte>, limit: nat)
    ensures TakeString(rest, limit).Ok? ==>
      var t := TakeString(rest, limit).value;
      && |t| <= limit && |t| <= |rest| && t == rest[..|t|] && 0 !in t
      && (|t| < limit ==> |t| < |rest| && rest[|t|] == 0)
    decreases limit
  {
    if limit > 0 && rest != [] && rest[0] != 0 {
      TakeStringShape(rest[1..], limit - 1);
    }
  }

  /** Reading fails exactly when the input ends before a zero byte and before `limit` bytes. */
  lemma {:induction false} TakeStringFails(rest: seq<byte>, limit: nat)
    ensures TakeString(rest, limit).Err? <==> |rest| < limit && 0 !in rest
    ensures TakeString(rest, limit).Err? ==> TakeString(rest, limit).error == Truncated
    decreases limit
  {
    if limit > 0 && rest != [] && rest[0] != 0 {
      TakeStringFails(rest[1..], limit - 1);
      assert rest == [rest[0]] + rest[1..];
    }
  }

  /** How many bytes `skipBytes(n)` passes over when `remaining` are left. */
  function Skipped(n: int, remaining: nat): (k: nat)
    ensures k <= remaining
    ensures n <= remaining ==> k == (if n < 0 then 0 else n)
  {
    if n <= 0 then 0 else if n < remaining then n else remaining
  }

  /** `readStringNull(limit, charset, padded)` with the ASCII charset: the
      decoded string and the cursor after it. */
  function StringNullAt(data: seq<byte>, pos: nat, limit: int, padded: bool): (s: Step<string>)
    requires pos <= |data|
    ensures s.next <= |data|
    ensures s.result.Ok? ==> pos < s.next
  {
    if limit <= 0 then Step(Err(InvalidArgument), pos)
    else
      TakeStringShape(data[pos..], limit);
      var t := TakeString(data[pos..], limit);
      if t.Err? then Step(Err(t.error), |data|)
      else
        var n := |t.value|;
        var found := n < limit;
        var p1 := pos + n + (if found then 1 else 0);
        var p2 := if padded then p1 + Skipped(limit - n - 1, |data| - p1) else p1;
        Step(Ok(Decode(t.value)), p2)
  }

  /** What a successful string read returns: at most `limit` characters, none of
      them zero, decoded one for one from the bytes at `pos`, and followed by a
      zero byte unless the limit was reached. */
  lemma StringNullValue(data: seq<byte>, pos: nat, limit: int, padded: bool)
    requires pos <= |data|
    ensures var s := StringNullAt(data, pos, limit, padded);
      s.result.Ok? ==>
        var str := s.result.value;
        && |str| <= limit && pos + |str| <= |data| && '\0' !in str
        && (forall i :: 0 <= i < |str| ==> str[i] == AsciiChar(data[pos + i]))
        && (|str| < limit ==> pos + |str| < |data| && data[pos + |str|] == 0)
  {
    if limit > 0 {
      TakeStringShape(data[pos..], limit);
      var t := TakeString(data[pos..], limit);
      if t.Ok? {
        var str := Decode(t.value);
        forall i | 0 <= i < |str| ensures str[i] == AsciiChar(data[pos + i]) {
          assert t.value[i] == data[pos..][i];
        }
        if |str| < limit {
          assert data[pos..][|str|] == data[pos + |str|];
        }
      }
    }
  }

  /** How far a successful string read moves the cursor: unpadded, past the
      terminator or `limit` bytes when there is none; padded, `limit` bytes in
      all, or to the end of the input when fewer remain. */
  lemma StringNullAdvance(data: seq<byte>, pos: nat, limit: int, padded: bool)
    requires pos <= |data|
    ensures var s := StringNullAt(data, pos, limit, padded);
      s.result.Ok? ==>
        var n := |s.result.value|;
        && (!padded ==> s.next == pos + (if n < limit then n + 1 else limit))
        && (padded ==> s.next == (if pos + limit <= |data| then pos + limit else |data|))
  {
    if limit > 0 {
      TakeStringShape(data[pos..], limit);
    }
  }

  /** A string read fails exactly on a non-positive limit, or when the input
      ends before both a zero byte and `limit` bytes. */
  lemma StringNullFails(data: seq<byte>, pos: nat, limit: int, padded: bool)
    requires pos <= |data|
    ensures var s := StringNullAt(data, pos, limit, padded);
      && (s.result.Err? <==> limit <= 0 || (|data| - pos < limit && 0 !in data[pos..]))
      && (s.result.Err? ==> s.result.error == if limit <= 0 then InvalidArgument else Truncated)
  {
    if limit > 0 {
      TakeStringFails(data[pos..], limit);
    }
  }

  predicate IsAscii(s: string)
  {
    forall i :: 0 <= i < |s| ==> s[i] as int < 0x80
  }

  /** The US-ASCII encoder, which the decoder undoes. */
  function Encode(s: string): (raw: seq<byte>)
    requires IsAscii(s)
    ensures |raw| == |s| && Decode(raw) == s
  {
    var raw := seq(|s|, i requires 0 <= i < |s| => s[i] as int as byte);
    assert forall i :: 0 <= i < |s| ==> AsciiChar(raw[i]) == s[i];
    raw
  }

  /** Bytes without a zero, followed by a zero, are the string read, when
      they are fewer than `limit`. */
  lemma {:induction false} TakeStringOf(rest: seq<byte>, bs: seq<byte>, limit: nat)
    requires |bs| < limit && 0 !in bs
    requires |bs| < |rest| && rest[..|bs| + 1] == bs + [0]
    ensures TakeString(rest, limit) == Ok(bs)
    decreases |bs|
  {
    if bs == [] {
      assert rest[0] == (bs + [0])[0];
    } else {
      assert rest[0] == bs[0];
      assert rest[1..][..|bs[1..]| + 1] == bs[1..] + [0];
      TakeStringOf(rest[1..], bs[1..], limit - 1);
      assert [rest[0]] + bs[1..] == bs;
    }
  }

  /** A string written as its ASCII bytes and a terminator is read back,
      and the cursor lands right after the terminator, whatever surrounds it. */
  lemma StringNullRoundTrip(data: seq<byte>, pos: nat, s: string, limit: int)
    requires IsAscii(s) && '\0' !in s && |s| < limit
    requires pos + |s| + 1 <= |data| && data[pos..pos + |s| + 1] == Encode(s) + [0]
    ensures StringNullAt(data, pos, limit, false) == Step(Ok(s), pos + |s| + 1)
  {
    var raw := Encode(s);
    assert 0 !in raw by {
      forall i | 0 <= i < |raw| ensures raw[i] != 0 {
        assert s[i] != '\0';
      }
    }
    assert data[pos..][..|raw| + 1] == raw + [0];
    TakeStringOf(data[pos..], raw, limit);
  }

  /** `DataInputReader` over an in-memory byte source with byte swapping on,
      so that multi-byte values are little-endian. */
  class Reader {
    const data: seq<byte>
    var pos: nat

    ghost predicate Valid()
      reads this
    {
      pos <= |data|
    }

    constructor (data: seq<byte>)
      ensures Valid() && this.data == data && pos == 0
    {
      this.data := data;
      pos := 0;
    }

    /** `position()`: the number of bytes consumed so far. */
    function Position(): (p: nat)
      reads this
      requires Valid()
      ensures p <= |data|
    {
      pos
    }

    method ReadByte() returns (r: Result<byte>)
      requires Valid()
      modifies this`pos
      ensures Valid()
      ensures var s := ByteAt(data, old(pos)); r == s.result && pos == s.next
    {
      if pos < |data| {
        r := Ok(data[pos]);
        pos := pos + 1;
      } else {
        r := Err(Truncated);
      }
    }

    method ReadFully(n: nat) returns (r: Result<seq<byte>>)
      requires Valid()
      modifies this`pos
      ensures Valid()
      ensures var s := BytesAt(data, old(pos), n); r == s.result && pos == s.next
    {
      if pos + n <= |data| {
        r := Ok(data[pos..pos + n]);
        pos := pos + n;
      } else {
        r := Err(Truncated);
      }
    }

    method ReadInt() returns (r: Result<int32>)
      requires Valid()
      modifies this`pos
      ensures Valid()
      ensures var s := IntAt(data, old(pos)); r == s.result && pos == s.next
    {
      var b :- ReadFully(4);
      r := Ok(Wrap32(LeUint32(b)));
    }

    method ReadUnsignedShort() returns (r: Result<uint16>)
      requires Valid()
      modifies this`pos
      ensures Valid()
      ensures var s := UnsignedShortAt(data, old(pos)); r == s.result && pos == s.next
    {
      var b :- ReadFully(2);
      r := Ok(LeUint16(b[0], b[1]));
    }

    /** `readUnsignedInt`: a signed read widened without its sign. */
    method ReadUnsignedInt() returns (r: Result<uint32>)
      requires Valid()
      modifies this`pos
      ensures Valid()
      ensures var s := UnsignedIntAt(data, old(pos)); r == s.result && pos == s.next
    {
      var x :- ReadInt();
      r := Ok(Unsigned32(x));
    }

    /** `skipBytes(n)`: passes over `n` bytes, or what is left when fewer remain. */
    method SkipBytes(n: int) returns (k: nat)
      requires Valid()
      modifies this`pos
      ensures Valid()
      ensures k == Skipped(n, |data| - old(pos)) && pos == old(pos) + k
    {
      k := Skipped(n, |data| - pos);
      pos := pos + k;
    }

    /** The loop of `readStringNull`: reads bytes into a buffer of `limit`
        bytes until a zero byte, which it consumes, or a full buffer. */
    method ReadTerminated(limit: nat) returns (r: Result<seq<byte>>)
      requires Valid() && 0 < limit
      modifies this`pos
      ensures Valid()
      ensures r == TakeString(data[old(pos)..], limit)
      ensures r.Ok? ==> pos == old(pos) + |r.value| + (if |r.value| < limit then 1 else 0)
      ensures r.Err? ==> pos == |data|
    {
      var raw := new byte[limit];
      var length := 0;
      ghost var start := pos;
      assert data[start + length..] == data[start..];
      assert raw[..length] == [];
      PrependNothing(TakeString(data[start..], limit));
      while length < raw.Length
        invariant Valid() && 0 <= length <= limit == raw.Length
        invariant pos == start + length <= |data|
        invariant raw[..length] == data[start..start + length]
        invariant TakeString(data[start..], limit) ==
          Prepend(raw[..length], TakeString(data[start + length..], limit - length))
      {
        var b := ReadByte();
        if b.Err? {
          assert data[start + length..] == [];
          return Err(b.error);
        }
        assert b.value == data[start + length];
        if b.value == 0 {
          assert raw[..length] + [] == raw[..length];
          return Ok(raw[..length]);
        }
        TakeNonZero(data, start + length, limit - length, raw[..length]);
        raw[length] := b.value;
        assert raw[..length + 1] == raw[..length] + [b.value];
        length := length + 1;
      }
      assert raw[..length] + [] == raw[..length];
      r := Ok(raw[..length]);
    }

    /** `readStringNull(limit, "ASCII", padded)`: the bytes up to a zero byte
        or the limit, decoded; padded, it then skips the rest of the `limit`
        bytes. */
    method ReadStringNull(limit: int, padded: bool) returns (r: Result<string>)
      requires Valid()
      modifies this`pos
      ensures Valid()
      ensures var s := StringNullAt(data, old(pos), limit, padded); r == s.result && pos == s.next
    {
      if limit <= 0 {
        return Err(InvalidArgument);
      }
      var t := ReadTerminated(limit);
      if t.Err? {
        return Err(t.error);
      }
      if padded {
        var skipped := SkipBytes(limit - |t.value| - 1);
      }
      r := Ok(Decode(t.value));
    }

    /** `readStringNull(limit)`: unpadded and ASCII. */
    method ReadStringNullLimit(limit: int) returns (r: Result<string>)
      requires Valid()
      modifies this`pos
      ensures Valid()
      ensures var s := StringNullAt(data, old(pos), limit, false); r == s.result && pos == s.next
    {
      r := ReadStringNull(limit, false);
    }

    /** `readStringNull()`: unpadded, ASCII, at most 256 bytes. */
    method ReadStringNullDefault() returns (r: Result<string>)
      requires Valid()
      modifies this`pos
      ensures Valid()
      ensures var s := StringNullAt(data, old(pos), DEFAULT_LIMIT, false); r == s.result && pos == s.next
    {
      r := ReadStringNullLimit(DEFAULT_LIMIT);
    }
  }
}
