/** The wire codec of wialond/util/binary.py: big-endian unsigned integers of
    the four struct widths, the two-width variable-length integer, and
    NUL-terminated strings.

    Every reader in the client reads from the Connection, whose `read(k)`
    raises ConnectionClosedError when k > 0 and the stream has ended, and
    otherwise returns up to k bytes (fewer only at the end of the stream).
    A stream is the finite sequence of bytes the peer sends before closing. */
module Binary {
  import opened Base

  /** The widths `pack_uint`, `unpack_uint` and `read_uint` have entries for. */
  const Widths: set<nat> := {1, 2, 4, 8}

  /** `1 << k` */
  function Pow2(k: nat): (r: nat)
    ensures r >= 1
  {
    if k == 0 then 1 else 2 * Pow2(k - 1)
  }

  function Pow256(k: nat): (r: nat)
    ensures r >= 1
  {
    if k == 0 then 1 else 256 * Pow256(k - 1)
  }

  /** Whether bit b of v is set. */
  predicate BitSet(v: nat, b: nat) {
    if b == 0 then v % 2 == 1 else BitSet(v / 2, b - 1)
  }

  lemma {:induction false} BitSetBound(v: nat, b: nat)
    ensures BitSet(v, b) ==> v >= Pow2(b)
  {
    if b > 0 {
      BitSetBound(v / 2, b - 1);
    }
  }

  /** `v | (1 << b)` */
  function SetBit(v: nat, b: nat): nat {
    if BitSet(v, b) then v else v + Pow2(b)
  }

  /** `v ^ (1 << b)` */
  function FlipBit(v: nat, b: nat): nat {
    if BitSet(v, b) then BitSetBound(v, b); v - Pow2(b) else v + Pow2(b)
  }

  /** The unsigned integer a big-endian byte string denotes. */
  function FromBigEndian(s: seq<Byte>): (r: nat)
    ensures r < Pow256(|s|)
  {
    if |s| == 0 then 0 else FromBigEndian(s[..|s| - 1]) * 256 + s[|s| - 1]
  }

  /** The k-byte big-endian encoding of v. */
  function ToBigEndian(v: nat, k: nat): (r: seq<Byte>)
    requires v < Pow256(k)
    ensures |r| == k
    ensures FromBigEndian(r) == v
  {
    if k == 0 then []
    else
      var prefix := ToBigEndian(v / 256, k - 1);
      assert (prefix + [v % 256])[..k - 1] == prefix;
      prefix + [v % 256]
  }

  /** Encoding is injective: a byte string is the encoding of its own value. */
  lemma {:induction false} ToFromBigEndian(s: seq<Byte>)
    ensures ToBigEndian(FromBigEndian(s), |s|) == s
  {
    if |s| > 0 {
      var p := s[..|s| - 1];
      ToFromBigEndian(p);
      var v := FromBigEndian(s);
      assert v / 256 == FromBigEndian(p);
      assert v % 256 == s[|s| - 1];
      assert s == p + [s[|s| - 1]];
    }
  }

  /** Two byte strings of the same length with the same value are equal. */
  lemma {:induction false} BigEndianInjective(a: seq<Byte>, b: seq<Byte>)
    requires |a| == |b| && FromBigEndian(a) == FromBigEndian(b)
    ensures a == b
  {
    ToFromBigEndian(a);
    ToFromBigEndian(b);
  }

  lemma {:induction false} MulAssoc256(x: int, p: int)
    ensures (x * p) * 256 == x * (p * 256)
  {
  }

  /** The value of a concatenation. */
  lemma {:induction false} FromBigEndianAppend(a: seq<Byte>, b: seq<Byte>)
    ensures FromBigEndian(a + b) == FromBigEndian(a) * Pow256(|b|) + FromBigEndian(b)
  {
    if |b| == 0 {
      assert a + b == a;
    } else {
      var b' := b[..|b| - 1];
      var c := b[|b| - 1];
      assert (a + b)[..|a + b| - 1] == a + b';
      FromBigEndianAppend(a, b');
      var x, p, y := FromBigEndian(a), Pow256(|b'|), FromBigEndian(b');
      assert FromBigEndian(a + b) == (x * p + y) * 256 + c;
      MulAssoc256(x, p);
      assert FromBigEndian(b) == y * 256 + c;
      assert Pow256(|b|) == p * 256;
    }
  }

  lemma {:induction false} MulMono(a: nat, b: nat, p: nat)
    requires a <= b
    ensures a * p <= b * p
  {
  }

  /** The top bit of the first byte is set exactly when the value reaches
      half the range of its width. */
  lemma {:induction false} TopBit(s: seq<Byte>)
    requires |s| >= 1
    ensures s[0] >= 128 <==> FromBigEndian(s) >= 128 * Pow256(|s| - 1)
  {
    var p := Pow256(|s| - 1);
    var rest := s[1..];
    assert s == [s[0]] + rest;
    FromBigEndianAppend([s[0]], rest);
    assert FromBigEndian([s[0]]) == s[0] by {
      assert [s[0]][..0] == [];
    }
    var y := FromBigEndian(rest);
    assert FromBigEndian(s) == s[0] * p + y;
    assert y < p;
    if s[0] >= 128 {
      MulMono(128, s[0], p);
    } else {
      MulMono(s[0], 127, p);
    }
  }

  lemma {:induction false} Pow2Plus8(k: nat)
    ensures Pow2(k + 8) == 256 * Pow2(k)
  {
    assert Pow2(k + 8) == 2 * Pow2(k + 7);
    assert Pow2(k + 7) == 2 * Pow2(k + 6);
    assert Pow2(k + 6) == 2 * Pow2(k + 5);
    assert Pow2(k + 5) == 2 * Pow2(k + 4);
    assert Pow2(k + 4) == 2 * Pow2(k + 3);
    assert Pow2(k + 3) == 2 * Pow2(k + 2);
    assert Pow2(k + 2) == 2 * Pow2(k + 1);
  }

  lemma {:induction false} Pow2Bytes(m: nat)
    ensures Pow2(8 * m) == Pow256(m)
  {
    if m > 0 {
      Pow2Bytes(m - 1);
      Pow2Plus8(8 * (m - 1));
    }
  }

  /** `1 << (8m - 1)` is 128 times the byte-range of m - 1 bytes. */
  lemma {:induction false} HalfRange(m: nat)
    requires m >= 1
    ensures Pow2(8 * m - 1) == 128 * Pow256(m - 1)
    ensures Pow256(m) == 2 * Pow2(8 * m - 1)
  {
    var k := 8 * (m - 1);
    Pow2Bytes(m - 1);
    assert Pow2(k + 7) == 2 * Pow2(k + 6);
    assert Pow2(k + 6) == 2 * Pow2(k + 5);
    assert Pow2(k + 5) == 2 * Pow2(k + 4);
    assert Pow2(k + 4) == 2 * Pow2(k + 3);
    assert Pow2(k + 3) == 2 * Pow2(k + 2);
    assert Pow2(k + 2) == 2 * Pow2(k + 1);
  }

  lemma {:induction false} Pow2Mono(a: nat, b: nat)
    requires a <= b
    ensures Pow2(a) <= Pow2(b)
  {
    if a < b {
      Pow2Mono(a, b - 1);
    }
  }

  lemma {:induction false} BitOfSmall(v: nat, b: nat)
    requires v < Pow2(b)
    ensures !BitSet(v, b)
    ensures SetBit(v, b) == v + Pow2(b)
  {
    if b > 0 {
      BitOfSmall(v / 2, b - 1);
    }
  }

  lemma {:induction false} BitOfFlagged(v: nat, b: nat)
    requires v < Pow2(b)
    ensures BitSet(v + Pow2(b), b)
    ensures FlipBit(v + Pow2(b), b) == v
  {
    if b > 0 {
      BitOfFlagged(v / 2, b - 1);
      assert (v + Pow2(b)) / 2 == v / 2 + Pow2(b - 1);
    }
  }

  // ---------------------------------------------------------------------
  // Fixed-width integers: pack_uint, unpack_uint, read_uint

  /** `pack_uint[k](v)`: a missing width raises KeyError, a value outside
      the width's range raises struct.error. */
  function PackUInt(k: nat, v: int): (r: Result<seq<Byte>>)
    ensures k !in Widths ==> r == Err(KeyError)
    ensures k in Widths && !(0 <= v < Pow256(k)) ==> r == Err(StructError)
    ensures r.Ok? <==> k in Widths && 0 <= v < Pow256(k)
    ensures r.Ok? ==> |r.value| == k && FromBigEndian(r.value) == v
  {
    if k !in Widths then Err(KeyError)
    else if v < 0 || v >= Pow256(k) then Err(StructError)
    else Ok(ToBigEndian(v, k))
  }

  /** `unpack_uint[k](buf)`: a missing width raises KeyError, a buffer of
      another length raises struct.error. */
  function UnpackUInt(k: nat, buf: seq<Byte>): (r: Result<nat>)
    ensures k !in Widths ==> r == Err(KeyError)
    ensures r.Ok? <==> k in Widths && |buf| == k
    ensures r.Ok? ==> r.value == FromBigEndian(buf)
  {
    if k !in Widths then Err(KeyError)
    else if |buf| != k then Err(StructError)
    else Ok(FromBigEndian(buf))
  }

  lemma {:induction false} UnpackPackUInt(k: nat, v: int)
    requires k in Widths && 0 <= v < Pow256(k)
    ensures PackUInt(k, v).Ok? && UnpackUInt(k, PackUInt(k, v).value) == Ok(v)
  {
  }

  lemma {:induction false} PackUnpackUInt(k: nat, buf: seq<Byte>)
    requires k in Widths && |buf| == k
    ensures UnpackUInt(k, buf).Ok? && PackUInt(k, UnpackUInt(k, buf).value) == Ok(buf)
  {
    ToFromBigEndian(buf);
  }

  // ---------------------------------------------------------------------
  // Reading from the connection

  /** Bytes taken from the front of a stream, and what remains. */
  datatype Taken = Taken(bytes: seq<Byte>, rest: seq<Byte>)

  /** The Connection's `read(k)` for k >= 0 (wialond/connection.py:109-114). */
  function Read(s: seq<Byte>, k: nat): (r: Result<Taken>)
    ensures r.Ok? <==> k == 0 || |s| > 0
    ensures r.Err? ==> r.error == ConnectionClosedError
    ensures r.Ok? ==> r.value.bytes + r.value.rest == s
    ensures r.Ok? ==> |r.value.bytes| == if |s| < k then |s| else k
  {
    if k > 0 && |s| == 0 then Err(ConnectionClosedError)
    else if |s| < k then Ok(Taken(s, []))
    else
      assert s[..k] + s[k..] == s;
      Ok(Taken(s[..k], s[k..]))
  }

  /** `read_uint[k](reader)`: look up the width, read k bytes, unpack them;
      a short read at the end of the stream fails to unpack. */
  function ReadUInt(s: seq<Byte>, k: nat): (r: Result<(nat, seq<Byte>)>)
    ensures k !in Widths ==> r == Err(KeyError)
    ensures r.Ok? <==> k in Widths && |s| >= k
    ensures r.Ok? ==> var (v, rest) := r.value; v < Pow256(k) && s == ToBigEndian(v, k) + rest
  {
    if k !in Widths then Err(KeyError)
    else
      var t :- Read(s, k);
      var v :- UnpackUInt(k, t.bytes);
      ToFromBigEndian(t.bytes);
      Ok((v, t.rest))
  }

  /** Round trip of the fixed widths through the stream: `read_uint[k]`
      returns what `pack_uint[k]` wrote and leaves the rest. */
  lemma {:induction false} ReadUIntPacked(k: nat, v: nat, rest: seq<Byte>)
    requires k in Widths && v < Pow256(k)
    ensures ReadUInt(ToBigEndian(v, k) + rest, k) == Ok((v, rest))
  {
    var b := ToBigEndian(v, k);
    assert (b + rest)[..k] == b;
    assert (b + rest)[k..] == rest;
  }

  /** The Connection's `readline()`: everything up to and including the first
      newline, or the rest of the stream when there is none. With no size
      limit it never raises at the end of the stream. */
  function ReadLine(s: seq<Byte>): (r: Taken)
    ensures r.bytes + r.rest == s
    ensures forall i :: 0 <= i < |r.bytes| - 1 ==> r.bytes[i] != 10
    ensures |r.bytes| > 0 && r.bytes[|r.bytes| - 1] != 10 ==> r.rest == []
    ensures |r.bytes| == 0 ==> s == []
  {
    if |s| == 0 then Taken([], [])
    else if s[0] == 10 then Taken([10], s[1..])
    else
      var t := ReadLine(s[1..]);
      Taken([s[0]] + t.bytes, t.rest)
  }

  /** A line without an inner newline, followed by anything, is read as
      exactly that line. */
  lemma {:induction false} ReadLineExact(text: seq<Byte>, rest: seq<Byte>)
    requires 10 !in text
    ensures ReadLine(text + [10] + rest) == Taken(text + [10], rest)
  {
    if |text| > 0 {
      assert (text + [10] + rest)[1..] == text[1..] + [10] + rest;
      ReadLineExact(text[1..], rest);
      assert [text[0]] + (text[1..] + [10]) == text + [10];
    }
  }

  /** `read_c_string`: read one byte at a time until a NUL; the NUL is
      consumed and dropped. Reading past the end of the stream raises. */
  function ReadCString(s: seq<Byte>): (r: Result<Taken>)
    ensures r.Ok? <==> 0 in s
    ensures r.Err? ==> r.error == ConnectionClosedError
    ensures r.Ok? ==> s == r.value.bytes + [0] + r.value.rest && 0 !in r.value.bytes
  {
    if |s| == 0 then Err(ConnectionClosedError)
    else if s[0] == 0 then Ok(Taken([], s[1..]))
    else
      var t :- ReadCString(s[1..]);
      Ok(Taken([s[0]] + t.bytes, t.rest))
  }

  /** A string without NUL followed by NUL is read back exactly. */
  lemma {:induction false} CStringExact(text: seq<Byte>, rest: seq<Byte>)
    requires 0 !in text
    ensures ReadCString(text + [0] + rest) == Ok(Taken(text, rest))
  {
    if |text| > 0 {
      assert (text + [0] + rest)[1..] == text[1..] + [0] + rest;
      CStringExact(text[1..], rest);
      assert [text[0]] + text[1..] == text;
    }
  }

  // ---------------------------------------------------------------------
  // The variable-length integer

  /** The flag bit of the long form of base width n: `1 << (16n - 1)`. */
  function LongFlag(n: nat): nat
    requires n >= 1
  {
    Pow2(16 * n - 1)
  }

  /** `pack_var(v, n)`. Values below `1 << (8n-1)` take n bytes; values below
      `1 << (16n-1)` take 2n bytes with the flag bit set; larger values raise
      ValueError, and so does n == 0 (a negative shift count). A negative
      value reaches `pack_uint[n]` and raises struct.error. */
  function PackVar(v: int, n: nat): (r: Result<seq<Byte>>)
    ensures n == 0 ==> r == Err(ValueError)
    ensures n >= 1 && v >= LongFlag(n) ==> r == Err(ValueError)
    ensures n in {1, 2, 4} && v < 0 ==> r == Err(StructError)
    ensures n in {1, 2, 4} && 0 <= v < LongFlag(n) ==> r.Ok?
  {
    if n == 0 then Err(ValueError)
    else
      HalfRange(n);
      HalfRange(2 * n);
      Pow2Mono(8 * n - 1, 16 * n - 1);
      if v < Pow2(8 * n - 1) then PackUInt(n, v)
      else if v < Pow2(16 * n - 1) then
        BitOfSmall(v, 16 * n - 1);
        PackUInt(2 * n, SetBit(v, 16 * n - 1))
      else Err(ValueError)
  }

  /** A decoded variable-length integer, the exact bytes it was read from,
      and the rest of the stream. */
  datatype VarRead = VarRead(value: nat, buf: seq<Byte>, rest: seq<Byte>)

  /** The reading half of `read_var_with_buf`: n bytes, then n more when the
      first byte's top bit is set. */
  function ReadVarBytes(s: seq<Byte>, n: nat): (r: Result<Taken>)
    ensures r.Ok? ==> r.value.bytes + r.value.rest == s && |r.value.bytes| > 0
    ensures r.Ok? ==> (|r.value.bytes| > n <==> r.value.bytes[0] >= 128)
    ensures r.Ok? ==> |r.value.bytes| == n || |r.value.bytes| == 2 * n || r.value.rest == []
  {
    var first :- Read(s, n);
    if |first.bytes| == 0 then Err(IndexError)
    else if first.bytes[0] >= 128 then
      var more :- Read(first.rest, n);
      Ok(Taken(first.bytes + more.bytes, more.rest))
    else Ok(first)
  }

  /** `read_var_with_buf(reader, n)`: read n bytes; if the first byte's top
      bit is set read n more; unpack the whole buffer by its length, and when
      more than n bytes were read flip the flag bit `1 << (16n - 1)`. */
  function ReadVarWithBuf(s: seq<Byte>, n: nat): (r: Result<VarRead>)
    ensures r.Ok? ==> r.value.buf + r.value.rest == s
    ensures r.Ok? ==> |r.value.buf| in Widths
    ensures r.Ok? ==> (|r.value.buf| > n <==> r.value.buf[0] >= 128)
    ensures r.Ok? ==> |r.value.buf| == n || |r.value.buf| == 2 * n || r.value.rest == []
    ensures r.Ok? && |r.value.buf| <= n ==> r.value.value == FromBigEndian(r.value.buf)
  {
    var whole :- ReadVarBytes(s, n);
    var v :- UnpackUInt(|whole.bytes|, whole.bytes);
    if |whole.bytes| > n then Ok(VarRead(FlipBit(v, 16 * n - 1), whole.bytes, whole.rest))
    else Ok(VarRead(v, whole.bytes, whole.rest))
  }

  /** `read_var(reader, n)`: the value alone. */
  function ReadVar(s: seq<Byte>, n: nat): (r: Result<(nat, seq<Byte>)>)
    ensures r.Ok? <==> ReadVarWithBuf(s, n).Ok?
    ensures r.Ok? ==> r.value.0 == ReadVarWithBuf(s, n).value.value
    ensures r.Ok? ==> r.value.1 == ReadVarWithBuf(s, n).value.rest
  {
    var d :- ReadVarWithBuf(s, n);
    Ok((d.value, d.rest))
  }

  /** Short form: a value below `1 << (8n - 1)` is its own n-byte big-endian
      encoding, so the first byte's top bit is clear. */
  lemma {:induction false} PackVarShort(v: int, n: nat)
    requires n in {1, 2, 4} && 0 <= v < Pow2(8 * n - 1)
    ensures PackVar(v, n).Ok?
    ensures PackVar(v, n).value == ToBigEndian(v, n)
    ensures PackVar(v, n).value[0] < 128
  {
    HalfRange(n);
    TopBit(PackVar(v, n).value);
  }

  /** Long form: a value in `[1 << (8n-1), 1 << (16n-1))` is the 2n-byte
      big-endian encoding of the value with the flag bit added, so the first
      byte's top bit is set. */
  lemma {:induction false} PackVarLong(v: int, n: nat)
    requires n in {1, 2, 4} && Pow2(8 * n - 1) <= v < LongFlag(n)
    ensures PackVar(v, n).Ok?
    ensures |PackVar(v, n).value| == 2 * n
    ensures FromBigEndian(PackVar(v, n).value) == LongFlag(n) + v
    ensures PackVar(v, n).value[0] >= 128
  {
    BitOfSmall(v, 16 * n - 1);
    HalfRange(2 * n);
    TopBit(PackVar(v, n).value);
  }

  /** The reading half on a stream that starts with a 2n-byte buffer whose
      top bit is set takes exactly that buffer. */
  lemma {:induction false} ReadVarBytesLong(n: nat, b: seq<Byte>, rest: seq<Byte>)
    requires n >= 1 && |b| == 2 * n && b[0] >= 128
    ensures ReadVarBytes(b + rest, n) == Ok(Taken(b, rest))
  {
    var s := b + rest;
    assert s[..n] == b[..n];
    assert s[n..] == b[n..] + rest;
    assert (b[n..] + rest)[..n] == b[n..];
    assert (b[n..] + rest)[n..] == rest;
    assert b[..n] + b[n..] == b;
    var first := Read(s, n);
    assert first == Ok(Taken(b[..n], s[n..]));
    assert Read(s[n..], n) == Ok(Taken(b[n..], rest));
  }

  /** The decoder on a stream that starts with a long-form encoding of any v
      below the flag: it reads both halves and clears only the flag, so even
      a small value written in the long form comes back unchanged. */
  lemma {:induction false} ReadLongForm(v: nat, n: nat, b: seq<Byte>, rest: seq<Byte>)
    requires n in {1, 2, 4} && v < LongFlag(n)
    requires |b| == 2 * n && FromBigEndian(b) == LongFlag(n) + v
    ensures ReadVarWithBuf(b + rest, n) == Ok(VarRead(v, b, rest))
  {
    VarBaseWidths(n);
    FlaggedTopBit(v, n, b);
    ReadVarLong(n, b, rest);
    var f := 16 * n - 1;
    assert LongFlag(n) == Pow2(f);
    BitOfFlagged(v, f);
  }

  /** The base widths of the variable-length integer, and their doubles,
      are struct widths. */
  lemma {:induction false} VarBaseWidths(n: nat)
    requires n in {1, 2, 4}
    ensures n >= 1 && n in Widths && 2 * n in Widths
  {
  }

  /** The decoder on a 2n-byte buffer whose top bit is set: it takes the
      whole buffer and flips the flag bit of its value. */
  lemma {:induction false} ReadVarLong(n: nat, b: seq<Byte>, rest: seq<Byte>)
    requires n >= 1 && |b| == 2 * n && 2 * n in Widths && b[0] >= 128
    ensures ReadVarWithBuf(b + rest, n) == Ok(VarRead(FlipBit(FromBigEndian(b), 16 * n - 1), b, rest))
  {
    ReadVarBytesLong(n, b, rest);
  }

  /** A 2n-byte buffer holding the flag plus a smaller value has its first
      byte's top bit set. */
  lemma {:induction false} FlaggedTopBit(v: nat, n: nat, b: seq<Byte>)
    requires n >= 1 && v < LongFlag(n)
    requires |b| == 2 * n && FromBigEndian(b) == LongFlag(n) + v
    ensures b[0] >= 128
  {
    HalfRange(2 * n);
    TopBit(b);
  }

  /** Round trip: reading back what pack_var wrote returns the value and
      exactly the written bytes, and consumes nothing more. */
  lemma {:induction false} PackVarRoundTrip(v: int, n: nat, rest: seq<Byte>)
    requires n in {1, 2, 4} && 0 <= v < LongFlag(n)
    ensures PackVar(v, n).Ok?
    ensures ReadVarWithBuf(PackVar(v, n).value + rest, n) == Ok(VarRead(v, PackVar(v, n).value, rest))
  {
    var b := PackVar(v, n).value;
    var s := b + rest;
    if v < Pow2(8 * n - 1) {
      PackVarShort(v, n);
      assert s[..n] == b;
      assert s[n..] == rest;
      assert Read(s, n) == Ok(Taken(b, rest));
      assert ReadVarBytes(s, n) == Ok(Taken(b, rest));
      assert UnpackUInt(n, b) == Ok(v);
    } else {
      PackVarLong(v, n);
      ReadLongForm(v, n, b, rest);
    }
  }

  /** `read_var` undoes `pack_var`: the value comes back and the stream
      goes on right after the packed bytes. */
  lemma {:induction false} ReadVarRoundTrip(v: int, n: nat, rest: seq<Byte>)
    requires n in {1, 2, 4} && 0 <= v < LongFlag(n)
    ensures PackVar(v, n).Ok?
    ensures ReadVar(PackVar(v, n).value + rest, n) == Ok((v, rest))
  {
    PackVarRoundTrip(v, n, rest);
  }

  /** A value below 128 is written by `pack_var(v, 1)` as the single byte v. */
  lemma {:induction false} PackVarOneByte(v: int)
    requires 0 <= v < 128
    ensures PackVar(v, 1) == Ok([v])
  {
    HalfRange(1);
    PackVarShort(v, 1);
    var b := PackVar(v, 1).value;
    assert FromBigEndian(b) == FromBigEndian(b[..0]) * 256 + b[0];
  }

  /** At the end of the stream a short buffer whose top bit is clear still
      decodes, as the shorter big-endian integer it happens to be, as long
      as its length is one of the struct widths. */
  lemma {:induction false} ShortBufferAtEnd(b: seq<Byte>, n: nat)
    requires 0 < |b| <= n && |b| in Widths && b[0] < 128
    ensures ReadVarWithBuf(b, n) == Ok(VarRead(FromBigEndian(b), b, []))
  {
    assert b + [] == b;
    assert Read(b, n) == Ok(Taken(b, []));
    assert ReadVarBytes(b, n) == Ok(Taken(b, []));
  }

  /** An illustration of ShortBufferAtEnd: one byte where two were asked
      for, two where four were. */
  lemma {:induction false} TruncatedShortFormDecodes()
    ensures ReadVarWithBuf([0x01], 2) == Ok(VarRead(1, [0x01], []))
    ensures ReadVarWithBuf([0x00, 0x05], 4) == Ok(VarRead(5, [0x00, 0x05], []))
  {
    ShortBufferAtEnd([0x01], 2);
    ShortBufferAtEnd([0x00, 0x05], 4);
    assert FromBigEndian([0x01]) == 1 by {
      assert [0x01][..0] == [];
    }
    assert FromBigEndian([0x00, 0x05]) == 5 by {
      assert [0x00, 0x05][..1] == [0x00];
      assert [0x00][..0] == [];
    }
  }
}
