/**
 * The message readers of the PostgreSQL frontend/backend protocol as the
 * result decoder uses them (pq_getmsgint, pq_getmsgbytes, pq_getmsgstring,
 * pq_getmsgend). A message buffer (StringInfo) and its read cursor are
 * modelled by the bytes not read yet: every reader takes some from the front
 * and fails on overrun, and the end of the message may be asserted only when
 * nothing is left. The writers (Encode, CString) are the partners the
 * readers are proved against.
 */
module Wire {
  import opened Base

  function Pow256(n: nat): (r: nat)
    ensures r >= 1
  {
    if n == 0 then 1 else 256 * Pow256(n - 1)
  }

  /** The sizes of the two- and four-byte integer fields. */
  lemma Pow256Values()
    ensures Pow256(2) == 0x1_0000 && Pow256(4) == 0x1_0000_0000
  {
  }

  /** The unsigned value of s read most significant byte first. */
  function BigEndian(s: seq<byte>): (v: nat)
    ensures v < Pow256(|s|)
  {
    if s == [] then 0 else BigEndian(s[..|s| - 1]) * 256 + s[|s| - 1]
  }

  /** The n-byte network-order representation of v. */
  function Encode(v: nat, n: nat): (s: seq<byte>)
    requires v < Pow256(n)
    ensures |s| == n
    ensures BigEndian(s) == v
  {
    if n == 0 then []
    else
      var high := Encode(v / 256, n - 1);
      var s := high + [v % 256];
      assert s[..|s| - 1] == high;
      s
  }

  /** Reinterprets an unsigned 16-bit value as the C int16 it is stored in. */
  function AsInt16(u: nat): (x: int)
    requires u < 0x1_0000
    ensures IsInt16(x)
    ensures x >= 0 ==> x == u
    ensures x < 0 ==> x + 0x1_0000 == u
  {
    if u >= 0x8000 then u - 0x1_0000 else u
  }

  /** Reinterprets an unsigned 32-bit value as the C int32 it is stored in. */
  function AsInt32(u: nat): (x: int)
    requires u < 0x1_0000_0000
    ensures IsInt32(x)
    ensures x >= 0 ==> x == u
    ensures x < 0 ==> x + 0x1_0000_0000 == u
  {
    if u >= 0x8000_0000 then u - 0x1_0000_0000 else u
  }

  /** The unsigned 16-bit pattern a C int16 is sent as. */
  function Uint16Of(x: int): (u: nat)
    requires IsInt16(x)
    ensures u < 0x1_0000 && AsInt16(u) == x
  {
    if x < 0 then x + 0x1_0000 else x
  }

  /** The unsigned 32-bit pattern a C int32 is sent as. */
  function Uint32Of(x: int): (u: nat)
    requires IsInt32(x)
    ensures u < 0x1_0000_0000 && AsInt32(u) == x
  {
    if x < 0 then x + 0x1_0000_0000 else x
  }

  /** The unread part of a message: the bytes from the read cursor to the end. */
  type Cursor = seq<byte>

  /** The unsigned 2- or 4-byte integer at the front of c, most significant byte first. */
  function ReadUInt(c: Cursor, n: nat): (v: nat)
    requires n == 2 || n == 4
    requires n <= |c|
    ensures n == 2 ==> v < 0x1_0000
    ensures n == 4 ==> v < 0x1_0000_0000
  {
    var b0: int, b1: int := c[0], c[1];
    if n == 2 then b0 * 0x100 + b1
    else
      var b2: int, b3: int := c[2], c[3];
      b0 * 0x100_0000 + b1 * 0x1_0000 + b2 * 0x100 + b3
  }

  /** ReadUInt is the big-endian value of the bytes it reads. */
  lemma ReadUIntIsBigEndian(c: Cursor, n: nat)
    requires n == 2 || n == 4
    requires n <= |c|
    ensures ReadUInt(c, n) == BigEndian(c[..n])
  {
    var s := c[..n];
    assert BigEndian(s[..1]) == s[0] by {
      assert s[..1][..0] == [];
    }
    assert BigEndian(s[..2]) == s[0] as int * 0x100 + s[1] by {
      assert s[..2][..1] == s[..1];
    }
    if n == 4 {
      assert BigEndian(s[..3]) == (s[0] as int * 0x100 + s[1]) * 0x100 + s[2] by {
        assert s[..3][..2] == s[..2];
      }
      assert s[..4][..3] == s[..3];
      assert s == s[..4];
    } else {
      assert s == s[..2];
    }
  }

  /**
   * pq_getmsgint: an unsigned integer of 2 or 4 bytes (the sizes the decoder
   * uses) in network byte order.
   */
  function GetUInt(c: Cursor, n: nat): (r: Result<(nat, Cursor)>)
    requires n == 2 || n == 4
    ensures r.Ok? <==> n <= |c|
    ensures r.Err? ==> r.code == ProtocolViolation(InsufficientData)
    ensures r.Ok? ==> r.value.1 == c[n..]
    ensures r.Ok? && n == 2 ==> r.value.0 < 0x1_0000
    ensures r.Ok? && n == 4 ==> r.value.0 < 0x1_0000_0000
  {
    if n > |c| then Err(ProtocolViolation(InsufficientData))
    else Ok((ReadUInt(c, n), c[n..]))
  }

  /** pq_getmsgint(msg, 2) stored into an int16. */
  function GetInt16(c: Cursor): (r: Result<(int, Cursor)>)
    ensures r.Ok? <==> 2 <= |c|
    ensures r.Err? ==> r.code == ProtocolViolation(InsufficientData)
    ensures r.Ok? ==> IsInt16(r.value.0) && r.value.1 == c[2..]
  {
    var p :- GetUInt(c, 2);
    Ok((AsInt16(p.0), p.1))
  }

  /** pq_getmsgint(msg, 4) stored into an int32. */
  function GetInt32(c: Cursor): (r: Result<(int, Cursor)>)
    ensures r.Ok? <==> 4 <= |c|
    ensures r.Err? ==> r.code == ProtocolViolation(InsufficientData)
    ensures r.Ok? ==> IsInt32(r.value.0) && r.value.1 == c[4..]
  {
    var p :- GetUInt(c, 4);
    Ok((AsInt32(p.0), p.1))
  }

  /** pq_getmsgint(msg, 4) stored into an Oid. */
  function GetOid(c: Cursor): (r: Result<(Oid, Cursor)>)
    ensures r.Ok? <==> 4 <= |c|
    ensures r.Err? ==> r.code == ProtocolViolation(InsufficientData)
    ensures r.Ok? ==> r.value.1 == c[4..]
  {
    var p :- GetUInt(c, 4);
    Ok((p.0, p.1))
  }

  /** pq_getmsgbytes: the next n bytes; a negative n or an overrun is an error. */
  function GetBytes(c: Cursor, n: int): (r: Result<(seq<byte>, Cursor)>)
    ensures r.Ok? <==> 0 <= n <= |c|
    ensures r.Err? ==> r.code == ProtocolViolation(InsufficientData)
    ensures r.Ok? ==> r.value.0 + r.value.1 == c && |r.value.0| == n
  {
    if n < 0 || n > |c| then Err(ProtocolViolation(InsufficientData))
    else
      assert c[..n] + c[n..] == c;
      Ok((c[..n], c[n..]))
  }

  /** The length of the longest prefix of s free of zero bytes. */
  function NulIndex(s: seq<byte>): (k: nat)
    ensures k <= |s|
    ensures forall i :: 0 <= i < k ==> s[i] != 0
    ensures k < |s| ==> s[k] == 0
  {
    if s == [] || s[0] == 0 then 0 else 1 + NulIndex(s[1..])
  }

  /**
   * pq_getmsgstring: the bytes up to the next zero byte, which must lie inside
   * the message; the cursor moves past the terminator.
   */
  function GetString(c: Cursor): (r: Result<(seq<byte>, Cursor)>)
    ensures r.Ok? <==> 0 in c
    ensures r.Err? ==> r.code == ProtocolViolation(InvalidString)
    ensures r.Ok? ==> 0 !in r.value.0 && CString(r.value.0) + r.value.1 == c
  {
    var k := NulIndex(c);
    if k >= |c| then Err(ProtocolViolation(InvalidString))
    else
      assert CString(c[..k]) + c[k + 1..] == c;
      Ok((c[..k], c[k + 1..]))
  }

  /** pq_getmsgend: the whole message must have been consumed. */
  function GetEnd(c: Cursor): (r: Outcome)
    ensures r.Pass? <==> c == []
    ensures r.Fail? ==> r.code == ProtocolViolation(InvalidMessageFormat)
  {
    Need(c == [], ProtocolViolation(InvalidMessageFormat))
  }

  /** Concatenation regroups freely. */
  lemma AppendAssociative<T>(a: seq<T>, b: seq<T>, c: seq<T>)
    ensures (a + b) + c == a + (b + c)
  {
  }

  /** A NUL-terminated protocol string. */
  function CString(s: seq<byte>): seq<byte>
  {
    s + [0]
  }

  /** Reading an n-byte integer from its encoding gives it back and leaves what follows. */
  lemma GetUIntOfEncode(v: nat, n: nat, rest: Cursor)
    requires n == 2 || n == 4
    requires v < Pow256(n)
    ensures GetUInt(Encode(v, n) + rest, n) == Ok((v, rest))
  {
    var c := Encode(v, n) + rest;
    assert c[..n] == Encode(v, n);
    assert c[n..] == rest;
    ReadUIntIsBigEndian(c, n);
  }

  /** The int16 read back from the bytes an int16 is sent as is the same value. */
  lemma GetInt16OfEncode(x: int, rest: Cursor)
    requires IsInt16(x)
    ensures Uint16Of(x) < Pow256(2)
    ensures GetInt16(Encode(Uint16Of(x), 2) + rest) == Ok((x, rest))
  {
    Pow256Values();
    GetUIntOfEncode(Uint16Of(x), 2, rest);
  }

  /** The int32 read back from the bytes an int32 is sent as is the same value. */
  lemma GetInt32OfEncode(x: int, rest: Cursor)
    requires IsInt32(x)
    ensures Uint32Of(x) < Pow256(4)
    ensures GetInt32(Encode(Uint32Of(x), 4) + rest) == Ok((x, rest))
  {
    Pow256Values();
    GetUIntOfEncode(Uint32Of(x), 4, rest);
  }

  /** An Oid read back from its four bytes is the same Oid. */
  lemma GetOidOfEncode(o: Oid, rest: Cursor)
    ensures o < Pow256(4)
    ensures GetOid(Encode(o, 4) + rest) == Ok((o, rest))
  {
    Pow256Values();
    GetUIntOfEncode(o, 4, rest);
  }

  /** A string sent NUL-terminated is read back whole, and the cursor moves past it. */
  lemma GetStringOfCString(s: seq<byte>, rest: Cursor)
    requires 0 !in s
    ensures GetString(CString(s) + rest) == Ok((s, rest))
  {
    var c := CString(s) + rest;
    assert c[|s|] == 0;
    assert forall i :: 0 <= i < |s| ==> c[i] == s[i];
    NulIndexOfPrefix(c, |s|);
    assert c[..|s|] == s;
    assert c[|s| + 1..] == rest;
  }

  /** The first zero byte of s is at k when none comes before it. */
  lemma {:induction false} NulIndexOfPrefix(s: seq<byte>, k: nat)
    requires k < |s| && s[k] == 0
    requires forall i :: 0 <= i < k ==> s[i] != 0
    ensures NulIndex(s) == k
  {
    if k > 0 {
      NulIndexOfPrefix(s[1..], k - 1);
    }
  }
}
