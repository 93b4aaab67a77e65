/**
 `parseSSHPublicKey`: a marshalled key is a list of fields, each a 4-byte big-endian length and that
 many bytes (`string` in section 5 of RFC 4251); fields 1 and 2 of an RSA key are its exponent and
 modulus (section 6.6 of RFC 4253), returned as unpadded base64url.

 A Go slice may have storage behind it, and slicing is checked against that capacity, not the
 length; a key is therefore its backing storage with the length of the part in use. Lengths are
 64-bit, so no sum overflows.
 */
module SshWire {
  import opened Collections
  import opened Base64

  datatype Slice = Slice(backing: seq<Byte>, len: nat) {
    predicate Valid() {
      len <= |backing|
    }
  }

  /** Panicked: an index or slice expression out of range. */
  datatype Fields = Fields(fields: seq<seq<Byte>>) | Panicked

  const MAX_LENGTH := 0x1_0000_0000

  /** binary.BigEndian.Uint32 */
  function Uint32(b: seq<Byte>): (n: nat)
    requires |b| == 4
    ensures n < MAX_LENGTH
  {
    ((b[0] as int * 256 + b[1] as int) * 256 + b[2] as int) * 256 + b[3] as int
  }

  function PutUint32(n: nat): (b: seq<Byte>)
    requires n < MAX_LENGTH
    ensures |b| == 4 && Uint32(b) == n
  {
    var high := n / 256;
    var higher := high / 256;
    var highest := higher / 256;
    assert highest < 256;
    [highest, higher % 256, high % 256, n % 256]
  }

  lemma Uint32Inverse(b: seq<Byte>)
    requires |b| == 4
    ensures PutUint32(Uint32(b)) == b
  {
    var (x0: int, x1: int, x2: int, x3: int) := (b[0], b[1], b[2], b[3]);
    var higher := x0 * 256 + x1;
    var high := higher * 256 + x2;
    assert Uint32(b) / 256 == high && high / 256 == higher;
  }

  // ----- the format

  ghost predicate Short(fields: seq<seq<Byte>>) {
    forall k :: 0 <= k < |fields| ==> |fields[k]| < MAX_LENGTH
  }

  function Marshal(fields: seq<seq<Byte>>): seq<Byte>
    requires Short(fields)
  {
    if fields == [] then []
    else PutUint32(|fields[0]|) + fields[0] + Marshal(fields[1..])
  }

  /** The length field at `read`. */
  function LengthAt(key: Slice, read: nat): (n: nat)
    requires read + 4 <= |key.backing|
    ensures n < MAX_LENGTH
  {
    Uint32(key.backing[read..read+4])
  }

  /** Field f, with its length, is what the storage holds at `read`. */
  predicate FieldAt(key: Slice, read: nat, f: seq<Byte>) {
    && read + 4 <= |key.backing|
    && LengthAt(key, read) == |f|
    && read + 4 + |f| <= |key.backing|
    && key.backing[read+4..read+4+|f|] == f
  }

  /** What the field loop should return when it starts at `read`: the fields whose encoding begins
      there, the last of which begins before the end of the slice and reaches it. */
  ghost predicate IsFraming(key: Slice, read: nat, fields: seq<seq<Byte>>)
    decreases |fields|
  {
    if fields == [] then read >= key.len
    else read < key.len && FieldAt(key, read, fields[0]) && IsFraming(key, read + 4 + |fields[0]|, fields[1..])
  }

  lemma FieldUnique(key: Slice, read: nat, f: seq<Byte>, g: seq<Byte>)
    requires FieldAt(key, read, f) && FieldAt(key, read, g)
    ensures f == g
  {
  }

  lemma {:induction false} FramingUnique(key: Slice, read: nat, f: seq<seq<Byte>>, g: seq<seq<Byte>>)
    requires IsFraming(key, read, f) && IsFraming(key, read, g)
    ensures f == g
    decreases |f|
  {
    if f != [] && g != [] {
      FieldUnique(key, read, f[0], g[0]);
      FramingUnique(key, read + 4 + |f[0]|, f[1..], g[1..]);
      assert f == [f[0]] + f[1..] && g == [g[0]] + g[1..];
    }
  }

  /** `all` begins with `done` and continues with a framing from `read`. */
  ghost predicate Continues(key: Slice, done: seq<seq<Byte>>, read: nat, all: seq<seq<Byte>>) {
    |done| <= |all| && all[..|done|] == done && IsFraming(key, read, all[|done|..])
  }

  /** Having read `done`, the framings of the whole key are those that continue at `read`. */
  ghost predicate HasRead(key: Slice, done: seq<seq<Byte>>, read: nat) {
    forall all :: IsFraming(key, 0, all) <==> Continues(key, done, read, all)
  }

  lemma ContinuesOneField(key: Slice, done: seq<seq<Byte>>, read: nat, f: seq<Byte>, all: seq<seq<Byte>>)
    requires read < key.len && FieldAt(key, read, f)
    ensures Continues(key, done, read, all) <==> Continues(key, done + [f], read + 4 + |f|, all)
  {
    var n := |done|;
    if n < |all| && all[..n] == done {
      assert all[n..][1..] == all[n+1..];
      assert all[..n+1] == all[..n] + [all[n]];
      if FieldAt(key, read, all[n]) {
        FieldUnique(key, read, all[n], f);
      }
    }
    if Continues(key, done + [f], read + 4 + |f|, all) {
      assert all[..n] == all[..n+1][..n] == done;
      assert all[n] == all[..n+1][n] == f;
    }
  }

  lemma HasReadOneMore(key: Slice, done: seq<seq<Byte>>, read: nat, f: seq<Byte>)
    requires HasRead(key, done, read) && read < key.len && FieldAt(key, read, f)
    ensures HasRead(key, done + [f], read + 4 + |f|)
  {
    forall all
      ensures IsFraming(key, 0, all) <==> Continues(key, done + [f], read + 4 + |f|, all)
    {
      ContinuesOneField(key, done, read, f, all);
    }
  }

  /** A field cut short by the end of the storage leaves no framing. */
  lemma CutShort(key: Slice, done: seq<seq<Byte>>, read: nat)
    requires HasRead(key, done, read) && read < key.len
    requires read + 4 > |key.backing| || read + 4 + LengthAt(key, read) > |key.backing|
    ensures forall all :: !IsFraming(key, 0, all)
  {
    assert forall all :: !Continues(key, done, read, all);
  }

  lemma NothingRead(key: Slice)
    ensures HasRead(key, [], 0)
  {
    forall all: seq<seq<Byte>>
      ensures IsFraming(key, 0, all) <==> Continues(key, [], 0, all)
    {
      assert all[0..] == all;
    }
  }

  method ParseFields(key: Slice) returns (r: Fields)
    requires key.Valid()
    ensures r.Fields? ==> IsFraming(key, 0, r.fields)
    ensures r.Panicked? ==> forall all :: !IsFraming(key, 0, all)
  {
    var fields: seq<seq<Byte>> := [];
    var read := 0;
    NothingRead(key);
    while read < key.len
      invariant HasRead(key, fields, read)
      decreases key.len - read
    {
      if read + 4 > |key.backing| {
        CutShort(key, fields, read);
        return Panicked;
      }
      var length := LengthAt(key, read);
      if read + 4 + length > |key.backing| {
        CutShort(key, fields, read);
        return Panicked;
      }
      var field := key.backing[read+4..read+4+length];
      HasReadOneMore(key, fields, read, field);
      read := read + 4;
      fields := fields + [field];
      read := read + length;
    }
    assert Continues(key, fields, read, fields);
    r := Fields(fields);
  }

  // ----- round trip

  /** A stretch of storage is three parts exactly when its consecutive slices are. */
  lemma Parts(b: seq<Byte>, i: nat, j: nat, head: seq<Byte>, f: seq<Byte>, tail: seq<Byte>)
    requires i <= j <= |b| && j - i == |head| + |f| + |tail|
    ensures b[i..j] == head + f + tail <==>
      b[i..i+|head|] == head && b[i+|head|..i+|head|+|f|] == f && b[i+|head|+|f|..j] == tail
  {
    var m, n := i + |head|, i + |head| + |f|;
    assert b[i..j] == b[i..m] + b[m..n] + b[n..j];
    if b[i..j] == head + f + tail {
      assert b[i..m] == b[i..j][..|head|] == head;
      assert b[m..n] == b[i..j][|head|..|head|+|f|] == f;
      assert b[n..j] == b[i..j][|head|+|f|..] == tail;
    }
  }

  lemma {:induction false} MarshalIsFraming(key: Slice, read: nat, fields: seq<seq<Byte>>)
    requires Short(fields) && key.Valid()
    requires read + |Marshal(fields)| == key.len && key.backing[read..key.len] == Marshal(fields)
    ensures IsFraming(key, read, fields)
    decreases |fields|
  {
    if fields != [] {
      var f := fields[0];
      Parts(key.backing, read, key.len, PutUint32(|f|), f, Marshal(fields[1..]));
      MarshalIsFraming(key, read + 4 + |f|, fields[1..]);
    }
  }

  /** Parsing undoes marshalling, whatever storage lies behind the slice; no other list of fields
      would do, so this is what the loop returns. */
  lemma MarshalParse(fields: seq<seq<Byte>>, slack: seq<Byte>, parsed: seq<seq<Byte>>)
    requires Short(fields)
    ensures IsFraming(Slice(Marshal(fields) + slack, |Marshal(fields)|), 0, parsed) <==> parsed == fields
  {
    var key := Slice(Marshal(fields) + slack, |Marshal(fields)|);
    assert key.backing[0..key.len] == Marshal(fields);
    MarshalIsFraming(key, 0, fields);
    if IsFraming(key, 0, parsed) {
      FramingUnique(key, 0, parsed, fields);
    }
  }

  lemma {:induction false} FramingIsShort(key: Slice, read: nat, fields: seq<seq<Byte>>)
    requires IsFraming(key, read, fields)
    ensures Short(fields)
    decreases |fields|
  {
    if fields != [] {
      FramingIsShort(key, read + 4 + |fields[0]|, fields[1..]);
      assert forall k :: 0 < k < |fields| ==> fields[k] == fields[1..][k-1];
    }
  }

  /** With no storage behind the slice, exactly the marshalled lists are accepted. */
  lemma {:induction false} FramingIsMarshal(key: Slice, read: nat, fields: seq<seq<Byte>>)
    requires key.len == |key.backing| && read <= key.len
    requires IsFraming(key, read, fields) && Short(fields)
    ensures key.backing[read..key.len] == Marshal(fields)
    decreases |fields|
  {
    if fields != [] {
      var f := fields[0];
      var next := read + 4 + |f|;
      FramingIsMarshal(key, next, fields[1..]);
      Uint32Inverse(key.backing[read..read+4]);
      Parts(key.backing, read, key.len, PutUint32(|f|), f, Marshal(fields[1..]));
    }
  }

  lemma AcceptedIffMarshalled(bytes: seq<Byte>, fields: seq<seq<Byte>>)
    ensures IsFraming(Slice(bytes, |bytes|), 0, fields) <==> Short(fields) && bytes == Marshal(fields)
  {
    assert bytes[0..|bytes|] == bytes;
    if IsFraming(Slice(bytes, |bytes|), 0, fields) {
      FramingIsShort(Slice(bytes, |bytes|), 0, fields);
      FramingIsMarshal(Slice(bytes, |bytes|), 0, fields);
    }
    if Short(fields) && bytes == Marshal(fields) {
      MarshalParse(fields, [], fields);
      assert Marshal(fields) + [] == bytes;
    }
  }

  // ----- RSA numbers

  /** The unsigned number big-endian bytes stand for. */
  function BigEndian(b: seq<Byte>): nat {
    if b == [] then 0 else BigEndian(b[..|b|-1]) * 256 + b[|b|-1]
  }

  function Magnitude(n: nat): (b: seq<Byte>)
    ensures BigEndian(b) == n
    ensures b != [] ==> b[0] != 0
    ensures b == [] <==> n == 0
  {
    if n == 0 then []
    else
      var high := Magnitude(n / 256);
      var b := high + [n % 256];
      assert b[..|b|-1] == high;
      b
  }

  /** `mpint` of a non-negative number: two's complement, so a leading zero byte keeps the top bit clear. */
  function Mpint(n: nat): seq<Byte> {
    var b := Magnitude(n);
    if b != [] && b[0] >= 128 then [0] + b else b
  }

  lemma {:induction false} LeadingZero(b: seq<Byte>)
    ensures BigEndian([0] + b) == BigEndian(b)
    decreases |b|
  {
    var z := [0] + b;
    if b == [] {
      assert z[..0] == [];
    } else {
      LeadingZero(b[..|b|-1]);
      assert z[..|z|-1] == [0] + b[..|b|-1];
    }
  }

  lemma MpintValue(n: nat)
    ensures BigEndian(Mpint(n)) == n
  {
    LeadingZero(Magnitude(n));
  }

  /** "ssh-rsa" */
  const SSH_RSA: seq<Byte> := [0x73, 0x73, 0x68, 0x2d, 0x72, 0x73, 0x61]

  datatype KeyText = KeyText(e: string, n: string) | KeyPanicked

  method ParseSSHPublicKey(key: Slice) returns (r: KeyText)
    requires key.Valid()
    ensures forall all :: IsFraming(key, 0, all) && |all| >= 3 ==>
      r == KeyText(Encode(RawURLEncoding, all[1]), Encode(RawURLEncoding, all[2]))
    ensures r.KeyPanicked? <==> forall all :: IsFraming(key, 0, all) ==> |all| < 3
  {
    var parsed := ParseFields(key);
    if parsed.Panicked? {
      return KeyPanicked;
    }
    var fields := parsed.fields;
    forall all | IsFraming(key, 0, all)
      ensures all == fields
    {
      FramingUnique(key, 0, all, fields);
    }
    if |fields| < 3 {
      return KeyPanicked;
    }
    r := KeyText(Encode(RawURLEncoding, fields[1]), Encode(RawURLEncoding, fields[2]));
  }

  function RsaFields(e: nat, n: nat): seq<seq<Byte>> {
    [SSH_RSA, Mpint(e), Mpint(n)]
  }

  /** The base64url text of a big-endian number. */
  predicate IsTextOf(text: string, n: nat) {
    var b := Decode(RawURLEncoding, text);
    b.Some? && BigEndian(b.value) == n
  }

  /** From an RSA key to the JWK texts: decoding them as unsigned big-endian numbers gives the key's
      exponent and modulus. */
  method RsaKeyToText(e: nat, n: nat, slack: seq<Byte>) returns (r: KeyText)
    requires Short(RsaFields(e, n))
    ensures r.KeyText? && IsTextOf(r.e, e) && IsTextOf(r.n, n)
  {
    var bytes := Marshal(RsaFields(e, n));
    r := ParseSSHPublicKey(Slice(bytes + slack, |bytes|));
    MarshalParse(RsaFields(e, n), slack, RsaFields(e, n));
    NumberText(e);
    NumberText(n);
  }

  lemma NumberText(n: nat)
    ensures IsTextOf(Encode(RawURLEncoding, Mpint(n)), n)
  {
    MpintValue(n);
    DecodeEncode(RawURLEncoding, Mpint(n), "");
    assert Encode(RawURLEncoding, Mpint(n)) + "" == Encode(RawURLEncoding, Mpint(n));
  }

  /** The text is that of the shortest big-endian form, as section 6.3.1 of RFC 7518 asks of a JWK,
      exactly when the number's top bit is clear; otherwise mpint's leading zero byte is still there. */
  lemma ShortestTextExactly(n: nat)
    ensures Decode(RawURLEncoding, Encode(RawURLEncoding, Mpint(n))) == Some(Magnitude(n))
       <==> n == 0 || Magnitude(n)[0] < 128
  {
    DecodeEncode(RawURLEncoding, Mpint(n), "");
    assert Encode(RawURLEncoding, Mpint(n)) + "" == Encode(RawURLEncoding, Mpint(n));
  }
}
