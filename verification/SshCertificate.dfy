/** The certificate file of the AAD SSH tool: its text, loading it, and when a saved one is reused. */
module SshCertificate {
  import opened Collections
  import opened Base64
  import opened GoStrings

  const WORD := 0x1_0000_0000_0000_0000
  const HALF := 0x8000_0000_0000_0000

  type uint64 = x: int | 0 <= x < WORD

  datatype Certificate = Certificate(validAfter: uint64, validBefore: uint64, rest: seq<Byte>)

  /** What ssh.ParsePublicKey makes of some bytes. */
  datatype Parsed = ParseFailed | OtherKey | Cert(certificate: Certificate)

  datatype FileReply = OpenFailed | ReadFailed | Content(text: string)

  datatype Loaded =
    | Loaded(certificate: Certificate)
    | CannotOpen | CannotRead | BadFormat | BadBase64 | BadKey | NotACertificate | Expired

  // ----- validity

  /** Wall-clock time since the Unix epoch. */
  datatype Time = Time(seconds: int, nanoseconds: int)

  /** Seconds from year 1, which Go counts in, to the Unix epoch. */
  const UNIX_TO_INTERNAL := 62_135_596_800

  function Int64(x: int): int
    requires -HALF <= x < WORD
  {
    if x < HALF then x else x - WORD
  }

  /** The internal seconds of time.Unix(int64(v), 0), 64-bit arithmetic included. */
  function UnixSeconds(v: uint64): int {
    Int64(Int64(v) + UNIX_TO_INTERNAL)
  }

  predicate Precedes(s1: int, ns1: int, s2: int, ns2: int) {
    s1 < s2 || (s1 == s2 && ns1 < ns2)
  }

  predicate IsValid(c: Certificate, now: Time) {
    var t := now.seconds + UNIX_TO_INTERNAL;
    && Precedes(t, now.nanoseconds, UnixSeconds(c.validBefore), 0)
    && Precedes(UnixSeconds(c.validAfter), 0, t, now.nanoseconds)
  }

  /** The first second Go's clock arithmetic cannot represent. */
  const LIMIT := HALF - UNIX_TO_INTERNAL

  /** The time strictly between the two instants, exactly, except that a bound at or past LIMIT
      counts as long gone: such a "valid before" is never met and such a "valid after" always is. */
  lemma ValidExactly(c: Certificate, now: Time)
    requires 0 <= now.seconds < LIMIT && 0 <= now.nanoseconds < 1_000_000_000
    ensures IsValid(c, now) <==>
      && c.validBefore < LIMIT && now.seconds < c.validBefore
      && (c.validAfter >= LIMIT || Precedes(c.validAfter, 0, now.seconds, now.nanoseconds))
  {
    assert c.validBefore >= LIMIT ==> UnixSeconds(c.validBefore) < UNIX_TO_INTERNAL;
    assert c.validAfter >= LIMIT ==> UnixSeconds(c.validAfter) < UNIX_TO_INTERNAL;
  }

  /** A certificate valid for ever, as 2^64 - 1 says, is rejected at every time. */
  lemma ForeverIsRejected(c: Certificate, now: Time)
    requires 0 <= now.seconds < LIMIT && 0 <= now.nanoseconds < 1_000_000_000
    requires c.validBefore == WORD - 1
    ensures !IsValid(c, now)
  {
    ValidExactly(c, now);
  }

  // ----- the file

  const CERT_ALGORITHM := "ssh-rsa-cert-v01@openssh.com"

  function CertificateText(marshalled: seq<Byte>): string {
    CERT_ALGORITHM + " " + Encode(StdEncoding, marshalled)
  }

  /** The bytes a file text carries, before they are parsed as a key. */
  function TextBytes(text: string): Option<seq<Byte>> {
    var parts := Split(text, ' ');
    if |parts| < 2 then None else Decode(StdEncoding, parts[1])
  }

  method LoadSSHCertificate(file: FileReply, parse: seq<Byte> -> Parsed, now: Time) returns (r: Loaded)
    ensures forall c :: r == Loaded(c) <==>
      file.Content? && TextBytes(file.text).Some? && parse(TextBytes(file.text).value) == Cert(c) && IsValid(c, now)
    ensures r.CannotOpen? <==> file.OpenFailed?
    ensures r.CannotRead? <==> file.ReadFailed?
    ensures r.BadFormat? <==> file.Content? && ' ' !in file.text
    ensures r.BadBase64? <==> file.Content? && ' ' in file.text && TextBytes(file.text).None?
    ensures r.BadKey? <==>
      file.Content? && TextBytes(file.text).Some? && parse(TextBytes(file.text).value).ParseFailed?
    ensures r.NotACertificate? <==>
      file.Content? && TextBytes(file.text).Some? && parse(TextBytes(file.text).value).OtherKey?
    ensures r.Expired? <==>
      && file.Content? && TextBytes(file.text).Some? && parse(TextBytes(file.text).value).Cert?
      && !IsValid(parse(TextBytes(file.text).value).certificate, now)
  {
    if file.OpenFailed? {
      return CannotOpen;
    }
    if file.ReadFailed? {
      return CannotRead;
    }
    var parts := Split(file.text, ' ');
    TwoParts(file.text);
    if |parts| < 2 {
      return BadFormat;
    }
    var data := Decode(StdEncoding, parts[1]);
    if data.None? {
      return BadBase64;
    }
    var key := parse(data.value);
    if key.ParseFailed? {
      return BadKey;
    }
    if !key.Cert? {
      return NotACertificate;
    }
    if !IsValid(key.certificate, now) {
      return Expired;
    }
    return Loaded(key.certificate);
  }

  lemma {:induction false} TwoParts(text: string)
    ensures |Split(text, ' ')| >= 2 <==> ' ' in text
  {
    if text != "" && text[0] != ' ' {
      TwoParts(text[1..]);
      assert text == [text[0]] + text[1..];
    }
  }

  /** What may follow the saved text without changing what is loaded: line breaks, or, after a
      space, anything at all. */
  ghost predicate HarmlessTail(tail: string) {
    || (tail != "" && tail[0] == ' ')
    || (forall k :: 0 <= k < |tail| ==> tail[k] == '\n' || tail[k] == '\r')
  }

  /** Saving and loading gives back the bytes, for every byte string. */
  lemma SaveLoad(marshalled: seq<Byte>, tail: string)
    requires HarmlessTail(tail)
    ensures TextBytes(CertificateText(marshalled) + tail) == Some(marshalled)
  {
    var body := Encode(StdEncoding, marshalled);
    AlgorithmHasNoSpace();
    EncodeIsText(StdEncoding, marshalled);
    assert CertificateText(marshalled) + tail == CERT_ALGORITHM + [' '] + (body + tail);
    SplitFirst(CERT_ALGORITHM, ' ', body + tail);
    if tail != "" && tail[0] == ' ' {
      assert body + tail == body + [' '] + tail[1..];
      SplitFirst(body, ' ', tail[1..]);
      DecodeEncode(StdEncoding, marshalled, "");
      assert body + "" == body;
    } else {
      SplitPlain(body + tail, ' ');
      DecodeEncode(StdEncoding, marshalled, tail);
    }
  }

  lemma AlgorithmHasNoSpace()
    ensures ' ' !in CERT_ALGORITHM
  {
  }

  // ----- obtaining a certificate

  datatype Acquired = Acquired(certificate: Certificate) | AcquireFailed(message: string)

  datatype Obtained = Obtained(certificate: Certificate) | NoCertificate(message: string)

  /** The tool's key directory, as far as the certificate goes. */
  class KeyDirectory {
    var certFile: Option<string>

    constructor ()
      ensures certFile == None
    {
      certFile := None;
    }

    function Read(): FileReply
      reads this
    {
      if certFile.Some? then Content(certFile.value) else OpenFailed
    }

    /** Reuses a saved certificate that loads; otherwise asks for one and saves it. `asked` tells
        whether it asked. */
    method ObtainCertificate(parse: seq<Byte> -> Parsed, marshal: Certificate -> seq<Byte>, now: Time,
                             answer: Acquired, canWrite: bool)
      returns (r: Obtained, asked: bool)
      modifies this
      ensures !asked <==> Reusable(old(Read()), parse, now)
      ensures !asked ==>
        && certFile == old(certFile)
        && r == Obtained(parse(TextBytes(old(certFile).value).value).certificate)
      ensures asked && answer.AcquireFailed? ==> r == NoCertificate(answer.message) && certFile == old(certFile)
      ensures asked && answer.Acquired? && canWrite ==>
        r == Obtained(answer.certificate) && certFile == Some(CertificateText(marshal(answer.certificate)))
      ensures asked && answer.Acquired? && !canWrite ==> r.NoCertificate?
    {
      var loaded := LoadSSHCertificate(Read(), parse, now);
      if loaded.Loaded? {
        return Obtained(loaded.certificate), false;
      }
      asked := true;
      if answer.AcquireFailed? {
        return NoCertificate(answer.message), true;
      }
      var content := CertificateText(marshal(answer.certificate));
      if !canWrite {
        certFile := *;  // a failed write may leave anything behind
        return NoCertificate("fail to save"), true;
      }
      certFile := Some(content);
      r := Obtained(answer.certificate);
    }
  }

  predicate Reusable(file: FileReply, parse: seq<Byte> -> Parsed, now: Time) {
    && file.Content? && TextBytes(file.text).Some? && parse(TextBytes(file.text).value).Cert?
    && IsValid(parse(TextBytes(file.text).value).certificate, now)
  }

  /** After a certificate was saved, a later run reuses it exactly while it is valid, and gets the
      very same certificate. */
  lemma SavedIsReused(parse: seq<Byte> -> Parsed, marshal: Certificate -> seq<Byte>, c: Certificate, later: Time)
    requires parse(marshal(c)) == Cert(c)
    ensures Reusable(Content(CertificateText(marshal(c))), parse, later) <==> IsValid(c, later)
    ensures TextBytes(CertificateText(marshal(c))) == Some(marshal(c))
  {
    SaveLoad(marshal(c), "");
    assert CertificateText(marshal(c)) + "" == CertificateText(marshal(c));
  }
}
