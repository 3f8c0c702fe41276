/** The composite `scheme:hexdigest` hash type used by Document.hash.
    Its checks run in a fixed order: supported scheme, then digest length,
    then hexadecimal digits. A value that passes is kept unchanged. */
module HashType {
  import opened Base

  /** Length, in hexadecimal characters, of the digest of each supported algorithm. */
  const DigestLength: map<string, nat> :=
    map["md5" := 32, "sha1" := 40, "sha224" := 56, "sha256" := 64, "sha384" := 96, "sha512" := 128]

  predicate IsHexDigit(ch: char) {
    '0' <= ch <= '9' || 'a' <= ch <= 'f' || 'A' <= ch <= 'F'
  }

  predicate IsHex(s: string) {
    forall i :: 0 <= i < |s| ==> IsHexDigit(s[i])
  }

  /** The part before the first ':' (the whole value when there is none). */
  function Scheme(s: string): string {
    s[..IndexOf(s, ':')]
  }

  /** The part after the first ':' (empty when there is none). */
  function Digest(s: string): string {
    if IndexOf(s, ':') < |s| then s[IndexOf(s, ':') + 1..] else []
  }

  predicate HasSupportedScheme(s: string) {
    IndexOf(s, ':') < |s| && Scheme(s) in DigestLength
  }

  /** What a well-formed hash value looks like. */
  predicate IsCanonical(s: string) {
    HasSupportedScheme(s) && |Digest(s)| == DigestLength[Scheme(s)] && IsHex(Digest(s))
  }

  /** Conversion of a raw string to a hash value. */
  function Parse(s: string): (r: Result<string, Message>)
    ensures r.Success? <==> IsCanonical(s)
    ensures r.Success? ==> r.value == s
    ensures r == Failure(HashUnsupported) <==> !HasSupportedScheme(s)
    ensures r == Failure(HashWrongLength) <==>
              HasSupportedScheme(s) && |Digest(s)| != DigestLength[Scheme(s)]
    ensures r == Failure(HashNotHex) <==>
              HasSupportedScheme(s) && |Digest(s)| == DigestLength[Scheme(s)] && !IsHex(Digest(s))
  {
    if !HasSupportedScheme(s) then Failure(HashUnsupported)
    else if |Digest(s)| != DigestLength[Scheme(s)] then Failure(HashWrongLength)
    else if !IsHex(Digest(s)) then Failure(HashNotHex)
    else Success(s)
  }

  /** The canonical text of a digest under an algorithm. */
  function Format(algorithm: string, digest: string): string {
    algorithm + ":" + digest
  }

  /** Splitting a formatted value at its first ':' gives back its two parts. */
  lemma {:induction false} SchemeOfFormat(algorithm: string, digest: string)
    requires ':' !in algorithm
    ensures IndexOf(Format(algorithm, digest), ':') == |algorithm|
    ensures Scheme(Format(algorithm, digest)) == algorithm
    ensures Digest(Format(algorithm, digest)) == digest
  {
    var s := Format(algorithm, digest);
    if algorithm != [] {
      assert s[1..] == Format(algorithm[1..], digest);
      SchemeOfFormat(algorithm[1..], digest);
    }
  }

  /** A digest of the right length written in hexadecimal under a supported
      algorithm parses back to exactly the same text. */
  lemma FormatRoundTrip(algorithm: string, digest: string)
    requires algorithm in DigestLength
    requires |digest| == DigestLength[algorithm] && IsHex(digest)
    ensures Parse(Format(algorithm, digest)) == Success(Format(algorithm, digest))
  {
    SchemeOfFormat(algorithm, digest);
  }

  /** Every value that parses is the format of its own scheme and digest. */
  lemma ParsedIsFormat(s: string)
    requires Parse(s).Success?
    ensures s == Format(Scheme(s), Digest(s))
  {
    var i := IndexOf(s, ':');
    assert s == s[..i] + [s[i]] + s[i + 1..];
  }

  /** A value without a colon, or whose scheme is unknown or empty, is
      rejected as unsupported whatever follows. */
  lemma UnsupportedCases()
    ensures Parse("test") == Failure(HashUnsupported)
    ensures Parse(":") == Failure(HashUnsupported)
    ensures Parse("test:") == Failure(HashUnsupported)
  {
    assert IndexOf("test", ':') == 4 by {
      assert "test"[1..] == "est" && "est"[1..] == "st" && "st"[1..] == "t" && "t"[1..] == "";
    }
    SchemeOfFormat("", "");
    assert ":" == Format("", "");
    SchemeOfFormat("test", "");
    assert "test:" == Format("test", "");
  }

  /** A supported scheme with no digest is the wrong length. */
  lemma MissingDigestIsWrongLength()
    ensures Parse("sha512:") == Failure(HashWrongLength)
  {
    SchemeOfFormat("sha512", "");
    assert "sha512:" == Format("sha512", "");
  }

  /** A digest of the right length with a non-hexadecimal character is
      rejected last. */
  lemma NonHexDigestIsRejected(digest: string)
    requires |digest| == 32 && !IsHex(digest)
    ensures Parse(Format("md5", digest)) == Failure(HashNotHex)
  {
    SchemeOfFormat("md5", digest);
  }
}
