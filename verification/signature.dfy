/**
 The webhook signature validator: the `X-Hub-Signature-256` header carries
 `sha256=<hex>`, the lower-case hex HMAC-SHA256 (RFC 2104) of the raw request
 body keyed by the shared webhook secret. The MAC itself is a parameter
 `mac(secret, body)`; what is modelled is the header handling around it,
 including Python's `str.split`, the two-name tuple unpack and the ASCII rule
 of `hmac.compare_digest`.
 */
module Signature {
  import opened Base

  const Separator: char := '='
  const Algorithm: string := "sha256"

  /** The header a correct sender puts on `body`. */
  function SignatureHeader(digest: string): string {
    Algorithm + [Separator] + digest
  }

  /** What `hexdigest()` of a SHA-256 MAC looks like: 64 lower-case hex digits. */
  predicate HexDigest(s: string) {
    |s| == 64 && forall i :: 0 <= i < |s| ==> s[i] in "0123456789abcdef"
  }

  /** Python's `sep.join(parts)` for a one-character separator. */
  function Join(parts: seq<string>, sep: char): string {
    if |parts| == 0 then ""
    else if |parts| == 1 then parts[0]
    else parts[0] + [sep] + Join(parts[1..], sep)
  }

  /**
   Python's `s.split(sep)` for a one-character separator: one more part than
   there are separators, and no part contains the separator.
   */
  function Split(s: string, sep: char): (parts: seq<string>)
    ensures |parts| == multiset(s)[sep] + 1
    ensures forall i :: 0 <= i < |parts| ==> sep !in parts[i]
    decreases |s|
  {
    if |s| == 0 then [""]
    else
      var rest := Split(s[1..], sep);
      assert s == [s[0]] + s[1..];
      if s[0] == sep then [""] + rest
      else [[s[0]] + rest[0]] + rest[1..]
  }

  /** Python's `sep.join` of a head and a non-empty tail. */
  lemma JoinCons(p: string, ps: seq<string>, sep: char)
    requires |ps| >= 1
    ensures Join([p] + ps, sep) == p + [sep] + Join(ps, sep)
  {
    assert ([p] + ps)[1..] == ps;
  }

  /** Joining the parts back with the separator gives the original text. */
  lemma {:induction false} SplitJoin(s: string, sep: char)
    ensures Join(Split(s, sep), sep) == s
    decreases |s|
  {
    if |s| > 0 {
      SplitJoin(s[1..], sep);
      SplitJoinStep(s, sep);
    }
  }

  /** One step of `SplitJoin`: from the tail of `s` to `s` itself. */
  lemma SplitJoinStep(s: string, sep: char)
    requires |s| > 0
    requires Join(Split(s[1..], sep), sep) == s[1..]
    ensures Join(Split(s, sep), sep) == s
  {
    var rest := Split(s[1..], sep);
    assert s == [s[0]] + s[1..];
    if s[0] == sep {
      assert Split(s, sep) == [""] + rest;
      JoinCons("", rest, sep);
    } else if |rest| == 1 {
      assert Split(s, sep) == [[s[0]] + rest[0]];
    } else {
      SplitJoinLongStep(s, sep);
    }
  }

  /** The step of `SplitJoin` where the first character extends the first of several parts. */
  lemma SplitJoinLongStep(s: string, sep: char)
    requires |s| > 0 && s[0] != sep
    requires Join(Split(s[1..], sep), sep) == s[1..]
    requires |Split(s[1..], sep)| > 1
    ensures Join(Split(s, sep), sep) == s
  {
    var rest := Split(s[1..], sep);
    assert s == [s[0]] + s[1..];
    var parts := Split(s, sep);
    assert parts == [[s[0]] + rest[0]] + rest[1..];
    assert rest == [rest[0]] + rest[1..];
    JoinCons(rest[0], rest[1..], sep);
    JoinCons([s[0]] + rest[0], rest[1..], sep);
    assert Join(parts, sep) == [s[0]] + rest[0] + [sep] + Join(rest[1..], sep);
  }

  /** Text without the separator splits into itself alone. */
  lemma {:induction false} SplitWithoutSeparator(s: string, sep: char)
    requires sep !in s
    ensures Split(s, sep) == [s]
    decreases |s|
  {
    if |s| > 0 {
      SplitWithoutSeparator(s[1..], sep);
      assert [s[0]] + s[1..] == s;
    }
  }

  /** Splitting stops at the first separator. */
  lemma {:induction false} SplitAtFirst(a: string, sep: char, b: string)
    requires sep !in a
    ensures Split(a + [sep] + b, sep) == [a] + Split(b, sep)
    decreases |a|
  {
    var s := a + [sep] + b;
    if |a| == 0 {
      assert s[1..] == b;
    } else {
      assert s[1..] == a[1..] + [sep] + b;
      SplitAtFirst(a[1..], sep, b);
      assert [a[0]] + a[1..] == a;
    }
  }

  /** The parts of `a=b` are `a` and `b` when neither holds a separator. */
  lemma SplitPair(a: string, b: string)
    requires Separator !in a && Separator !in b
    ensures Split(a + [Separator] + b, Separator) == [a, b]
  {
    SplitAtFirst(a, Separator, b);
    SplitWithoutSeparator(b, Separator);
  }

  /**
   What one call of the validator did: its answer (or the exception it
   raised), and the bytes the MAC was computed over, if it was computed.
   */
  datatype Check = Check(valid: Result<bool>, macOver: Option<Bytes>)

  /**
   `verify_webhook_signature`: a missing or empty header is refused before any
   MAC is computed; a header without exactly one `=` makes the tuple unpack
   raise; a tag other than `sha256` is refused; otherwise the MAC of the raw
   body is compared with the supplied hex, and `compare_digest` raises when
   either side holds a non-ASCII character.
   */
  function Verify(body: Bytes, header: Option<string>, secret: string, mac: (string, Bytes) -> string): (c: Check)
    ensures header.None? || header == Some("") ==> c == Check(Ok(false), None)
    ensures c.macOver.Some? ==> c.macOver == Some(body)
    ensures c.valid == Ok(true) ==> c.macOver == Some(body)
  {
    if header.None? || header.value == "" then Check(Ok(false), None)
    else
      var parts := Split(header.value, Separator);
      if |parts| != 2 then Check(Raised(UnpackError), None)
      else if parts[0] != Algorithm then Check(Ok(false), None)
      else
        var supplied := parts[1];
        var expected := mac(secret, body);
        if !IsAscii(supplied) || !IsAscii(expected) then Check(Raised(NonAsciiCompare), Some(body))
        else Check(Ok(supplied == expected), Some(body))
  }

  /** A header with the `sha256=` tag followed by text free of `=`. */
  predicate Sha256Form(h: string) {
    |h| >= 7 && h[..7] == Algorithm + [Separator] && Separator !in h[7..]
  }

  /** The tuple unpack raises exactly when a non-empty header does not hold exactly one `=`. */
  lemma UnpackRaisesIff(body: Bytes, h: string, secret: string, mac: (string, Bytes) -> string)
    requires h != ""
    ensures Verify(body, Some(h), secret, mac).valid == Raised(UnpackError) <==> multiset(h)[Separator] != 1
  {
  }

  /** A header that got past the unpack and the tag check is `sha256=` followed by its second part. */
  lemma TaggedHeaderShape(h: string)
    requires |Split(h, Separator)| == 2 && Split(h, Separator)[0] == Algorithm
    ensures h == SignatureHeader(Split(h, Separator)[1])
    ensures Sha256Form(h)
  {
    var parts := Split(h, Separator);
    SplitJoin(h, Separator);
    assert Join(parts, Separator) == parts[0] + [Separator] + Join(parts[1..], Separator);
    assert parts[1..] == [parts[1]];
    assert h[7..] == parts[1];
  }

  /** The MAC is computed, over the raw body, exactly when the header has the `sha256=` form. */
  lemma MacComputedIff(body: Bytes, header: Option<string>, secret: string, mac: (string, Bytes) -> string)
    ensures Verify(body, header, secret, mac).macOver == Some(body) <==> header.Some? && Sha256Form(header.value)
  {
    if Verify(body, header, secret, mac).macOver == Some(body) {
      TaggedHeaderShape(header.value);
    }
    if header.Some? && Sha256Form(header.value) {
      Sha256FormSplits(header.value);
    }
  }

  /** A header of the `sha256=` form splits into the tag and the rest. */
  lemma Sha256FormSplits(h: string)
    requires Sha256Form(h)
    ensures Split(h, Separator) == [Algorithm, h[7..]]
  {
    assert h == Algorithm + [Separator] + h[7..];
    SplitPair(Algorithm, h[7..]);
  }

  /** A tag other than `sha256` before the only `=` is refused without computing a MAC. */
  lemma WrongAlgorithmRefused(body: Bytes, tag: string, rest: string, secret: string, mac: (string, Bytes) -> string)
    requires Separator !in tag && Separator !in rest
    requires tag != Algorithm
    ensures Verify(body, Some(tag + [Separator] + rest), secret, mac) == Check(Ok(false), None)
  {
    SplitPair(tag, rest);
  }

  /** A hex digest holds no `=` and only ASCII characters. */
  lemma HexDigestIsPlain(d: string)
    requires HexDigest(d)
    ensures Separator !in d && IsAscii(d)
  {
    assert IsAscii(d) by {
      forall i | 0 <= i < |d| ensures d[i] as int < 128 {
        assert d[i] in "0123456789abcdef";
      }
    }
  }

  /** Round trip: the header a correct sender computes is accepted. */
  lemma OwnSignatureAccepted(body: Bytes, secret: string, mac: (string, Bytes) -> string)
    requires HexDigest(mac(secret, body))
    ensures Verify(body, Some(SignatureHeader(mac(secret, body))), secret, mac) == Check(Ok(true), Some(body))
  {
    HexDigestIsPlain(mac(secret, body));
    SplitPair(Algorithm, mac(secret, body));
  }

  /** Any other ASCII digest without `=` is refused (after the MAC is computed). */
  lemma OtherDigestRefused(body: Bytes, d: string, secret: string, mac: (string, Bytes) -> string)
    requires HexDigest(mac(secret, body))
    requires Separator !in d && IsAscii(d)
    requires d != mac(secret, body)
    ensures Verify(body, Some(SignatureHeader(d)), secret, mac) == Check(Ok(false), Some(body))
  {
    HexDigestIsPlain(mac(secret, body));
    SplitPair(Algorithm, d);
  }

  /**
   A digest free of `=` that holds a non-ASCII character makes
   `compare_digest` raise TypeError, after the MAC was computed.
   */
  lemma NonAsciiDigestRaises(body: Bytes, d: string, secret: string, mac: (string, Bytes) -> string)
    requires Separator !in d && !IsAscii(d)
    ensures Verify(body, Some(SignatureHeader(d)), secret, mac) == Check(Raised(NonAsciiCompare), Some(body))
  {
    SplitPair(Algorithm, d);
  }

  /** The validator answers `true` for exactly one header: `sha256=` followed by the MAC of the raw body. */
  lemma AcceptedIff(body: Bytes, header: Option<string>, secret: string, mac: (string, Bytes) -> string)
    requires HexDigest(mac(secret, body))
    ensures Verify(body, header, secret, mac).valid == Ok(true) <==> header == Some(SignatureHeader(mac(secret, body)))
  {
    if header == Some(SignatureHeader(mac(secret, body))) {
      OwnSignatureAccepted(body, secret, mac);
    }
    if Verify(body, header, secret, mac).valid == Ok(true) {
      TaggedHeaderShape(header.value);
    }
  }
}
