// egress/bodyref.go: the bounded, verified download of a referenced body.
//
// The stored object is an abstract byte sequence behind an HTTP exchange, and
// SHA-256 (as a lower-case hex string) is the parameter `sha256Hex`.

module BodyReference {
  import opened Frames

  const MAX_INT64: nat := 0x7FFF_FFFF_FFFF_FFFF

  // The response's content, and where the transfer breaks off if it does.
  datatype Content = Content(stored: seq<Byte>, breaksAt: Option<nat>)

  datatype Exchange = NoResponse | Response(status: nat, content: Content)

  datatype Download = Body(body: seq<Byte>) | Failure(info: ErrorInfo)

  function Fail(fact: string): Download {
    Failure(ErrorInfo(BodyRefUnavailable, fact))
  }

  const UNAVAILABLE := Fail("body_ref_unavailable")
  const EXPIRED := Fail("body_ref_expired")
  const SIZE_MISMATCH := Fail("body_ref_size_mismatch")
  const CHECKSUM_MISMATCH := Fail("body_ref_checksum_mismatch")

  predicate Usable(ref: Reference) {
    ref.s3.Some? && ref.s3.value.signedUrl != ""
  }

  predicate Expired(ref: Reference, now: int) {
    ref.s3.Some? && ref.s3.value.expiresUnixMs > 0 && now >= ref.s3.value.expiresUnixMs
  }

  // Reading `content` through a reader that stops after `limit` bytes: a break
  // before the limit is an error, one at or after it is never seen.
  function ReadLimited(content: Content, limit: nat): Option<seq<Byte>> {
    var Content(stored, breaksAt) := content;
    if breaksAt.Some? && limit > breaksAt.value && |stored| >= breaksAt.value then None
    else if |stored| > limit then Some(stored[..limit])
    else Some(stored)
  }

  function Fetch(exchange: Exchange, expected: U64): Download {
    if exchange.NoResponse? then UNAVAILABLE
    else if exchange.status < 200 || exchange.status >= 300 then UNAVAILABLE
    else if expected >= MAX_INT64 then SIZE_MISMATCH
    else
      match ReadLimited(exchange.content, expected + 1)
      case None => UNAVAILABLE
      case Some(body) => Body(body)
  }

  function LowerChar(c: char): char {
    if 'A' <= c <= 'Z' then c - 'A' + 'a' else c
  }

  function Lower(s: string): (t: string)
    ensures |t| == |s|
  {
    seq(|s|, i requires 0 <= i < |s| => LowerChar(s[i]))
  }

  function Verify(sha256Hex: seq<Byte> -> string, ref: Reference, body: seq<Byte>): Option<Download> {
    if (ref.expectedSize > 0 || ref.sha256Hex != "") && |body| != ref.expectedSize then Some(SIZE_MISMATCH)
    else if ref.sha256Hex != "" && Lower(sha256Hex(body)) != Lower(ref.sha256Hex) then Some(CHECKSUM_MISMATCH)
    else None
  }

  function DownloadBodyRef(sha256Hex: seq<Byte> -> string, ref: Reference, exchange: Exchange, now: int): Download {
    if !Usable(ref) then UNAVAILABLE
    else if Expired(ref, now) then EXPIRED
    else
      var fetched := Fetch(exchange, ref.expectedSize);
      if fetched.Failure? then fetched
      else
        match Verify(sha256Hex, ref, fetched.body)
        case Some(failure) => failure
        case None => fetched
  }

  // The reader's limit, expected + 1, always fits Go's int64.
  lemma LimitFitsInt64(exchange: Exchange, expected: U64)
    requires Fetch(exchange, expected).Body?
    ensures expected + 1 <= MAX_INT64
    ensures |Fetch(exchange, expected).body| <= expected + 1
  {
  }

  // The object arrived whole: nothing broke off before its end.
  predicate Whole(exchange: Exchange) {
    && exchange.Response?
    && 200 <= exchange.status < 300
    && (exchange.content.breaksAt.Some? ==> exchange.content.breaksAt.value > |exchange.content.stored|)
  }

  // A download that succeeds against a stated size or checksum is never a
  // truncated prefix: it is the entire object, of exactly the stated size.
  lemma SuccessIsWholeObject(sha256Hex: seq<Byte> -> string, ref: Reference, exchange: Exchange, now: int)
    requires DownloadBodyRef(sha256Hex, ref, exchange, now).Body?
    requires ref.expectedSize > 0 || ref.sha256Hex != ""
    ensures Whole(exchange)
    ensures DownloadBodyRef(sha256Hex, ref, exchange, now).body == exchange.content.stored
    ensures |exchange.content.stored| == ref.expectedSize
    ensures ref.sha256Hex != "" ==> Lower(sha256Hex(exchange.content.stored)) == Lower(ref.sha256Hex)
  {
  }

  // The complete picture for a reference that states a size or a checksum: the
  // download succeeds exactly when the reference is usable and unexpired and
  // the whole object arrives and matches.
  lemma SucceedsIff(sha256Hex: seq<Byte> -> string, ref: Reference, exchange: Exchange, now: int)
    requires ref.expectedSize > 0 || ref.sha256Hex != ""
    ensures DownloadBodyRef(sha256Hex, ref, exchange, now).Body? <==>
            && Usable(ref) && !Expired(ref, now)
            && Whole(exchange)
            && |exchange.content.stored| == ref.expectedSize < MAX_INT64
            && (ref.sha256Hex != "" ==> Lower(sha256Hex(exchange.content.stored)) == Lower(ref.sha256Hex))
  {
  }

  // A reference that states neither (size 0, no checksum) is read one byte
  // deep and never verified: what it yields is the whole object exactly when
  // the object has at most one byte.
  lemma UnstatedSizeTruncates(sha256Hex: seq<Byte> -> string, ref: Reference, exchange: Exchange, now: int)
    requires ref.expectedSize == 0 && ref.sha256Hex == ""
    requires DownloadBodyRef(sha256Hex, ref, exchange, now).Body?
    ensures var stored := exchange.content.stored;
            var body := DownloadBodyRef(sha256Hex, ref, exchange, now).body;
            && body <= stored
            && (body == stored <==> |stored| <= 1)
  {
    var stored := exchange.content.stored;
    if |stored| > 1 {
      assert |stored[..1]| == 1;
    }
  }

  // Everything a download can come to, in the order of the checks.
  lemma DownloadMeans(sha256Hex: seq<Byte> -> string, ref: Reference, exchange: Exchange, now: int)
    ensures var r := DownloadBodyRef(sha256Hex, ref, exchange, now);
            var fact := if r.Failure? then r.info.fact else "";
            && (r.Failure? ==> r.info.code == BodyRefUnavailable)
            && (if ref.s3.None? || ref.s3.value.signedUrl == "" then r.Failure? && fact == "body_ref_unavailable"
                else if ref.s3.value.expiresUnixMs > 0 && ref.s3.value.expiresUnixMs <= now then
                  r.Failure? && fact == "body_ref_expired"
                else if exchange.NoResponse? || !(200 <= exchange.status <= 299) then
                  r.Failure? && fact == "body_ref_unavailable"
                else if ref.expectedSize >= MAX_INT64 then r.Failure? && fact == "body_ref_size_mismatch"
                else ContentMeans(sha256Hex, ref, exchange.content, r))
  {
  }

  // The same, of the content once it is read: n bytes of it are wanted, one more
  // than the size stated.
  ghost predicate ContentMeans(sha256Hex: seq<Byte> -> string, ref: Reference, content: Content, r: Download) {
    var n := ref.expectedSize + 1;
    var read := if |content.stored| <= n then content.stored else content.stored[..n];
    var stated := ref.expectedSize > 0 || ref.sha256Hex != "";
    if content.breaksAt.Some? && content.breaksAt.value < n && content.breaksAt.value <= |content.stored| then
      r == Failure(ErrorInfo(BodyRefUnavailable, "body_ref_unavailable"))
    else if stated && |content.stored| != ref.expectedSize then
      r == Failure(ErrorInfo(BodyRefUnavailable, "body_ref_size_mismatch"))
    else if ref.sha256Hex != "" && Lower(sha256Hex(read)) != Lower(ref.sha256Hex) then
      r == Failure(ErrorInfo(BodyRefUnavailable, "body_ref_checksum_mismatch"))
    else r == Body(read)
  }

  predicate LowerHex(s: string) {
    forall i :: 0 <= i < |s| ==> '0' <= s[i] <= '9' || 'a' <= s[i] <= 'f'
  }

  // The comparison ignores the case of the letters A to Z and nothing else: two
  // strings agree exactly if they do so character by character, up to it.
  lemma LowerMeans(s: string, t: string)
    ensures Lower(s) == Lower(t) <==>
            && |s| == |t|
            && forall i :: 0 <= i < |s| ==> SameLetter(s[i], t[i])
    ensures LowerHex(s) && LowerHex(t) && Lower(s) == Lower(t) ==> s == t
  {
    if Lower(s) == Lower(t) {
      forall i | 0 <= i < |s|
        ensures SameLetter(s[i], t[i])
      {
        assert Lower(s)[i] == Lower(t)[i];
      }
    }
  }

  predicate SameLetter(a: char, b: char) {
    || a == b
    || ('A' <= a <= 'Z' && b as int == a as int + 32)
    || ('A' <= b <= 'Z' && a as int == b as int + 32)
  }
}
