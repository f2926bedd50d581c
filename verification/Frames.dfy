// The wire vocabulary shared by both halves of the stream protocol: frames,
// their payloads, and the bytes a sequence of frames carries.

module Frames {

  type U64 = n: nat | n < 0x1_0000_0000_0000_0000
  type U32 = n: nat | n < 0x1_0000_0000
  type Byte = n: nat | n < 0x100

  const MAX_U64: U64 := 0xFFFF_FFFF_FFFF_FFFF

  // Go's uint64 arithmetic: results are reduced modulo 2^64.
  function Wrap64(n: nat): U64 {
    if n <= MAX_U64 then n else n % 0x1_0000_0000_0000_0000
  }

  lemma WrapAdd(a: nat, b: nat)
    ensures Wrap64(Wrap64(a) + b) == Wrap64(a + b)
  {
    var m := 0x1_0000_0000_0000_0000;
    assert Wrap64(a) == a % m && Wrap64(Wrap64(a) + b) == (a % m + b) % m && Wrap64(a + b) == (a + b) % m;
  }

  function Min(a: int, b: int): int {
    if a < b then a else b
  }

  datatype Option<+T> = None | Some(value: T)

  datatype ErrorCode =
    | BodyRefUnavailable
    | TimeoutExceeded
    | UpstreamReset
    | UnsupportedIngressMode
    | OtherCode(code: nat)

  datatype ErrorInfo = ErrorInfo(code: ErrorCode, fact: string)

  datatype RequestMode = DecodedHttp | RawTunnel | OtherMode(mode: nat)

  datatype RequestHead = RequestHead(mode: RequestMode, url: string)

  datatype S3Ref = S3Ref(signedUrl: string, objectKey: string, expiresUnixMs: int)

  datatype Reference = Reference(s3: Option<S3Ref>, expectedSize: U64, sha256Hex: string)

  datatype Payload =
    | NoPayload
    | RequestStart(head: RequestHead)
    | Data(offset: U64, data: seq<Byte>)
    | BodyRef(ref: Reference)
    | Credit(uploadBytes: U64, downloadBytes: U64)
    | Cancel(cancelReason: string)
    | OutboundStart(targetHost: string, targetPort: U32)
    | ResponseStart(status: U32)
    | End(success: bool)
    | Error(info: ErrorInfo)
    | Cancelled(reason: string)
  {
    predicate IsTerminal() {
      End? || Error? || Cancelled?
    }
  }

  // NilFrame stands for the nil that an undecodable message yields.
  datatype Frame = NilFrame | Frame(streamSeq: U64, attempt: U32, payload: Payload)
  {
    predicate HasPayload() {
      Frame? && !payload.NoPayload?
    }

    predicate IsData() {
      Frame? && payload.Data?
    }

    predicate IsBodyRef() {
      Frame? && payload.BodyRef?
    }

    predicate IsTerminal() {
      Frame? && payload.IsTerminal()
    }

    predicate IsEnd() {
      Frame? && payload.End?
    }

    // The body bytes a frame carries; empty for every payload but Data.
    function Bytes(): seq<Byte> {
      if IsData() then payload.data else []
    }
  }

  lemma SeqAssoc<T>(a: seq<T>, b: seq<T>, c: seq<T>)
    ensures a + (b + c) == (a + b) + c
  {
  }

  ghost predicate HasTerminal(frames: seq<Frame>) {
    exists i :: 0 <= i < |frames| && frames[i].IsTerminal()
  }

  lemma HasTerminalSnoc(frames: seq<Frame>, f: Frame)
    ensures HasTerminal(frames + [f]) <==> HasTerminal(frames) || f.IsTerminal()
  {
    var longer := frames + [f];
    if HasTerminal(frames) {
      var i :| 0 <= i < |frames| && frames[i].IsTerminal();
      assert longer[i].IsTerminal();
    }
    if f.IsTerminal() {
      assert longer[|frames|].IsTerminal();
    }
  }

  // The Data payloads of `frames`, concatenated in order.
  function DataBytes(frames: seq<Frame>): (bytes: seq<Byte>) {
    if frames == [] then []
    else DataBytes(frames[..|frames| - 1]) + frames[|frames| - 1].Bytes()
  }

  lemma DataBytesSnoc(frames: seq<Frame>, f: Frame)
    ensures DataBytes(frames + [f]) == DataBytes(frames) + f.Bytes()
  {
    assert (frames + [f])[..|frames|] == frames;
  }

  lemma DataBytesUpTo(frames: seq<Frame>, i: nat)
    requires i < |frames|
    ensures DataBytes(frames[..i + 1]) == DataBytes(frames[..i]) + frames[i].Bytes()
  {
    assert frames[..i + 1] == frames[..i] + [frames[i]];
    DataBytesSnoc(frames[..i], frames[i]);
  }

  lemma {:induction false} DataBytesConcat(a: seq<Frame>, b: seq<Frame>)
    ensures DataBytes(a + b) == DataBytes(a) + DataBytes(b)
  {
    if b == [] {
      assert a + b == a;
    } else {
      var init := b[..|b| - 1];
      DataBytesConcat(a, init);
      var last := b[|b| - 1];
      assert a + b == (a + init) + [last];
      DataBytesSnoc(a + init, last);
      SeqAssoc(DataBytes(a), DataBytes(init), last.Bytes());
    }
  }

  lemma DataBytesMonotone(frames: seq<Frame>, i: nat)
    requires i <= |frames|
    ensures DataBytes(frames[..i]) <= DataBytes(frames)
  {
    assert frames == frames[..i] + frames[i..];
    DataBytesConcat(frames[..i], frames[i..]);
  }

  lemma {:induction false} DataBytesThrough(frames: seq<Frame>, i: nat)
    requires i < |frames|
    ensures DataBytes(frames[..i]) + frames[i].Bytes() <= DataBytes(frames)
  {
    var n := |frames| - 1;
    if i == n {
    } else {
      DataBytesThrough(frames[..n], i);
      assert frames[..n][..i] == frames[..i];
    }
  }
}
