/**
  The TMX1 binary frame, encoded and decoded by the host (Go) and by the viewer (TypeScript). The header
  travels as JSON; here it is the opaque bytes of that JSON.
 */
module FrameCodec {
  import opened Base

  const MAGIC: seq<byte> := [84, 77, 88, 49] // "TMX1"
  const VERSION: byte := 1
  const PREFIX: nat := 10
  const LIMIT32: int := 0x1_0000_0000

  datatype Frame = Frame(kind: byte, header: seq<byte>, payload: seq<byte>)

  function BigEndian(n: nat): (b: seq<byte>)
    requires n < LIMIT32
    ensures |b| == 4
  {
    [(n / 0x100_0000) as byte, (n / 0x1_0000 % 0x100) as byte, (n / 0x100 % 0x100) as byte, (n % 0x100) as byte]
  }

  function FromBigEndian(b: seq<byte>): (n: nat)
    requires |b| == 4
    ensures n < LIMIT32
  {
    b[0] as int * 0x100_0000 + b[1] as int * 0x1_0000 + b[2] as int * 0x100 + b[3] as int
  }

  lemma BigEndianReadsBack(n: nat)
    requires n < LIMIT32
    ensures FromBigEndian(BigEndian(n)) == n
  {
    var n1, n2, n3 := n / 0x100, n / 0x1_0000, n / 0x100_0000;
    assert n == n1 * 0x100 + n % 0x100;
    assert n1 == n2 * 0x100 + n / 0x100 % 0x100;
    assert n2 == n3 * 0x100 + n / 0x1_0000 % 0x100;
  }

  lemma BigEndianIsOnto(b: seq<byte>)
    requires |b| == 4
    ensures BigEndian(FromBigEndian(b)) == b
  {
    var n := FromBigEndian(b);
    assert n / 0x100 == b[0] as int * 0x1_0000 + b[1] as int * 0x100 + b[2] as int;
    assert n / 0x1_0000 == b[0] as int * 0x100 + b[1] as int;
    assert n / 0x100_0000 == b[0] as int;
  }

  /** The layout both encoders are meant to produce. */
  function Layout(f: Frame): (bytes: seq<byte>)
    requires |f.header| < LIMIT32
    ensures |bytes| == PREFIX + |f.header| + |f.payload|
  {
    MAGIC + [VERSION, f.kind] + BigEndian(|f.header|) + f.header + f.payload
  }

  /** A frame written out: "TMX1", version 1, type 2, the length of the header with its most significant byte first. */
  lemma LayoutWrittenOut(header: seq<byte>, payload: seq<byte>)
    requires |header| == 258
    ensures Layout(Frame(2, header, payload)) == [84, 77, 88, 49, 1, 2, 0, 0, 1, 2] + header + payload
  {
    assert BigEndian(258) == [0, 0, 1, 2];
  }

  /** The parts of a laid-out frame, where the decoders look for them. */
  lemma LayoutParts(f: Frame)
    requires |f.header| < LIMIT32
    ensures var b, n := Layout(f), |f.header|;
            && b[..4] == MAGIC && b[4] == VERSION && b[5] == f.kind
            && b[6..10] == BigEndian(n)
            && b[PREFIX..PREFIX + n] == f.header && b[PREFIX + n..] == f.payload
  {
  }

  // ----- the encoders, filling a buffer in place

  method CopyInto(dst: array<byte>, at: nat, src: seq<byte>)
    requires at + |src| <= dst.Length
    modifies dst
    ensures dst[..] == old(dst[..at]) + src + old(dst[at + |src|..])
  {
    for i := 0 to |src|
      invariant dst[..at] == old(dst[..at])
      invariant dst[at..at + i] == src[..i]
      invariant dst[at + i..] == old(dst[at + i..])
    {
      dst[at + i] := src[i];
      assert dst[at..at + i + 1] == dst[at..at + i] + [src[i]];
      assert src[..i + 1] == src[..i] + [src[i]];
    }
    assert dst[..] == dst[..at] + dst[at..at + |src|] + dst[at + |src|..];
  }

  method PutUint32(dst: array<byte>, at: nat, n: nat)
    requires n < LIMIT32 && at + 4 <= dst.Length
    modifies dst
    ensures dst[..] == old(dst[..at]) + BigEndian(n) + old(dst[at + 4..])
  {
    dst[at] := (n / 0x100_0000) as byte;
    dst[at + 1] := (n / 0x1_0000 % 0x100) as byte;
    dst[at + 2] := (n / 0x100 % 0x100) as byte;
    dst[at + 3] := (n % 0x100) as byte;
  }

  /** Magic, version, type and length first, then header and payload. */
  method FillFrame(buf: array<byte>, f: Frame)
    requires |f.header| < LIMIT32 && buf.Length == PREFIX + |f.header| + |f.payload|
    modifies buf
    ensures buf[..] == Layout(f)
  {
    CopyInto(buf, 0, MAGIC);
    buf[4] := VERSION;
    buf[5] := f.kind;
    PutUint32(buf, 6, |f.header|);
    assert buf[..PREFIX] == MAGIC + [VERSION, f.kind] + BigEndian(|f.header|);
    CopyInto(buf, PREFIX, f.header);
    assert buf[..PREFIX + |f.header|] == MAGIC + [VERSION, f.kind] + BigEndian(|f.header|) + f.header;
    CopyInto(buf, PREFIX + |f.header|, f.payload);
  }

  /** Go. */
  method EncodeBinaryFrame(f: Frame) returns (buf: array<byte>)
    requires |f.header| < LIMIT32
    ensures fresh(buf) && buf[..] == Layout(f)
  {
    buf := new byte[PREFIX + |f.header| + |f.payload|](i => 0);
    FillFrame(buf, f);
  }

  /** TypeScript: the same bytes, from the three parts. */
  method EncodeFrame(kind: byte, header: seq<byte>, payload: seq<byte>) returns (buf: array<byte>)
    requires |header| < LIMIT32
    ensures fresh(buf) && buf[..] == Layout(Frame(kind, header, payload))
  {
    buf := new byte[PREFIX + |header| + |payload|](i => 0);
    FillFrame(buf, Frame(kind, header, payload));
  }

  // ----- the decoders

  datatype Decoded =
    | Accepted(frame: Frame)
    | BadMagic
    | TooShort
    | BadVersion
    | UnknownType
    | Truncated
    | BadHeader
    | Panic // a slice expression out of range

  /** Go. `parses` tells whether the JSON decoder takes the header. The slice bounds `10 + headerLen` are computed
      in 32 bits and wrap; the length check before them is not. */
  function DecodeBinaryFrame(data: seq<byte>, parses: seq<byte> -> bool): Decoded {
    if |data| < PREFIX || data[..4] != MAGIC then BadMagic
    else
      var headerLen := FromBigEndian(data[6..10]);
      if |data| < PREFIX + headerLen then Truncated
      else
        var end := (PREFIX + headerLen) % LIMIT32;
        if end < PREFIX then Panic
        else if !parses(data[PREFIX..end]) then BadHeader
        else Accepted(Frame(data[5], data[PREFIX..end], data[end..]))
  }

  /** TypeScript. `valid` tells whether the header is JSON and passes validateHeader for the frame type. */
  function DecodeFrame(buf: seq<byte>, valid: (byte, seq<byte>) -> bool): Decoded {
    if |buf| < PREFIX then TooShort
    else if buf[..4] != MAGIC then BadMagic
    else if buf[4] != VERSION then BadVersion
    else if buf[5] !in [1, 2, 3] then UnknownType
    else
      var headerLen := FromBigEndian(buf[6..10]);
      var headerEnd := PREFIX + headerLen;
      if headerEnd > |buf| then Truncated
      else if !valid(buf[5], buf[PREFIX..headerEnd]) then BadHeader
      else Accepted(Frame(buf[5], buf[PREFIX..headerEnd], buf[headerEnd..]))
  }

  /** What each decoder complains about, first cause first. */
  lemma ComplaintsExactly(buf: seq<byte>, parses: seq<byte> -> bool, valid: (byte, seq<byte>) -> bool)
    ensures var go := DecodeBinaryFrame(buf, parses); var ts := DecodeFrame(buf, valid);
            var magic := |buf| >= 10 && buf[..4] == [84, 77, 88, 49];
            var known := magic && buf[4] == 1 && (buf[5] == 1 || buf[5] == 2 || buf[5] == 3);
            var cut := |buf| >= 10 && |buf| < 10 + FromBigEndian(buf[6..10]);
            && (go.BadMagic? <==> !magic)
            && (go.Truncated? <==> magic && cut)
            && (ts.TooShort? <==> |buf| < 10)
            && (ts.BadMagic? <==> |buf| >= 10 && !magic)
            && (ts.BadVersion? <==> magic && buf[4] != 1)
            && (ts.UnknownType? <==> magic && buf[4] == 1 && !known)
            && (ts.Truncated? <==> known && cut)
  {
  }

  /** The Go decoder's 32-bit slice bound gives way exactly when the announced header ends past 4 GiB and
      the buffer is long enough to hold it. */
  lemma SliceBoundWrapsExactlyPast4GiB(data: seq<byte>, parses: seq<byte> -> bool)
    ensures DecodeBinaryFrame(data, parses).Panic?
            <==> |data| >= PREFIX && data[..4] == MAGIC
                 && LIMIT32 <= PREFIX + FromBigEndian(data[6..10]) <= |data|
  {
  }

  /** Such a buffer announces the longest header that 32 bits can name, and holds it. */
  lemma SliceBoundWraps(parses: seq<byte> -> bool) returns (data: seq<byte>)
    ensures |data| == PREFIX + LIMIT32 - 1 && DecodeBinaryFrame(data, parses).Panic?
  {
    data := MAGIC + [1, 1, 255, 255, 255, 255] + seq(LIMIT32 - 1, _ => 0);
    assert data[6..10] == [255, 255, 255, 255];
  }

  /** Each decoder inverts both encoders, whenever it takes the header; the Go one only up to the point where its
      slice bound wraps. */
  lemma DecodersInvertEncoders(f: Frame, parses: seq<byte> -> bool, valid: (byte, seq<byte>) -> bool)
    requires |f.header| < LIMIT32
    ensures DecodeBinaryFrame(Layout(f), parses)
            == if PREFIX + |f.header| >= LIMIT32 then Panic
               else if parses(f.header) then Accepted(f)
               else BadHeader
    ensures DecodeFrame(Layout(f), valid)
            == if f.kind !in [1, 2, 3] then UnknownType
               else if valid(f.kind, f.header) then Accepted(f)
               else BadHeader
  {
    LayoutParts(f);
    BigEndianReadsBack(|f.header|);
  }

  /** What one decoder makes of a buffer the other accepts, below 4 GiB: the host disagrees only if its JSON decoder
      does not take the header, the viewer only over version, type and header; when both accept, they see one frame. */
  lemma DecodersAgree(buf: seq<byte>, parses: seq<byte> -> bool, valid: (byte, seq<byte>) -> bool)
    requires |buf| < LIMIT32
    ensures DecodeFrame(buf, valid).Accepted? ==>
              var f := DecodeFrame(buf, valid).frame;
              DecodeBinaryFrame(buf, parses) == if parses(f.header) then Accepted(f) else BadHeader
    ensures DecodeBinaryFrame(buf, parses).Accepted? ==>
              var f := DecodeBinaryFrame(buf, parses).frame;
              DecodeFrame(buf, valid) == if buf[4] != VERSION then BadVersion
                                         else if f.kind !in [1, 2, 3] then UnknownType
                                         else if valid(f.kind, f.header) then Accepted(f)
                                         else BadHeader
  {
  }

  /** Accepted version-1 buffers are re-encoded to themselves. */
  lemma AcceptedBuffersReencode(buf: seq<byte>, parses: seq<byte> -> bool)
    requires DecodeBinaryFrame(buf, parses).Accepted? && buf[4] == VERSION
    ensures var f := DecodeBinaryFrame(buf, parses).frame;
            |f.header| < LIMIT32 && Layout(f) == buf
  {
    var f := DecodeBinaryFrame(buf, parses).frame;
    var n := FromBigEndian(buf[6..10]);
    BigEndianIsOnto(buf[6..10]);
    assert |f.header| == n;
    assert buf == buf[..4] + [buf[4], buf[5]] + buf[6..10] + buf[10..10 + n] + buf[10 + n..];
  }
}
