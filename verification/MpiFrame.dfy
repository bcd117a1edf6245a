/** How a message is laid out in one buffer for MPI. */
module MpiFrame {
  import opened Bytes
  import opened Sequences

  const HEADER_SIZE := 32
  const SIZE_BYTES := 8
  /** The end marker: the largest size_t. */
  const OVER: nat := 0xFFFF_FFFF_FFFF_FFFF

  datatype Message = Message(header: seq<byte>, data: seq<seq<byte>>)

  ghost predicate Sendable(m: Message) {
    && |m.header| == HEADER_SIZE
    && forall i {:trigger m.data[i]} :: 0 <= i < |m.data| ==> |m.data[i]| < OVER
  }

  lemma {:induction false} SizeBound()
    ensures Bound(SIZE_BYTES) == OVER + 1
  {
    assert Bound(2) == 65536;
    assert Bound(4) == 65536 * 65536;
    assert Bound(6) == 256 * Bound(5);
  }

  /** The blobs, each after its size, and the end marker. */
  ghost function Blobs(data: seq<seq<byte>>): seq<byte> {
    if data == [] then Encode(OVER, SIZE_BYTES)
    else Encode(|data[0]|, SIZE_BYTES) + (data[0] + Blobs(data[1..]))
  }

  ghost function Frame(m: Message): seq<byte> {
    m.header + Blobs(m.data)
  }

  /** The size computed beforehand. */
  function SizeOf(data: seq<seq<byte>>): nat {
    if data == [] then SIZE_BYTES else SIZE_BYTES + |data[0]| + SizeOf(data[1..])
  }

  lemma {:induction false} SizeIsRight(data: seq<seq<byte>>)
    ensures |Blobs(data)| == SizeOf(data)
    decreases |data|
  {
    if data == [] {
    } else {
      SizeIsRight(data[1..]);
    }
  }

  ghost function TotalBytes(data: seq<seq<byte>>): nat {
    if data == [] then 0 else |data[0]| + TotalBytes(data[1..])
  }

  /** A frame is 32 bytes of header, 8 for the size of every blob, the blobs, and 8 for the end marker. */
  lemma {:induction false} FrameLength(m: Message)
    requires Sendable(m)
    ensures |Frame(m)| == 32 + 8 * |m.data| + TotalBytes(m.data) + 8
  {
    hide Encode;
    BlobsLength(m.data);
  }

  lemma {:induction false} BlobsLength(data: seq<seq<byte>>)
    ensures |Blobs(data)| == 8 * |data| + TotalBytes(data) + 8
  {
    hide Encode;
    if data == [] {
    } else {
      BlobsLength(data[1..]);
    }
  }

  /** Copy bytes into a buffer. */
  method Copy(buffer: array<byte>, p: nat, s: seq<byte>)
    requires p + |s| <= buffer.Length
    modifies buffer
    ensures At(buffer[..], p, s) && buffer[..p] == old(buffer[..p])
  {
    for i := 0 to |s|
      invariant buffer[..p] == old(buffer[..p]) && buffer[p..p + i] == s[..i]
    {
      buffer[p + i] := s[i];
    }
  }

  /** A blob goes into the buffer behind its size. */
  method PutBlob(buffer: array<byte>, p: nat, s: seq<byte>)
    requires p + SIZE_BYTES + |s| <= buffer.Length && |s| < OVER
    modifies buffer
    ensures buffer[..p + SIZE_BYTES + |s|] == old(buffer[..p]) + Encode(|s|, SIZE_BYTES) + s
  {
    hide Encode;
    ghost var done := buffer[..p];
    Copy(buffer, p, Encode(|s|, SIZE_BYTES));
    ghost var sized := buffer[..p + SIZE_BYTES];
    assert sized == done + Encode(|s|, SIZE_BYTES);
    Copy(buffer, p + SIZE_BYTES, s);
  }

  /** The buffer is filled exactly. */
  method Serialize(m: Message) returns (buffer: array<byte>)
    requires Sendable(m)
    ensures fresh(buffer) && buffer[..] == Frame(m)
  {
    hide Encode, Blobs;
    var size := HEADER_SIZE + SizeOf(m.data);
    buffer := new byte[size](_ => 0);
    SizeIsRight(m.data);
    Copy(buffer, 0, m.header);
    var p := HEADER_SIZE;
    for i := 0 to |m.data|
      invariant 0 <= p <= size == buffer.Length && buffer[..p] + Blobs(m.data[i..]) == Frame(m)
    {
      Unfold(m.data[i..]);
      assert m.data[i..][1..] == m.data[i + 1..];
      ghost var done := buffer[..p];
      var s := m.data[i];
      assert p + SIZE_BYTES + |s| + |Blobs(m.data[i + 1..])| == |Frame(m)| == size;
      PutBlob(buffer, p, s);
      Append4(done, Encode(|s|, SIZE_BYTES), s, Blobs(m.data[i + 1..]));
      p := p + SIZE_BYTES + |s|;
    }
    UnfoldEnd(m.data);
    ghost var done := buffer[..p];
    assert |done| + SIZE_BYTES == |Frame(m)| == size;
    Copy(buffer, p, Encode(OVER, SIZE_BYTES));
    assert buffer[..] == done + Encode(OVER, SIZE_BYTES);
  }

  lemma {:induction false} Unfold(data: seq<seq<byte>>)
    requires data != []
    ensures Blobs(data) == Encode(|data[0]|, SIZE_BYTES) + (data[0] + Blobs(data[1..]))
    ensures |Blobs(data)| >= SIZE_BYTES + |data[0]|
  {
  }

  lemma {:induction false} UnfoldEnd(data: seq<seq<byte>>)
    ensures Blobs(data[|data|..]) == Encode(OVER, SIZE_BYTES)
  {
  }

  /** Read the message back. Receiving an empty blob fails a check; without empty blobs the very message comes out,
      and exactly the bytes written are read. */
  method Deserialize(buffer: array<byte>, ghost sent: Message) returns (m: Message, p: nat, failed: bool)
    requires Sendable(sent) && buffer[..] == Frame(sent)
    ensures failed <==> exists i :: 0 <= i < |sent.data| && sent.data[i] == []
    ensures !failed ==> m == sent && p == buffer.Length
  {
    hide Encode, Blobs, Decode, At, Frame;
    ghost var all := buffer[..];
    FrameParts(sent);
    m := Message(buffer[..HEADER_SIZE], []);
    p := HEADER_SIZE;
    failed := false;
    ghost var k := 0;
    SizeAt(all, p, sent.data);
    var s := Decode(buffer[p..p + SIZE_BYTES]);
    p := p + SIZE_BYTES;
    while s != OVER
      invariant k <= |sent.data| && buffer[..] == all
      invariant m == Message(sent.header, sent.data[..k])
      invariant forall i :: 0 <= i < k ==> sent.data[i] != []
      invariant SIZE_BYTES <= p && At(all, p - SIZE_BYTES, Blobs(sent.data[k..]))
      invariant p - SIZE_BYTES + |Blobs(sent.data[k..])| == |all|
      invariant s == if k < |sent.data| then |sent.data[k]| else OVER
      decreases |sent.data| - k
    {
      if s == 0 {
        failed := true;
        return;
      }
      BlobAt(all, p - SIZE_BYTES, sent.data[k..]);
      assert sent.data[k..][0] == sent.data[k] && sent.data[k..][1..] == sent.data[k + 1..];
      m := m.(data := m.data + [buffer[p..p + s]]);
      p := p + s;
      k := k + 1;
      SizeAt(all, p, sent.data[k..]);
      s := Decode(buffer[p..p + SIZE_BYTES]);
      p := p + SIZE_BYTES;
    }
    assert sent.data[..k] == sent.data;
    UnfoldEnd(sent.data);
  }

  lemma {:induction false} FrameParts(m: Message)
    requires Sendable(m)
    ensures |Frame(m)| == HEADER_SIZE + |Blobs(m.data)|
    ensures Frame(m)[..HEADER_SIZE] == m.header && At(Frame(m), HEADER_SIZE, Blobs(m.data))
  {
    hide Blobs;
    AtConcat(Frame(m), 0, m.header, Blobs(m.data));
  }

  /** At the start of the rest of a frame stands the next blob's size, or the end marker. */
  lemma {:induction false} SizeAt(all: seq<byte>, p: nat, data: seq<seq<byte>>)
    requires At(all, p, Blobs(data))
    requires forall i {:trigger data[i]} :: 0 <= i < |data| ==> |data[i]| < OVER
    ensures p + SIZE_BYTES <= |all|
    ensures Decode(all[p..p + SIZE_BYTES]) == if data == [] then OVER else |data[0]|
  {
    SizeBound();
    var n := if data == [] then OVER else |data[0]|;
    var rest := if data == [] then [] else data[0] + Blobs(data[1..]);
    assert Blobs(data) == Encode(n, SIZE_BYTES) + rest;
    AtConcat(all, p, Encode(n, SIZE_BYTES), rest);
    DecodeEncode(n, SIZE_BYTES);
  }

  lemma {:induction false} BlobAt(all: seq<byte>, p: nat, data: seq<seq<byte>>)
    requires At(all, p, Blobs(data)) && data != []
    ensures var q := p + SIZE_BYTES;
            && q + |data[0]| <= |all| && all[q..q + |data[0]|] == data[0]
            && At(all, q + |data[0]|, Blobs(data[1..]))
            && |Blobs(data)| == SIZE_BYTES + |data[0]| + |Blobs(data[1..])|
  {
    AtConcat(all, p, Encode(|data[0]|, SIZE_BYTES), data[0] + Blobs(data[1..]));
    AtConcat(all, p + SIZE_BYTES, data[0], Blobs(data[1..]));
  }
}
