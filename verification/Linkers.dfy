/** One machine's end of the network, and the buffer operations the engine is built from. */
module Linkers {
  import opened Reduction

  datatype Packet<E> = Packet(peer: nat, data: seq<E>)

  /** `inbox` is what the receive calls of this machine return, in program order; `sent` logs what it
      sends. Module Network relates the inboxes of all machines to what the others sent. */
  class Link<E> {
    var inbox: seq<Packet<E>>
    var sent: seq<Packet<E>>

    constructor (incoming: seq<Packet<E>>)
      ensures inbox == incoming && sent == []
    {
      inbox, sent := incoming, [];
    }

    /** A send of no cells sends nothing. */
    method SendTo(dst: nat, buf: array<E>, lo: nat, len: nat)
      requires lo + len <= buf.Length
      modifies this`sent
      ensures sent == old(sent) + Posted(dst, buf[lo..lo + len])
    {
      if len <= 0 {
        return;
      }
      sent := sent + [Packet(dst, buf[lo..lo + len])];
    }

    /** Blocks until len cells have come in from src. */
    method RecvFrom(src: nat, buf: array<E>, lo: nat, len: nat)
      requires lo + len <= buf.Length
      requires |inbox| > 0 && inbox[0].peer == src && |inbox[0].data| == len
      modifies this`inbox, buf
      ensures inbox == old(inbox[1..])
      ensures buf[lo..lo + len] == old(inbox[0].data)
      ensures buf[..lo] == old(buf[..lo]) && buf[lo + len..] == old(buf[lo + len..])
    {
      var data := inbox[0].data;
      inbox := inbox[1..];
      var readCnt := 0;
      while readCnt < len
        invariant readCnt <= len && inbox == old(inbox[1..])
        invariant forall c :: 0 <= c < readCnt ==> buf[lo + c] == data[c]
        invariant forall c :: 0 <= c < lo || lo + len <= c < buf.Length ==> buf[c] == old(buf[c])
      {
        buf[lo + readCnt] := data[readCnt];
        readCnt := readCnt + 1;
      }
    }

    /** The send is posted first and read while the receive is written, so the two ranges must be apart. */
    method SendRecv(dst: nat, sendBuf: array<E>, sendLo: nat, sendLen: nat,
                    src: nat, recvBuf: array<E>, recvLo: nat, recvLen: nat)
      requires sendLo + sendLen <= sendBuf.Length && recvLo + recvLen <= recvBuf.Length
      requires sendBuf == recvBuf ==> sendLo + sendLen <= recvLo || recvLo + recvLen <= sendLo
      requires |inbox| > 0 && inbox[0].peer == src && |inbox[0].data| == recvLen
      modifies this, recvBuf
      ensures sent == old(sent) + [Packet(dst, old(sendBuf[sendLo..sendLo + sendLen]))]
      ensures inbox == old(inbox[1..])
      ensures recvBuf[recvLo..recvLo + recvLen] == old(inbox[0].data)
      ensures recvBuf[..recvLo] == old(recvBuf[..recvLo])
      ensures recvBuf[recvLo + recvLen..] == old(recvBuf[recvLo + recvLen..])
    {
      sent := sent + [Packet(dst, sendBuf[sendLo..sendLo + sendLen])];
      RecvFrom(src, recvBuf, recvLo, recvLen);
    }
  }

  function Posted<E>(dst: nat, data: seq<E>): seq<Packet<E>> {
    if data == [] then [] else [Packet(dst, data)]
  }

  /** memcpy of the first len cells; source and destination may be the same buffer. */
  method CopyPrefix<E>(src: array<E>, lo: nat, dst: array<E>, len: nat)
    requires lo + len <= src.Length && len <= dst.Length
    requires src == dst ==> lo == 0 || len <= lo
    modifies dst
    ensures dst[..len] == old(src[lo..lo + len])
    ensures dst[len..] == old(dst[len..])
  {
    for i := 0 to len
      invariant forall c :: 0 <= c < i ==> dst[c] == old(src[lo + c])
      invariant forall c :: i <= c < dst.Length ==> dst[c] == old(dst[c])
      invariant src != dst ==> src[..] == old(src[..])
    {
      dst[i] := src[lo + i];
    }
  }

  /** The element-wise reducer: cells of src are reduced into cells of dst. */
  method Reduce<E>(op: (E, E) -> E, src: array<E>, srcLo: nat, dst: array<E>, dstLo: nat, len: nat)
    requires srcLo + len <= src.Length && dstLo + len <= dst.Length
    requires src == dst ==> srcLo + len <= dstLo || dstLo + len <= srcLo
    modifies dst
    ensures dst[..] == Combine(op, old(dst[..]), dstLo, old(src[srcLo..srcLo + len]))
  {
    ghost var before, msg := dst[..], src[srcLo..srcLo + len];
    for i := 0 to len
      invariant forall c {:trigger dst[c]} :: dstLo <= c < dstLo + i ==> dst[c] == op(before[c], msg[c - dstLo])
      invariant forall c {:trigger dst[c]} :: 0 <= c < dstLo || dstLo + i <= c < dst.Length ==> dst[c] == before[c]
      invariant src[srcLo..srcLo + len] == msg
    {
      assert src[srcLo + i] == msg[i];
      dst[dstLo + i] := op(dst[dstLo + i], src[srcLo + i]);
    }
    assert dst[..] == Combine(op, before, dstLo, msg);
  }
}
