/** Cutting a message into packets, and what comes out when the chunks are put together again. */
module Fragmentation {
  import opened Arithmetic
  import opened Bits
  import opened Options
  import opened Segments
  import opened QrPackets

  const MIN_CHUNK_SIZE := 32

  function CeilDiv(a: nat, b: nat): nat
    requires b > 0
  {
    (a + b - 1) / b
  }

  /** Data bytes that a packet of the largest size has room for. */
  function Room(maxSize: nat): nat
    requires maxSize >= MIN_CHUNK_SIZE
  {
    maxSize - PREFIX_LENGTH - HEADER_LENGTH - CHUNK_HEADER_LENGTH
  }

  /** Number of packets for a message of the given size. */
  function Total(size: nat, maxSize: nat): (n: nat)
    requires maxSize >= MIN_CHUNK_SIZE
    ensures n >= 1
  {
    CeilDivBounds(size + HASH_CHECK_LENGTH, Room(maxSize));
    if HEADER_LENGTH + size <= maxSize - PREFIX_LENGTH then 1 else CeilDiv(size + HASH_CHECK_LENGTH, Room(maxSize))
  }

  /** Data bytes of every packet but the last: the average, rounded up. */
  function ChunkLength(size: nat, maxSize: nat): nat
    requires maxSize >= MIN_CHUNK_SIZE
  {
    if Total(size, maxSize) <= 1 then size else CeilDiv(size + HASH_CHECK_LENGTH, Total(size, maxSize))
  }

  lemma CeilDivBounds(a: nat, b: nat)
    requires b > 0 && a > 0
    ensures CeilDiv(a, b) >= 1 && b * CeilDiv(a, b) >= a && b * (CeilDiv(a, b) - 1) < a
  {
    var q := CeilDiv(a, b);
    var r := (a + b - 1) % b;
    assert a + b - 1 == b * q + r;
    assert b * (q - 1) == b * q - b;
  }

  /** The number of packets is the least that have room for the message and its digest. */
  lemma TotalIsLeast(size: nat, maxSize: nat, n: nat)
    requires maxSize >= MIN_CHUNK_SIZE && HEADER_LENGTH + size > maxSize - PREFIX_LENGTH
    ensures n * Room(maxSize) >= size + HASH_CHECK_LENGTH <==> n >= Total(size, maxSize)
  {
    var all, room := size + HASH_CHECK_LENGTH, Room(maxSize);
    CeilDivBounds(all, room);
    var q := CeilDiv(all, room);
    if n >= q {
      Mono(room, q, n);
    } else {
      Mono(room, n, q - 1);
    }
  }

  /** A chunk of the average length fits; all of them together hold the message and the digest. */
  lemma LengthsFit(size: nat, maxSize: nat)
    requires maxSize >= MIN_CHUNK_SIZE && HEADER_LENGTH + size > maxSize - PREFIX_LENGTH
    ensures var n, len := Total(size, maxSize), ChunkLength(size, maxSize);
            && n >= 2 && 0 < len <= Room(maxSize) && n * len >= size + HASH_CHECK_LENGTH
  {
    var room, all := Room(maxSize), size + HASH_CHECK_LENGTH;
    CeilDivBounds(all, room);
    var n := Total(size, maxSize);
    assert n == CeilDiv(all, room);
    assert room * 1 == room < all;
    assert n >= 2;
    CeilDivBounds(all, n);
    var len := ChunkLength(size, maxSize);
    assert len == CeilDiv(all, n);
    assert n * (len - 1) < n * room;
    if len > room {
      Mono(n, room, len - 1);
      assert false;
    }
  }

  /** Where chunk i starts. */
  function Offset(size: nat, maxSize: nat, i: nat): nat
    requires maxSize >= MIN_CHUNK_SIZE
  {
    i * ChunkLength(size, maxSize)
  }

  /** The chunks before the last end within the message: what copying them takes for granted. */
  predicate StaysInside(size: nat, maxSize: nat)
    requires maxSize >= MIN_CHUNK_SIZE
  {
    Total(size, maxSize) <= 1 || Offset(size, maxSize, Total(size, maxSize) - 1) <= size
  }

  /** A condition on the number of packets that is enough for it. */
  lemma FewPacketsStayInside(size: nat, maxSize: nat)
    requires maxSize >= MIN_CHUNK_SIZE && HEADER_LENGTH + size > maxSize - PREFIX_LENGTH
    requires var n := Total(size, maxSize);
             (n - 1) * (n - 1) + HASH_CHECK_LENGTH * n <= size + HASH_CHECK_LENGTH
    ensures StaysInside(size, maxSize)
  {
    LengthsFit(size, maxSize);
    var n, len := Total(size, maxSize), ChunkLength(size, maxSize);
    CeilDivBounds(size + HASH_CHECK_LENGTH, n);
    EnoughBytes(n, len, size);
  }

  lemma EnoughBytes(n: nat, len: nat, size: nat)
    requires n >= 2 && len > 0 && n * (len - 1) < size + 4 && (n - 1) * (n - 1) + 4 * n <= size + 4
    ensures (n - 1) * len <= size
  {
    if (n - 1) * len > size {
      calc {
        n * size;
      <=
        n * ((n - 1) * len - 1);
      ==
        (n - 1) * (n * (len - 1)) + (n - 1) * n - n;
      <=  { Mono(n - 1, n * (len - 1), size + 3); }
        (n - 1) * (size + 3) + (n - 1) * n - n;
      }
      assert false;
    }
  }

  /** It is not always so: 269 bytes go into 16 packets of at most 32 bytes, of which the first 15 take 18 each, 270 in all. */
  lemma SmallPacketsOverrun()
    ensures Total(269, MIN_CHUNK_SIZE) == 16 && ChunkLength(269, MIN_CHUNK_SIZE) == 18 && !StaysInside(269, MIN_CHUNK_SIZE)
  {
  }

  // ---- The chunks ----

  /** Data of chunk i, given the message as it lies in memory with whatever follows it. */
  function ChunkData(memory: Bytes, digest: Bytes, size: nat, maxSize: nat, i: nat): Bytes
    requires maxSize >= MIN_CHUNK_SIZE && size <= |memory| && i < Total(size, maxSize)
    requires Offset(size, maxSize, Total(size, maxSize) - 1) <= |memory|
  {
    var n, len := Total(size, maxSize), ChunkLength(size, maxSize);
    if n == 1 then memory[..size]
    else if i == n - 1 then (if size > Offset(size, maxSize, i) then memory[Offset(size, maxSize, i)..size] else []) + digest
    else
      ChunkInside(size, maxSize, i);
      memory[Offset(size, maxSize, i)..Offset(size, maxSize, i) + len]
  }

  lemma ChunkInside(size: nat, maxSize: nat, i: nat)
    requires maxSize >= MIN_CHUNK_SIZE && i + 1 < Total(size, maxSize)
    ensures Offset(size, maxSize, i) + ChunkLength(size, maxSize) == Offset(size, maxSize, i + 1)
    ensures Offset(size, maxSize, i + 1) <= Offset(size, maxSize, Total(size, maxSize) - 1)
  {
    var len := ChunkLength(size, maxSize);
    assert (i + 1) * len == i * len + len;
    Mono(len, i + 1, Total(size, maxSize) - 1);
  }

  lemma ChunkIs(memory: Bytes, digest: Bytes, size: nat, maxSize: nat, i: nat)
    requires maxSize >= MIN_CHUNK_SIZE && size <= |memory| && i < Total(size, maxSize)
    requires Offset(size, maxSize, Total(size, maxSize) - 1) <= |memory|
    ensures var n, len, offset := Total(size, maxSize), ChunkLength(size, maxSize), Offset(size, maxSize, i);
            && (n > 1 && i < n - 1 ==> offset + len == Offset(size, maxSize, i + 1) <= |memory|)
            && ChunkData(memory, digest, size, maxSize, i) ==
               if n == 1 then memory[..size]
               else if i == n - 1 then (if size > offset then memory[offset..size] + digest else digest)
               else memory[offset..offset + len]
    ensures ChunkData(memory, digest, size, maxSize, i) == [] ==> size == 0 || digest == []
  {
    if i < Total(size, maxSize) - 1 {
      ChunkInside(size, maxSize, i);
    }
    hide Total, ChunkLength, Offset;
    assert [] + digest == digest;
  }

  /** The first k chunks, put together. */
  function Joined(memory: Bytes, digest: Bytes, size: nat, maxSize: nat, k: nat): Bytes
    requires maxSize >= MIN_CHUNK_SIZE && size <= |memory| && k <= Total(size, maxSize)
    requires Offset(size, maxSize, Total(size, maxSize) - 1) <= |memory|
  {
    if k == 0 then []
    else Joined(memory, digest, size, maxSize, k - 1) + ChunkData(memory, digest, size, maxSize, k - 1)
  }

  lemma {:induction false} JoinedBeforeLast(memory: Bytes, digest: Bytes, size: nat, maxSize: nat, k: nat)
    requires maxSize >= MIN_CHUNK_SIZE && size <= |memory| && 1 < Total(size, maxSize) && k < Total(size, maxSize)
    requires Offset(size, maxSize, Total(size, maxSize) - 1) <= |memory|
    ensures Offset(size, maxSize, k) <= |memory|
    ensures Joined(memory, digest, size, maxSize, k) == memory[..Offset(size, maxSize, k)]
  {
    OffsetStart(size, maxSize);
    hide Total, ChunkLength, Offset, ChunkData;
    if k == 0 {
      assert memory[..0] == [];
    } else {
      JoinedBeforeLast(memory, digest, size, maxSize, k - 1);
      ChunkIs(memory, digest, size, maxSize, k - 1);
      var a, b := Offset(size, maxSize, k - 1), Offset(size, maxSize, k);
      assert memory[..a] + memory[a..b] == memory[..b];
    }
  }

  lemma JoinedParts(memory: Bytes, digest: Bytes, size: nat, maxSize: nat)
    requires maxSize >= MIN_CHUNK_SIZE && size <= |memory| && 1 < Total(size, maxSize)
    requires Offset(size, maxSize, Total(size, maxSize) - 1) <= |memory|
    ensures var a := Offset(size, maxSize, Total(size, maxSize) - 1);
            && (StaysInside(size, maxSize) <==> a <= size)
            && Joined(memory, digest, size, maxSize, Total(size, maxSize)) ==
               memory[..a] + (if size > a then memory[a..size] + digest else digest)
  {
    var n := Total(size, maxSize);
    JoinedBeforeLast(memory, digest, size, maxSize, n - 1);
    ChunkIs(memory, digest, size, maxSize, n - 1);
    hide Total, ChunkLength, Offset, ChunkData;
  }

  lemma JoinedLength(memory: Bytes, digest: Bytes, size: nat, maxSize: nat)
    requires maxSize >= MIN_CHUNK_SIZE && size <= |memory| && 1 < Total(size, maxSize)
    requires Offset(size, maxSize, Total(size, maxSize) - 1) <= |memory|
    ensures |Joined(memory, digest, size, maxSize, Total(size, maxSize))| >= size + |digest|
    ensures |Joined(memory, digest, size, maxSize, Total(size, maxSize))| == size + |digest| <==> StaysInside(size, maxSize)
  {
    hide *;
    JoinedParts(memory, digest, size, maxSize);
  }

  /** The chunks of several packets make up message and digest exactly when copying them stays inside the message. */
  lemma JoinedIsMessage(memory: Bytes, digest: Bytes, size: nat, maxSize: nat)
    requires maxSize >= MIN_CHUNK_SIZE && size <= |memory| && 1 < Total(size, maxSize)
    requires Offset(size, maxSize, Total(size, maxSize) - 1) <= |memory|
    ensures Joined(memory, digest, size, maxSize, Total(size, maxSize)) == memory[..size] + digest
            <==> StaysInside(size, maxSize)
  {
    hide *;
    JoinedParts(memory, digest, size, maxSize);
    JoinedLength(memory, digest, size, maxSize);
    var a := Offset(size, maxSize, Total(size, maxSize) - 1);
    if a < size {
      Regroup(memory[..a], memory[a..size], digest);
      assert memory[..a] + memory[a..size] == memory[..size];
    }
  }

  /** No packet is larger than allowed. */
  lemma PacketsFit(memory: Bytes, digest: Bytes, size: nat, maxSize: nat, i: nat)
    requires maxSize >= MIN_CHUNK_SIZE && size <= |memory| && i < Total(size, maxSize) && |digest| == HASH_CHECK_LENGTH
    requires Offset(size, maxSize, Total(size, maxSize) - 1) <= |memory|
    ensures PREFIX_LENGTH + HeaderLength(Total(size, maxSize)) + |ChunkData(memory, digest, size, maxSize, i)| <= maxSize
    ensures size > 0 ==> ChunkData(memory, digest, size, maxSize, i) != []
  {
    var n, len := Total(size, maxSize), ChunkLength(size, maxSize);
    Sizes(size, maxSize);
    ChunkIs(memory, digest, size, maxSize, i);
    if HEADER_LENGTH + size > maxSize - PREFIX_LENGTH {
      LengthsFit(size, maxSize);
      hide Total, ChunkLength, ChunkData;
      assert n * len == (n - 1) * len + len;
    }
  }

  // ---- The method ----

  /**
   Packets for a message. memory is where the message lies: its first bytes are the message, or its encryption, and what
   comes behind them does not belong to it.
   */
  ghost predicate ArePackets(c: Crypto, packets: seq<Bytes>, memory: Bytes, digest: Bytes, size: nat, maxSize: nat, msgType: nat,
                             flag: nat, client: nat)
    requires maxSize >= MIN_CHUNK_SIZE && size <= |memory|
    requires Offset(size, maxSize, Total(size, maxSize) - 1) <= |memory|
  {
    && |packets| == Total(size, maxSize)
    && forall i :: 0 <= i < |packets| ==>
         packets[i] == PacketBytes(c, Packet(msgType, |packets|, i, flag, client, ChunkData(memory, digest, size, maxSize, i)))
  }

  /** What is sent for a message: it, or its encryption. */
  function Sent(c: Crypto, message: Bytes, flag: nat, key: Bytes): Bytes {
    if IsEncrypted(flag) then c.encrypt(key, message) else message
  }

  method Split(c: Crypto, message: Bytes, behind: Bytes, msgType: nat, flag: nat, client: nat, key: Bytes, maxSize: nat)
    returns (r: Option<seq<Bytes>>)
    requires Sound(c)
    requires maxSize >= MIN_CHUNK_SIZE ==>
               Offset(|message|, maxSize, Total(|message|, maxSize) - 1) <= |message| + |behind|
    ensures r.None? <==> maxSize < MIN_CHUNK_SIZE || message == []
    ensures r.Some? ==>
              ArePackets(c, r.value, Sent(c, message, flag, key) + behind, Check(c, message), |message|, maxSize, msgType, flag, client)
    ensures r.Some? ==> forall i :: 0 <= i < |r.value| ==> |r.value[i]| <= maxSize
  {
    if maxSize < MIN_CHUNK_SIZE {
      return None;
    }
    var size := |message|;
    Sizes(size, maxSize);
    SentLength(c, message, flag, key);
    CheckLength(c, message);
    hide *;
    var digest := c.sha(message)[..HASH_CHECK_LENGTH];
    var memory := Sent(c, message, flag, key) + behind;
    var room := maxSize - PREFIX_LENGTH;
    var len, total := size, 1;
    if HEADER_LENGTH + size > room {
      len := room - HEADER_LENGTH - CHUNK_HEADER_LENGTH;
      total := (size + HASH_CHECK_LENGTH + len - 1) / len;
      len := (size + HASH_CHECK_LENGTH + total - 1) / total;
    }
    var chunks := new Bytes[total](_ => []);
    var offset := 0;
    OffsetStart(size, maxSize);
    for i := 0 to total
      invariant i < total ==> offset == Offset(size, maxSize, i)
      invariant i > 0 ==> size > 0
      invariant forall k :: 0 <= k < i ==>
        chunks[k] == PacketBytes(c, Packet(msgType, total, k, flag, client, ChunkData(memory, digest, size, maxSize, k)))
    {
      PacketsFit(memory, digest, size, maxSize, i);
      var data;
      data, offset := NextChunk(memory, digest, size, maxSize, total, len, i, offset);
      var packet := EncodePacket(c, data, msgType, flag, client, total, i);
      if packet == None {
        return None;
      }
      chunks[i] := packet.value;
    }
    r := Some(chunks[..]);
    ArePacketsIs(c, chunks[..], memory, digest, size, maxSize, msgType, flag, client);
    SizesOfPackets(c, chunks[..], memory, digest, size, maxSize, msgType, flag, client);
  }

  /** Data of the next packet, and where the one after it starts. */
  method NextChunk(memory: Bytes, digest: Bytes, size: nat, maxSize: nat, total: nat, len: nat, i: nat, offset: nat)
    returns (data: Bytes, next: nat)
    requires maxSize >= MIN_CHUNK_SIZE && size <= |memory| && i < total
    requires total == Total(size, maxSize) && len == ChunkLength(size, maxSize) && offset == Offset(size, maxSize, i)
    requires Offset(size, maxSize, total - 1) <= |memory|
    ensures data == ChunkData(memory, digest, size, maxSize, i)
    ensures i + 1 < total ==> next == Offset(size, maxSize, i + 1)
  {
    hide *;
    ChunkIs(memory, digest, size, maxSize, i);
    next := offset;
    if total == 1 {
      data := memory[..size];
    } else if i == total - 1 {
      if size > offset {
        data := memory[offset..size] + digest;
      } else {
        data := digest;
      }
    } else {
      data := memory[offset..offset + len];
      next := offset + len;
    }
  }

  lemma SentLength(c: Crypto, message: Bytes, flag: nat, key: Bytes)
    requires Sound(c)
    ensures |Sent(c, message, flag, key)| == |message|
  {
  }

  lemma OffsetStart(size: nat, maxSize: nat)
    requires maxSize >= MIN_CHUNK_SIZE
    ensures Offset(size, maxSize, 0) == 0
  {
  }

  /** What the method computes them to be. */
  lemma Sizes(size: nat, maxSize: nat)
    requires maxSize >= MIN_CHUNK_SIZE
    ensures MIN_CHUNK_SIZE == 32 && PREFIX_LENGTH == 2 && HEADER_LENGTH == 10 && CHUNK_HEADER_LENGTH == 2 && HASH_CHECK_LENGTH == 4
    ensures 10 + size <= maxSize - 2 ==> Total(size, maxSize) == 1 && ChunkLength(size, maxSize) == size
    ensures 10 + size > maxSize - 2 ==>
              && Total(size, maxSize) == (size + 4 + (maxSize - 14) - 1) / (maxSize - 14) >= 2
              && ChunkLength(size, maxSize) == (size + 4 + Total(size, maxSize) - 1) / Total(size, maxSize)
  {
    if 10 + size > maxSize - 2 {
      LengthsFit(size, maxSize);
    }
  }

  lemma ArePacketsIs(c: Crypto, packets: seq<Bytes>, memory: Bytes, digest: Bytes, size: nat, maxSize: nat, msgType: nat, flag: nat,
                     client: nat)
    requires maxSize >= MIN_CHUNK_SIZE && size <= |memory| && |packets| == Total(size, maxSize)
    requires Offset(size, maxSize, Total(size, maxSize) - 1) <= |memory|
    requires forall i :: 0 <= i < |packets| ==>
               packets[i] == PacketBytes(c, Packet(msgType, |packets|, i, flag, client, ChunkData(memory, digest, size, maxSize, i)))
    ensures ArePackets(c, packets, memory, digest, size, maxSize, msgType, flag, client)
  {
    hide Total, ChunkLength, Offset, ChunkData, PacketBytes;
  }

  lemma SizesOfPackets(c: Crypto, packets: seq<Bytes>, memory: Bytes, digest: Bytes, size: nat, maxSize: nat, msgType: nat, flag: nat,
                       client: nat)
    requires Sound(c) && maxSize >= MIN_CHUNK_SIZE && size <= |memory| && |digest| == HASH_CHECK_LENGTH
    requires Offset(size, maxSize, Total(size, maxSize) - 1) <= |memory|
    requires ArePackets(c, packets, memory, digest, size, maxSize, msgType, flag, client)
    ensures forall i :: 0 <= i < |packets| ==> |packets[i]| <= maxSize
  {
    hide Total, ChunkLength, Offset, ChunkData, PacketBytes, Sound, HeaderLength;
    forall i | 0 <= i < |packets| ensures |packets[i]| <= maxSize {
      var q := Packet(msgType, |packets|, i, flag, client, ChunkData(memory, digest, size, maxSize, i));
      CheckLength(c, q.data);
      LayoutOfPacket(c, q);
      PacketsFit(memory, digest, size, maxSize, i);
    }
  }
}
