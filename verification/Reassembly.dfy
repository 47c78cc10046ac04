/** Collecting chunks in any order, with repeats, and checking what they make up. */
module Reassembly {
  import opened Bits
  import opened Options
  import opened Segments
  import opened QrPackets
  import opened Fragmentation

  const PACKET_FAILED := -101
  const INVALID_DATA := -105

  /** Chunks collected since the header last changed. */
  datatype Buffer = Buffer(msgType: nat, total: nat, client: nat, chunks: map<nat, Bytes>)

  /** The packet that they are put together to; index says how many there are, less one. */
  datatype Merged = Merged(msgType: nat, total: nat, index: nat, flag: nat, client: nat, data: Option<Bytes>)

  const EMPTY_BUFFER := Buffer(0, 0, 0, map[])
  const EMPTY_MERGED := Merged(0, 0, 0, 0, 0, None)

  /** How many of the first n chunks are there. */
  function Present(chunks: map<nat, Bytes>, n: nat): (k: nat)
    ensures k <= n && (k == n <==> forall i :: 0 <= i < n ==> i in chunks)
  {
    if n == 0 then 0 else Present(chunks, n - 1) + (if n - 1 in chunks then 1 else 0)
  }

  /** The first n chunks in order. */
  function InOrder(chunks: map<nat, Bytes>, n: nat): Bytes
    requires forall i :: 0 <= i < n ==> i in chunks
  {
    if n == 0 then [] else InOrder(chunks, n - 1) + chunks[n - 1]
  }

  predicate HeaderChanged(b: Buffer, p: Packet) {
    b.total == 0 || p.client != b.client || p.msgType != b.msgType || p.total != b.total
  }

  /** The chunks after p has come in: those before it go when the header has changed. */
  function WithChunk(b: Buffer, p: Packet): (r: Buffer)
    ensures r.msgType == p.msgType && r.total == p.total && r.client == p.client && p.index in r.chunks
  {
    if HeaderChanged(b, p) then Buffer(p.msgType, p.total, p.client, map[p.index := p.data])
    else b.(chunks := b.chunks[p.index := p.data])
  }

  /** All chunks are there. */
  predicate Complete(b: Buffer) {
    forall i :: 0 <= i < b.total ==> i in b.chunks
  }

  /** The fields of a changed header are taken over; flags are also taken from the first chunk whenever it comes. */
  function MergedAfter(b: Buffer, m: Merged, p: Packet): Merged {
    var m' := if HeaderChanged(b, p) then m.(msgType := p.msgType, total := p.total, flag := p.flag, client := p.client) else m;
    var b' := WithChunk(b, p);
    var n := Present(b'.chunks, b'.total);
    m'.(flag := if p.index == 0 then p.flag else m'.flag,
        index := if n > 0 then n - 1 else 0,
        data := if Complete(b') then Some(InOrder(b'.chunks, b'.total)) else m.data)
  }

  /** A message of one packet leaves nothing behind; otherwise the chunks stay. */
  function BufferAfter(b: Buffer, p: Packet): Buffer {
    var b' := WithChunk(b, p);
    if b'.total == 1 then b'.(chunks := map[]) else b'
  }

  // ---- Whole streams of packets ----

  predicate IsPacket(p: Packet) {
    p.index < p.total
  }

  predicate SameHeader(p: Packet, q: Packet) {
    p.msgType == q.msgType && p.client == q.client && p.total == q.total
  }

  /** The packets since the header last changed. */
  function SinceChange(ps: seq<Packet>): seq<Packet> {
    if ps == [] then []
    else
      var front, last := ps[..|ps| - 1], ps[|ps| - 1];
      if front != [] && SameHeader(front[|front| - 1], last) then SinceChange(front) + [last] else [last]
  }

  /** The latest data of every index. */
  function Latest(ps: seq<Packet>): map<nat, Bytes> {
    if ps == [] then map[] else Latest(ps[..|ps| - 1])[ps[|ps| - 1].index := ps[|ps| - 1].data]
  }

  predicate HasIndex(ps: seq<Packet>, i: nat) {
    exists k :: 0 <= k < |ps| && ps[k].index == i
  }

  predicate HasAllIndices(ps: seq<Packet>, n: nat) {
    forall i: nat :: i < n ==> HasIndex(ps, i)
  }

  lemma {:induction false} LatestKeys(ps: seq<Packet>, i: nat)
    ensures i in Latest(ps) <==> HasIndex(ps, i)
  {
    if ps != [] {
      var front, last := ps[..|ps| - 1], ps[|ps| - 1];
      LatestKeys(front, i);
      if i == last.index {
        assert ps[|ps| - 1].index == i;
      } else if HasIndex(ps, i) {
        var k :| 0 <= k < |ps| && ps[k].index == i;
        assert front[k].index == i;
      }
    }
  }

  /** The buffer after a stream of packets, from an empty one. */
  function BufferOf(ps: seq<Packet>): Buffer {
    if ps == [] then EMPTY_BUFFER else BufferAfter(BufferOf(ps[..|ps| - 1]), ps[|ps| - 1])
  }

  lemma SinceChangeAppend(ps: seq<Packet>, p: Packet)
    ensures SinceChange(ps + [p]) == (if ps != [] && SameHeader(ps[|ps| - 1], p) then SinceChange(ps) else []) + [p]
  {
    assert (ps + [p])[..|ps|] == ps;
  }

  lemma LatestAppend(ps: seq<Packet>, p: Packet)
    ensures Latest(ps + [p]) == Latest(ps)[p.index := p.data] && Latest([]) == map[]
  {
    assert (ps + [p])[..|ps|] == ps;
  }

  /** The buffer holds the latest chunk of every index that has come since the header last changed. */
  ghost predicate HoldsLatest(b: Buffer, ps: seq<Packet>) {
    if ps == [] then b.total == 0
    else
      var last := ps[|ps| - 1];
      && b.msgType == last.msgType && b.total == last.total > 0 && b.client == last.client
      && b.chunks == if b.total == 1 then map[] else Latest(SinceChange(ps))
  }

  lemma OneMoreHeld(b: Buffer, ps: seq<Packet>, p: Packet)
    requires HoldsLatest(b, ps) && IsPacket(p)
    ensures HoldsLatest(BufferAfter(b, p), ps + [p])
    ensures p.total > 1 ==> WithChunk(b, p).chunks == Latest(SinceChange(ps + [p]))
  {
    hide Latest, SinceChange;
    SinceChangeAppend(ps, p);
    LatestAppend(if ps != [] && SameHeader(ps[|ps| - 1], p) then SinceChange(ps) else [], p);
    assert (ps + [p])[|ps|] == p;
  }

  lemma {:induction false} BufferMeans(ps: seq<Packet>)
    requires forall k :: 0 <= k < |ps| ==> IsPacket(ps[k])
    ensures HoldsLatest(BufferOf(ps), ps)
  {
    if ps != [] {
      var front, last := ps[..|ps| - 1], ps[|ps| - 1];
      assert IsPacket(last);
      BufferMeans(front);
      hide HoldsLatest, BufferAfter;
      OneMoreHeld(BufferOf(front), front, last);
      assert front + [last] == ps;
    }
  }

  lemma LatestHasLast(ps: seq<Packet>, p: Packet)
    ensures var latest := Latest(SinceChange(ps + [p])); p.index in latest && latest[p.index] == p.data
  {
    SinceChangeAppend(ps, p);
    var before := if ps != [] && SameHeader(ps[|ps| - 1], p) then SinceChange(ps) else [];
    hide SinceChange, SameHeader;
    LatestAppend(before, p);
  }

  lemma TakenIn(b: Buffer, p: Packet)
    ensures p.index in WithChunk(b, p).chunks && WithChunk(b, p).chunks[p.index] == p.data
    ensures IsPacket(p) ==> p.index < p.total
  {
  }

  /** With one more packet the collected chunks are the latest ones, it among them. */
  lemma ChunksAreLatest(ps: seq<Packet>, p: Packet, i: nat)
    requires IsPacket(p) && (forall k :: 0 <= k < |ps| ==> IsPacket(ps[k])) && i < p.total
    ensures var b, latest := WithChunk(BufferOf(ps), p), Latest(SinceChange(ps + [p]));
            (i in b.chunks <==> i in latest) && (i in b.chunks ==> b.chunks[i] == latest[i])
  {
    BufferMeans(ps);
    hide *;
    LatestOfOne(BufferOf(ps), ps, p, i);
  }

  lemma LatestOfOne(b: Buffer, ps: seq<Packet>, p: Packet, i: nat)
    requires HoldsLatest(b, ps) && p.index < p.total && i < p.total
    ensures var chunks, latest := WithChunk(b, p).chunks, Latest(SinceChange(ps + [p]));
            (i in chunks <==> i in latest) && (i in chunks ==> chunks[i] == latest[i])
  {
    hide HoldsLatest, WithChunk, Latest, SinceChange;
    if p.total > 1 {
      OneMoreHeld(b, ps, p);
    } else {
      TakenIn(b, p);
      LatestHasLast(ps, p);
    }
  }

  /**
   A packet completes the message exactly when every index has come since the header last changed, and the result is made
   up of the latest chunk of every index, in order.
   */
  lemma CompletionMeans(ps: seq<Packet>, p: Packet)
    requires IsPacket(p) && forall k :: 0 <= k < |ps| ==> IsPacket(ps[k])
    ensures var b, since := WithChunk(BufferOf(ps), p), SinceChange(ps + [p]);
            && b.total == p.total && (Complete(b) <==> HasAllIndices(since, p.total))
            && (Complete(b) ==> (forall i :: 0 <= i < p.total ==> i in Latest(since))
                                && InOrder(b.chunks, p.total) == InOrder(Latest(since), p.total))
  {
    hide WithChunk, SinceChange, Latest, BufferOf, HasIndex;
    var b, since := WithChunk(BufferOf(ps), p), SinceChange(ps + [p]);
    HeaderOf(BufferOf(ps), p);
    forall i: nat | i < p.total
      ensures i in b.chunks <==> HasIndex(since, i)
      ensures i in b.chunks <==> i in Latest(since)
      ensures i in b.chunks ==> b.chunks[i] == Latest(since)[i]
    {
      ChunksAreLatest(ps, p, i);
      LatestKeys(since, i);
    }
    if Complete(b) {
      InOrderSame(b.chunks, Latest(since), p.total);
    }
  }

  lemma HeaderOf(b: Buffer, p: Packet)
    ensures WithChunk(b, p).total == p.total
  {
  }

  lemma {:induction false} InOrderSame(a: map<nat, Bytes>, b: map<nat, Bytes>, n: nat)
    requires forall i :: 0 <= i < n ==> i in a && i in b && a[i] == b[i]
    ensures InOrder(a, n) == InOrder(b, n)
  {
    if n > 0 {
      InOrderSame(a, b, n - 1);
    }
  }

  /** What the progress that is shown counts: the different indices that have come since the header last changed, less one. */
  lemma ProgressMeans(ps: seq<Packet>, p: Packet, m: Merged)
    requires IsPacket(p) && forall k :: 0 <= k < |ps| ==> IsPacket(ps[k])
    ensures MergedAfter(BufferOf(ps), m, p).index + 1 == |set i: nat | i < p.total && HasIndex(SinceChange(ps + [p]), i)|
  {
    hide SinceChange, Latest, BufferOf, HasIndex;
    var b, since := WithChunk(BufferOf(ps), p), SinceChange(ps + [p]);
    forall i: nat | i < p.total ensures i in b.chunks <==> HasIndex(since, i) {
      ChunksAreLatest(ps, p, i);
      LatestKeys(since, i);
    }
    PresentCounts(b.chunks, p.total);
    var come := set i: nat | i < p.total && i in b.chunks;
    assert come == set i: nat | i < p.total && HasIndex(since, i);
    assert p.index in come && |come| == |come - {p.index}| + 1;
  }

  lemma {:induction false} PresentCounts(chunks: map<nat, Bytes>, n: nat)
    ensures Present(chunks, n) == |set i: nat | i < n && i in chunks|
  {
    if n == 0 {
      assert (set i: nat | i < 0 && i in chunks) == {};
    } else {
      PresentCounts(chunks, n - 1);
      var before := set i: nat | i < n - 1 && i in chunks;
      assert (set i: nat | i < n && i in chunks) == if n - 1 in chunks then before + {n - 1} else before;
    }
  }

  // ---- Decrypting and checking ----

  /** Bytes before the digest that closes a message of several packets. */
  function BodyLength(m: Merged): int
    requires m.data.Some?
  {
    if m.total > 1 then |m.data.value| - HASH_CHECK_LENGTH else |m.data.value|
  }

  /** The packet decrypted, if it was encrypted; the digest is not. */
  function Decrypt(c: Crypto, m: Merged, key: Option<Bytes>): Option<Merged> {
    if key.None? || m.data.None? then None
    else if !IsEncrypted(m.flag) then Some(m)
    else if m.total > 1 && BodyLength(m) <= 0 then None
    else
      var n := BodyLength(m);
      Some(m.(data := Some(c.decrypt(key.value, m.data.value[..n]) + m.data.value[n..]), flag := m.flag - 1))
  }

  /** A message of several packets must end with its own digest. */
  predicate Verify(c: Crypto, m: Merged)
    requires m.data.Some?
  {
    m.total <= 1 || (BodyLength(m) > 0 && m.data.value[BodyLength(m)..] == Check(c, m.data.value[..BodyLength(m)]))
  }

  /** What the application gets. */
  function Payload(m: Merged): Bytes
    requires m.data.Some?
  {
    if BodyLength(m) < 0 then [] else m.data.value[..BodyLength(m)]
  }

  // ---- There and back ----

  /** The packets of a message, by index. */
  function PacketOf(memory: Bytes, digest: Bytes, size: nat, maxSize: nat, msgType: nat, flag: nat, client: nat, i: nat): Packet
    requires maxSize >= MIN_CHUNK_SIZE && size <= |memory| && i < Total(size, maxSize)
    requires Fragmentation.Offset(size, maxSize, Total(size, maxSize) - 1) <= |memory|
  {
    Packet(msgType, Total(size, maxSize), i, flag, client, ChunkData(memory, digest, size, maxSize, i))
  }

  /** Every packet of a message can be sent and received. */
  lemma PacketsDecode(c: Crypto, memory: Bytes, digest: Bytes, size: nat, maxSize: nat, msgType: nat, flag: nat, client: nat, i: nat)
    requires Sound(c) && MIN_CHUNK_SIZE <= maxSize <= 0x10001 && 0 < size <= |memory| && |digest| == HASH_CHECK_LENGTH
    requires i < Total(size, maxSize) < MAX_BUFFER
    requires Fragmentation.Offset(size, maxSize, Total(size, maxSize) - 1) <= |memory|
    requires msgType < 256 && flag < 256 && client < 256
    ensures var p := PacketOf(memory, digest, size, maxSize, msgType, flag, client, i);
            IsBinPacket(PacketBytes(c, p)) && DecodePacket(c, PacketBytes(c, p)) == Some(p)
  {
    PacketsFit(memory, digest, size, maxSize, i);
    hide Total, ChunkData, Fragmentation.Offset, DecodePacket, PacketBytes, IsBinPacket, Sound;
    var p := PacketOf(memory, digest, size, maxSize, msgType, flag, client, i);
    DecodeOfPacket(c, p);
    DecodedIsBin(c, PacketBytes(c, p));
  }

  lemma DecodedIsBin(c: Crypto, raw: Bytes)
    ensures DecodePacket(c, raw).Some? ==> IsBinPacket(raw)
  {
    hide Check;
  }

  /** The chunks whose index is in order, and no others. */
  ghost predicate HasExactly(b: Buffer, memory: Bytes, digest: Bytes, size: nat, maxSize: nat, msgType: nat, client: nat, order: seq<nat>)
    requires maxSize >= MIN_CHUNK_SIZE && size <= |memory|
    requires Fragmentation.Offset(size, maxSize, Total(size, maxSize) - 1) <= |memory|
  {
    && b.msgType == msgType && b.total == Total(size, maxSize) && b.client == client
    && forall i: nat | i < Total(size, maxSize) ::
         (i in b.chunks <==> i in order) && (i in b.chunks ==> b.chunks[i] == ChunkData(memory, digest, size, maxSize, i))
  }

  /** One more packet of a message of several packets, whatever its place in the order. */
  lemma NextOfMessage(b: Buffer, m: Merged, memory: Bytes, digest: Bytes, size: nat, maxSize: nat, msgType: nat, flag: nat, client: nat,
                      order: seq<nat>, i: nat)
    requires maxSize >= MIN_CHUNK_SIZE && size <= |memory| && i < Total(size, maxSize)
    requires Fragmentation.Offset(size, maxSize, Total(size, maxSize) - 1) <= |memory|
    requires if order == [] then b.total == 0 else HasExactly(b, memory, digest, size, maxSize, msgType, client, order)
    ensures var p := PacketOf(memory, digest, size, maxSize, msgType, flag, client, i);
            HasExactly(WithChunk(b, p), memory, digest, size, maxSize, msgType, client, order + [i])
  {
    hide Total, ChunkData, Fragmentation.Offset;
    var p := PacketOf(memory, digest, size, maxSize, msgType, flag, client, i);
    forall k: nat | k < Total(size, maxSize)
      ensures k in order + [i] <==> k in order || k == i
    {
    }
  }

  /** All indices have come. */
  predicate Covers(order: seq<nat>, n: nat) {
    forall i: nat :: i < n ==> i in order
  }

  /** When all have come, and not before, the message is complete, and what is put together is all chunks in order. */
  lemma CompleteWhenCovered(b: Buffer, memory: Bytes, digest: Bytes, size: nat, maxSize: nat, msgType: nat, client: nat, order: seq<nat>)
    requires maxSize >= MIN_CHUNK_SIZE && size <= |memory|
    requires Fragmentation.Offset(size, maxSize, Total(size, maxSize) - 1) <= |memory|
    requires HasExactly(b, memory, digest, size, maxSize, msgType, client, order)
    ensures Complete(b) <==> Covers(order, Total(size, maxSize))
    ensures Complete(b) ==> InOrder(b.chunks, b.total) == Joined(memory, digest, size, maxSize, Total(size, maxSize))
  {
    hide Total, ChunkData, Fragmentation.Offset, Joined;
    if Complete(b) {
      InOrderIsJoined(b, memory, digest, size, maxSize, b.total);
    }
  }

  lemma {:induction false} InOrderIsJoined(b: Buffer, memory: Bytes, digest: Bytes, size: nat, maxSize: nat, k: nat)
    requires maxSize >= MIN_CHUNK_SIZE && size <= |memory| && k <= Total(size, maxSize)
    requires Fragmentation.Offset(size, maxSize, Total(size, maxSize) - 1) <= |memory|
    requires forall i: nat | i < k :: i in b.chunks && b.chunks[i] == ChunkData(memory, digest, size, maxSize, i)
    ensures InOrder(b.chunks, k) == Joined(memory, digest, size, maxSize, k)
  {
    hide Total, ChunkData, Fragmentation.Offset;
    if k > 0 {
      InOrderIsJoined(b, memory, digest, size, maxSize, k - 1);
    }
  }

  /**
   What is put together, decrypted with the right key, checks out and is the message, whenever cutting it stayed inside; and
   otherwise what the application gets is something else.
   */
  lemma MessageComesBack(c: Crypto, m: Merged, message: Bytes, behind: Bytes, maxSize: nat, flag: nat, key: Bytes)
    requires Sound(c) && maxSize >= MIN_CHUNK_SIZE && message != []
    requires var size := |message|; var memory := Sent(c, message, flag, key) + behind;
             && Fragmentation.Offset(size, maxSize, Total(size, maxSize) - 1) <= |message| + |behind|
             && m.data == Some(Joined(memory, Check(c, message), size, maxSize, Total(size, maxSize)))
             && m.total == Total(size, maxSize) && m.flag == flag
    ensures Decrypt(c, m, Some(key)).Some? && Decrypt(c, m, Some(key)).value.data.Some?
    ensures StaysInside(|message|, maxSize) ==>
              Verify(c, Decrypt(c, m, Some(key)).value) && Payload(Decrypt(c, m, Some(key)).value) == message
    ensures !StaysInside(|message|, maxSize) ==> Payload(Decrypt(c, m, Some(key)).value) != message
  {
    hide *;
    var size, memory, digest := |message|, Sent(c, message, flag, key) + behind, Check(c, message);
    SentLength(c, message, flag, key);
    CheckLength(c, message);
    TakeDrop(Sent(c, message, flag, key), behind);
    TotalPositive(size, maxSize);
    if Total(size, maxSize) == 1 {
      WholeIsJoined(memory, digest, size, maxSize);
      OneComesBack(c, m, message, flag, key);
    } else {
      JoinedIsMessage(memory, digest, size, maxSize);
      JoinedLength(memory, digest, size, maxSize);
      SeveralComeBack(c, m, message, flag, key, digest, StaysInside(size, maxSize));
    }
  }

  lemma TotalPositive(size: nat, maxSize: nat)
    requires maxSize >= MIN_CHUNK_SIZE
    ensures Total(size, maxSize) >= 1
  {
  }

  lemma OneComesBack(c: Crypto, m: Merged, message: Bytes, flag: nat, key: Bytes)
    requires Sound(c) && m.total == 1 && m.flag == flag && m.data == Some(Sent(c, message, flag, key)) && message != []
    ensures Decrypt(c, m, Some(key)).Some? && Decrypt(c, m, Some(key)).value.data.Some?
    ensures Verify(c, Decrypt(c, m, Some(key)).value) && Payload(Decrypt(c, m, Some(key)).value) == message
  {
    hide Check;
    SentLength(c, message, flag, key);
    var data := m.data.value;
    assert data[|message|..] == [] && data[..|message|] == data;
  }

  lemma SeveralComeBack(c: Crypto, m: Merged, message: Bytes, flag: nat, key: Bytes, digest: Bytes, inside: bool)
    requires Sound(c) && m.total > 1 && m.flag == flag && m.data.Some? && message != []
    requires digest == Check(c, message) && |digest| == HASH_CHECK_LENGTH
    requires m.data.value == Sent(c, message, flag, key) + digest <==> inside
    requires |m.data.value| >= |message| + |digest| && (|m.data.value| == |message| + |digest| <==> inside)
    ensures Decrypt(c, m, Some(key)).Some? && Decrypt(c, m, Some(key)).value.data.Some?
    ensures inside ==> Verify(c, Decrypt(c, m, Some(key)).value) && Payload(Decrypt(c, m, Some(key)).value) == message
    ensures !inside ==> Payload(Decrypt(c, m, Some(key)).value) != message
  {
    hide Check;
    SentLength(c, message, flag, key);
    var n := BodyLength(m);
    if inside {
      TakeDrop(Sent(c, message, flag, key), digest);
      TakeDrop(message, digest);
      assert n == |message|;
    } else {
      assert n > |message| && |c.decrypt(key, m.data.value[..n])| == n;
    }
  }

  lemma WholeIsJoined(memory: Bytes, digest: Bytes, size: nat, maxSize: nat)
    requires maxSize >= MIN_CHUNK_SIZE && size <= |memory| && Total(size, maxSize) == 1
    requires Fragmentation.Offset(size, maxSize, Total(size, maxSize) - 1) <= |memory|
    ensures Joined(memory, digest, size, maxSize, 1) == memory[..size] && StaysInside(size, maxSize)
  {
    assert Joined(memory, digest, size, maxSize, 0) == [];
  }

  class MergeBuffer {
    var msgType: nat
    var total: nat
    var client: nat
    const chunks: array<Option<Bytes>>

    ghost predicate Valid()
      reads this, chunks
    {
      && chunks.Length == MAX_BUFFER && total < MAX_BUFFER
      && forall i :: total <= i < MAX_BUFFER ==> chunks[i] == None
    }

    ghost function Contents(): Buffer
      reads this, chunks
    {
      Buffer(msgType, total, client, map i: nat | i < chunks.Length && chunks[i].Some? :: chunks[i].value)
    }

    constructor ()
      ensures Valid() && Contents() == EMPTY_BUFFER && fresh(chunks)
    {
      msgType, total, client := 0, 0, 0;
      chunks := new Option<Bytes>[MAX_BUFFER](_ => None);
    }

    /** Drops the chunks up to the total, and the header. */
    method Clear()
      requires Valid()
      modifies this, chunks
      ensures Valid() && Contents() == EMPTY_BUFFER
    {
      for i := 0 to total
        invariant total == old(total) && chunks.Length == MAX_BUFFER
        invariant forall k :: 0 <= k < i || total <= k < MAX_BUFFER ==> chunks[k] == None
      {
        chunks[i] := None;
      }
      msgType, total, client := 0, 0, 0;
    }

    /**
     Takes a packet in. 0 when all chunks are there, 1 when some are missing, less when it is no packet; merged is the
     packet that is put together.
     */
    method Merge(c: Crypto, merged: Merged, raw: Bytes) returns (code: int, r: Merged)
      requires Valid()
      modifies this, chunks
      ensures Valid()
      ensures !IsBinPacket(raw) ==> code == INVALID_DATA && r == merged && Contents() == old(Contents())
      ensures IsBinPacket(raw) && DecodePacket(c, raw) == None ==>
                code == PACKET_FAILED && r == merged && Contents() == old(Contents())
      ensures IsBinPacket(raw) && DecodePacket(c, raw).Some? ==>
                var p := DecodePacket(c, raw).value;
                && code == (if Complete(WithChunk(old(Contents()), p)) then 0 else 1)
                && r == MergedAfter(old(Contents()), merged, p)
                && Contents() == BufferAfter(old(Contents()), p)
    {
      if !IsBinPacket(raw) {
        return INVALID_DATA, merged;
      }
      var qr := DecodePacket(c, raw);
      if qr == None {
        return PACKET_FAILED, merged;
      }
      DecodedIsChecked(c, raw);
      hide *;
      code, r := MergePacket(merged, qr.value);
    }

    method MergePacket(merged: Merged, p: Packet) returns (code: int, r: Merged)
      requires Valid() && p.index < p.total < MAX_BUFFER
      modifies this, chunks
      ensures Valid() && code == (if Complete(WithChunk(old(Contents()), p)) then 0 else 1)
      ensures r == MergedAfter(old(Contents()), merged, p)
      ensures Contents() == BufferAfter(old(Contents()), p)
    {
      ghost var b := Contents();
      r := merged;
      var changed := TakeIn(p);
      if changed {
        r := r.(msgType := p.msgType, total := p.total, flag := p.flag, client := p.client);
      }
      if p.index == 0 {
        r := r.(flag := p.flag);
      }
      hide HeaderChanged, WithChunk, InOrder;
      var items := CountChunks();
      r := r.(index := if items > 0 then items - 1 else 0);
      if items < total {
        return 1, r;
      }
      var data := JoinChunks();
      if total == 1 {
        Forget();
      }
      r := r.(data := Some(data));
      code := 0;
    }

    /** Drops what was collected when the header has changed, and puts the chunk in its place. */
    method TakeIn(p: Packet) returns (changed: bool)
      requires Valid() && p.index < p.total < MAX_BUFFER
      modifies this, chunks
      ensures Valid() && changed == HeaderChanged(old(Contents()), p) && Contents() == WithChunk(old(Contents()), p)
    {
      changed := total == 0 || p.client != client || p.msgType != msgType || p.total != total;
      ghost var b := Contents();
      if changed {
        Clear();
        msgType, total, client := p.msgType, p.total, p.client;
      }
      ghost var before := Contents().chunks;
      chunks[p.index] := Some(p.data);
      assert Contents().chunks == before[p.index := p.data];
    }

    /** The only chunk is handed over. */
    method Forget()
      requires Valid() && total == 1
      modifies chunks
      ensures Valid() && Contents() == old(Contents()).(chunks := map[])
    {
      chunks[0] := None;
      assert Contents().chunks == map[];
    }

    method CountChunks() returns (items: nat)
      requires Valid()
      ensures items == Present(Contents().chunks, total)
    {
      items := 0;
      for i := 0 to total
        invariant items == Present(Contents().chunks, i)
      {
        if chunks[i].Some? {
          items := items + 1;
        }
      }
    }

    method JoinChunks() returns (data: Bytes)
      requires Valid() && Complete(Contents())
      ensures data == InOrder(Contents().chunks, total)
    {
      data := [];
      for i := 0 to total
        invariant data == InOrder(Contents().chunks, i)
      {
        assert i in Contents().chunks;
        data := data + chunks[i].value;
      }
    }
  }
}
