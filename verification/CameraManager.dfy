/** A scan session: previews are started and stopped, and every code that the camera sees comes in once or again and again. */
module ScanSession {
  import opened Bits
  import opened Options
  import opened Segments
  import opened QrPackets
  import opened Fragmentation
  import opened Reassembly

  const UNKNOWN_CLIENT := -102
  const INVALID_HASH_CHECK := -103
  const NOT_MULTI := -201

  /** What is sent to the user interface. */
  datatype Event = Nothing | Chunk(index: nat, total: nat) | Result(packet: Merged) | Failure(code: int)

  datatype Camera = Camera(enabled: bool, last: Option<Bytes>, merged: Merged, buffer: Buffer)

  /** Keys of the clients that are known. */
  type Keys = nat -> Option<Bytes>

  /** A packet that is all there: decrypted when it comes from a client, and checked. */
  function Finished(c: Crypto, keys: Keys, m: Merged): (Merged, Event)
    requires m.data.Some?
  {
    if m.client == 0 then (m, if Verify(c, m) then Result(m) else Failure(INVALID_HASH_CHECK))
    else if keys(m.client) == None then (m, Failure(UNKNOWN_CLIENT))
    else
      match Decrypt(c, m, keys(m.client))
      case None => (m, Failure(PACKET_FAILED))
      case Some(plain) =>
        if plain.data == None then (plain, Failure(PACKET_FAILED))
        else (plain, if Verify(c, plain) then Result(plain) else Failure(INVALID_HASH_CHECK))
  }

  /** What scanning a code does. */
  function Scanned(c: Crypto, keys: Keys, cam: Camera, raw: Bytes): (Camera, Event) {
    if !cam.enabled || cam.last == Some(raw) then (cam, Nothing)
    else
      var seen := cam.(last := Some(raw));
      if IsBinPacket(raw) then
        match DecodePacket(c, raw)
        case None => (seen, Failure(PACKET_FAILED))
        case Some(p) => TakenUp(c, keys, seen, p)
      else if cam.merged.total > 1 then (seen, Failure(NOT_MULTI))
      else
        var (m, e) := Finished(c, keys, EMPTY_MERGED.(total := 1, data := Some(raw)));
        (seen.(merged := m, enabled := !e.Result?), e)
  }

  function TakenUp(c: Crypto, keys: Keys, seen: Camera, p: Packet): (Camera, Event) {
    var m := MergedAfter(seen.buffer, seen.merged, p);
    var now := seen.(buffer := BufferAfter(seen.buffer, p));
    if Complete(WithChunk(seen.buffer, p)) then
      var (m', e) := Finished(c, keys, m);
      (now.(merged := m', enabled := !e.Result?), e)
    else (now.(merged := m), if m.total >= 1 then Chunk(m.index, m.total) else Nothing)
  }

  datatype Action = Start | Stop | Scan(raw: Bytes)

  function Stepped(c: Crypto, keys: Keys, cam: Camera, a: Action): (Camera, Event) {
    match a
    case Start => (Camera(true, None, EMPTY_MERGED, EMPTY_BUFFER), Nothing)
    case Stop => (Camera(false, None, cam.merged, EMPTY_BUFFER), Nothing)
    case Scan(raw) => Scanned(c, keys, cam, raw)
  }

  class CameraManager {
    var enabled: bool
    var last: Option<Bytes>
    var merged: Merged
    const buffer: MergeBuffer

    ghost predicate Valid()
      reads this, buffer, buffer.chunks
    {
      buffer.Valid()
    }

    ghost function State(): Camera
      reads this, buffer, buffer.chunks
    {
      Camera(enabled, last, merged, buffer.Contents())
    }

    constructor ()
      ensures Valid() && State() == Camera(false, None, EMPTY_MERGED, EMPTY_BUFFER) && fresh(buffer) && fresh(buffer.chunks)
    {
      enabled, last, merged := false, None, EMPTY_MERGED;
      buffer := new MergeBuffer();
    }

    method StartPreview()
      requires Valid()
      modifies this, buffer, buffer.chunks
      ensures Valid() && forall c: Crypto, keys: Keys :: State() == Stepped(c, keys, old(State()), Start).0
    {
      ClearDecode(true);
      enabled := true;
    }

    method StopPreview()
      requires Valid()
      modifies this, buffer, buffer.chunks
      ensures Valid() && forall c: Crypto, keys: Keys :: State() == Stepped(c, keys, old(State()), Stop).0
    {
      enabled := false;
      ClearDecode(false);
    }

    /** Forgets what was seen and collected, and the packet too unless it may still be in use. */
    method ClearDecode(packetToo: bool)
      requires Valid()
      modifies this, buffer, buffer.chunks
      ensures Valid() && State() == Camera(old(enabled), None, if packetToo then EMPTY_MERGED else old(merged), EMPTY_BUFFER)
    {
      last := None;
      if packetToo {
        merged := EMPTY_MERGED;
      }
      buffer.Clear();
    }

    method OnQrResult(c: Crypto, keys: Keys, raw: Bytes) returns (e: Event)
      requires Valid()
      modifies this, buffer, buffer.chunks
      ensures Valid() && (State(), e) == Scanned(c, keys, old(State()), raw)
    {
      hide MergedAfter, WithChunk, BufferAfter, Complete, Finished, IsBinPacket, DecodePacket;
      MergedHasData(buffer.Contents(), merged);
      if !enabled {
        return Nothing;
      }
      if last == Some(raw) {
        return Nothing;
      }
      last := Some(raw);
      var finish, code := false, 0;
      if IsBinPacket(raw) {
        code, merged := buffer.Merge(c, merged, raw);
        finish := code == 0;
        if code == 1 {
          code := 0;
        }
      } else if merged.total > 1 {
        code := NOT_MULTI;
      } else {
        finish := true;
        merged := EMPTY_MERGED.(total := 1, data := Some(raw));
      }
      if code != 0 {
        return Failure(code);
      }
      if finish {
        e := Finish(c, keys);
        if e.Result? {
          enabled := false;
        }
      } else {
        e := if merged.total >= 1 then Chunk(merged.index, merged.total) else Nothing;
      }
    }

    /** Decrypts and checks a packet that is all there. */
    method Finish(c: Crypto, keys: Keys) returns (e: Event)
      requires merged.data.Some?
      modifies this`merged
      ensures (merged, e) == Finished(c, keys, old(merged))
    {
      hide Decrypt, Verify;
      if merged.client != 0 {
        var key := keys(merged.client);
        if key == None {
          return Failure(UNKNOWN_CLIENT);
        }
        var plain := Decrypt(c, merged, key);
        if plain == None {
          return Failure(PACKET_FAILED);
        }
        merged := plain.value;
        if merged.data == None {
          return Failure(PACKET_FAILED);
        }
      }
      e := if Verify(c, merged) then Result(merged) else Failure(INVALID_HASH_CHECK);
    }
  }

  lemma MergedHasData(b: Buffer, m: Merged)
    ensures forall p: Packet :: Complete(WithChunk(b, p)) ==> MergedAfter(b, m, p).data.Some?
  {
  }

  // ---- Whole sessions ----

  function Run(c: Crypto, keys: Keys, cam: Camera, actions: seq<Action>): (Camera, seq<Event>) {
    if actions == [] then (cam, [])
    else
      var (before, events) := Run(c, keys, cam, actions[..|actions| - 1]);
      var (now, e) := Stepped(c, keys, before, actions[|actions| - 1]);
      (now, events + [e])
  }

  function Starts(actions: seq<Action>): nat {
    if actions == [] then 0 else Starts(actions[..|actions| - 1]) + (if actions[|actions| - 1].Start? then 1 else 0)
  }

  function Results(events: seq<Event>): nat {
    if events == [] then 0 else Results(events[..|events| - 1]) + (if events[|events| - 1].Result? then 1 else 0)
  }

  /** A result switches the scanning off, and nothing but a start switches it on. */
  lemma SwitchedByResult(c: Crypto, keys: Keys, cam: Camera, a: Action)
    ensures var (now, e) := Stepped(c, keys, cam, a);
            && (e.Result? ==> cam.enabled && !now.enabled)
            && (now.enabled && !cam.enabled ==> a.Start?)
            && (e.Result? ==> !a.Start?)
  {
    hide DecodePacket, IsBinPacket, MergedAfter, BufferAfter, WithChunk, Complete, Finished;
  }

  /** In any session there are at most as many results as starts; one less while the camera still scans. */
  lemma {:induction false} OneResultPerStart(c: Crypto, keys: Keys, cam: Camera, actions: seq<Action>)
    requires !cam.enabled
    ensures var (now, events) := Run(c, keys, cam, actions);
            Results(events) + (if now.enabled then 1 else 0) <= Starts(actions)
  {
    if actions != [] {
      hide Stepped;
      var front, a := actions[..|actions| - 1], actions[|actions| - 1];
      OneResultPerStart(c, keys, cam, front);
      var (before, events) := Run(c, keys, cam, front);
      SwitchedByResult(c, keys, before, a);
      assert (events + [Stepped(c, keys, before, a).1])[..|events|] == events;
    }
  }

  /** There is one event for every action, and those of the first actions are the first events. */
  lemma {:induction false} RunFront(c: Crypto, keys: Keys, cam: Camera, actions: seq<Action>, n: nat)
    requires n <= |actions|
    ensures |Run(c, keys, cam, actions).1| == |actions|
    ensures Run(c, keys, cam, actions[..n]).1 == Run(c, keys, cam, actions).1[..n]
  {
    hide Stepped;
    if n < |actions| {
      RunFront(c, keys, cam, actions[..|actions| - 1], n);
      assert actions[..|actions| - 1][..n] == actions[..n];
    } else if n > 0 {
      RunFront(c, keys, cam, actions[..n - 1], n - 1);
      assert actions[..n] == actions && actions[..n - 1][..n - 1] == actions[..n - 1];
    }
  }

  /** Some action after i and before n is a start. */
  predicate StartWithin(actions: seq<Action>, i: int, n: int)
    requires 0 <= i < n <= |actions|
  {
    exists k :: i < k < n && actions[k].Start?
  }

  lemma {:induction false} EnabledAgain(c: Crypto, keys: Keys, cam: Camera, actions: seq<Action>, i: nat)
    requires i < |actions| == |Run(c, keys, cam, actions).1| && Run(c, keys, cam, actions).1[i].Result?
    ensures Run(c, keys, cam, actions).0.enabled ==> StartWithin(actions, i, |actions|)
  {
    hide Stepped;
    var n := |actions| - 1;
    var front := actions[..n];
    RunFront(c, keys, cam, front, n);
    var (before, events) := Run(c, keys, cam, front);
    SwitchedByResult(c, keys, before, actions[n]);
    if i < n {
      EnabledAgain(c, keys, cam, front, i);
      if StartWithin(front, i, n) {
        var k :| i < k < n && front[k].Start?;
        assert actions[k].Start?;
      }
    }
  }

  /** No result follows another one without a start in between. */
  lemma StartBetweenResults(c: Crypto, keys: Keys, cam: Camera, actions: seq<Action>, i: nat, j: nat)
    requires i < j < |actions| == |Run(c, keys, cam, actions).1|
    requires Run(c, keys, cam, actions).1[i].Result? && Run(c, keys, cam, actions).1[j].Result?
    ensures StartWithin(actions, i, j)
  {
    hide Stepped, Run;
    RunFront(c, keys, cam, actions, j);
    RunFront(c, keys, cam, actions, j + 1);
    RunFront(c, keys, cam, actions[..j], j);
    var (before, events) := Run(c, keys, cam, actions[..j]);
    RunLast(c, keys, cam, actions, j);
    SwitchedByResult(c, keys, before, actions[j]);
    assert events[i] == Run(c, keys, cam, actions).1[i];
    EnabledAgain(c, keys, cam, actions[..j], i);
    assert StartWithin(actions[..j], i, j);
    var k :| i < k < j && actions[..j][k].Start?;
    assert actions[k].Start?;
  }

  lemma RunLast(c: Crypto, keys: Keys, cam: Camera, actions: seq<Action>, j: nat)
    requires j < |actions| && |Run(c, keys, cam, actions[..j]).1| == j && |Run(c, keys, cam, actions[..j + 1]).1| == j + 1
    ensures Run(c, keys, cam, actions[..j + 1]).1[j] == Stepped(c, keys, Run(c, keys, cam, actions[..j]).0, actions[j]).1
  {
    hide Stepped;
    assert actions[..j + 1][..j] == actions[..j];
  }

  /** A result is decrypted as far as it can be, and has been checked. */
  lemma ResultIsChecked(c: Crypto, keys: Keys, cam: Camera, a: Action)
    ensures var e := Stepped(c, keys, cam, a).1;
            e.Result? ==>
              && e.packet.data.Some? && Verify(c, e.packet)
              && (e.packet.client != 0 ==> keys(e.packet.client).Some? && !IsEncrypted(e.packet.flag))
  {
    MergedHasData(cam.buffer, cam.merged);
    hide DecodePacket, IsBinPacket, MergedAfter, BufferAfter, WithChunk, Complete, Verify;
  }

  /** If it is a result, it carries a packet that ends with its own digest, unless it is all in one. */
  predicate IsChecked(c: Crypto, e: Event) {
    e.Result? ==> e.packet.data.Some? && Verify(c, e.packet)
  }

  lemma {:induction false} ResultsAreChecked(c: Crypto, keys: Keys, cam: Camera, actions: seq<Action>)
    ensures forall k :: 0 <= k < |Run(c, keys, cam, actions).1| ==> IsChecked(c, Run(c, keys, cam, actions).1[k])
  {
    if actions != [] {
      hide Stepped, Verify;
      var front := actions[..|actions| - 1];
      ResultsAreChecked(c, keys, cam, front);
      var (before, events) := Run(c, keys, cam, front);
      ResultIsChecked(c, keys, before, actions[|actions| - 1]);
      assert Run(c, keys, cam, actions).1 == events + [Stepped(c, keys, before, actions[|actions| - 1]).1];
    }
  }

  /** What the codes of failures mean: a client without a key, a digest that does not match, or a packet that cannot be used. */
  lemma FailureMeans(c: Crypto, keys: Keys, cam: Camera, a: Action)
    ensures var (now, e) := Stepped(c, keys, cam, a);
            e.Failure? ==>
              && a.Scan? && now.enabled && now.last == Some(a.raw)
              && (e.code == -201 || e.code == -101 || e.code == -102 || e.code == -103)
              && (e.code == -201 ==> !IsBinPacket(a.raw) && cam.merged.total > 1 && now.merged == cam.merged)
              && (e.code == -102 ==> now.merged.client != 0 && keys(now.merged.client) == None)
              && (e.code == -103 ==> now.merged.data.Some? && !Verify(c, now.merged))
  {
    MergedHasData(cam.buffer, cam.merged);
    hide DecodePacket, IsBinPacket, MergedAfter, BufferAfter, WithChunk, Complete, Verify;
  }

  // ---- Codes that are not packets ----

  /** A code in one piece is the result itself, unless part of a message of several packets is there; then it is passed over. */
  lemma PlainCode(c: Crypto, keys: Keys, cam: Camera, raw: Bytes)
    requires cam.enabled && cam.last != Some(raw) && !IsBinPacket(raw)
    ensures var (now, e) := Stepped(c, keys, cam, Scan(raw));
            if cam.merged.total > 1 then e == Failure(-201) && now == cam.(last := Some(raw))
            else e.Result? && e.packet.data == Some(raw) && Payload(e.packet) == raw && e.packet.client == 0 && !now.enabled
  {
    hide IsBinPacket;
  }

  /** In any session, what is scanned right after a start and is not a packet is delivered as it is, and ends the scanning. */
  lemma PlainIsDelivered(c: Crypto, keys: Keys, cam: Camera, actions: seq<Action>, raw: Bytes)
    requires !IsBinPacket(raw)
    ensures var (now, events) := Run(c, keys, cam, actions + [Start] + [Scan(raw)]);
            && !now.enabled && |events| > 0 && events[|events| - 1].Result?
            && events[|events| - 1].packet.data == Some(raw) && Payload(events[|events| - 1].packet) == raw
  {
    hide *;
    RunOneMore(c, keys, cam, actions, Start);
    StartIs(c, keys, Run(c, keys, cam, actions).0);
    var begun := Run(c, keys, cam, actions + [Start]).0;
    RunOneMore(c, keys, cam, actions + [Start], Scan(raw));
    PlainCode(c, keys, begun, raw);
  }

  lemma StartIs(c: Crypto, keys: Keys, cam: Camera)
    ensures var now := Stepped(c, keys, cam, Start).0;
            now.enabled && now.last == None && now.merged.total == 0 && now.buffer == EMPTY_BUFFER
  {
  }

  // ---- Scanning a message that was cut into packets ----

  /** A message as it is sent, and what lies behind it in memory. */
  datatype Sending = Sending(message: Bytes, behind: Bytes, maxSize: nat, msgType: nat, flag: nat, client: nat, key: Bytes) {
    function Count(): nat
      requires maxSize >= MIN_CHUNK_SIZE
    {
      Total(|message|, maxSize)
    }

    /** All that the wire format and the cutting take for granted, and that the receiver knows the key. */
    ghost predicate Sendable(c: Crypto, keys: Keys) {
      && Sound(c) && MIN_CHUNK_SIZE <= maxSize <= 0x10001 && message != [] && Count() < MAX_BUFFER
      && msgType < 256 && flag < 256 && client < 256
      && Fragmentation.Offset(|message|, maxSize, Count() - 1) <= |message| + |behind|
      && (if client == 0 then !IsEncrypted(flag) else keys(client) == Some(key))
    }

    ghost function PacketAt(c: Crypto, i: nat): Packet
      requires Sound(c) && maxSize >= MIN_CHUNK_SIZE && i < Count()
      requires Fragmentation.Offset(|message|, maxSize, Count() - 1) <= |message| + |behind|
    {
      SentLength(c, message, flag, key);
      PacketOf(Sent(c, message, flag, key) + behind, Check(c, message), |message|, maxSize, msgType, flag, client, i)
    }

    ghost function RawAt(c: Crypto, keys: Keys, i: nat): Bytes
      requires Sendable(c, keys) && i < Count()
    {
      PacketBytes(c, PacketAt(c, i))
    }
  }

  predicate IsOrder(s: Sending, order: seq<nat>)
    requires s.maxSize >= MIN_CHUNK_SIZE
  {
    forall k :: 0 <= k < |order| ==> order[k] < s.Count()
  }

  /** The code seen last is not a packet, or one of those that have come. */
  ghost predicate Seen(c: Crypto, keys: Keys, s: Sending, order: seq<nat>, last: Option<Bytes>)
    requires s.Sendable(c, keys) && IsOrder(s, order)
  {
    last.Some? && (!IsBinPacket(last.value) || exists k :: 0 <= k < |order| && last.value == s.RawAt(c, keys, order[k]))
  }

  /** The session while packets are missing. */
  ghost predicate Going(c: Crypto, keys: Keys, s: Sending, order: seq<nat>, cam: Camera)
    requires s.Sendable(c, keys) && IsOrder(s, order)
  {
    SentLength(c, s.message, s.flag, s.key);
    && cam.enabled
    && (if order == [] then cam.last == None && cam.buffer == EMPTY_BUFFER
        else
          && Seen(c, keys, s, order, cam.last)
          && cam.merged.total == s.Count() && cam.merged.client == s.client && cam.merged.flag == s.flag
          && HasExactly(cam.buffer, Sent(c, s.message, s.flag, s.key) + s.behind, Check(c, s.message), |s.message|, s.maxSize,
                        s.msgType, s.client, order))
  }

  /** Different packets look different. */
  lemma RawsDiffer(c: Crypto, keys: Keys, s: Sending, i: nat, j: nat)
    requires s.Sendable(c, keys) && i < s.Count() && j < s.Count()
    ensures IsBinPacket(s.RawAt(c, keys, i)) && DecodePacket(c, s.RawAt(c, keys, i)) == Some(s.PacketAt(c, i))
    ensures s.RawAt(c, keys, i) == s.RawAt(c, keys, j) ==> i == j
    ensures s.PacketAt(c, i).index == i
  {
    SentLength(c, s.message, s.flag, s.key);
    CheckLength(c, s.message);
    hide DecodePacket, IsBinPacket, PacketBytes, Sound, Total, Check, Sent, ChunkData, Fragmentation.Offset;
    var memory := Sent(c, s.message, s.flag, s.key) + s.behind;
    PacketsDecode(c, memory, Check(c, s.message), |s.message|, s.maxSize, s.msgType, s.flag, s.client, i);
    PacketsDecode(c, memory, Check(c, s.message), |s.message|, s.maxSize, s.msgType, s.flag, s.client, j);
  }

  /** A packet that is still before the camera is passed over; it has come already. */
  lemma SameAgain(c: Crypto, keys: Keys, s: Sending, order: seq<nat>, cam: Camera, i: nat)
    requires s.Sendable(c, keys) && IsOrder(s, order) && order != [] && i < s.Count()
    requires Going(c, keys, s, order, cam) && cam.last == Some(s.RawAt(c, keys, i))
    ensures Covers(order + [i], s.Count()) == Covers(order, s.Count())
    ensures IsOrder(s, order + [i]) && Going(c, keys, s, order + [i], cam)
    ensures Scanned(c, keys, cam, s.RawAt(c, keys, i)) == (cam, Nothing)
  {
    RawsDiffer(c, keys, s, i, i);
    var k :| 0 <= k < |order| && cam.last.value == s.RawAt(c, keys, order[k]);
    RawsDiffer(c, keys, s, i, order[k]);
    hide DecodePacket, IsBinPacket, Total, Check, Sent, ChunkData, PacketBytes, Fragmentation.Offset, Sending.Sendable, Sending.RawAt,
         Sending.Count;
    assert (order + [i])[k] == order[k];
    assert forall n: nat :: n in order + [i] <==> n in order;
  }

  /** So is a code that is not a packet, while part of the message is there. */
  lemma PlainPassed(c: Crypto, keys: Keys, s: Sending, order: seq<nat>, cam: Camera, raw: Bytes)
    requires s.Sendable(c, keys) && IsOrder(s, order) && order != [] && !Covers(order, s.Count())
    requires Going(c, keys, s, order, cam) && !IsBinPacket(raw)
    ensures var (now, e) := Scanned(c, keys, cam, raw);
            Going(c, keys, s, order, now) && !e.Result?
  {
    hide IsBinPacket, Total, Check, Sent, ChunkData, PacketBytes, Fragmentation.Offset, Sending.Sendable, Sending.RawAt;
    SendableMeans(c, keys, s);
    assert order[0] in order && order[0] < s.Count();
    assert s.Count() > 1;
    if cam.last != Some(raw) {
      PlainCode(c, keys, cam, raw);
    }
  }

  /** How the fields of the merged packet come about. */
  lemma MergedFields(b: Buffer, m: Merged, p: Packet, first: bool)
    requires first ==> b.total == 0
    requires !first ==> b.msgType == p.msgType && b.total == p.total > 0 && b.client == p.client
                        && m.total == p.total && m.client == p.client && m.flag == p.flag
    ensures var m' := MergedAfter(b, m, p);
            && m'.total == p.total && m'.client == p.client && m'.flag == p.flag
            && (Complete(WithChunk(b, p)) ==> m'.data == Some(InOrder(WithChunk(b, p).chunks, WithChunk(b, p).total)))
    ensures p.total > 1 ==> BufferAfter(b, p) == WithChunk(b, p)
  {
    hide InOrder, Present;
  }

  /** A new packet is decoded and taken up. */
  lemma ScannedNew(c: Crypto, keys: Keys, cam: Camera, raw: Bytes, p: Packet)
    requires cam.enabled && cam.last != Some(raw) && IsBinPacket(raw) && DecodePacket(c, raw) == Some(p)
    ensures var b, m := WithChunk(cam.buffer, p), MergedAfter(cam.buffer, cam.merged, p);
            var (now, e) := Scanned(c, keys, cam, raw);
            if Complete(b) then
              m.data.Some? && e == Finished(c, keys, m).1 && now.enabled == !e.Result?
            else
              !e.Result? && now.enabled && now.last == Some(raw) && now.merged == m && now.buffer == BufferAfter(cam.buffer, p)
  {
    MergedHasData(cam.buffer, cam.merged);
    hide DecodePacket, IsBinPacket, WithChunk, BufferAfter, MergedAfter, Complete, Finished;
  }

  /** Buffer and merged packet when one more packet of the message has come. */
  lemma PacketTaken(c: Crypto, keys: Keys, s: Sending, order: seq<nat>, cam: Camera, i: nat)
    requires s.Sendable(c, keys) && IsOrder(s, order) && i < s.Count() && Going(c, keys, s, order, cam)
    ensures cam.enabled && IsOrder(s, order + [i])
    ensures var p := s.PacketAt(c, i);
            var b, m := WithChunk(cam.buffer, p), MergedAfter(cam.buffer, cam.merged, p);
            && m.total == s.Count() && m.client == s.client && m.flag == s.flag
            && (Complete(b) <==> Covers(order + [i], s.Count()))
            && (Complete(b) ==>
                  m.data == Some(Joined(Memory(c, s), Check(c, s.message), |s.message|, s.maxSize, Total(|s.message|, s.maxSize))))
            && (s.Count() > 1 ==> BufferAfter(cam.buffer, p) == b)
            && HasExactly(b, Memory(c, s), Check(c, s.message), |s.message|, s.maxSize, s.msgType, s.client, order + [i])
  {
    var p := s.PacketAt(c, i);
    var memory, digest, size := Memory(c, s), Check(c, s.message), |s.message|;
    hide Total, Check, Sent, ChunkData, Fragmentation.Offset, Joined, MergedAfter, BufferAfter, WithChunk, Complete, Sound, Covers,
         Sending.RawAt, PacketBytes;
    NextOfMessage(cam.buffer, cam.merged, memory, digest, size, s.maxSize, s.msgType, s.flag, s.client, order, i);
    CompleteWhenCovered(WithChunk(cam.buffer, p), memory, digest, size, s.maxSize, s.msgType, s.client, order + [i]);
    MergedFields(cam.buffer, cam.merged, p, order == []);
  }

  ghost function Memory(c: Crypto, s: Sending): (memory: Bytes)
    requires Sound(c)
    ensures |memory| == |s.message| + |s.behind|
  {
    SentLength(c, s.message, s.flag, s.key);
    Sent(c, s.message, s.flag, s.key) + s.behind
  }

  lemma NewScan(c: Crypto, keys: Keys, s: Sending, order: seq<nat>, cam: Camera, i: nat)
    requires s.Sendable(c, keys) && IsOrder(s, order) && i < s.Count()
    requires Going(c, keys, s, order, cam) && cam.last != Some(s.RawAt(c, keys, i))
    ensures var (now, e) := Scanned(c, keys, cam, s.RawAt(c, keys, i));
            && (!Covers(order + [i], s.Count()) ==> IsOrder(s, order + [i]) && Going(c, keys, s, order + [i], now) && !e.Result?)
            && (Covers(order + [i], s.Count()) && StaysInside(|s.message|, s.maxSize) ==>
                  e.Result? && e.packet.data.Some? && Payload(e.packet) == s.message && !now.enabled)
  {
    hide *;
    RawsDiffer(c, keys, s, i, i);
    SendableMeans(c, keys, s);
    PacketTaken(c, keys, s, order, cam, i);
    var p, raw := s.PacketAt(c, i), s.RawAt(c, keys, i);
    assert (order + [i])[|order + [i]| - 1] == i;
    ScannedNew(c, keys, cam, raw, p);
    if Covers(order + [i], s.Count()) {
      Delivered(c, keys, s, MergedAfter(cam.buffer, cam.merged, p));
    } else {
      SeenLast(c, keys, s, order + [i]);
      StillGoing(c, keys, s, order + [i], Scanned(c, keys, cam, raw).0);
    }
  }

  lemma SeenLast(c: Crypto, keys: Keys, s: Sending, order: seq<nat>)
    requires s.Sendable(c, keys) && IsOrder(s, order) && order != []
    ensures Seen(c, keys, s, order, Some(s.RawAt(c, keys, order[|order| - 1])))
  {
    hide Sending.Sendable, Sending.RawAt, Sending.Count;
  }

  lemma SendableMeans(c: Crypto, keys: Keys, s: Sending)
    requires s.Sendable(c, keys)
    ensures Sound(c) && s.maxSize >= MIN_CHUNK_SIZE
    ensures Fragmentation.Offset(|s.message|, s.maxSize, s.Count() - 1) <= |s.message| + |s.behind|
  {
  }

  lemma Delivered(c: Crypto, keys: Keys, s: Sending, m: Merged)
    requires s.Sendable(c, keys) && m.total == s.Count() && m.client == s.client && m.flag == s.flag
    requires m.data == Some(Joined(Memory(c, s), Check(c, s.message), |s.message|, s.maxSize, Total(|s.message|, s.maxSize)))
    ensures StaysInside(|s.message|, s.maxSize) ==>
              var e := Finished(c, keys, m).1; e.Result? && e.packet.data.Some? && Payload(e.packet) == s.message
  {
    hide Total, Check, Sent, Fragmentation.Offset, Joined, Sound, Finished, Decrypt, Verify, StaysInside;
    MessageComesBack(c, m, s.message, s.behind, s.maxSize, s.flag, s.key);
    if StaysInside(|s.message|, s.maxSize) {
      FinishedMeans(c, keys, m, s.key, s.message);
    }
  }

  lemma StillGoing(c: Crypto, keys: Keys, s: Sending, order: seq<nat>, cam: Camera)
    requires s.Sendable(c, keys) && IsOrder(s, order) && order != [] && !Covers(order, s.Count())
    requires cam.enabled && Seen(c, keys, s, order, cam.last)
    requires cam.merged.total == s.Count() && cam.merged.client == s.client && cam.merged.flag == s.flag
    requires s.Count() > 1 ==>
               HasExactly(cam.buffer, Memory(c, s), Check(c, s.message), |s.message|, s.maxSize, s.msgType, s.client, order)
    ensures Going(c, keys, s, order, cam)
  {
    assert order[0] in order && order[0] < s.Count();
    assert s.Count() > 1;
    hide Total, Check, Sent, Fragmentation.Offset, Sound, ChunkData, PacketBytes;
  }

  lemma FinishedMeans(c: Crypto, keys: Keys, m: Merged, key: Bytes, message: Bytes)
    requires m.data.Some? && (if m.client == 0 then !IsEncrypted(m.flag) else keys(m.client) == Some(key))
    requires Decrypt(c, m, Some(key)).Some? && Decrypt(c, m, Some(key)).value.data.Some?
    requires Verify(c, Decrypt(c, m, Some(key)).value) && Payload(Decrypt(c, m, Some(key)).value) == message
    ensures var e := Finished(c, keys, m).1; e.Result? && e.packet.data.Some? && Payload(e.packet) == message
  {
    hide Verify, Payload;
  }

  /** Scanning one more packet of the message. */
  lemma ScanOne(c: Crypto, keys: Keys, s: Sending, order: seq<nat>, cam: Camera, i: nat)
    requires s.Sendable(c, keys) && IsOrder(s, order) && i < s.Count()
    requires Going(c, keys, s, order, cam) && !Covers(order, s.Count())
    ensures var (now, e) := Scanned(c, keys, cam, s.RawAt(c, keys, i));
            && (!Covers(order + [i], s.Count()) ==> IsOrder(s, order + [i]) && Going(c, keys, s, order + [i], now) && !e.Result?)
            && (Covers(order + [i], s.Count()) && StaysInside(|s.message|, s.maxSize) ==>
                  e.Result? && e.packet.data.Some? && Payload(e.packet) == s.message && !now.enabled)
  {
    hide DecodePacket, IsBinPacket, PacketBytes, Total, Check, Sent, Scanned;
    if order != [] && cam.last == Some(s.RawAt(c, keys, i)) {
      SameAgain(c, keys, s, order, cam, i);
    } else {
      NewScan(c, keys, s, order, cam, i);
    }
  }

  /** What is held before the camera: a packet of the message, or something that is not a packet. */
  datatype Code = Piece(index: nat) | Plain(raw: Bytes)

  /** The packets among the codes. */
  function Indices(codes: seq<Code>): (order: seq<nat>) {
    if codes == [] then []
    else
      var last := codes[|codes| - 1];
      Indices(codes[..|codes| - 1]) + if last.Piece? then [last.index] else []
  }

  /** The first code is a packet of the message; before it, anything else would be a result of its own. */
  predicate AreCodes(s: Sending, codes: seq<Code>)
    requires s.maxSize >= MIN_CHUNK_SIZE
  {
    && (codes != [] ==> codes[0].Piece?)
    && forall k :: 0 <= k < |codes| ==> if codes[k].Piece? then codes[k].index < s.Count() else !IsBinPacket(codes[k].raw)
  }

  lemma {:induction false} IndicesInOrder(s: Sending, codes: seq<Code>)
    requires s.maxSize >= MIN_CHUNK_SIZE && AreCodes(s, codes)
    ensures IsOrder(s, Indices(codes)) && (codes != [] ==> Indices(codes) != [])
  {
    hide IsBinPacket, Sending.Count;
    if codes != [] {
      IndicesInOrder(s, codes[..|codes| - 1]);
    }
  }

  ghost function Shown(c: Crypto, keys: Keys, s: Sending, code: Code): Bytes
    requires s.Sendable(c, keys) && (code.Piece? ==> code.index < s.Count())
  {
    match code
    case Piece(i) => s.RawAt(c, keys, i)
    case Plain(raw) => raw
  }

  /** A start, and then the codes in the given order. */
  ghost function Session(c: Crypto, keys: Keys, s: Sending, codes: seq<Code>): (actions: seq<Action>)
    requires s.Sendable(c, keys) && AreCodes(s, codes)
    ensures |actions| == |codes| + 1
  {
    if codes == [] then [Start]
    else Session(c, keys, s, codes[..|codes| - 1]) + [Scan(Shown(c, keys, s, codes[|codes| - 1]))]
  }

  lemma {:induction false} SessionGoesOn(c: Crypto, keys: Keys, s: Sending, codes: seq<Code>, cam: Camera)
    requires s.Sendable(c, keys) && AreCodes(s, codes) && !Covers(Indices(codes), s.Count())
    ensures IsOrder(s, Indices(codes))
    ensures var (now, events) := Run(c, keys, cam, Session(c, keys, s, codes));
            Going(c, keys, s, Indices(codes), now) && Results(events) == 0
  {
    hide *;
    SendableMeans(c, keys, s);
    IndicesInOrder(s, codes);
    SessionIs(c, keys, s, codes);
    if codes == [] {
      Started(c, keys, s, cam);
    } else {
      var front, last := codes[..|codes| - 1], codes[|codes| - 1];
      IndicesInOrder(s, front);
      assert Indices(front) + [] == Indices(front);
      if last.Piece? && Covers(Indices(front), s.Count()) {
        FrontCovers(Indices(front), last.index, s.Count());
      }
      SessionGoesOn(c, keys, s, front, cam);
      var before := Run(c, keys, cam, Session(c, keys, s, front)).0;
      if last.Piece? {
        ScanOne(c, keys, s, Indices(front), before, last.index);
      } else {
        PlainPassed(c, keys, s, Indices(front), before, last.raw);
      }
      ScanStep(c, keys, before, Shown(c, keys, s, last));
      RunOneMore(c, keys, cam, Session(c, keys, s, front), Scan(Shown(c, keys, s, last)));
    }
  }

  /** How the session and the order of the packets grow by the last code. */
  lemma SessionIs(c: Crypto, keys: Keys, s: Sending, codes: seq<Code>)
    requires s.Sendable(c, keys) && AreCodes(s, codes)
    ensures codes == [] ==> Session(c, keys, s, codes) == [Start] && Indices(codes) == []
    ensures codes != [] ==>
              var front, last := codes[..|codes| - 1], codes[|codes| - 1];
              && AreCodes(s, front) && (front == [] ==> last.Piece?)
              && (if last.Piece? then last.index < s.Count() && Shown(c, keys, s, last) == s.RawAt(c, keys, last.index)
                  else !IsBinPacket(last.raw) && Shown(c, keys, s, last) == last.raw)
              && Indices(codes) == Indices(front) + (if last.Piece? then [last.index] else [])
              && Session(c, keys, s, codes) == Session(c, keys, s, front) + [Scan(Shown(c, keys, s, last))]
  {
    hide Sending.Sendable, Sending.RawAt, Sending.Count, IsBinPacket;
  }

  lemma FrontCovers(front: seq<nat>, i: nat, n: nat)
    requires Covers(front, n)
    ensures Covers(front + [i], n)
  {
  }

  lemma RunOneMore(c: Crypto, keys: Keys, cam: Camera, actions: seq<Action>, a: Action)
    ensures var (before, events) := Run(c, keys, cam, actions);
            var (now, e) := Stepped(c, keys, before, a);
            && Run(c, keys, cam, actions + [a]) == (now, events + [e])
            && Results(events + [e]) == Results(events) + (if e.Result? then 1 else 0)
  {
    hide Stepped;
    assert (actions + [a])[..|actions|] == actions;
    var (before, events) := Run(c, keys, cam, actions);
    var (now, e) := Stepped(c, keys, before, a);
    assert (events + [e])[..|events|] == events;
  }

  lemma Started(c: Crypto, keys: Keys, s: Sending, cam: Camera)
    requires s.Sendable(c, keys)
    ensures IsOrder(s, [])
    ensures var (now, events) := Run(c, keys, cam, [Start]);
            Going(c, keys, s, [], now) && Results(events) == 0
  {
    RunOneMore(c, keys, cam, [], Start);
    assert [] + [Start] == [Start];
  }

  /**
   Whatever went before: after a start, the packets of a message, scanned in any order and any number of times, with codes
   that are not packets in between, give no result until the last missing one comes in, and then give the message.
   */
  lemma MessageIsScanned(c: Crypto, keys: Keys, s: Sending, codes: seq<Code>, i: nat, cam: Camera)
    requires s.Sendable(c, keys) && StaysInside(|s.message|, s.maxSize)
    requires AreCodes(s, codes) && i < s.Count()
    requires !Covers(Indices(codes), s.Count()) && Covers(Indices(codes) + [i], s.Count())
    ensures AreCodes(s, codes + [Piece(i)])
    ensures var (now, events) := Run(c, keys, cam, Session(c, keys, s, codes + [Piece(i)]));
            && Results(events) == 1 && events != []
            && events[|events| - 1].Result? && events[|events| - 1].packet.data.Some?
            && Payload(events[|events| - 1].packet) == s.message
  {
    hide *;
    SessionGoesOn(c, keys, s, codes, cam);
    var (before, events) := Run(c, keys, cam, Session(c, keys, s, codes));
    ScanOne(c, keys, s, Indices(codes), before, i);
    SessionMore(c, keys, s, codes, i);
    ScanStep(c, keys, before, s.RawAt(c, keys, i));
    RunOneMore(c, keys, cam, Session(c, keys, s, codes), Scan(s.RawAt(c, keys, i)));
  }

  lemma ScanStep(c: Crypto, keys: Keys, cam: Camera, raw: Bytes)
    ensures Stepped(c, keys, cam, Scan(raw)) == Scanned(c, keys, cam, raw)
  {
  }

  lemma SessionMore(c: Crypto, keys: Keys, s: Sending, codes: seq<Code>, i: nat)
    requires s.Sendable(c, keys) && AreCodes(s, codes) && i < s.Count()
    ensures AreCodes(s, codes + [Piece(i)])
    ensures Session(c, keys, s, codes + [Piece(i)]) == Session(c, keys, s, codes) + [Scan(s.RawAt(c, keys, i))]
  {
    hide Sending.Sendable, Sending.RawAt, Sending.Count, IsBinPacket;
    assert (codes + [Piece(i)])[..|codes|] == codes;
  }
}
