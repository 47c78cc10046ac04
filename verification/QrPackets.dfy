/**
 Messages cut into QR packets: the wire format of one packet, and how a message is cut into chunks of about equal size
 with a digest behind the last.
 */
module QrPackets {
  import opened Bits
  import opened Options
  import opened Segments

  type Bytes = seq<Octet>

  const PREFIX_LENGTH := 2
  const HEADER_LENGTH := 10
  const CHUNK_HEADER_LENGTH := 2
  const HASH_CHECK_LENGTH := 4
  const PACKET_VERSION := 1
  const MAX_BUFFER := 256

  const BIN: Octet := 66
  const NOTIFY_BIN: Octet := 67
  const COLON: Octet := 58

  /** A digest of 32 bytes, and a cipher that keeps lengths, with the key first. */
  datatype Crypto = Crypto(sha: Bytes -> Bytes, encrypt: (Bytes, Bytes) -> Bytes, decrypt: (Bytes, Bytes) -> Bytes)

  ghost predicate Sound(c: Crypto) {
    && (forall x :: |c.sha(x)| == 32)
    && (forall k, x :: |c.encrypt(k, x)| == |x| && c.decrypt(k, c.encrypt(k, x)) == x)
    && (forall k, x :: |c.decrypt(k, x)| == |x|)
  }

  /** The first bytes of the digest. */
  function Check(c: Crypto, data: Bytes): Bytes {
    if |c.sha(data)| < HASH_CHECK_LENGTH then c.sha(data) else c.sha(data)[..HASH_CHECK_LENGTH]
  }

  lemma CheckLength(c: Crypto, data: Bytes)
    requires Sound(c)
    ensures |c.sha(data)| == 32 && |Check(c, data)| == HASH_CHECK_LENGTH && Check(c, data) == c.sha(data)[..HASH_CHECK_LENGTH]
  {
  }

  // ---- One packet ----

  datatype Packet = Packet(msgType: nat, total: nat, index: nat, flag: nat, client: nat, data: Bytes)

  predicate IsEncrypted(flag: nat) {
    flag % 2 == 1
  }

  function HeaderLength(total: nat): nat {
    if total > 1 then HEADER_LENGTH + CHUNK_HEADER_LENGTH else HEADER_LENGTH
  }

  /** Header length in units of two, more fragments, do not fragment, and version. */
  function FirstByte(total: nat, index: nat): Octet {
    PACKET_VERSION + (if total > 1 then 0 else 4) + (if total > 1 && index + 1 != total then 8 else 0)
    + 16 * (HeaderLength(total) / 2)
  }

  /** A packet on the wire. */
  function PacketBytes(c: Crypto, p: Packet): Bytes {
    var length := |p.data| + HeaderLength(p.total);
    [BIN, COLON, FirstByte(p.total, p.index), p.msgType % 256, p.flag % 256, p.client % 256]
    + Check(c, p.data)
    + [length / 256 % 256, length % 256]
    + (if p.total > 1 then [p.total % 256, p.index % 256] else [])
    + p.data
  }

  predicate IsBinPacket(raw: Bytes) {
    |raw| >= PREFIX_LENGTH && raw[1] == COLON && (raw[0] == BIN || raw[0] == NOTIFY_BIN)
  }

  function Join(high: nat, low: nat): nat {
    high * 256 + low
  }

  /** What a packet on the wire holds, if it is one. */
  function DecodePacket(c: Crypto, raw: Bytes): Option<Packet> {
    if !IsBinPacket(raw) then None
    else
      var bin := raw[PREFIX_LENGTH..];
      if |bin| < HEADER_LENGTH then None
      else
        var version, df, mf, header := bin[0] % 4, bin[0] / 4 % 2, bin[0] / 8 % 2, bin[0] / 16 % 16 * 2;
        var length := Join(bin[8], bin[9]);
        if version < 1 || version > PACKET_VERSION then None
        else if header != HEADER_LENGTH && header != HEADER_LENGTH + CHUNK_HEADER_LENGTH then None
        else if |bin| < length || length <= header then None
        else if df == 1 && mf != 0 then None
        else if df == 0 && !ChunkHeaderOk(bin, mf) then None
        else
          var data := bin[header..length];
          if Check(c, data) != bin[4..8] then None
          else Some(Packet(bin[1], if df == 0 then bin[10] else 1, if df == 0 then bin[11] else 0, bin[2], bin[3], data))
  }

  /** The chunk header is there, and says a possible index; only the last chunk says that there are no more. */
  predicate ChunkHeaderOk(bin: Bytes, mf: nat) {
    && |bin| >= HEADER_LENGTH + CHUNK_HEADER_LENGTH
    && bin[10] > 0 && bin[11] < bin[10]
    && (mf == 0 ==> bin[11] + 1 == bin[10])
  }

  /** Fields that fit where they are written. */
  predicate FieldsFit(p: Packet) {
    && p.msgType < 256 && p.flag < 256 && p.client < 256
    && 1 <= p.total < 256 && p.index < p.total
    && p.data != [] && |p.data| + HeaderLength(p.total) < 0x10000
  }

  /** A receiver gets exactly the packet that was sent. */
  lemma DecodeOfPacket(c: Crypto, p: Packet)
    requires Sound(c) && FieldsFit(p)
    ensures DecodePacket(c, PacketBytes(c, p)) == Some(p)
  {
    CheckLength(c, p.data);
    LayoutOfPacket(c, p);
    hide PacketBytes, Check, Sound, FirstByte, Join;
    FirstByteFields(p.total, p.index);
    var raw := PacketBytes(c, p);
    var bin := raw[PREFIX_LENGTH..];
    var h := HeaderLength(p.total);
    BytesOfLength(|p.data| + h);
    assert bin[4..8] == raw[6..10] && bin[h..|p.data| + h] == raw[PREFIX_LENGTH + h..];
  }

  lemma FirstByteFields(total: nat, index: nat)
    ensures var n := FirstByte(total, index);
            && n % 4 == 1 && n / 4 % 2 == (if total > 1 then 0 else 1)
            && n / 8 % 2 == (if total > 1 && index + 1 != total then 1 else 0) && n / 16 % 16 * 2 == HeaderLength(total)
  {
  }

  lemma BytesOfLength(n: nat)
    requires n < 0x10000
    ensures Join(n / 256 % 256, n % 256) == n
  {
  }

  lemma LayoutOfPacket(c: Crypto, p: Packet)
    requires |Check(c, p.data)| == HASH_CHECK_LENGTH
    ensures var raw, h := PacketBytes(c, p), HeaderLength(p.total);
            && |raw| == PREFIX_LENGTH + h + |p.data|
            && raw[0] == BIN && raw[1] == COLON && raw[2] == FirstByte(p.total, p.index)
            && raw[3] == p.msgType % 256 && raw[4] == p.flag % 256 && raw[5] == p.client % 256
            && raw[6..10] == Check(c, p.data)
            && raw[10] == (|p.data| + h) / 256 % 256 && raw[11] == (|p.data| + h) % 256
            && (p.total > 1 ==> raw[12] == p.total % 256 && raw[13] == p.index % 256)
            && raw[PREFIX_LENGTH + h..] == p.data
  {
    hide Check;
  }

  /**
   Nothing is accepted of another version or with a header of another length, whose data do not match the check code, or
   that is empty, or whose index is out of range. The rest is read from its place; only the last chunk, or a packet that is
   not to be cut, says that no more follow.
   */
  lemma DecodedIsChecked(c: Crypto, raw: Bytes)
    requires DecodePacket(c, raw).Some?
    ensures var p := DecodePacket(c, raw).value;
            var high: nat, low: nat := raw[10], raw[11];
            && Check(c, p.data) == raw[6..10] && p.data != [] && p.index < p.total < MAX_BUFFER
            && p.data <= raw[PREFIX_LENGTH + (raw[2] / 16 % 16 * 2)..]
            && (raw[0] == 'B' as int || raw[0] == 'C' as int) && raw[1] == ':' as int && raw[2] % 4 == 1
            && p.msgType == raw[3] && p.flag == raw[4] && p.client == raw[5]
            && (raw[2] / 16 == 5 || raw[2] / 16 == 6) && |p.data| + raw[2] / 16 * 2 == 256 * high + low
            && (if raw[2] / 4 % 2 == 1 then p.total == 1 && p.index == 0 && raw[2] / 8 % 2 == 0
                else p.total == raw[12] && p.index == raw[13] && (raw[2] / 8 % 2 == 0 ==> p.index + 1 == p.total))
  {
    hide Check;
  }

  /** A packet whose first byte is the one that a sender writes is the one that a sender writes, up to what follows it. */
  lemma DecodedIsWire(c: Crypto, raw: Bytes)
    requires Sound(c) && DecodePacket(c, raw).Some?
    requires var p := DecodePacket(c, raw).value; raw[2] == FirstByte(p.total, p.index) && raw[0] == 'B' as int
    ensures PacketBytes(c, DecodePacket(c, raw).value) <= raw
  {
    var p := DecodePacket(c, raw).value;
    DecodedIsChecked(c, raw);
    FirstByteFields(p.total, p.index);
    CheckLength(c, p.data);
    LayoutOfPacket(c, p);
    Constants();
    hide *;
    LengthBytes(raw[10], raw[11]);
    SameFront(PacketBytes(c, p), raw, HeaderLength(p.total), p.data);
  }

  lemma Constants()
    ensures BIN == 'B' as int && COLON == ':' as int && PREFIX_LENGTH == 2
    ensures forall total: nat :: HeaderLength(total) == if total > 1 then 12 else 10
  {
  }

  lemma SameFront(bytes: Bytes, raw: Bytes, h: nat, data: Bytes)
    requires (h == 10 || h == 12) && |bytes| == 2 + h + |data| <= |raw|
    requires bytes[0] == raw[0] && bytes[1] == raw[1] && bytes[2] == raw[2] && bytes[3] == raw[3] && bytes[4] == raw[4]
    requires bytes[5] == raw[5] && bytes[6..10] == raw[6..10] && bytes[10] == raw[10] && bytes[11] == raw[11]
    requires h == 12 ==> bytes[12] == raw[12] && bytes[13] == raw[13]
    requires bytes[2 + h..] == data && data <= raw[2 + h..]
    ensures bytes <= raw
  {
    forall k | 0 <= k < |bytes| ensures bytes[k] == raw[k] {
      if 6 <= k < 10 {
        assert bytes[k] == bytes[6..10][k - 6] && raw[k] == raw[6..10][k - 6];
      } else if k >= 2 + h {
        assert bytes[k] == bytes[2 + h..][k - 2 - h] && raw[k] == raw[2 + h..][k - 2 - h];
      }
    }
  }

  lemma LengthBytes(high: nat, low: nat)
    requires high < 256 && low < 256
    ensures (256 * high + low) / 256 % 256 == high && (256 * high + low) % 256 == low
  {
  }

  /** A packet in one piece with type 5 and three bytes, byte for byte. */
  lemma PacketExample(c: Crypto)
    requires Sound(c)
    ensures var sha := c.sha([1, 2, 3]);
            |sha| == 32 && PacketBytes(c, Packet(5, 1, 0, 0, 7, [1, 2, 3])) ==
              ['B' as int, ':' as int, 0x55, 5, 0, 7, sha[0], sha[1], sha[2], sha[3], 0, 13, 1, 2, 3]
  {
    CheckLength(c, [1, 2, 3]);
    hide Check, Sound;
    var sha := c.sha([1, 2, 3]);
    assert sha[..4] == [sha[0], sha[1], sha[2], sha[3]];
  }

  /** Fills a packet into a buffer, byte after byte. */
  method EncodePacket(c: Crypto, data: Bytes, msgType: nat, flag: nat, client: nat, total: nat, current: nat)
    returns (packet: Option<Bytes>)
    requires Sound(c)
    ensures packet == if data == [] then None else Some(PacketBytes(c, Packet(msgType, total, current, flag, client, data)))
  {
    hide *;
    if |data| <= 0 {
      return None;
    }
    CheckLength(c, data);
    FormatConstants();
    var headerLength := HEADER_LENGTH;
    var df, mf := 1, 0;
    if total > 1 {
      headerLength := headerLength + CHUNK_HEADER_LENGTH;
      df := 0;
      if current + 1 != total {
        mf := 1;
      }
    }
    var totalLength := |data| + headerLength;
    var rawdata := new Octet[PREFIX_LENGTH + totalLength](_ => 0);
    Fill(rawdata, 0, [BIN, COLON]);
    var p := PREFIX_LENGTH;
    var nbit: Octet := PACKET_VERSION + 4 * df + 8 * mf + 16 * (headerLength / 2);
    Fill(rawdata, p, [nbit, msgType % 256, flag % 256, client % 256]);
    p := p + 4;
    var digest := c.sha(data);
    Fill(rawdata, p, digest[..HASH_CHECK_LENGTH]);
    p := p + HASH_CHECK_LENGTH;
    Fill(rawdata, p, [totalLength / 256 % 256, totalLength % 256]);
    p := p + 2;
    ghost var bytes := rawdata[..p];
    if total > 1 {
      Fill(rawdata, p, [total % 256, current % 256]);
      p := p + 2;
    }
    Fill(rawdata, p, data);
    assert rawdata[..p + |data|] == rawdata[..];
    packet := Some(rawdata[..]);
    PacketIs(c, Packet(msgType, total, current, flag, client, data), nbit, totalLength, bytes, rawdata[..p], rawdata[..]);
  }

  lemma FormatConstants()
    ensures PREFIX_LENGTH == 2 && HEADER_LENGTH == 10 && CHUNK_HEADER_LENGTH == 2 && HASH_CHECK_LENGTH == 4 && PACKET_VERSION == 1
  {
  }

  lemma PacketIs(c: Crypto, q: Packet, nbit: Octet, length: nat, bytes: Bytes, header: Bytes, raw: Bytes)
    requires length == |q.data| + (if q.total > 1 then 12 else 10)
    requires nbit == 1 + (if q.total > 1 then 0 else 4) + (if q.total > 1 && q.index + 1 != q.total then 8 else 0)
                     + 16 * ((if q.total > 1 then 12 else 10) / 2)
    requires bytes == [] + [BIN, COLON] + [nbit, q.msgType % 256, q.flag % 256, q.client % 256] + Check(c, q.data)
                      + [length / 256 % 256, length % 256]
    requires header == if q.total > 1 then bytes + [q.total % 256, q.index % 256] else bytes
    requires raw == header + q.data
    ensures raw == PacketBytes(c, q)
  {
    hide Check;
  }

  /** Copies src into dst from position top on. */
  method Fill(dst: array<Octet>, top: nat, src: Bytes)
    requires top + |src| <= dst.Length
    modifies dst
    ensures dst[..top + |src|] == old(dst[..top]) + src
  {
    for i := 0 to |src|
      invariant forall j :: 0 <= j < dst.Length ==> dst[j] == if top <= j < top + i then src[j - top] else old(dst[j])
    {
      dst[top + i] := src[i];
    }
  }
}
