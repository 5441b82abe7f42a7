/** The IP header, the 9000-byte fragmenter, and reassembly as RFC 791 section 3.2 defines it. */
module Fragment {
  import opened Packets
  import opened Checksum

  const FRAGMENT_SIZE := 9000
  const OFFSET_STEP := 1125
  const MAXIMUM_PACKET_SIZE := 10000
  const HEADER_LENGTH := 20
  /** The total length of a datagram, header included, is a 16-bit field (section 3.1 of RFC 791). */
  const MAXIMUM_DATAGRAM := 0xFFFF
  const PACKET_ID := 54321
  const SOURCE: seq<Byte> := [192, 168, 1, 1]
  const DESTINATION: seq<Byte> := [192, 168, 1, 2]

  // ---------------------------------------------------------------- the IP header

  /** The bytes of `htons(x)` in memory: the low 16 bits in network order, high byte first. */
  function High(x: int): Byte {
    x / 256 % 256
  }

  function Low(x: int): Byte {
    x % 256
  }

  function NetworkWord(high: Byte, low: Byte): nat {
    256 * (high as int) + low as int
  }

  /** Offset and flag of a 16-bit flags-and-offset word. */
  function OffsetBits(word: nat): nat {
    word % 0x2000
  }

  predicate MoreBit(word: nat) {
    word / 0x2000 % 2 == 1
  }

  /** `offset | (more ? 0x2000 : 0)`. */
  function FragmentField(offset: nat, more: bool): nat {
    if more && !MoreBit(offset) then offset + 0x2000 else offset
  }

  /** The header while its checksum field is still zero. */
  function BlankHeader(src: seq<Byte>, dst: seq<Byte>, id: int, offset: nat, more: bool, length: nat): (h: seq<Byte>)
    requires |src| == 4 && |dst| == 4
    ensures |h| == HEADER_LENGTH && h[10] == 0 && h[11] == 0
  {
    var total, field := HEADER_LENGTH + length, FragmentField(offset, more);
    [0x45, 0, High(total), Low(total), High(id), Low(id), High(field), Low(field), 64, 17, 0, 0,
     src[0], src[1], src[2], src[3], dst[0], dst[1], dst[2], dst[3]]
  }

  function Header(src: seq<Byte>, dst: seq<Byte>, id: int, offset: nat, more: bool, length: nat): (h: seq<Byte>)
    requires |src| == 4 && |dst| == 4
    ensures |h| == HEADER_LENGTH && |h| % 2 == 0
  {
    var blank := BlankHeader(src, dst, id, offset, more, length);
    var check := ChecksumOf(blank);
    blank[10 := check % 256][11 := check / 256]
  }

  /** Writes the header into the first twenty bytes of the buffer, the checksum field last. */
  method CreateIpHeader(buffer: array<Byte>, src: seq<Byte>, dst: seq<Byte>, id: int, offset: nat, more: bool,
                        length: nat)
    requires HEADER_LENGTH <= buffer.Length && |src| == 4 && |dst| == 4
    modifies buffer
    ensures buffer[..HEADER_LENGTH] == Header(src, dst, id, offset, more, length)
    ensures HeaderFields(buffer[..HEADER_LENGTH], src, dst, id, offset, more, length)
    ensures ChecksumOf(buffer[..HEADER_LENGTH]) == 0
    ensures buffer[HEADER_LENGTH..] == old(buffer[HEADER_LENGTH..])
  {
    hide ChecksumOf, HeaderFields;
    HeaderHolds(src, dst, id, offset, more, length);
    HeaderVerifies(src, dst, id, offset, more, length);
    WriteBlankHeader(buffer, src, dst, id, offset, more, length);
    var check := Checksum.Checksum(buffer, HEADER_LENGTH);
    buffer[10], buffer[11] := check % 256, check / 256;
  }

  /** The field assignments up to `iph->daddr`, with `iph->check = 0`. */
  method WriteBlankHeader(buffer: array<Byte>, src: seq<Byte>, dst: seq<Byte>, id: int, offset: nat, more: bool,
                          length: nat)
    requires HEADER_LENGTH <= buffer.Length && |src| == 4 && |dst| == 4
    modifies buffer
    ensures buffer[..HEADER_LENGTH] == BlankHeader(src, dst, id, offset, more, length)
    ensures buffer[HEADER_LENGTH..] == old(buffer[HEADER_LENGTH..])
  {
    hide FragmentField, High, Low;
    WriteFixedFields(buffer, HEADER_LENGTH + length, id, FragmentField(offset, more));
    buffer[12], buffer[13], buffer[14], buffer[15] := src[0], src[1], src[2], src[3];
    buffer[16], buffer[17], buffer[18], buffer[19] := dst[0], dst[1], dst[2], dst[3];
  }

  method WriteFixedFields(buffer: array<Byte>, total: nat, id: int, field: nat)
    requires HEADER_LENGTH <= buffer.Length
    modifies buffer
    ensures buffer[..12] == [0x45, 0, High(total), Low(total), High(id), Low(id), High(field), Low(field), 64, 17, 0, 0]
    ensures buffer[12..] == old(buffer[12..])
  {
    hide High, Low;
    buffer[0], buffer[1] := 0x45, 0;
    buffer[2], buffer[3] := High(total), Low(total);
    buffer[4], buffer[5] := High(id), Low(id);
    buffer[6], buffer[7] := High(field), Low(field);
    buffer[8], buffer[9], buffer[10], buffer[11] := 64, 17, 0, 0;
  }

  /** Setting bit 13 by `|` leaves the other bits of the field alone. */
  lemma FieldBits(offset: nat, more: bool)
    ensures var f := FragmentField(offset, more);
      && f % 0x2000 == offset % 0x2000 && f / 0x4000 == offset / 0x4000
      && (f / 0x2000 % 2 == 1 <==> more || offset / 0x2000 % 2 == 1)
  {
    if more && !MoreBit(offset) {
      NextWindow(offset);
      var q := offset / 0x4000;
      assert offset == 0x4000 * q + offset % 0x4000;
      assert offset % 0x4000 < 0x2000 by {
        HighHalf(offset);
      }
    }
  }

  lemma HighHalf(x: nat)
    ensures x % 0x4000 >= 0x2000 <==> MoreBit(x)
  {
    var q, r := x / 0x4000, x % 0x4000;
    if r < 0x2000 {
      Window(x, 2 * q, r);
      SameParity(0, q);
    } else {
      Window(x, 2 * q + 1, r - 0x2000);
      SameParity(1, q);
    }
  }

  /** Byte by byte, with the 16-bit fields high byte first. */
  predicate HeaderFields(h: seq<Byte>, src: seq<Byte>, dst: seq<Byte>, id: int, offset: nat, more: bool, length: nat) {
    && |h| == 20 && h[0] == 0x45 && h[1] == 0
    && 256 * (h[2] as int) + h[3] as int == (20 + length) % 0x1_0000
    && 256 * (h[4] as int) + h[5] as int == id % 0x1_0000
    && 256 * (h[6] as int) + h[7] as int == FragmentField(offset, more) % 0x1_0000
    && h[8] == 64 && h[9] == 17
    && h[12..16] == src && h[16..20] == dst
  }

  /** What the finished header holds besides its checksum. */
  lemma HeaderHolds(src: seq<Byte>, dst: seq<Byte>, id: int, offset: nat, more: bool, length: nat)
    requires |src| == 4 && |dst| == 4
    ensures HeaderFields(Header(src, dst, id, offset, more, length), src, dst, id, offset, more, length)
  {
    hide ChecksumOf, FragmentField, High, Low;
    var h := Header(src, dst, id, offset, more, length);
    BytesOfWord(HEADER_LENGTH + length);
    BytesOfWord(id);
    BytesOfWord(FragmentField(offset, more));
    assert h[12..16] == src && h[16..20] == dst;
  }

  lemma BytesOfWord(x: int)
    ensures 256 * (High(x) as int) + Low(x) as int == x % 0x1_0000
  {
    var h, l := x / 256, x % 256;
    Quotient(x, 0x1_0000, h / 256, 256 * (h % 256) + l);
  }

  /** The header of the first packet of a run whose first message has more than 9000 bytes. */
  lemma FirstHeader()
    ensures var h := Header(SOURCE, DESTINATION, PACKET_ID, 0, true, 9000);
      && h[..10] == [0x45, 0x00, 0x23, 0x3C, 0xD4, 0x31, 0x20, 0x00, 0x40, 0x11]
      && h[12..] == [192, 168, 1, 1, 192, 168, 1, 2]
  {
    hide ChecksumOf;
  }

  /**
   * Header self-verification: the checksum over every finished header is zero, and it still is when
   * every word is read in the other byte order.
   */
  lemma HeaderVerifies(src: seq<Byte>, dst: seq<Byte>, id: int, offset: nat, more: bool, length: nat)
    requires |src| == 4 && |dst| == 4
    ensures ChecksumOf(Header(src, dst, id, offset, more, length)) == 0
    ensures ChecksumOf(SwapBytes(Header(src, dst, id, offset, more, length))) == 0
  {
    hide ChecksumOf;
    var blank := BlankHeader(src, dst, id, offset, more, length);
    var h := Header(src, dst, id, offset, more, length);
    assert h[10 := 0][11 := 0] == blank;
    StoredChecksumVerifies(h, 10);
  }

  // ---------------------------------------------------------------- a receiving host

  datatype Fragment = Fragment(offset: nat, more: bool, payload: seq<Byte>)

  /** How a host reads a packet: version and header length, total length and checksum must agree. */
  function ReadFragment(packet: seq<Byte>): Option<Fragment> {
    if |packet| < HEADER_LENGTH || packet[0] != 0x45 then None
    else if NetworkWord(packet[2], packet[3]) != |packet| || ChecksumOf(packet[..HEADER_LENGTH]) != 0 then None
    else
      var field := NetworkWord(packet[6], packet[7]);
      Some(Fragment(OffsetBits(field), MoreBit(field), packet[HEADER_LENGTH..]))
  }

  /** What else a host reads from the header of a packet it has accepted. */
  datatype Envelope = Envelope(tos: Byte, id: nat, ttl: Byte, protocol: Byte, source: seq<Byte>, destination: seq<Byte>)

  function ReadEnvelope(packet: seq<Byte>): Option<Envelope> {
    if ReadFragment(packet) == None then None
    else Some(Envelope(packet[1], NetworkWord(packet[4], packet[5]), packet[8], packet[9], packet[12..16], packet[16..20]))
  }

  /** Data that starts at byte 8 * offset of a datagram and ends it leaves the datagram short enough. */
  predicate Fits(offset: nat, data: seq<Byte>) {
    HEADER_LENGTH + 8 * offset + |data| <= MAXIMUM_DATAGRAM
  }

  /**
   * `message` can be rebuilt from these fragments starting at byte 8 * offset: each piece continues
   * where the previous one ended, only the piece with more-fragments clear ends the message, and the
   * length it gives the datagram can be written in its header.
   */
  ghost predicate Assembles(fragments: set<Fragment>, offset: nat, message: seq<Byte>)
    decreases |message|
  {
    exists f :: f in fragments && f.offset == offset && f.payload <= message &&
      if f.more then
        |f.payload| > 0 && |f.payload| % 8 == 0 &&
        Assembles(fragments, offset + |f.payload| / 8, message[|f.payload|..])
      else f.payload == message && Fits(offset, message)
  }

  // ---------------------------------------------------------------- the fragmenter

  function Count(message: seq<Byte>): (n: nat)
    ensures FRAGMENT_SIZE * (n - 1) < |message| <= FRAGMENT_SIZE * n || n == |message| == 0
  {
    (|message| + FRAGMENT_SIZE - 1) / FRAGMENT_SIZE
  }

  function Chunk(message: seq<Byte>, j: nat): (chunk: seq<Byte>)
    requires j < Count(message)
    ensures 0 < |chunk| <= FRAGMENT_SIZE
    ensures j + 1 < Count(message) ==> |chunk| == FRAGMENT_SIZE
    ensures j + 1 >= Count(message) ==> |chunk| == |message| - FRAGMENT_SIZE * j
  {
    if FRAGMENT_SIZE * (j + 1) < |message| then message[FRAGMENT_SIZE * j..FRAGMENT_SIZE * (j + 1)]
    else message[FRAGMENT_SIZE * j..]
  }

  /** The j-th packet of the datagram whose first fragment has offset `base`. */
  function WirePacket(message: seq<Byte>, base: nat, j: nat): seq<Byte>
    requires j < Count(message)
  {
    Header(SOURCE, DESTINATION, PACKET_ID, base + OFFSET_STEP * j, j + 1 < Count(message), |Chunk(message, j)|)
    + Chunk(message, j)
  }

  function Fragments(message: seq<Byte>, base: nat): seq<seq<Byte>> {
    seq(Count(message), j requires 0 <= j < Count(message) => WirePacket(message, base, j))
  }

  /**
   * The send loop for one message: every header and chunk fits the 10000-byte buffer, and `offset`
   * goes on from the value the previous message left.
   */
  method SendMessage(sendBuf: seq<Byte>, base: nat) returns (packets: seq<seq<Byte>>, offset: nat)
    ensures packets == Fragments(sendBuf, base)
    ensures offset == base + OFFSET_STEP * Count(sendBuf)
  {
    hide Header, Chunk, Count;
    packets, offset := [], base;
    var i := 0;
    while i < |sendBuf|
      invariant i == FRAGMENT_SIZE * |packets|
      invariant |packets| <= Count(sendBuf)
      invariant offset == base + OFFSET_STEP * |packets|
      invariant forall j :: 0 <= j < |packets| ==> packets[j] == WirePacket(sendBuf, base, j)
    {
      var packet := BuildPacket(sendBuf, i, offset, |packets|);
      packets := packets + [packet];
      offset := offset + FRAGMENT_SIZE / 8;
      i := i + FRAGMENT_SIZE;
    }
  }

  /** One iteration of the send loop: header and chunk are laid out in a zeroed local buffer. */
  method BuildPacket(sendBuf: seq<Byte>, i: nat, offset: nat, ghost j: nat) returns (packet: seq<Byte>)
    requires j < Count(sendBuf) && i == FRAGMENT_SIZE * j
    ensures packet == Header(SOURCE, DESTINATION, PACKET_ID, offset, j + 1 < Count(sendBuf), |Chunk(sendBuf, j)|)
                      + Chunk(sendBuf, j)
  {
    hide Header, Count, HeaderFields, ChecksumOf;
    var buffer := new Byte[MAXIMUM_PACKET_SIZE](_ => 0);
    var length := if FRAGMENT_SIZE < |sendBuf| - i then FRAGMENT_SIZE else |sendBuf| - i;
    ghost var chunk := Chunk(sendBuf, j);
    CreateIpHeader(buffer, SOURCE, DESTINATION, PACKET_ID, offset, i + FRAGMENT_SIZE < |sendBuf|, length);
    ghost var header := buffer[..HEADER_LENGTH];
    for k := 0 to length
      invariant buffer[..HEADER_LENGTH + k] == header + chunk[..k]
    {
      assert chunk[k] == sendBuf[i + k] && chunk[..k + 1] == chunk[..k] + [chunk[k]];
      buffer[HEADER_LENGTH + k] := sendBuf[i + k];
    }
    packet := buffer[..HEADER_LENGTH + length];
  }

  // ---------------------------------------------------------------- what a host reads

  /** Bit 13 of the offset is the more-fragments flag, and only 13 bits of offset survive. */
  function FragmentAt(message: seq<Byte>, base: nat, j: nat): Fragment
    requires j < Count(message)
  {
    var offset := base + OFFSET_STEP * j;
    Fragment(OffsetBits(offset), j + 1 < Count(message) || MoreBit(offset), Chunk(message, j))
  }

  lemma FieldDecodes(offset: nat, more: bool)
    ensures var f := FragmentField(offset, more);
            var word := NetworkWord(High(f), Low(f));
            OffsetBits(word) == OffsetBits(offset) && (MoreBit(word) <==> more || MoreBit(offset))
  {
    hide High, Low, NetworkWord;
    var f := FragmentField(offset, more);
    WordDecodes(f);
    LowBits(f);
    if f != offset {
      NextWindow(offset);
    }
  }

  lemma LowBits(f: nat)
    ensures OffsetBits(f % 0x1_0000) == OffsetBits(f)
    ensures MoreBit(f % 0x1_0000) <==> MoreBit(f)
  {
    var b, w := f / 0x1_0000, f % 0x1_0000;
    var q, r := w / 0x2000, w % 0x2000;
    assert f == 0x2000 * (8 * b + q) + r;
    Window(f, 8 * b + q, r);
    SameParity(q, 4 * b);
  }

  lemma Window(n: nat, q: nat, r: nat)
    requires n == 0x2000 * q + r && r < 0x2000
    ensures n / 0x2000 == q && n % 0x2000 == r
  {
  }

  lemma SameParity(q: nat, k: nat)
    ensures (2 * k + q) % 2 == q % 2
  {
  }

  lemma NextWindow(offset: nat)
    ensures OffsetBits(offset + 0x2000) == OffsetBits(offset)
    ensures MoreBit(offset + 0x2000) <==> !MoreBit(offset)
  {
    Window(offset + 0x2000, offset / 0x2000 + 1, offset % 0x2000);
  }

  lemma WordDecodes(x: nat)
    ensures NetworkWord(High(x), Low(x)) == x % 0x1_0000
  {
    var h, l := x / 256, x % 256;
    LowWord(x, h / 256, 256 * (h % 256) + l);
  }

  lemma LowWord(n: nat, q: nat, r: nat)
    requires n == 0x1_0000 * q + r && r < 0x1_0000
    ensures n % 0x1_0000 == r
  {
  }

  /**
   * A host accepts the j-th packet sent and reads the j-th chunk, the low 13 bits of its offset, the flag, and
   * the identity all datagrams of all runs share.
   */
  lemma HostReadsPacket(message: seq<Byte>, base: nat, j: nat)
    requires j < Count(message)
    ensures |Fragments(message, base)| == Count(message) && Fragments(message, base)[j] == WirePacket(message, base, j)
    ensures |WirePacket(message, base, j)| <= MAXIMUM_PACKET_SIZE
    ensures ReadFragment(WirePacket(message, base, j)) == Some(FragmentAt(message, base, j))
    ensures ReadEnvelope(WirePacket(message, base, j)) ==
            Some(Envelope(0, 54321, 64, 17, [192, 168, 1, 1], [192, 168, 1, 2]))
  {
    hide Header, FragmentAt, ReadFragment, ReadEnvelope;
    var chunk, more, offset := Chunk(message, j), j + 1 < Count(message), base + OFFSET_STEP * j;
    ReadsFragment(offset, more, chunk);
    ReadsEnvelope(offset, more, chunk);
    assert FragmentAt(message, base, j) == Fragment(OffsetBits(offset), more || MoreBit(offset), chunk) by {
      AtOffset(message, base, j);
    }
  }

  lemma AtOffset(message: seq<Byte>, base: nat, j: nat)
    requires j < Count(message)
    ensures var offset := base + OFFSET_STEP * j;
      FragmentAt(message, base, j) == Fragment(OffsetBits(offset), j + 1 < Count(message) || MoreBit(offset), Chunk(message, j))
  {
  }

  lemma HeaderFirst(header: seq<Byte>, chunk: seq<Byte>)
    requires |header| == HEADER_LENGTH
    ensures var packet := header + chunk;
      && packet[..HEADER_LENGTH] == header && packet[HEADER_LENGTH..] == chunk
      && packet[12..16] == header[12..16] && packet[16..20] == header[16..20]
      && forall k :: 0 <= k < HEADER_LENGTH ==> packet[k] == header[k]
  {
  }

  /** A packet whose header says so is accepted. */
  lemma ReadsFragment(offset: nat, more: bool, chunk: seq<Byte>)
    requires |chunk| <= FRAGMENT_SIZE
    ensures ReadFragment(Header(SOURCE, DESTINATION, PACKET_ID, offset, more, |chunk|) + chunk) ==
            Some(Fragment(OffsetBits(offset), more || MoreBit(offset), chunk))
  {
    hide ChecksumOf, FragmentField, High, Low, OffsetBits, MoreBit, Header;
    var header := Header(SOURCE, DESTINATION, PACKET_ID, offset, more, |chunk|);
    HeaderFirst(header, chunk);
    HeaderHolds(SOURCE, DESTINATION, PACKET_ID, offset, more, |chunk|);
    HeaderVerifies(SOURCE, DESTINATION, PACKET_ID, offset, more, |chunk|);
    FieldDecodes(offset, more);
    WordDecodes(FragmentField(offset, more));
  }

  lemma ReadsEnvelope(offset: nat, more: bool, chunk: seq<Byte>)
    requires |chunk| <= FRAGMENT_SIZE
    ensures ReadEnvelope(Header(SOURCE, DESTINATION, PACKET_ID, offset, more, |chunk|) + chunk) ==
            Some(Envelope(0, 54321, 64, 17, [192, 168, 1, 1], [192, 168, 1, 2]))
  {
    hide ReadFragment, FragmentField, Header;
    var header := Header(SOURCE, DESTINATION, PACKET_ID, offset, more, |chunk|);
    HeaderFirst(header, chunk);
    HeaderHolds(SOURCE, DESTINATION, PACKET_ID, offset, more, |chunk|);
    ReadsFragment(offset, more, chunk);
  }

  // ---------------------------------------------------------------- tiling

  function Concat(chunks: seq<seq<Byte>>): seq<Byte> {
    if chunks == [] then [] else Concat(chunks[..|chunks| - 1]) + chunks[|chunks| - 1]
  }

  function Chunks(message: seq<Byte>, n: nat): (chunks: seq<seq<Byte>>)
    requires n <= Count(message)
    ensures |chunks| == n
  {
    seq(n, j requires 0 <= j < n => Chunk(message, j))
  }

  /** The chunks tile the message: no gap, no overlap, and all but the last hold 9000 bytes. */
  lemma ChunksTile(message: seq<Byte>)
    ensures Concat(Chunks(message, Count(message))) == message
    ensures forall j :: 0 <= j < Count(message) ==>
      0 < |Chunk(message, j)| <= FRAGMENT_SIZE && (j + 1 < Count(message) ==> |Chunk(message, j)| == 8 * OFFSET_STEP)
  {
    ChunksTilePrefix(message, Count(message));
  }

  lemma {:induction false} ChunksTilePrefix(message: seq<Byte>, n: nat)
    requires n <= Count(message)
    ensures Concat(Chunks(message, n)) ==
      if FRAGMENT_SIZE * n < |message| then message[..FRAGMENT_SIZE * n] else message
  {
    if n > 0 {
      ChunksTilePrefix(message, n - 1);
      hide Count, Chunk;
      assert Chunks(message, n)[..n - 1] == Chunks(message, n - 1);
      PrefixGrows(message, n - 1);
    }
  }

  lemma PrefixGrows(message: seq<Byte>, n: nat)
    requires n < Count(message)
    ensures FRAGMENT_SIZE * n < |message|
    ensures message[..FRAGMENT_SIZE * n] + Chunk(message, n) ==
      if FRAGMENT_SIZE * (n + 1) < |message| then message[..FRAGMENT_SIZE * (n + 1)] else message
  {
  }

  // ---------------------------------------------------------------- reassembly

  /** What a host has read after these packets arrived, in any order and with any repetition. */
  ghost function ReadAll(arrived: seq<seq<Byte>>): set<Fragment> {
    set p | p in arrived && ReadFragment(p).Some? :: ReadFragment(p).value
  }

  ghost function SentFragments(message: seq<Byte>, base: nat): set<Fragment> {
    set j | 0 <= j < Count(message) :: FragmentAt(message, base, j)
  }

  /** The datagram starts at `origin` of a 13-bit window with the flag bit clear, and is short enough. */
  predicate InWindow(message: seq<Byte>, base: nat, origin: nat) {
    OffsetBits(base) == origin && !MoreBit(base) && Fits(origin, message)
  }

  /** Then all its offsets stay in the window. */
  lemma StaysInWindow(message: seq<Byte>, base: nat, origin: nat, j: nat)
    requires InWindow(message, base, origin) && j < Count(message)
    ensures origin + OFFSET_STEP * j < 0x2000
  {
  }

  /**
   * Fragmentation and reassembly are inverse, whatever order the packets arrive in, exactly when the
   * datagram starts at `origin` of a 13-bit window with the flag bit clear and its length, counted from
   * the origin of the window, can be written in a header; and then nothing but the message can be
   * assembled.
   */
  lemma ReassemblyExact(message: seq<Byte>, base: nat, origin: nat, arrived: seq<seq<Byte>>)
    requires message != []
    requires forall p :: p in arrived <==> p in Fragments(message, base)
    ensures Assembles(ReadAll(arrived), origin, message) <==> InWindow(message, base, origin)
    ensures InWindow(message, base, origin) ==>
      forall m :: Assembles(ReadAll(arrived), origin, m) ==> m == message
  {
    hide ReadAll, SentFragments, InWindow, Assembles, Count;
    ReadAllIsSent(message, base, arrived);
    assert Rest(message, 0) == message;
    var fragments := SentFragments(message, base);
    if InWindow(message, base, origin) {
      AssemblesFrom(message, base, origin, 0);
      forall m | Assembles(fragments, origin, m) ensures m == message {
        AssemblesOnly(message, base, origin, 0, m);
      }
    }
    if Assembles(fragments, origin, message) {
      AssemblesInWindow(message, base, origin, 0);
    }
  }

  lemma ReadAllIsSent(message: seq<Byte>, base: nat, arrived: seq<seq<Byte>>)
    requires forall p :: p in arrived <==> p in Fragments(message, base)
    ensures ReadAll(arrived) == SentFragments(message, base)
  {
    hide ReadFragment, WirePacket, FragmentAt;
    var packets := Fragments(message, base);
    forall j | 0 <= j < Count(message)
      ensures packets[j] == WirePacket(message, base, j)
      ensures ReadFragment(packets[j]) == Some(FragmentAt(message, base, j))
    {
      HostReadsPacket(message, base, j);
    }
    forall f | f in SentFragments(message, base) ensures f in ReadAll(arrived) {
      var j :| 0 <= j < Count(message) && f == FragmentAt(message, base, j);
      assert packets[j] in arrived;
    }
    forall f | f in ReadAll(arrived) ensures f in SentFragments(message, base) {
      var p :| p in arrived && ReadFragment(p).Some? && ReadFragment(p).value == f;
      var j :| 0 <= j < |packets| && packets[j] == p;
    }
  }

  /** Inside the window the j-th fragment decodes to origin + 1125 j, and only the last ends. */
  lemma WindowFragment(message: seq<Byte>, base: nat, origin: nat, j: nat)
    requires InWindow(message, base, origin) && j < Count(message)
    ensures FragmentAt(message, base, j) == Fragment(origin + OFFSET_STEP * j, j + 1 < Count(message), Chunk(message, j))
  {
    var offset := base + OFFSET_STEP * j;
    StaysInWindow(message, base, origin, j);
    Window(offset, base / 0x2000, origin + OFFSET_STEP * j);
  }

  function Rest(message: seq<Byte>, i: nat): seq<Byte>
    requires i < Count(message)
  {
    message[FRAGMENT_SIZE * i..]
  }

  lemma RestSplits(message: seq<Byte>, i: nat)
    requires i < Count(message)
    ensures i + 1 < Count(message) ==> Rest(message, i) == Chunk(message, i) + Rest(message, i + 1)
    ensures i + 1 == Count(message) ==> Rest(message, i) == Chunk(message, i)
  {
    if i + 1 < Count(message) {
      assert message[FRAGMENT_SIZE * i..] ==
             message[FRAGMENT_SIZE * i..FRAGMENT_SIZE * (i + 1)] + message[FRAGMENT_SIZE * (i + 1)..];
    }
  }

  lemma {:induction false} AssemblesFrom(message: seq<Byte>, base: nat, origin: nat, i: nat)
    requires InWindow(message, base, origin) && i < Count(message)
    ensures Assembles(SentFragments(message, base), origin + OFFSET_STEP * i, Rest(message, i))
    decreases Count(message) - i
  {
    hide Count, Chunk, Rest, FragmentAt, InWindow, Assembles, Fits, SentFragments;
    var f, rest := FragmentAt(message, base, i), Rest(message, i);
    RestFits(message, base, origin, i);
    IsSent(message, base, i);
    WindowFragment(message, base, origin, i);
    RestSplits(message, i);
    if i + 1 < Count(message) {
      AssemblesFrom(message, base, origin, i + 1);
      assert rest[|f.payload|..] == Rest(message, i + 1);
    }
    AssemblesBy(SentFragments(message, base), origin + OFFSET_STEP * i, rest, f);
  }

  lemma IsSent(message: seq<Byte>, base: nat, j: nat)
    requires j < Count(message)
    ensures FragmentAt(message, base, j) in SentFragments(message, base)
  {
  }

  lemma RestFits(message: seq<Byte>, base: nat, origin: nat, i: nat)
    requires InWindow(message, base, origin) && i < Count(message)
    ensures Fits(origin + OFFSET_STEP * i, Rest(message, i))
  {
    RestLength(message, i);
  }

  lemma AssemblesBy(fragments: set<Fragment>, offset: nat, m: seq<Byte>, f: Fragment)
    requires f in fragments && f.offset == offset && f.payload <= m
    requires if f.more then
               |f.payload| > 0 && |f.payload| % 8 == 0 && Assembles(fragments, offset + |f.payload| / 8, m[|f.payload|..])
             else f.payload == m && Fits(offset, m)
    ensures Assembles(fragments, offset, m)
  {
  }

  lemma {:induction false} AssemblesOnly(message: seq<Byte>, base: nat, origin: nat, i: nat, m: seq<Byte>)
    requires InWindow(message, base, origin) && i < Count(message)
    requires Assembles(SentFragments(message, base), origin + OFFSET_STEP * i, m)
    ensures m == Rest(message, i)
    decreases Count(message) - i
  {
    hide Count, Chunk, Rest, FragmentAt, InWindow, Assembles;
    var f := Piece(SentFragments(message, base), origin + OFFSET_STEP * i, m);
    var j :| 0 <= j < Count(message) && f == FragmentAt(message, base, j);
    WindowFragment(message, base, origin, j);
    assert j == i;
    RestSplits(message, i);
    if f.more {
      AssemblesOnly(message, base, origin, i + 1, m[|f.payload|..]);
      assert m == f.payload + m[|f.payload|..];
    }
  }

  /** The first piece of an assembly. */
  lemma Piece(fragments: set<Fragment>, offset: nat, m: seq<Byte>) returns (f: Fragment)
    requires Assembles(fragments, offset, m)
    ensures f in fragments && f.offset == offset && f.payload <= m
    ensures !f.more ==> f.payload == m && Fits(offset, m)
    ensures f.more ==> |f.payload| > 0 && |f.payload| % 8 == 0 &&
                       Assembles(fragments, offset + |f.payload| / 8, m[|f.payload|..])
  {
    f :| f in fragments && f.offset == offset && f.payload <= m &&
         if f.more then
           |f.payload| > 0 && |f.payload| % 8 == 0 && Assembles(fragments, offset + |f.payload| / 8, m[|f.payload|..])
         else f.payload == m && Fits(offset, m);
  }

  /** Without a piece that ends the message nothing can be assembled. */
  lemma {:induction false} NeverEnds(fragments: set<Fragment>, offset: nat, m: seq<Byte>)
    requires forall f :: f in fragments ==> f.more
    ensures !Assembles(fragments, offset, m)
    decreases |m|
  {
    hide Assembles;
    if Assembles(fragments, offset, m) {
      var f := Piece(fragments, offset, m);
      NeverEnds(fragments, offset + |f.payload| / 8, m[|f.payload|..]);
    }
  }

  lemma {:induction false} AssemblesInWindow(message: seq<Byte>, base: nat, origin: nat, i: nat)
    requires i < Count(message)
    requires Assembles(SentFragments(message, base), origin + OFFSET_STEP * i, Rest(message, i))
    ensures InWindow(message, base, origin)
    decreases Count(message) - i
  {
    hide Count, Chunk, Rest, OffsetBits, MoreBit, Assembles;
    var last, here := Count(message) - 1, origin + OFFSET_STEP * i;
    if MoreBit(base + OFFSET_STEP * last) {
      NeverEnds(SentFragments(message, base), here, Rest(message, i));
    } else {
      var f := Piece(SentFragments(message, base), here, Rest(message, i));
      var j :| 0 <= j <= last && f == FragmentAt(message, base, j);
      RestLength(message, i);
      RestSplits(message, i);
      if f.more {
        assert Rest(message, i)[FRAGMENT_SIZE..] == Rest(message, i + 1);
        AssemblesInWindow(message, base, origin, i + 1);
      } else {
        SameWindow(base, OFFSET_STEP * last, origin);
        assert f.payload == Rest(message, i) && i == last;
      }
    }
  }

  lemma RestLength(message: seq<Byte>, i: nat)
    requires i < Count(message)
    ensures |Rest(message, i)| == |message| - FRAGMENT_SIZE * i
  {
  }

  lemma SameWindow(base: nat, step: nat, origin: nat)
    requires OffsetBits(base + step) == origin + step && !MoreBit(base + step)
    ensures OffsetBits(base) == origin && !MoreBit(base) && origin + step < 0x2000
  {
    var q := (base + step) / 0x2000;
    assert base == 0x2000 * q + origin;
    Window(base, q, origin);
  }

  // ---------------------------------------------------------------- which datagrams of a run survive

  /**
   * `offset` is never reset, so after n fragments the next datagram starts at 1125 n. A host, which
   * assembles from offset 0, can rebuild it exactly when n is a multiple of 16384 and it is no longer than
   * a datagram may be: the first datagram of a run, if it is that short.
   */
  lemma HostRebuildsDatagram(message: seq<Byte>, n: nat, arrived: seq<seq<Byte>>)
    requires message != []
    requires forall p :: p in arrived <==> p in Fragments(message, OFFSET_STEP * n)
    ensures Assembles(ReadAll(arrived), 0, message) <==>
            n % 0x4000 == 0 && HEADER_LENGTH + |message| <= MAXIMUM_DATAGRAM
  {
    hide ReadAll, Assembles, OffsetBits, MoreBit, Fragments;
    ReassemblyExact(message, OFFSET_STEP * n, 0, arrived);
    OffsetAt(n, 0);
  }

  /** The first offsets of a window are those of the fragment numbers with the same small residue. */
  lemma OffsetAt(x: nat, r: nat)
    requires OFFSET_STEP * r < 0x2000
    ensures OffsetBits(OFFSET_STEP * x) == OFFSET_STEP * r <==> x % 0x2000 == r
    ensures OffsetBits(OFFSET_STEP * x) == OFFSET_STEP * r && !MoreBit(OFFSET_STEP * x) <==> x % 0x4000 == r
  {
    ResidueAt(x, r, 0x2000, 472);
    ResidueAt(x, r, 0x4000, 236);
    LowWindow(OFFSET_STEP * x, OFFSET_STEP * r);
  }

  lemma LowWindow(y: nat, z: nat)
    requires z < 0x2000
    ensures OffsetBits(y) == z && !MoreBit(y) <==> y % 0x4000 == z
  {
    var q, r := y / 0x4000, y % 0x4000;
    if r < 0x2000 {
      Window(y, 2 * q, r);
      SameParity(0, q);
    } else {
      Window(y, 2 * q + 1, r - 0x2000);
      SameParity(1, q);
    }
  }

  /** 1125 * 3437 is 1 modulo both moduli, so multiplying by 1125 keeps residues apart. */
  lemma ResidueAt(x: nat, r: nat, modulus: nat, c: nat)
    requires modulus > 0 && OFFSET_STEP * r < modulus && OFFSET_STEP * 3437 == 1 + modulus * c
    ensures (OFFSET_STEP * x) % modulus == OFFSET_STEP * r <==> x % modulus == r
  {
    if x % modulus == r {
      Multiplied(x, x / modulus, r, modulus);
    }
    if (OFFSET_STEP * x) % modulus == OFFSET_STEP * r {
      Divided(x, (OFFSET_STEP * x) / modulus, r, modulus, c);
    }
  }

  lemma Multiplied(x: nat, q: nat, r: nat, modulus: nat)
    requires x == modulus * q + r && OFFSET_STEP * r < modulus
    ensures (OFFSET_STEP * x) % modulus == OFFSET_STEP * r
  {
    calc {
      OFFSET_STEP * x;
    ==
      OFFSET_STEP * (modulus * q + r);
    ==
      modulus * (OFFSET_STEP * q) + OFFSET_STEP * r;
    }
    Quotient(OFFSET_STEP * x, modulus, OFFSET_STEP * q, OFFSET_STEP * r);
  }

  lemma Divided(x: nat, k: nat, r: nat, modulus: nat, c: nat)
    requires OFFSET_STEP * x == modulus * k + OFFSET_STEP * r && r < modulus && OFFSET_STEP * 3437 == 1 + modulus * c
    ensures x % modulus == r
  {
    var e := 3437 * k + c * r - c * x;
    calc {
      x;
    ==
      (1 + modulus * c) * x - modulus * (c * x);
    ==  { assert (1 + modulus * c) * x == 3437 * (OFFSET_STEP * x); }
      3437 * (modulus * k + OFFSET_STEP * r) - modulus * (c * x);
    ==  { assert 3437 * (OFFSET_STEP * r) == (1 + modulus * c) * r; }
      modulus * (3437 * k) + (1 + modulus * c) * r - modulus * (c * x);
    ==
      modulus * e + r;
    }
    Quotient(x, modulus, e, r);
  }

  lemma Quotient(n: int, modulus: nat, q: int, r: nat)
    requires n == modulus * q + r && r < modulus
    ensures n % modulus == r
  {
    var d, s := n / modulus, n % modulus;
    assert n == modulus * d + s;
    assert modulus * (d - q) == r - s;
    if d != q {
      Apart(modulus, d - q);
    }
  }

  lemma Apart(modulus: int, k: int)
    requires modulus > 0 && k != 0
    ensures modulus * k >= modulus || modulus * k <= -modulus
  {
  }
}
