/** Text formats: the sender's printer, the packet parser and the receiver's filter. */
module Wire {
  import opened Packets
  import opened Order

  /** ']', '-', '-', '-', '>', ' ' */
  const ARROW: seq<Byte> := [93, 45, 45, 45, 62, 32]
  /** '[' */
  const OPEN: Byte := 91

  // ---------------------------------------------------------------- hexadecimal digits

  function Digit(d: int): (c: Byte)
    requires 0 <= d < 16
  {
    if d < 10 then 48 + d else 87 + d
  }

  function DigitValue(c: Byte): Option<int> {
    if 48 <= c <= 57 then Some(c - 48)
    else if 97 <= c <= 102 then Some(c - 87)
    else if 65 <= c <= 70 then Some(c - 55)
    else None
  }

  function HexDigits(n: nat): seq<Byte> {
    if n < 16 then [Digit(n)] else HexDigits(n / 16) + [Digit(n % 16)]
  }

  /** `setfill('0') << setw(2) << hex << n` for a 32-bit `int`. */
  function PrintFrame(n: int): seq<Byte> {
    var digits := HexDigits(n % 0x1_0000_0000);
    if |digits| < 2 then [48] + digits else digits
  }

  predicate IsSpace(c: Byte) {
    c == 32 || 9 <= c <= 13
  }

  /** `std::stoi(s, 0, 16)` on a two-character string; None is the thrown `std::invalid_argument`. */
  function ReadFrame(c0: Byte, c1: Byte): Option<Frame> {
    match (DigitValue(c0), DigitValue(c1))
    case (Some(h), Some(l)) => Some(16 * h + l)
    case (Some(h), None) => Some(h)
    case (None, Some(l)) =>
      if IsSpace(c0) || c0 == 43 then Some(l)
      else if c0 == 45 then Some(-l)
      else None
    case (None, None) => None
  }

  lemma PrintFrameIsTwoDigits(n: int)
    requires 0 <= n < 256
    ensures PrintFrame(n) == [Digit(n / 16), Digit(n % 16)]
  {
    assert n % 0x1_0000_0000 == n;
    if n >= 16 {
      assert HexDigits(n / 16) == [Digit(n / 16)];
    }
  }

  /** Two-digit padded printing, in lower case, and base-16 reading are inverse, in both directions. */
  lemma PrintReadFrame(n: int)
    requires 0 <= n < 256
    ensures |PrintFrame(n)| == 2 && PrintFrame(n) == Text(HexText(n))
    ensures ReadFrame(PrintFrame(n)[0], PrintFrame(n)[1]) == Some(n)
    ensures forall m :: 0 <= m < 256 && PrintFrame(m) == PrintFrame(n) ==> m == n
  {
    hide PrintFrame, ReadFrame, HexText, Text;
    ReadsBack(n);
    FrameIsPrinted(n);
    forall m | 0 <= m < 256 && PrintFrame(m) == PrintFrame(n) ensures m == n {
      ReadsBack(m);
    }
  }

  lemma ReadsBack(n: int)
    requires 0 <= n < 256
    ensures |PrintFrame(n)| == 2
    ensures ReadFrame(PrintFrame(n)[0], PrintFrame(n)[1]) == Some(n)
  {
    PrintFrameIsTwoDigits(n);
  }

  // ---------------------------------------------------------------- the same in characters

  const HEX := "0123456789abcdef"
  const UPPER_HEX := "0123456789ABCDEF"

  predicate Ascii(text: string) {
    forall i :: 0 <= i < |text| ==> text[i] as int < 128
  }

  function Text(text: string): (bytes: seq<Byte>)
    requires Ascii(text)
    ensures |bytes| == |text|
  {
    seq(|text|, i requires 0 <= i < |text| => text[i] as int)
  }

  /** What `std::hex` with a width of two prints for one byte. */
  function HexText(n: int): (text: string)
    requires 0 <= n < 256
    ensures Ascii(text) && |text| == 2
  {
    [HEX[n / 16], HEX[n % 16]]
  }

  /** Frame numbers are printed as two lower-case digits. */
  lemma FrameIsPrinted(n: int)
    requires 0 <= n < 256
    ensures PrintFrame(n) == Text(HexText(n))
  {
    PrintFrameIsTwoDigits(n);
  }

  /** Digits of both cases are read. */
  lemma DigitsRead(c: Byte, d: int)
    requires 0 <= d < 16
    ensures DigitValue(c) == Some(d) <==> c == HEX[d] as int || c == UPPER_HEX[d] as int
  {
  }

  /** The six characters that count as white space, vertical tab and form feed among them. */
  lemma SpacesRead(c: Byte)
    ensures IsSpace(c) <==> c == ' ' as int || c == '\t' as int || c == '\n' as int || c == '\r' as int || c == 11 || c == 12
  {
  }

  function SkipSpaces(text: seq<Byte>): seq<Byte> {
    if text != [] && IsSpace(text[0]) then SkipSpaces(text[1..]) else text
  }

  /** The digits at the start of a text. */
  function LeadingDigits(text: seq<Byte>): seq<int> {
    if text == [] || DigitValue(text[0]) == None then [] else [DigitValue(text[0]).value] + LeadingDigits(text[1..])
  }

  function Value(digits: seq<int>): int {
    if digits == [] then 0 else 16 * Value(digits[..|digits| - 1]) + digits[|digits| - 1]
  }

  /** `std::stoi(text, 0, 16)`: spaces, a sign, a prefix, and as many digits as follow, but at least one. */
  function Stoi(text: seq<Byte>): Option<int> {
    var rest := SkipSpaces(text);
    var signed := rest != [] && (rest[0] == '+' as int || rest[0] == '-' as int);
    var number := if signed then rest[1..] else rest;
    var prefixed := |number| >= 3 && number[0] == '0' as int && (number[1] == 'x' as int || number[1] == 'X' as int) &&
      DigitValue(number[2]).Some?;
    var digits := LeadingDigits(if prefixed then number[2..] else number);
    if digits == [] then None
    else Some(if signed && rest[0] == '-' as int then -Value(digits) else Value(digits))
  }

  /** On two characters that comes to what `ReadFrame` says. */
  lemma ReadFrameIsStoi(c0: Byte, c1: Byte)
    ensures ReadFrame(c0, c1) == Stoi([c0, c1])
  {
    var text := [c0, c1];
    assert text[1..] == [c1] && [c1][1..] == [];
    OneDigit(c1);
    if DigitValue(c0).Some? {
      assert SkipSpaces(text) == text;
      assert LeadingDigits(text) == [DigitValue(c0).value] + LeadingDigits([c1]);
      if DigitValue(c1).Some? {
        var digits := [DigitValue(c0).value, DigitValue(c1).value];
        assert digits[..1] == [DigitValue(c0).value];
        OneValue(DigitValue(c0).value);
        assert Value(digits) == 16 * Value([DigitValue(c0).value]) + digits[1];
        assert LeadingDigits(text) == digits;
      } else {
        OneValue(DigitValue(c0).value);
      }
    } else if IsSpace(c0) {
      assert SkipSpaces(text) == SkipSpaces([c1]);
      if IsSpace(c1) {
        assert SkipSpaces([c1]) == [];
      }
    }
  }

  lemma OneDigit(c: Byte)
    ensures LeadingDigits([c]) == if DigitValue(c).Some? then [DigitValue(c).value] else []
    ensures DigitValue(c).Some? ==> Value(LeadingDigits([c])) == DigitValue(c).value
  {
    assert [c][1..] == [];
    if DigitValue(c).Some? {
      OneValue(DigitValue(c).value);
    }
  }

  lemma OneValue(d: int)
    ensures Value([d]) == d
  {
    assert [d][..0] == [];
  }

  // ---------------------------------------------------------------- the sender

  /** One raw message: "[" id "]---> " frame payload. */
  function Message(id: seq<Byte>, frame: int, payload: seq<Byte>): seq<Byte> {
    [OPEN] + id + ARROW + PrintFrame(frame) + payload
  }

  /** The text of a message, character by character. */
  lemma MessageIsPrinted(id: seq<Byte>, frame: int, payload: seq<Byte>)
    requires 0 <= frame < 256
    ensures Message(id, frame, payload) == Text("[") + id + Text("]---> ") + Text(HexText(frame)) + payload
  {
    hide PrintFrame, HexText;
    FrameIsPrinted(frame);
    assert Text("[") == [OPEN];
    assert Text("]---> ") == ARROW;
  }

  function Successes(outcomes: seq<bool>): nat {
    if outcomes == [] then 0
    else Successes(outcomes[..|outcomes| - 1]) + if outcomes[|outcomes| - 1] then 1 else 0
  }

  /** The number of sends that succeed. */
  lemma {:induction false} SuccessesCount(outcomes: seq<bool>)
    ensures Successes(outcomes) == |set j | 0 <= j < |outcomes| && outcomes[j]|
  {
    if outcomes != [] {
      var n := |outcomes| - 1;
      SuccessesCount(outcomes[..n]);
      hide Successes;
      SuccessesSnoc(outcomes, n);
      assert outcomes[..n + 1] == outcomes;
      var before := set j | 0 <= j < n && outcomes[..n][j];
      var all := set j | 0 <= j < |outcomes| && outcomes[j];
      assert all == if outcomes[n] then before + {n} else before;
    }
  }

  /** The attempts whose send succeeds. */
  function Succeeding(outcomes: seq<bool>): set<nat> {
    set j | 0 <= j < |outcomes| && outcomes[j]
  }

  lemma SucceedingSnoc(outcomes: seq<bool>, j: nat)
    requires j < |outcomes|
    ensures Succeeding(outcomes[..j + 1]) == Succeeding(outcomes[..j]) + if outcomes[j] then {j} else {}
    ensures forall k :: k in Succeeding(outcomes[..j]) ==> k < j
  {
  }

  lemma NextNumber(n: nat, f: nat)
    requires f == n % 255
    ensures (n + 1) % 255 == if f + 1 == 0xff then 0 else f + 1
  {
  }

  lemma SuccessesSnoc(outcomes: seq<bool>, j: nat)
    requires j < |outcomes|
    ensures Successes(outcomes[..j + 1]) == Successes(outcomes[..j]) + if outcomes[j] then 1 else 0
  {
    assert outcomes[..j + 1][..j] == outcomes[..j];
  }

  /** The formatting at the start of the loop body. */
  method Format(id: seq<Byte>, frameNumber: int, payload: seq<Byte>) returns (sendBuf: seq<Byte>)
    ensures sendBuf == Message(id, frameNumber, payload)
  {
    sendBuf := [OPEN] + id + ARROW + PrintFrame(frameNumber) + payload;
  }

  /** Every attempt so far carried the number of successes before it. */
  predicate Numbered(id: seq<Byte>, payload: seq<Byte>, outcomes: seq<bool>, attempts: seq<seq<Byte>>) {
    |attempts| <= |outcomes| && forall j :: 0 <= j < |attempts| ==>
      attempts[j] == Message(id, Successes(outcomes[..j]) % 255, payload)
  }

  lemma NumberedSnoc(id: seq<Byte>, payload: seq<Byte>, outcomes: seq<bool>, attempts: seq<seq<Byte>>, x: seq<Byte>)
    requires Numbered(id, payload, outcomes, attempts) && |attempts| < |outcomes|
    requires x == Message(id, Successes(outcomes[..|attempts|]) % 255, payload)
    ensures Numbered(id, payload, outcomes, attempts + [x])
  {
    hide Message, Successes;
  }

  /** A failed send is tried again with the same message. */
  lemma Retried(id: seq<Byte>, payload: seq<Byte>, outcomes: seq<bool>, attempts: seq<seq<Byte>>, j: nat)
    requires Numbered(id, payload, outcomes, attempts) && j + 1 < |attempts| && !outcomes[j]
    ensures attempts[j + 1] == attempts[j]
  {
    hide Message, Successes;
    SuccessesSnoc(outcomes, j);
  }

  /** The messages that get through carry 0 to 254 over and over. */
  predicate Counted(id: seq<Byte>, payload: seq<Byte>, sent: seq<seq<Byte>>) {
    forall n :: 0 <= n < |sent| ==> sent[n] == Message(id, n % 255, payload)
  }

  lemma CountedSnoc(id: seq<Byte>, payload: seq<Byte>, sent: seq<seq<Byte>>, x: seq<Byte>)
    requires Counted(id, payload, sent) && x == Message(id, |sent| % 255, payload)
    ensures Counted(id, payload, sent + [x])
  {
    hide Message;
  }

  /**
   * The transmit loop. `outcomes[j]` says whether the j-th `sendto` succeeds; `sent` is what reached
   * the wire: exactly the attempts that succeed, in order. The n-th message that gets through carries
   * n mod 255, however many attempts failed; after a failed one the same message is tried again.
   */
  method StartTransmitting(id: seq<Byte>, payload: seq<Byte>, outcomes: seq<bool>)
    returns (attempts: seq<seq<Byte>>, sent: seq<seq<Byte>>)
    ensures |attempts| == |outcomes| && |sent| == Successes(outcomes)
    ensures exists at :: Lists(at, set j | 0 <= j < |outcomes| && outcomes[j]) && Picks(at, attempts, sent)
    ensures forall n :: 0 <= n < |sent| ==> sent[n] == Message(id, n % 255, payload)
    ensures forall j :: 0 <= j < |outcomes| ==>
      attempts[j] == Message(id, Successes(outcomes[..j]) % 255, payload)
    ensures forall j :: 0 <= j < |outcomes| - 1 && !outcomes[j] ==> attempts[j + 1] == attempts[j]
  {
    ghost var at: seq<nat> := [];
    attempts, sent := [], [];
    assert Lists(at, Succeeding(outcomes[..0])) && Picks(at, attempts, sent);
    hide Message, Lists, Picks, Succeeding;
    var frameNumber := 0;
    for j := 0 to |outcomes|
      invariant |attempts| == j && |sent| == Successes(outcomes[..j])
      invariant frameNumber == |sent| % 255
      invariant Lists(at, Succeeding(outcomes[..j])) && Picks(at, attempts, sent)
      invariant Counted(id, payload, sent) && Numbered(id, payload, outcomes, attempts)
    {
      hide Counted, Numbered, Successes;
      var sendBuf := Format(id, frameNumber, payload);
      PicksSnoc(at, attempts, sent, sendBuf);
      NumberedSnoc(id, payload, outcomes, attempts, sendBuf);
      attempts := attempts + [sendBuf];
      SuccessesSnoc(outcomes, j);
      SucceedingSnoc(outcomes, j);
      if outcomes[j] {
        ListsSnoc(at, Succeeding(outcomes[..j]), j);
        CountedSnoc(id, payload, sent, sendBuf);
        NextNumber(|sent|, frameNumber);
        at := at + [j];
        sent := sent + [sendBuf];
        frameNumber := frameNumber + 1;
        if frameNumber == 0xff {
          frameNumber := 0;
        }
      } else {
        assert Succeeding(outcomes[..j + 1]) == Succeeding(outcomes[..j]);
      }
    }
    assert outcomes[..|outcomes|] == outcomes;
    SucceedingIs(outcomes);
    forall j | 0 <= j < |outcomes| - 1 && !outcomes[j] ensures attempts[j + 1] == attempts[j] {
      Retried(id, payload, outcomes, attempts, j);
    }
  }

  lemma SucceedingIs(outcomes: seq<bool>)
    ensures Succeeding(outcomes) == set j | 0 <= j < |outcomes| && outcomes[j]
  {
  }

  // ---------------------------------------------------------------- the packet parser

  /** What the fixed offsets select; None is the exception thrown on an unreadable frame number. */
  function Parse(raw: seq<Byte>, numbyte: nat): Option<Packet>
    requires 19 <= |raw| && numbyte <= |raw|
  {
    match ReadFrame(raw[17], raw[18])
    case None => None
    case Some(frame) => Some(Packet(raw[1..11], frame, if numbyte > 19 then raw[19..numbyte] else []))
  }

  method ParsePacket(raw: array<Byte>, numbyte: nat) returns (packet: Option<Packet>)
    requires 19 <= raw.Length && numbyte <= raw.Length
    ensures packet == Parse(raw[..], numbyte)
  {
    var sourceId: seq<Byte> := [];
    for i := 1 to 11
      invariant sourceId == raw[1..i]
    {
      sourceId := sourceId + [raw[i]];
    }
    var frameNumber := ReadFrame(raw[17], raw[18]);
    if frameNumber == None {
      return None;
    }
    var data: seq<Byte> := [];
    var i := 19;
    while i < numbyte
      invariant 19 <= i && (i <= numbyte || numbyte < 19)
      invariant data == if numbyte > 19 then raw[19..i] else []
    {
      data := data + [raw[i]];
      i := i + 1;
    }
    return Some(Packet(sourceId, frameNumber.value, data));
  }

  /**
   * Format and parse are inverse up to the byte the receiver drops: handing the parser one byte less
   * than the message holds loses exactly the last data byte, whatever else the buffer contains.
   */
  lemma FormatParse(id: seq<Byte>, frame: int, payload: seq<Byte>, stale: seq<Byte>)
    requires |id| == ID_LENGTH && 0 <= frame < 256 && |payload| > 0
    ensures |Message(id, frame, payload)| == 19 + |payload|
    ensures Parse(Message(id, frame, payload) + stale, |Message(id, frame, payload)| - 1)
         == Some(Packet(id, frame, payload[..|payload| - 1]))
  {
    PrintReadFrame(frame);
    hide PrintFrame;
    var raw := Message(id, frame, payload) + stale;
    var head := [OPEN] + id + ARROW + PrintFrame(frame);
    assert raw == head + payload + stale;
    assert head[1..11] == id && head[17] == PrintFrame(frame)[0] && head[18] == PrintFrame(frame)[1];
    assert raw[1..11] == head[1..11];
    Middle(head, payload, stale, |payload| - 1);
  }

  lemma Middle(head: seq<Byte>, payload: seq<Byte>, stale: seq<Byte>, n: nat)
    requires n <= |payload|
    ensures (head + payload + stale)[|head|..|head| + n] == payload[..n]
  {
  }

  /** The 6163-byte filter accepts exactly the messages whose payload has 6144 bytes. */
  lemma SizeFilter(id: seq<Byte>, frame: int, payload: seq<Byte>)
    requires |id| == ID_LENGTH && 0 <= frame < 256
    ensures |Message(id, frame, payload)| == FPGA_PACKET_SIZE <==> |payload| == PAYLOAD_LENGTH
    ensures FPGA_PACKET_SIZE == 6163 && PAYLOAD_LENGTH == 6232 - 88 && DATA_LENGTH == PAYLOAD_LENGTH - 1
  {
    PrintReadFrame(frame);
  }

  // ---------------------------------------------------------------- the receiver

  /** One return of `recvfrom`: an error, or a datagram with its packet type. */
  datatype Arrival = Failed | Datagram(outgoing: bool, bytes: seq<Byte>)

  datatype Verdict = Ignore | Crash | Deliver(packet: Packet)

  const BUFFER_SIZE := 10000

  /** What the receiver of `senderId` does with one arrival. */
  function Judge(senderId: seq<Byte>, a: Arrival): Verdict {
    if a.Failed? || a.outgoing || |a.bytes| != FPGA_PACKET_SIZE then Ignore
    else match Parse(a.bytes, FPGA_PACKET_SIZE - 1)
      case None => Crash
      case Some(p) => if p.id == senderId then Deliver(p) else Ignore
  }

  /** Two characters that begin with a hexadecimal number: a digit, or a space or sign before a digit. */
  predicate Readable(c0: Byte, c1: Byte) {
    DigitValue(c0).Some? || ((IsSpace(c0) || c0 == 43 || c0 == 45) && DigitValue(c1).Some?)
  }

  /** A datagram that looks like one of this sender's messages: direction, length, id and frame number. */
  predicate PassesFor(id: seq<Byte>, a: Arrival) {
    && a.Datagram? && !a.outgoing && |a.bytes| == FPGA_PACKET_SIZE
    && a.bytes[1..11] == id && Readable(a.bytes[17], a.bytes[18])
  }

  /** What a receiver pushes is decided by these bytes alone. */
  lemma DeliversExactly(id: seq<Byte>, a: Arrival)
    ensures Judge(id, a).Deliver? <==> PassesFor(id, a)
    ensures Judge(id, a).Crash? <==>
            a.Datagram? && !a.outgoing && |a.bytes| == FPGA_PACKET_SIZE && !Readable(a.bytes[17], a.bytes[18])
  {
  }

  /** The packets pushed while no arrival makes the parser throw. */
  function Received(senderId: seq<Byte>, arrivals: seq<Arrival>): seq<Packet> {
    if arrivals == [] then []
    else
      var n := |arrivals| - 1;
      match Judge(senderId, arrivals[n])
      case Deliver(p) => Received(senderId, arrivals[..n]) + [p]
      case _ => Received(senderId, arrivals[..n])
  }

  /** What a receiver pushes comes from exactly the arrivals it accepts, in their order. */
  lemma {:induction false} ReceivedInOrder(senderId: seq<Byte>, arrivals: seq<Arrival>) returns (at: seq<nat>)
    ensures Lists(at, set j | 0 <= j < |arrivals| && PassesFor(senderId, arrivals[j]))
    ensures |Received(senderId, arrivals)| == |at|
    ensures forall k :: 0 <= k < |at| ==>
      at[k] < |arrivals| && Judge(senderId, arrivals[at[k]]) == Deliver(Received(senderId, arrivals)[k])
  {
    if arrivals == [] {
      at := [];
    } else {
      var n := |arrivals| - 1;
      at := ReceivedInOrder(senderId, arrivals[..n]);
      hide Judge, PassesFor, Lists;
      DeliversExactly(senderId, arrivals[n]);
      var before := set j | 0 <= j < n && PassesFor(senderId, arrivals[..n][j]);
      var all := set j | 0 <= j < |arrivals| && PassesFor(senderId, arrivals[j]);
      if PassesFor(senderId, arrivals[n]) {
        ListsSnoc(at, before, n);
        assert all == before + {n};
        at := at + [n];
      } else {
        assert all == before;
      }
    }
  }

  /** Every packet a receiver pushes has its sender's id and 6143 data bytes. */
  lemma {:induction false} ReceivedAreDelivered(senderId: seq<Byte>, arrivals: seq<Arrival>, i: nat)
    requires i < |Received(senderId, arrivals)|
    ensures Received(senderId, arrivals)[i].id == senderId
    ensures Delivered(Received(senderId, arrivals)[i])
  {
    var n := |arrivals| - 1;
    if i < |Received(senderId, arrivals[..n])| {
      ReceivedAreDelivered(senderId, arrivals[..n], i);
    }
  }

  /**
   * The receive loop. The buffer is reused, so it may hold stale bytes behind a short datagram, and
   * a datagram longer than the buffer is cut. `handled` counts the arrivals before the loop ended.
   */
  method StartReceiving(senderId: seq<Byte>, arrivals: seq<Arrival>)
    returns (pushed: seq<Packet>, handled: nat)
    ensures handled <= |arrivals|
    ensures handled < |arrivals| ==> Judge(senderId, arrivals[handled]) == Crash
    ensures forall j :: 0 <= j < handled ==> Judge(senderId, arrivals[j]) != Crash
    ensures pushed == Received(senderId, arrivals[..handled])
  {
    hide Parse;
    pushed, handled := [], 0;
    var buf := new Byte[BUFFER_SIZE];
    while handled < |arrivals|
      invariant handled <= |arrivals|
      invariant forall j :: 0 <= j < handled ==> Judge(senderId, arrivals[j]) != Crash
      invariant pushed == Received(senderId, arrivals[..handled])
    {
      var a := arrivals[handled];
      assert arrivals[..handled + 1][..handled] == arrivals[..handled];
      var numbytes := -1;
      if a.Datagram? {
        numbytes := if |a.bytes| < BUFFER_SIZE then |a.bytes| else BUFFER_SIZE;
        for k := 0 to numbytes
          invariant buf[..k] == a.bytes[..k]
        {
          buf[k] := a.bytes[k];
        }
      }
      if !(a.Datagram? && a.outgoing) && numbytes == FPGA_PACKET_SIZE {
        var packet := ParsePacket(buf, numbytes - 1);
        assert buf[..] == a.bytes + buf[FPGA_PACKET_SIZE..];
        StaleBytesIgnored(a.bytes, buf[FPGA_PACKET_SIZE..]);
        if packet == None {
          return;
        }
        if packet.value.id == senderId {
          pushed := pushed + [packet.value];
        }
      }
      handled := handled + 1;
    }
  }

  lemma StaleBytesIgnored(bytes: seq<Byte>, stale: seq<Byte>)
    requires |bytes| == FPGA_PACKET_SIZE
    ensures Parse(bytes + stale, FPGA_PACKET_SIZE - 1) == Parse(bytes, FPGA_PACKET_SIZE - 1)
  {
    var raw := bytes + stale;
    assert raw[1..11] == bytes[1..11];
    assert raw[19..FPGA_PACKET_SIZE - 1] == bytes[19..FPGA_PACKET_SIZE - 1];
  }

  // ---------------------------------------------------------------- sender to receiver

  /** `tags[j]` is the number of the sender's message that arrival j carries, or None for anything else. */
  ghost predicate Carries(id: seq<Byte>, payload: seq<Byte>, arrivals: seq<Arrival>, tags: seq<Option<nat>>) {
    |tags| == |arrivals| && forall j :: 0 <= j < |tags| && tags[j].Some? ==>
      arrivals[j] == Datagram(false, Message(id, tags[j].value % 255, payload))
  }

  /** No other arrival looks like the sender's; it may still make the parser throw. */
  ghost predicate NoForgery(id: seq<Byte>, arrivals: seq<Arrival>, tags: seq<Option<nat>>)
    requires |tags| == |arrivals|
  {
    forall j :: 0 <= j < |tags| && tags[j].None? ==> !PassesFor(id, arrivals[j])
  }

  function Numbers(tags: seq<Option<nat>>): seq<nat> {
    if tags == [] then []
    else
      var n := |tags| - 1;
      Numbers(tags[..n]) + if tags[n].Some? then [tags[n].value] else []
  }

  lemma NumbersSnoc(tags: seq<Option<nat>>)
    requires tags != []
    ensures var n := |tags| - 1;
      Numbers(tags) == Numbers(tags[..n]) + if tags[n].Some? then [tags[n].value] else []
  {
  }

  lemma {:induction false} NumbersInOrder(tags: seq<Option<nat>>) returns (at: seq<nat>)
    ensures Lists(at, set j | 0 <= j < |tags| && tags[j].Some?) && |Numbers(tags)| == |at|
    ensures forall k :: 0 <= k < |at| ==> at[k] < |tags| && tags[at[k]] == Some(Numbers(tags)[k])
  {
    if tags == [] {
      at := [];
    } else {
      var n := |tags| - 1;
      at := NumbersInOrder(tags[..n]);
      hide Lists, Numbers;
      NumbersSnoc(tags);
      var before := set j | 0 <= j < n && tags[..n][j].Some?;
      var all := set j | 0 <= j < |tags| && tags[j].Some?;
      if tags[n].Some? {
        ListsSnoc(at, before, n);
        assert all == before + {n};
        at := at + [n];
      } else {
        assert all == before;
      }
    }
  }

  /** The sender's n-th message as a receiver delivers it. */
  function StreamPacket(id: seq<Byte>, payload: seq<Byte>, n: nat): Packet {
    Packet(id, n % 255, if payload == [] then [] else payload[..|payload| - 1])
  }

  /**
   * Whatever noise, loss and foreign traffic surrounds it, the receiver pushes every message of the sender
   * that arrives, and exactly those if and only if nothing else passes for one: in arrival order, each with
   * its frame number and all but its last byte.
   */
  lemma {:induction false} ReceiverRecoversStream(id: seq<Byte>, payload: seq<Byte>,
                                                  arrivals: seq<Arrival>, tags: seq<Option<nat>>)
    requires |id| == ID_LENGTH && |payload| == PAYLOAD_LENGTH
    requires Carries(id, payload, arrivals, tags)
    ensures |Received(id, arrivals)| >= |Numbers(tags)|
    ensures |Received(id, arrivals)| == |Numbers(tags)| <==> NoForgery(id, arrivals, tags)
    ensures NoForgery(id, arrivals, tags) ==> forall i :: 0 <= i < |Numbers(tags)| ==>
      Received(id, arrivals)[i] == StreamPacket(id, payload, Numbers(tags)[i])
  {
    if arrivals != [] {
      var n := |arrivals| - 1;
      ReceiverRecoversStream(id, payload, arrivals[..n], tags[..n]);
      hide Parse;
      NoForgerySnoc(id, arrivals, tags);
      DeliversExactly(id, arrivals[n]);
      if tags[n].Some? {
        JudgeMessage(id, tags[n].value % 255, payload);
      }
    }
  }

  lemma NoForgerySnoc(id: seq<Byte>, arrivals: seq<Arrival>, tags: seq<Option<nat>>)
    requires |tags| == |arrivals| && tags != []
    ensures var n := |tags| - 1;
      NoForgery(id, arrivals, tags) <==>
        NoForgery(id, arrivals[..n], tags[..n]) && (tags[n].None? ==> !PassesFor(id, arrivals[n]))
  {
    hide PassesFor;
    var n := |tags| - 1;
    if NoForgery(id, arrivals[..n], tags[..n]) {
      forall j | 0 <= j < n && tags[j].None? ensures !PassesFor(id, arrivals[j]) {
        assert tags[..n][j].None? && arrivals[..n][j] == arrivals[j];
      }
    }
  }

  lemma JudgeMessage(id: seq<Byte>, frame: int, payload: seq<Byte>)
    requires |id| == ID_LENGTH && |payload| == PAYLOAD_LENGTH && 0 <= frame < 255
    ensures Judge(id, Datagram(false, Message(id, frame, payload))) == Deliver(Packet(id, frame, payload[..DATA_LENGTH]))
  {
    FormatParse(id, frame, payload, []);
    assert Message(id, frame, payload) + [] == Message(id, frame, payload);
  }
}
