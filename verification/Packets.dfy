/** The bytes, packets and small result types shared by the whole pipeline. */
module Packets {

  type Byte = b: int | 0 <= b < 256

  /** The value range of a frame number read by `std::stoi` from two characters in base 16. */
  type Frame = f: int | -15 <= f <= 255

  /** `FPGA_Packet`: what a receiver extracts from one raw message. */
  datatype Packet = Packet(id: seq<Byte>, frame: Frame, data: seq<Byte>)

  datatype Option<+T> = None | Some(value: T)

  const ID_LENGTH := 10
  /** Length of the payload that `SenderSocket` generates (6232 - 88). */
  const PAYLOAD_LENGTH := 6144
  /** `CURRENT_FPGA_PACKET_SIZE`. */
  const FPGA_PACKET_SIZE := 6163
  /** Data bytes that survive the receiver, which hands `numbytes - 1` to the parser. */
  const DATA_LENGTH := 6143

  /** A packet as a receiver of this program delivers it. */
  predicate Delivered(p: Packet) {
    |p.id| == ID_LENGTH && |p.data| == DATA_LENGTH
  }
}
