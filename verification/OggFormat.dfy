/** Ogg pages as the recorder lays them out (RFC 3533, section 6). */
module OggFormat {
  import opened Bytes
  import OggCrc

  type Packet = seq<byte>

  const HEADER_LEN := 27
  const SAMPLES_PER_FRAME := 960
  const MAX_PAGE_PACKETS := 48
  const SIGNATURE: seq<byte> := [0x4F, 0x67, 0x67, 0x53]  // "OggS"

  const FLAG_BOS: byte := 2
  const FLAG_EOS: byte := 4

  // ---------------------------------------------------------------- lacing

  /** A packet length as lacing values: full 255s, then one smaller value. */
  function Lacing(n: nat): (s: seq<byte>)
    ensures |s| == n / 255 + 1
  {
    if n >= 255 then [255] + Lacing(n - 255) else [n]
  }

  function SegmentTable(packets: seq<Packet>): seq<byte> {
    if packets == [] then []
    else SegmentTable(packets[..|packets| - 1]) + Lacing(|packets[|packets| - 1]|)
  }

  function Concat(packets: seq<Packet>): seq<byte> {
    if packets == [] then [] else Concat(packets[..|packets| - 1]) + packets[|packets| - 1]
  }

  function Sum(values: seq<byte>): nat {
    if values == [] then 0 else values[0] + Sum(values[1..])
  }

  // ---------------------------------------------------------------- page layout

  /** Everything before the segment table, with the checksum field blank. */
  function PageHeader(flags: byte, granule: nat, seqNo: nat, segments: nat): (h: seq<byte>)
    ensures |h| == HEADER_LEN
  {
    SIGNATURE + [0, flags] + LittleEndian(granule, 8) + [0, 0, 0, 0] + LittleEndian(seqNo, 4)
    + [0, 0, 0, 0] + [segments % 256]
  }

  /** A page whose checksum field is still zero. Byte 26 keeps only the low byte of the count. */
  function BlankPage(flags: byte, granule: nat, seqNo: nat, table: seq<byte>, payload: seq<byte>): (p: seq<byte>)
    ensures |p| == HEADER_LEN + |table| + |payload|
  {
    PageHeader(flags, granule, seqNo, |table|) + table + payload
  }

  function Checksum(page: seq<byte>): seq<byte> { LittleEndian(OggCrc.Value(OggCrc.Crc(page)), 4) }

  /** Put the checksum of a page into its bytes 22 to 25. */
  function Seal(page: seq<byte>): (p: seq<byte>)
    requires |page| >= HEADER_LEN
    ensures |p| == |page|
  {
    page[..22] + Checksum(page) + page[26..]
  }

  function PageBytes(flags: byte, granule: nat, seqNo: nat, table: seq<byte>, payload: seq<byte>): (p: seq<byte>)
    ensures |p| == HEADER_LEN + |table| + |payload|
  {
    Seal(BlankPage(flags, granule, seqNo, table, payload))
  }

  // ---------------------------------------------------------------- the whole file

  const OPUS_HEAD: seq<byte> :=
    [0x4F, 0x70, 0x75, 0x73, 0x48, 0x65, 0x61, 0x64]  // "OpusHead"
    + [1, 1] + LittleEndian(0, 2) + LittleEndian(48000, 4) + LittleEndian(0, 2) + [0]

  const OPUS_TAGS: seq<byte> :=
    [0x4F, 0x70, 0x75, 0x73, 0x54, 0x61, 0x67, 0x73]  // "OpusTags"
    + LittleEndian(9, 4) + [0x77, 0x68, 0x61, 0x74, 0x6F, 0x6D, 0x61, 0x74, 0x65]  // "whatomate"
    + LittleEndian(0, 4)

  /** Both header pages carry page number 0. */
  function HeaderBytes(): seq<byte> {
    PageBytes(FLAG_BOS, 0, 0, Lacing(|OPUS_HEAD|), OPUS_HEAD) + PageBytes(0, 0, 0, Lacing(|OPUS_TAGS|), OPUS_TAGS)
  }

  function DataPage(flags: byte, granule: nat, seqNo: nat, packets: seq<Packet>): seq<byte> {
    PageBytes(flags, granule, seqNo, SegmentTable(packets), Concat(packets))
  }

  /** The full pages that hold `packets`, 48 to a page, numbered from 0. */
  function FullPages(packets: seq<Packet>): seq<byte>
    requires |packets| % MAX_PAGE_PACKETS == 0
  {
    if packets == [] then []
    else
      var n := |packets| - MAX_PAGE_PACKETS;
      FullPages(packets[..n]) + DataPage(0, SAMPLES_PER_FRAME * |packets|, n / MAX_PAGE_PACKETS, packets[n..])
  }

  /** How many of n packets sit in full pages. */
  function InFullPages(n: nat): (k: nat)
    ensures k <= n < k + MAX_PAGE_PACKETS && k % MAX_PAGE_PACKETS == 0
  {
    n / MAX_PAGE_PACKETS * MAX_PAGE_PACKETS
  }

  /** The data pages of a stopped recording: full pages, then a shorter last page if any is left. */
  function DataPages(packets: seq<Packet>): seq<byte> {
    var k := InFullPages(|packets|);
    if k == |packets| then FullPages(packets)
    else FullPages(packets[..k]) + DataPage(FLAG_EOS, SAMPLES_PER_FRAME * |packets|, k / MAX_PAGE_PACKETS, packets[k..])
  }

  /** What a recording of `packets` leaves on disk once it is stopped. */
  function FileBytes(packets: seq<Packet>): seq<byte> {
    HeaderBytes() + DataPages(packets)
  }
}
