/** What any Ogg reader sees in a recording: flags, numbers, granules and checksums of its pages. */
module OggPages {
  import opened Bytes
  import opened OggFormat
  import opened OggReader
  import opened OggRoundTrip
  import OggCrc

  datatype PageInfo = PageInfo(flags: byte, seqNo: nat, granule: nat, packets: seq<Packet>, sealed: bool)

  /** The page with its checksum field blanked. */
  function Unsealed(page: seq<byte>): seq<byte>
    requires |page| >= HEADER_LEN
  {
    page[..22] + [0, 0, 0, 0] + page[26..]
  }

  /** The number in bytes 22 to 25 is the checksum of the page with those bytes blanked. */
  predicate SealHolds(page: seq<byte>)
    requires |page| >= HEADER_LEN
  {
    Number32(page, 22) == OggCrc.Value(OggCrc.Crc(Unsealed(page)))
  }

  /** Walk the pages and decode the fields of each (RFC 3533, section 6). */
  function PagesOf(data: seq<byte>): seq<PageInfo>
    decreases |data|
  {
    match ReadPage(data)
    case Stop => []
    case Read(table, payload, rest) =>
      var page := data[..HEADER_LEN + |table| + |payload|];
      [PageInfo(page[5], Number32(page, 18), Number64(page, 6), Unlace(table, payload, [], 0), SealHolds(page))]
      + PagesOf(rest)
  }

  // ---------------------------------------------------------------- one page

  /** Bytes 22 to 25 weigh what the checksum of the page is, taken with those four bytes zero. */
  lemma SealIsUndone(flags: byte, granule: nat, seqNo: nat, table: seq<byte>, payload: seq<byte>)
    ensures var p := PageBytes(flags, granule, seqNo, table, payload);
      && p[..22] + [0, 0, 0, 0] + p[26..] == BlankPage(flags, granule, seqNo, table, payload)
      && p[22] as nat + 256 * p[23] as nat + 65536 * p[24] as nat + 16777216 * p[25] as nat
         == OggCrc.Value(OggCrc.Crc(p[..22] + [0, 0, 0, 0] + p[26..]))
    ensures SealHolds(PageBytes(flags, granule, seqNo, table, payload))
  {
    hide Checksum, BlankPage, LittleEndian, OggCrc.Crc, OggCrc.Value;
    BlankLayout(flags, granule, seqNo, table, payload);
    var blank := BlankPage(flags, granule, seqNo, table, payload);
    var page := Seal(blank);
    SealLayout(blank, []);
    assert page + [] == page;
    assert page[..22] == blank[..22] && page[26..] == blank[26..];
    assert blank == blank[..22] + blank[22..26] + blank[26..];
    ChecksumWeighs(blank);
    assert page[22..26] == Checksum(blank);
    assert page[22] == page[22..26][0] && page[23] == page[22..26][1];
    assert page[24] == page[22..26][2] && page[25] == page[22..26][3];
  }

  lemma ChecksumWeighs(page: seq<byte>)
    ensures |Checksum(page)| == 4 && Number32(Checksum(page), 0) == OggCrc.Value(OggCrc.Crc(page))
  {
    hide OggCrc.Crc, OggCrc.Value, OggCrc.Power2, OggCrc.BitsOf, Number32, LittleEndian;
    OggCrc.BitsOfValue(OggCrc.Crc(page));
    OggCrc.Power32();
    OnlyFourBytes(OggCrc.Value(OggCrc.Crc(page)));
  }

  lemma NumberAt(page: seq<byte>, at: nat, field: seq<byte>)
    requires at + |field| <= |page| && page[at..at + |field|] == field
    ensures |field| == 4 ==> Number32(page, at) == Number32(field, 0)
    ensures |field| == 8 ==> Number64(page, at) == Number64(field, 0)
  {
    assert forall i :: 0 <= i < |field| ==> page[at + i] == field[i];
  }

  /** The layout of a written page, byte by byte. */
  lemma FieldsRead(flags: byte, granule: nat, seqNo: nat, table: seq<byte>, payload: seq<byte>)
    requires granule < 0x1_0000_0000_0000_0000 && seqNo < 0x1_0000_0000
    ensures var p := PageBytes(flags, granule, seqNo, table, payload);
      && |p| == 27 + |table| + |payload|
      && p[0] == 0x4F && p[1] == 0x67 && p[2] == 0x67 && p[3] == 0x53 // OggS
      && p[4] == 0 && p[5] == flags
      && Number64(p, 6) == granule && Number32(p, 14) == 0 && Number32(p, 18) == seqNo
      && p[26] == |table| % 256 && p[27..27 + |table|] == table && p[27 + |table|..] == payload
  {
    hide Checksum, BlankPage, LittleEndian, Number32, Number64, Seal;
    BlankLayout(flags, granule, seqNo, table, payload);
    var blank := BlankPage(flags, granule, seqNo, table, payload);
    var page := Seal(blank);
    SealLayout(blank, []);
    assert page + [] == page;
    SliceAgrees(page, blank, 18, 22);
    SliceAgrees(page, blank, 14, 18);
    SliceAgrees(page, blank, 6, 14);
    SliceAgrees(page, blank, HEADER_LEN, HEADER_LEN + |table|);
    SliceAgrees(page, blank, HEADER_LEN + |table|, |blank|);
    SliceAgrees(page, blank, 0, 4);
    assert forall i :: 0 <= i < 4 ==> page[i] == page[..4][i];
    EightBytes(granule);
    OnlyFourBytes(seqNo);
    NumberAt(page, 6, LittleEndian(granule, 8));
    NumberAt(page, 18, LittleEndian(seqNo, 4));
    NumberAt(page, 14, [0, 0, 0, 0]);
    NoSerial();
  }

  lemma NoSerial()
    ensures Number32([0, 0, 0, 0], 0) == 0
  {
  }

  /** An emitted page decodes to what the recorder meant, and its checksum recomputes. */
  lemma PageSays(flags: byte, granule: nat, seqNo: nat, packets: seq<Packet>, rest: seq<byte>)
    requires PageFits(packets) && granule < 0x1_0000_0000_0000_0000 && seqNo < 0x1_0000_0000
    ensures PagesOf(DataPage(flags, granule, seqNo, packets) + rest)
         == [PageInfo(flags, seqNo, granule, packets, true)] + PagesOf(rest)
  {
    hide PageBytes, ReadPage, Unlace, SegmentTable, Concat, SealHolds, Number32, Number64, Sum;
    var table, payload := SegmentTable(packets), Concat(packets);
    var page := PageBytes(flags, granule, seqNo, table, payload);
    SumSegmentTable(packets);
    ReadPageBack(flags, granule, seqNo, table, payload, rest);
    SealIsUndone(flags, granule, seqNo, table, payload);
    FieldsRead(flags, granule, seqNo, table, payload);
    assert (page + rest)[..|page|] == page;
    UnlaceWhole(packets);
  }

  lemma UnlaceWhole(packets: seq<Packet>)
    ensures Sum(SegmentTable(packets)) == |Concat(packets)|
    ensures Unlace(SegmentTable(packets), Concat(packets), [], 0) == packets
  {
    hide Unlace, SegmentTable, Concat, Sum;
    SumSegmentTable(packets);
    UnlaceNothing();
    UnlacePackets(packets, [], []);
    assert SegmentTable(packets) + [] == SegmentTable(packets);
    assert Concat(packets) + [] == Concat(packets) && packets + [] == packets;
  }

  // ---------------------------------------------------------------- the whole recording

  function PageCount(n: nat): nat { (n + 47) / 48 }

  /** The data page with number i: 48 packets, fewer only on the last one, which alone ends the stream. */
  function DataInfo(packets: seq<Packet>, i: nat): PageInfo
    requires i < PageCount(|packets|)
  {
    var end := if 48 * i + 48 <= |packets| then 48 * i + 48 else |packets|;
    PageInfo(if end < 48 * i + 48 then 4 else 0, i, 960 * end, packets[48 * i..end], true)
  }

  function DataInfos(packets: seq<Packet>): seq<PageInfo> {
    seq(PageCount(|packets|), i requires 0 <= i < PageCount(|packets|) => DataInfo(packets, i))
  }

  lemma {:induction false} FullPagesSay(packets: seq<Packet>, rest: seq<byte>)
    requires |packets| % MAX_PAGE_PACKETS == 0 && AllPagesFit(packets)
    requires |packets| <= MAX_PAGE_PACKETS * 0x1_0000_0000
    ensures PagesOf(FullPages(packets) + rest) == DataInfos(packets) + PagesOf(rest)
    decreases |packets|
  {
    hide DataPage, PagesOf, PageFits;
    if packets == [] {
      assert FullPages(packets) + rest == rest;
      assert DataInfos(packets) == [];
    } else {
      var n := |packets| - MAX_PAGE_PACKETS;
      var i := n / MAX_PAGE_PACKETS;
      PrefixFits(packets, n);
      assert PageAt(packets, n) == packets[n..];
        var page := DataPage(0, SAMPLES_PER_FRAME * |packets|, i, packets[n..]);
      PageSays(0, SAMPLES_PER_FRAME * |packets|, i, packets[n..], rest);
      FullPagesSay(packets[..n], page + rest);
      assert FullPages(packets) + rest == FullPages(packets[..n]) + (page + rest);
      InfosExtend(packets, n);
    }
  }

  lemma InfosExtend(packets: seq<Packet>, n: nat)
    requires n < |packets| <= n + MAX_PAGE_PACKETS && n % MAX_PAGE_PACKETS == 0
    ensures var i := n / MAX_PAGE_PACKETS;
      i < PageCount(|packets|) && DataInfos(packets) == DataInfos(packets[..n]) + [DataInfo(packets, i)]
  {
    var i := n / MAX_PAGE_PACKETS;
    assert PageCount(|packets|) == i + 1 && PageCount(n) == i;
    forall j: nat | j < i ensures DataInfo(packets, j) == DataInfo(packets[..n], j) {
      var k := j * MAX_PAGE_PACKETS;
      assert k + MAX_PAGE_PACKETS <= n;
      assert PageAt(packets, k) == PageAt(packets[..n], k);
    }
  }

  lemma HeadersSay(rest: seq<byte>)
    ensures PagesOf(HeaderBytes() + rest) ==
      [PageInfo(FLAG_BOS, 0, 0, [OPUS_HEAD], true), PageInfo(0, 0, 0, [OPUS_TAGS], true)] + PagesOf(rest)
  {
    hide PageBytes, PagesOf, Lacing, OPUS_HEAD, OPUS_TAGS;
    HeaderLengths();
    OnePacket(OPUS_HEAD);
    OnePacket(OPUS_TAGS);
    var head := DataPage(FLAG_BOS, 0, 0, [OPUS_HEAD]);
    var tags := DataPage(0, 0, 0, [OPUS_TAGS]);
    assert HeaderBytes() + rest == head + (tags + rest);
    PageSays(FLAG_BOS, 0, 0, [OPUS_HEAD], tags + rest);
    PageSays(0, 0, 0, [OPUS_TAGS], rest);
  }

  /** The two header packets (RFC 7845, section 5): version 1, one channel, 48000 samples a second, no comments. */
  lemma OpusHeaders()
    ensures OPUS_HEAD == [0x4F, 0x70, 0x75, 0x73, 0x48, 0x65, 0x61, 0x64, 1, 1, 0, 0, 0x80, 0xBB, 0, 0, 0, 0, 0]
    ensures OPUS_TAGS == [0x4F, 0x70, 0x75, 0x73, 0x54, 0x61, 0x67, 0x73, 9, 0, 0, 0,
                          0x77, 0x68, 0x61, 0x74, 0x6F, 0x6D, 0x61, 0x74, 0x65, 0, 0, 0, 0]
  {
    hide LittleEndian;
    SmallFields();
  }

  lemma SmallFields()
    ensures LittleEndian(48000, 4) == [0x80, 0xBB, 0, 0] && LittleEndian(9, 4) == [9, 0, 0, 0]
    ensures LittleEndian(0, 4) == [0, 0, 0, 0] && LittleEndian(0, 2) == [0, 0]
  {
    assert LittleEndian(0, 3) == [0] + LittleEndian(0, 2);
    assert LittleEndian(187, 3) == [0xBB] + LittleEndian(0, 2);
    assert LittleEndian(48000, 4) == [0x80] + LittleEndian(187, 3);
    assert LittleEndian(9, 4) == [9] + LittleEndian(0, 3);
  }

  lemma OnePacket(p: Packet)
    ensures SegmentTable([p]) == Lacing(|p|) && Concat([p]) == p
  {
    assert [p][..0] == [];
  }

  /**
   * Page accounting: two header pages that both carry number 0, then data pages numbered from 0
   * again, each with 960 samples for every packet flushed so far and a checksum that recomputes.
   */
  lemma RecordingPages(packets: seq<Packet>)
    requires AllPagesFit(packets) && |packets| <= MAX_PAGE_PACKETS * 0x1_0000_0000
    ensures PagesOf(FileBytes(packets)) ==
      [PageInfo(2, 0, 0, [OPUS_HEAD], true), PageInfo(0, 0, 0, [OPUS_TAGS], true)] + DataInfos(packets)
  {
    hide HeaderBytes, DataPage, PagesOf, FullPages, PageFits, DataInfos;
    var k := InFullPages(|packets|);
    HeadersSay(DataPages(packets));
    PrefixFits(packets, k);
    NoPages();
    if k == |packets| {
      assert packets[..k] == packets;
      FullPagesSay(packets, []);
      assert FullPages(packets) + [] == FullPages(packets);
      assert DataInfos(packets) + [] == DataInfos(packets);
    } else {
      TailSays(packets, k);
      FullPagesSay(packets[..k], DataPage(FLAG_EOS, SAMPLES_PER_FRAME * |packets|, k / MAX_PAGE_PACKETS, packets[k..]));
      InfosExtend(packets, k);
    }
  }

  /** The page of a tail that does not fill one. */
  lemma TailSays(packets: seq<Packet>, k: nat)
    requires AllPagesFit(packets) && |packets| <= MAX_PAGE_PACKETS * 0x1_0000_0000
    requires k < |packets| < k + MAX_PAGE_PACKETS && k % MAX_PAGE_PACKETS == 0
    ensures var i := k / MAX_PAGE_PACKETS;
      i < PageCount(|packets|) &&
      PagesOf(DataPage(FLAG_EOS, SAMPLES_PER_FRAME * |packets|, i, packets[k..])) == [DataInfo(packets, i)]
  {
    hide DataPage, PagesOf, PageFits;
    var g, i := SAMPLES_PER_FRAME * |packets|, k / MAX_PAGE_PACKETS;
    var page := DataPage(FLAG_EOS, g, i, packets[k..]);
    PrefixFits(packets, k);
    NoPages();
    assert PageAt(packets, k) == packets[k..];
    PageSays(FLAG_EOS, g, i, packets[k..], []);
    assert page + [] == page;
  }

  lemma NoPages()
    ensures PagesOf([]) == []
  {
  }

  /** Some page announces the end of the stream exactly when the last page is not full. */
  lemma EndIsMarked(packets: seq<Packet>)
    requires AllPagesFit(packets) && |packets| <= MAX_PAGE_PACKETS * 0x1_0000_0000
    ensures (exists p :: p in PagesOf(FileBytes(packets)) && p.flags == 4)
      <==> |packets| % 48 != 0
  {
    hide FileBytes, PagesOf, OPUS_HEAD, OPUS_TAGS;
    RecordingPages(packets);
    var pages := PagesOf(FileBytes(packets));
    var infos := DataInfos(packets);
    var n := |packets|;
    if n % MAX_PAGE_PACKETS != 0 {
      var i := n / MAX_PAGE_PACKETS;
      assert i < PageCount(n);
      assert infos[i].flags == FLAG_EOS;
      assert pages[2 + i] == infos[i];
    } else {
      forall p | p in pages ensures p.flags != FLAG_EOS {
        var j :| 0 <= j < |pages| && pages[j] == p;
        if j >= 2 {
          assert p == infos[j - 2];
          assert (j - 2) * MAX_PAGE_PACKETS + MAX_PAGE_PACKETS <= n;
        }
      }
    }
  }

  // ---------------------------------------------------------------- damage

  lemma SameNumber(p: seq<byte>, q: seq<byte>)
    requires |p| >= HEADER_LEN && |q| >= HEADER_LEN && p[22..26] == q[22..26]
    ensures Number32(p, 22) == Number32(q, 22)
  {
    NumberAt(p, 22, q[22..26]);
    NumberAt(q, 22, q[22..26]);
  }

  /** A burst of up to 32 damaged bits outside the checksum field never passes for a sealed page. */
  lemma DamageBreaksSeal(good: seq<byte>, bad: seq<byte>, before: seq<bool>, x: seq<bool>, y: seq<bool>,
        after: seq<bool>)
    requires |good| >= HEADER_LEN && |bad| >= HEADER_LEN && good[22..26] == bad[22..26]
    requires OggCrc.Bits(Unsealed(good)) == before + x + after && OggCrc.Bits(Unsealed(bad)) == before + y + after
    requires |x| == |y| <= 32 && x != y
    requires SealHolds(good)
    ensures !SealHolds(bad)
  {
    hide OggCrc.Crc, OggCrc.Bits, OggCrc.Value, OggCrc.BitsOf, Number32, Unsealed;
    var a, b := OggCrc.Crc(Unsealed(good)), OggCrc.Crc(Unsealed(bad));
    OggCrc.BurstChangesCrc(Unsealed(good), Unsealed(bad), before, x, y, after);
    OggCrc.BitsOfValue(a);
    OggCrc.BitsOfValue(b);
    SameNumber(good, bad);
  }
}
