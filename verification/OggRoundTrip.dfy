/** The reader against the recorder: what comes back from a stopped recording, and what its pages say. */
module OggRoundTrip {
  import opened Bytes
  import opened OggFormat
  import opened OggReader
  import OggCrc

  // ---------------------------------------------------------------- lacing

  lemma {:induction false} SumConcat(a: seq<byte>, b: seq<byte>)
    ensures Sum(a + b) == Sum(a) + Sum(b)
  {
    if a == [] {
      assert a + b == b;
    } else {
      assert (a + b)[1..] == a[1..] + b;
      SumConcat(a[1..], b);
    }
  }

  lemma {:induction false} SumLacing(n: nat)
    ensures Sum(Lacing(n)) == n
  {
    if n >= 255 {
      SumLacing(n - 255);
      assert Lacing(n)[1..] == Lacing(n - 255);
    }
  }

  lemma {:induction false} SumSegmentTable(packets: seq<Packet>)
    ensures Sum(SegmentTable(packets)) == |Concat(packets)|
  {
    if packets != [] {
      var n := |packets| - 1;
      SumSegmentTable(packets[..n]);
      SumLacing(|packets[n]|);
      SumConcat(SegmentTable(packets[..n]), Lacing(|packets[n]|));
    }
  }

  lemma {:induction false} UnlacePacket(p: Packet, table: seq<byte>, rest: seq<byte>, current: Packet, pieces: nat)
    requires Sum(table) == |rest|
    ensures Sum(Lacing(|p|) + table) == |p + rest|
    ensures Unlace(Lacing(|p|) + table, p + rest, current, pieces) == [current + p] + Unlace(table, rest, [], 0)
    decreases |p|
  {
    hide Sum;
    SumPacket(p, table, rest);
    var t := Lacing(|p|) + table;
    if |p| >= 255 {
      SumPacket(p[255..], table, rest);
      assert t[1..] == Lacing(|p| - 255) + table;
      assert (p + rest)[..255] == p[..255];
      assert (p + rest)[255..] == p[255..] + rest;
      UnlacePacket(p[255..], table, rest, current + p[..255], pieces + 1);
      assert current + p[..255] + p[255..] == current + p;
    } else {
      assert t[1..] == table;
      assert (p + rest)[..|p|] == p && (p + rest)[|p|..] == rest;
    }
  }

  lemma SumPacket(p: Packet, table: seq<byte>, rest: seq<byte>)
    requires Sum(table) == |rest|
    ensures Sum(Lacing(|p|) + table) == |p + rest|
  {
    SumLacing(|p|);
    SumConcat(Lacing(|p|), table);
  }

  /** Cutting a page's payload along its segment table gives the page's packets back. */
  lemma {:induction false} UnlacePackets(packets: seq<Packet>, table: seq<byte>, rest: seq<byte>)
    requires Sum(table) == |rest|
    ensures Sum(SegmentTable(packets) + table) == |Concat(packets) + rest|
    ensures Unlace(SegmentTable(packets) + table, Concat(packets) + rest, [], 0) == packets + Unlace(table, rest, [], 0)
    decreases |packets|
  {
    hide Lacing, Sum, Unlace;
    SumSegmentTable(packets);
    SumConcat(SegmentTable(packets), table);
    if packets == [] {
      assert SegmentTable(packets) + table == table && Concat(packets) + rest == rest;
    } else {
      var n := |packets| - 1;
      var p := packets[n];
      UnlacePacket(p, table, rest, [], 0);
      assert [] + p == p;
      UnlacePackets(packets[..n], Lacing(|p|) + table, p + rest);
      assert SegmentTable(packets[..n]) + (Lacing(|p|) + table) == SegmentTable(packets) + table;
      assert Concat(packets[..n]) + (p + rest) == Concat(packets) + rest;
      assert packets[..n] + ([p] + Unlace(table, rest, [], 0)) == packets + Unlace(table, rest, [], 0);
    }
  }

  /** A packet length in plain terms: as many 255s as fit, then what is left. */
  function Full(n: nat): seq<byte> { seq(n, _ => 255) }

  lemma {:induction false} LacingFull(k: nat, m: nat)
    requires m < 255
    ensures Lacing(255 * k + m) == Full(k) + [m]
  {
    if k > 0 {
      LacingFull(k - 1, m);
      assert Full(k) == [255] + Full(k - 1);
    } else {
      assert Full(0) == [];
    }
  }

  lemma PacketInFront(p: Packet, packets: seq<Packet>)
    ensures SegmentTable([p] + packets) == Lacing(|p|) + SegmentTable(packets)
    ensures Concat([p] + packets) == p + Concat(packets)
  {
    TableInFront(p, packets);
    ConcatInFront(p, packets);
  }

  lemma {:induction false} TableInFront(p: Packet, packets: seq<Packet>)
    ensures SegmentTable([p] + packets) == Lacing(|p|) + SegmentTable(packets)
    decreases |packets|
  {
    hide Lacing;
    var n := |packets| - 1;
    if packets == [] {
      assert [p] + packets == [p] && [p][..0] == [];
    } else {
      TableInFront(p, packets[..n]);
      assert ([p] + packets)[..n + 1] == [p] + packets[..n];
    }
  }

  lemma {:induction false} ConcatInFront(p: Packet, packets: seq<Packet>)
    ensures Concat([p] + packets) == p + Concat(packets)
    decreases |packets|
  {
    var n := |packets| - 1;
    if packets == [] {
      assert [p] + packets == [p] && [p][..0] == [];
    } else {
      ConcatInFront(p, packets[..n]);
      assert ([p] + packets)[..n + 1] == [p] + packets[..n];
    }
  }

  /** Whether a table leaves its last packet unfinished. */
  predicate Unfinished(table: seq<byte>) { table != [] && table[|table| - 1] == 255 }

  lemma {:induction false} UnlaceCovers(table: seq<byte>, payload: seq<byte>, current: Packet, pieces: nat)
    requires Sum(table) == |payload| && |current| == 255 * pieces
    ensures var r := Unlace(table, payload, current, pieces);
      && Concat(r) == current + payload
      && SegmentTable(r) == Full(pieces) + table + if Unfinished(Full(pieces) + table) then [0] else []
    decreases |table|
  {
    hide Lacing, Full, SegmentTable, Concat, Unfinished, Unlace, Sum;
    if table == [] {
      UnlaceEnd(current, pieces);
      assert Full(pieces) + table == Full(pieces);
      SumNothing(payload);
    } else {
      var t := table[0];
      UnlaceFirst(table, payload, current, pieces);
      var piece := current + payload[..t];
      assert piece + payload[t..] == current + payload;
      if t < 255 {
        var rest := Unlace(table[1..], payload[t..], [], 0);
        UnlaceCovers(table[1..], payload[t..], [], 0);
        NoneFull();
        CoversShort(pieces, piece, t, table[1..], rest);
        assert [t] + table[1..] == table && [] + payload[t..] == payload[t..];
      } else {
        UnlaceCovers(table[1..], payload[t..], piece, pieces + 1);
        OneMoreFull(pieces);
        assert Full(pieces) + [t] + table[1..] == Full(pieces) + table;
      }
    }
  }

  lemma SumNothing(payload: seq<byte>)
    requires Sum([]) == |payload|
    ensures payload == []
  {
  }

  lemma CoversShort(pieces: nat, piece: Packet, t: byte, table: seq<byte>, rest: seq<Packet>)
    requires t < 255 && |piece| == 255 * pieces + t
    requires SegmentTable(rest) == [] + table + if Unfinished([] + table) then [0] else []
    ensures SegmentTable([piece] + rest)
         == Full(pieces) + ([t] + table) + if Unfinished(Full(pieces) + ([t] + table)) then [0] else []
    ensures Concat([piece] + rest) == piece + Concat(rest)
  {
    hide Full, Unfinished, SegmentTable, Concat, Lacing;
    PacketInFront(piece, rest);
    LacingFull(pieces, t);
    AfterShort(Full(pieces), t, table);
    assert Full(pieces) + [t] + table == Full(pieces) + ([t] + table);
  }

  lemma AfterShort(a: seq<byte>, t: byte, rest: seq<byte>)
    requires t < 255
    ensures Unfinished(a + [t] + rest) == Unfinished([] + rest)
  {
  }

  lemma UnlaceEnd(current: Packet, pieces: nat)
    requires |current| == 255 * pieces
    ensures var r := Unlace([], [], current, pieces);
      && Concat(r) == current
      && SegmentTable(r) == Full(pieces) + if Unfinished(Full(pieces)) then [0] else []
  {
    LacingFull(pieces, 0);
    assert [current][..0] == [];
  }

  lemma UnlaceFirst(table: seq<byte>, payload: seq<byte>, current: Packet, pieces: nat)
    requires table != [] && Sum(table) == |payload|
    ensures table[0] <= |payload| && Sum(table[1..]) == |payload| - table[0]
    ensures var piece := current + payload[..table[0]];
      Unlace(table, payload, current, pieces) ==
        if table[0] < 255 then [piece] + Unlace(table[1..], payload[table[0]..], [], 0)
        else Unlace(table[1..], payload[table[0]..], piece, pieces + 1)
  {
  }

  lemma NoneFull()
    ensures Full(0) == []
  {
  }

  lemma OneMoreFull(n: nat)
    ensures Full(n + 1) == Full(n) + [255]
  {
  }

  /**
   * What the reader cuts from any page is the whole payload, in packets whose lacing is the page's table; an
   * unfinished packet at the end counts as a packet.
   */
  lemma UnlaceIsLacing(table: seq<byte>, payload: seq<byte>)
    requires Sum(table) == |payload|
    ensures Concat(Unlace(table, payload, [], 0)) == payload
    ensures SegmentTable(Unlace(table, payload, [], 0)) == table + if Unfinished(table) then [0] else []
  {
    hide Unlace, SegmentTable, Concat;
    UnlaceCovers(table, payload, [], 0);
    NoneFull();
    assert [] + payload == payload && [] + table == table;
  }

  // ---------------------------------------------------------------- pages

  lemma BlankLayout(flags: byte, granule: nat, seqNo: nat, table: seq<byte>, payload: seq<byte>)
    ensures var p := BlankPage(flags, granule, seqNo, table, payload);
      && p[..4] == SIGNATURE && p[4] == 0 && p[5] == flags && p[6..14] == LittleEndian(granule, 8)
      && p[14..18] == [0, 0, 0, 0] && p[18..22] == LittleEndian(seqNo, 4) && p[22..26] == [0, 0, 0, 0]
      && p[26] == |table| % 256
      && p[HEADER_LEN..HEADER_LEN + |table|] == table && p[HEADER_LEN + |table|..] == payload
  {
    hide LittleEndian;
    var h := PageHeader(flags, granule, seqNo, |table|);
    HeaderLayout(flags, granule, seqNo, |table|);
    var p := h + table + payload;
    assert p[..HEADER_LEN] == h;
    assert p[..4] == h[..4] && p[6..14] == h[6..14] && p[14..18] == h[14..18];
    assert p[18..22] == h[18..22] && p[22..26] == h[22..26];
  }

  lemma HeaderLayout(flags: byte, granule: nat, seqNo: nat, segments: nat)
    ensures var p := PageHeader(flags, granule, seqNo, segments);
      && p[..4] == SIGNATURE && p[4] == 0 && p[5] == flags && p[6..14] == LittleEndian(granule, 8)
      && p[14..18] == [0, 0, 0, 0] && p[18..22] == LittleEndian(seqNo, 4) && p[22..26] == [0, 0, 0, 0]
      && p[26] == segments % 256
  {
    hide LittleEndian;
  }

  /** Sealing touches bytes 22 to 25 only. */
  lemma SealLayout(blank: seq<byte>, rest: seq<byte>)
    requires |blank| >= HEADER_LEN
    ensures var data := Seal(blank) + rest;
      && (forall i :: 0 <= i < 22 || 26 <= i < |blank| ==> data[i] == blank[i])
      && data[22..26] == Checksum(blank) && data[..|blank|] == Seal(blank) && data[|blank|..] == rest
  {
    hide Checksum;
  }

  lemma SliceAgrees(data: seq<byte>, blank: seq<byte>, a: nat, b: nat)
    requires a <= b <= |blank| <= |data| && forall i :: a <= i < b ==> data[i] == blank[i]
    ensures data[a..b] == blank[a..b]
  {
  }

  /** The bytes of an emitted page, as the reader addresses them. */
  lemma PageLayout(flags: byte, granule: nat, seqNo: nat, table: seq<byte>, payload: seq<byte>, rest: seq<byte>)
    ensures var data := PageBytes(flags, granule, seqNo, table, payload) + rest;
      && IsSignature(data) && data[26] == |table| % 256
      && data[HEADER_LEN..HEADER_LEN + |table|] == table
      && data[HEADER_LEN + |table|..HEADER_LEN + |table| + |payload|] == payload
      && data[HEADER_LEN + |table| + |payload|..] == rest
  {
    hide LittleEndian, BlankPage, Checksum, Seal, IsSignature;
    BlankLayout(flags, granule, seqNo, table, payload);
    var blank := BlankPage(flags, granule, seqNo, table, payload);
    SealLayout(blank, rest);
    var data := Seal(blank) + rest;
    SliceAgrees(data, blank, 0, 4);
    SignatureIsRead(data);
    SliceAgrees(data, blank, HEADER_LEN, HEADER_LEN + |table|);
    SliceAgrees(data, blank, HEADER_LEN + |table|, |blank|);
  }

  lemma ReadFits(data: seq<byte>, table: seq<byte>, payload: seq<byte>, rest: seq<byte>)
    requires Sum(table) == |payload| && |data| == HEADER_LEN + |table| + |payload| + |rest|
    requires IsSignature(data) && data[26] == |table|
    requires data[HEADER_LEN..HEADER_LEN + |table|] == table
    requires data[HEADER_LEN + |table|..HEADER_LEN + |table| + |payload|] == payload
    requires data[HEADER_LEN + |table| + |payload|..] == rest
    ensures ReadPage(data) == Read(table, payload, rest)
  {
    hide Sum, IsSignature;
  }

  /** The reader never sees more than 255 segments. */
  lemma ReadIsShort(data: seq<byte>)
    ensures ReadPage(data).Read? ==> |ReadPage(data).table| == data[26]
  {
    hide Sum, IsSignature;
  }

  /** A page is read back whole exactly when its segment count fits byte 26. */
  lemma ReadPageBack(flags: byte, granule: nat, seqNo: nat, table: seq<byte>, payload: seq<byte>, rest: seq<byte>)
    requires Sum(table) == |payload|
    ensures ReadPage(PageBytes(flags, granule, seqNo, table, payload) + rest) == Read(table, payload, rest)
      <==> |table| <= 255
  {
    hide PageBytes, ReadPage, IsSignature, Sum;
    PageLayout(flags, granule, seqNo, table, payload, rest);
    ReadFitsIff(PageBytes(flags, granule, seqNo, table, payload) + rest, table, payload, rest);
  }

  lemma ReadFitsIff(data: seq<byte>, table: seq<byte>, payload: seq<byte>, rest: seq<byte>)
    requires Sum(table) == |payload| && |data| == HEADER_LEN + |table| + |payload| + |rest|
    requires IsSignature(data) && data[26] == |table| % 256
    requires data[HEADER_LEN..HEADER_LEN + |table|] == table
    requires data[HEADER_LEN + |table|..HEADER_LEN + |table| + |payload|] == payload
    requires data[HEADER_LEN + |table| + |payload|..] == rest
    ensures ReadPage(data) == Read(table, payload, rest) <==> |table| <= 255
  {
    hide ReadPage, IsSignature, Sum;
    if |table| <= 255 {
      ReadFits(data, table, payload, rest);
    } else {
      ReadIsShort(data);
    }
  }

  /**
   * What the player takes for a page: 27 bytes that start with OggS, whatever the top bit of each letter, then a
   * table as long as byte 26 says, then as many bytes as the table adds up to.
   */
  predicate IsPage(data: seq<byte>, table: seq<byte>, payload: seq<byte>, rest: seq<byte>) {
    && |data| >= 27 && data[0] % 128 == 0x4F && data[1] % 128 == data[2] % 128 == 0x67 && data[3] % 128 == 0x53
    && data == data[..27] + table + payload + rest && |table| == data[26] && |payload| == Sum(table)
  }

  lemma ReadPageExactly(data: seq<byte>, table: seq<byte>, payload: seq<byte>, rest: seq<byte>)
    ensures ReadPage(data) == Read(table, payload, rest) <==> IsPage(data, table, payload, rest)
  {
    hide ReadPage, IsPage;
    if ReadPage(data) == Read(table, payload, rest) { ReadIsPage(data); }
    if IsPage(data, table, payload, rest) { PageIsRead(data, table, payload, rest); }
  }

  lemma ReadIsPage(data: seq<byte>)
    requires ReadPage(data).Read?
    ensures var r := ReadPage(data); IsPage(data, r.table, r.payload, r.rest)
  {
    hide Sum;
    var r := ReadPage(data);
    var start: nat := 27 + |r.table|;
    CutInFour(data, start, start + |r.payload|);
  }

  lemma CutInFour(data: seq<byte>, start: nat, end: nat)
    requires 27 <= start <= end <= |data|
    ensures data == data[..27] + data[27..start] + data[start..end] + data[end..]
  {
  }

  lemma PageIsRead(data: seq<byte>, table: seq<byte>, payload: seq<byte>, rest: seq<byte>)
    requires IsPage(data, table, payload, rest)
    ensures ReadPage(data) == Read(table, payload, rest)
  {
    hide Sum;
    var start, end := 27 + |table|, 27 + |table| + |payload|;
    assert data[27..start] == table && data[start..end] == payload && data[end..] == rest;
  }

  lemma SignatureIsRead(data: seq<byte>)
    requires |data| >= 4 && data[..4] == SIGNATURE
    ensures IsSignature(data)
  {
    assert data[0] == SIGNATURE[0] && data[1] == SIGNATURE[1] && data[2] == SIGNATURE[2] && data[3] == SIGNATURE[3];
  }

  // ---------------------------------------------------------------- whole recordings

  predicate PageFits(packets: seq<Packet>) { |SegmentTable(packets)| <= 255 }

  /** The packets of the data page that starts at packet k. */
  function PageAt(packets: seq<Packet>, k: nat): seq<Packet>
    requires k <= |packets|
  {
    packets[k..if k + MAX_PAGE_PACKETS <= |packets| then k + MAX_PAGE_PACKETS else |packets|]
  }

  ghost predicate AllPagesFit(packets: seq<Packet>) {
    forall k: nat :: k <= |packets| && k % MAX_PAGE_PACKETS == 0 ==> PageFits(PageAt(packets, k))
  }

  lemma ParseDataPage(flags: byte, granule: nat, seqNo: nat, packets: seq<Packet>, rest: seq<byte>)
    requires PageFits(packets)
    ensures ParsePages(DataPage(flags, granule, seqNo, packets) + rest, 2) == packets + ParsePages(rest, 2)
  {
    hide PageBytes, ReadPage, Unlace, SegmentTable, Concat;
    var table, payload := SegmentTable(packets), Concat(packets);
    SumSegmentTable(packets);
    ReadPageBack(flags, granule, seqNo, table, payload, rest);
    UnlacePackets(packets, [], []);
    UnlaceNothing();
    assert table + [] == table && payload + [] == payload && packets + [] == packets;
  }

  lemma UnlaceNothing()
    ensures Sum([]) == 0 && Unlace([], [], [], 0) == []
  {
  }

  lemma HeaderLengths()
    ensures |OPUS_HEAD| == 19 && |OPUS_TAGS| == 25
  {
  }

  lemma ParseHeaders(rest: seq<byte>)
    ensures ParsePages(HeaderBytes() + rest, 0) == ParsePages(rest, 2)
  {
    hide PageBytes, ReadPage, Lacing, OPUS_HEAD, OPUS_TAGS;
    var head := PageBytes(FLAG_BOS, 0, 0, Lacing(|OPUS_HEAD|), OPUS_HEAD);
    var tags := PageBytes(0, 0, 0, Lacing(|OPUS_TAGS|), OPUS_TAGS);
    HeaderLengths();
    SumLacing(|OPUS_HEAD|);
    SumLacing(|OPUS_TAGS|);
    assert HeaderBytes() + rest == head + (tags + rest);
    ReadPageBack(FLAG_BOS, 0, 0, Lacing(|OPUS_HEAD|), OPUS_HEAD, tags + rest);
    ReadPageBack(0, 0, 0, Lacing(|OPUS_TAGS|), OPUS_TAGS, rest);
  }

  lemma {:induction false} ParseFullPages(packets: seq<Packet>, rest: seq<byte>)
    requires |packets| % MAX_PAGE_PACKETS == 0 && AllPagesFit(packets)
    ensures ParsePages(FullPages(packets) + rest, 2) == packets + ParsePages(rest, 2)
    decreases |packets|
  {
    hide DataPage, ParsePages, PageFits;
    if packets == [] {
      assert FullPages(packets) + rest == rest;
    } else {
      var n := |packets| - MAX_PAGE_PACKETS;
      PrefixFits(packets, n);
      assert PageAt(packets, n) == packets[n..];
      var page := DataPage(0, SAMPLES_PER_FRAME * |packets|, n / MAX_PAGE_PACKETS, packets[n..]);
      ParseDataPage(0, SAMPLES_PER_FRAME * |packets|, n / MAX_PAGE_PACKETS, packets[n..], rest);
      ParseFullPages(packets[..n], page + rest);
      assert FullPages(packets) + rest == FullPages(packets[..n]) + (page + rest);
      assert packets[..n] + (packets[n..] + ParsePages(rest, 2)) == packets + ParsePages(rest, 2);
    }
  }

  lemma PrefixFits(packets: seq<Packet>, n: nat)
    requires AllPagesFit(packets) && n <= |packets| && n % MAX_PAGE_PACKETS == 0
    ensures AllPagesFit(packets[..n])
  {
    hide PageFits;
    forall k: nat | k <= n && k % MAX_PAGE_PACKETS == 0 ensures PageFits(PageAt(packets[..n], k)) {
      if k < n {
        assert PageAt(packets[..n], k) == PageAt(packets, k);
      } else {
        assert PageAt(packets[..n], k) == [];
        EmptyPageFits();
      }
    }
  }

  lemma EmptyPageFits()
    ensures PageFits([])
  {
  }

  /** Round trip: a stopped recording read back gives its packets, in order. */
  lemma RoundTrip(packets: seq<Packet>)
    requires AllPagesFit(packets)
    ensures ParsePages(FileBytes(packets), 0) == packets
  {
    hide HeaderBytes, DataPage, ParsePages, FullPages, PageFits;
    var k := InFullPages(|packets|);
    ParseHeaders(DataPages(packets));
    PrefixFits(packets, k);
    NothingLeft();
    if k == |packets| {
      assert packets[..k] == packets;
      ParseFullPages(packets, []);
      assert FullPages(packets) + [] == FullPages(packets);
    } else {
      var page := DataPage(FLAG_EOS, SAMPLES_PER_FRAME * |packets|, k / MAX_PAGE_PACKETS, packets[k..]);
      assert PageAt(packets, k) == packets[k..];
      ParseDataPage(FLAG_EOS, SAMPLES_PER_FRAME * |packets|, k / MAX_PAGE_PACKETS, packets[k..], []);
      ParseFullPages(packets[..k], page);
      assert page + [] == page;
      assert packets[..k] + (packets[k..] + []) == packets;
    }
  }

  lemma NothingLeft()
    ensures ParsePages([], 2) == []
  {
  }

  // ---------------------------------------------------------------- which packets are safe

  predicate AtMost(packets: seq<Packet>, limit: nat) {
    forall p :: p in packets ==> |p| <= limit
  }

  lemma {:induction false} SmallPacketsFit(packets: seq<Packet>)
    requires AtMost(packets, 1274)
    ensures |SegmentTable(packets)| <= 5 * |packets|
  {
    if packets != [] {
      SmallPacketsFit(packets[..|packets| - 1]);
    }
  }

  /** Packets of at most 1274 bytes need at most 240 segments a page, so byte 26 never wraps. */
  lemma SmallPagesFit(packets: seq<Packet>)
    requires AtMost(packets, 1274)
    ensures AllPagesFit(packets)
  {
    forall k: nat | k <= |packets| && k % MAX_PAGE_PACKETS == 0 ensures PageFits(PageAt(packets, k)) {
      SmallPacketsFit(PageAt(packets, k));
    }
  }

  /** 48 packets of 1275 zero bytes: 288 segments on one page. */
  function LongPackets(n: nat): seq<Packet> { seq(n, _ => seq(1275, _ => 0)) }

  lemma {:induction false} LongTable(n: nat)
    ensures |SegmentTable(LongPackets(n))| == 6 * n
    ensures forall j ::
      0 <= j < n ==> SegmentTable(LongPackets(n))[6 * j] == SegmentTable(LongPackets(n))[6 * j + 2] == 255
  {
    if n > 0 {
      LongTable(n - 1);
      assert LongPackets(n)[..n - 1] == LongPackets(n - 1);
      LongLacing();
    }
  }

  lemma LongLacing()
    ensures |Lacing(1275)| == 6 && Lacing(1275)[0] == 255 && Lacing(1275)[2] == 255
  {
    assert Lacing(1275) == [255] + Lacing(1020);
    assert Lacing(1020) == [255] + Lacing(765);
    assert Lacing(765) == [255] + Lacing(510);
  }

  /** Whatever is cut from a payload starts with what was already collected. */
  lemma {:induction false} UnlaceKeepsStart(table: seq<byte>, payload: seq<byte>, current: Packet, pieces: nat)
    requires Sum(table) == |payload| && current != [] && pieces > 0
    ensures var r := Unlace(table, payload, current, pieces); r != [] && r[0] != [] && r[0][0] == current[0]
    decreases |table|
  {
    if table != [] && table[0] == 255 {
      UnlaceKeepsStart(table[1..], payload[255..], current + payload[..255], pieces + 1);
    }
  }

  /** The recorder wraps 288 to 32, and the reader takes the rest of the table for audio. */
  lemma LongPacketsAreLost()
    ensures ParsePages(FileBytes(LongPackets(48)), 0) != LongPackets(48)
  {
    hide HeaderBytes, PageBytes, ReadPage, ParsePages, SegmentTable, Concat;
    var packets := LongPackets(48);
    var table, payload := SegmentTable(packets), Concat(packets);
    assert packets[..0] == [] && packets[0..] == packets;
    var page := PageBytes(0, SAMPLES_PER_FRAME * 48, 0, table, payload);
    assert FullPages(packets) == FullPages([]) + page;
    assert DataPages(packets) == page;
    ParseHeaders(page);
    LongTable(48);
    assert table[6 * 0] == 255 && table[6 * 5 + 2] == 255;
    WrappedPage(0, SAMPLES_PER_FRAME * 48, 0, table, payload);
  }

  lemma WrappedPage(flags: byte, granule: nat, seqNo: nat, table: seq<byte>, payload: seq<byte>)
    requires |table| == 288 && table[0] == 255 && table[32] == 255
    ensures var r := ParsePages(PageBytes(flags, granule, seqNo, table, payload), 2);
      r == [] || (r[0] != [] && r[0][0] == 255)
  {
    hide PageBytes, ReadPage, Unlace, IsSignature;
    var page := PageBytes(flags, granule, seqNo, table, payload);
    PageLayout(flags, granule, seqNo, table, payload, []);
    assert page + [] == page;
    assert page[HEADER_LEN..HEADER_LEN + 288][0] == 255 && page[HEADER_LEN..HEADER_LEN + 288][32] == 255;
    if ReadPage(page).Read? {
      LongPageRead(page);
    }
  }

  lemma LongPageRead(page: seq<byte>)
    requires |page| > HEADER_LEN + 32 && page[26] == 32
    requires page[HEADER_LEN] == 255 && page[HEADER_LEN + 32] == 255
    requires ReadPage(page).Read?
    ensures var r := ParsePages(page, 2); r != [] && r[0] != [] && r[0][0] == 255
  {
    hide Sum, IsSignature, ReadPage, Unlace, ParsePages;
    var got := ReadPage(page);
    ReadIsPrefix(page);
    assert got.table[0] == 255;
    ParseStarts(page);
    assert got.payload[0] == 255;
  }

  lemma ParseStarts(data: seq<byte>)
    requires var p := ReadPage(data); p.Read? && p.table != [] && p.table[0] == 255
    ensures |ReadPage(data).payload| > 0
    ensures var r := ParsePages(data, 2); r != [] && r[0] != [] && r[0][0] == ReadPage(data).payload[0]
  {
    hide ReadPage, Unlace, Sum;
    UnlaceStarts(ReadPage(data).table, ReadPage(data).payload);
  }

  lemma ReadIsPrefix(data: seq<byte>)
    requires ReadPage(data).Read?
    ensures var r := ReadPage(data); var start := HEADER_LEN + data[26];
      && |r.table| == data[26] && start + |r.payload| <= |data|
      && (forall i :: 0 <= i < |r.table| ==> r.table[i] == data[HEADER_LEN + i])
      && (forall i :: 0 <= i < |r.payload| ==> r.payload[i] == data[start + i])
  {
    hide Sum, IsSignature;
  }

  lemma UnlaceStarts(table: seq<byte>, payload: seq<byte>)
    requires Sum(table) == |payload| && table != [] && table[0] == 255
    ensures |payload| >= 255
    ensures var r := Unlace(table, payload, [], 0); r != [] && r[0] != [] && r[0][0] == payload[0]
  {
    UnlaceKeepsStart(table[1..], payload[255..], [] + payload[..255], 1);
  }

  /** The longest packet the recorder is safe for, whatever the bytes and however many packets. */
  lemma RoundTripLimit(limit: nat)
    ensures (forall packets: seq<Packet> :: AtMost(packets, limit) ==> ParsePages(FileBytes(packets), 0) == packets)
      <==> limit <= 1274
  {
    hide ParsePages, FileBytes;
    if limit <= 1274 {
      forall packets: seq<Packet> | AtMost(packets, limit) ensures ParsePages(FileBytes(packets), 0) == packets {
        SmallPagesFit(packets);
        RoundTrip(packets);
      }
    } else {
      assert AtMost(LongPackets(48), limit);
      LongPacketsAreLost();
    }
  }
}
