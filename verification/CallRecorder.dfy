/** packages/calling/src/recorder/ogg-recorder.ts: buffer packets, lace them, write pages. */
module Recorder {
  import opened Bytes
  import opened OggFormat
  import OggCrc

  /** writeUInt32LE throws from this page number on. */
  const PAGE_NUMBER_LIMIT: nat := 0x1_0000_0000

  /** Copy bytes into a buffer (Buffer.write, writeUInt..LE). */
  method WriteAt(buffer: array<byte>, offset: nat, bytes: seq<byte>)
    requires offset + |bytes| <= buffer.Length
    modifies buffer
    ensures buffer[..offset + |bytes|] == old(buffer[..offset]) + bytes
    ensures buffer[offset + |bytes|..] == old(buffer[offset + |bytes|..])
  {
    for i := 0 to |bytes|
      invariant buffer[..offset + i] == old(buffer[..offset]) + bytes[..i]
      invariant buffer[offset + i..] == old(buffer[offset + i..])
    {
      buffer[offset + i] := bytes[i];
    }
  }

  method LaceOne(table: seq<byte>, packet: Packet) returns (extended: seq<byte>)
    ensures extended == table + Lacing(|packet|)
  {
    extended := table;
    var remaining: nat := |packet|;
    while remaining >= 255
      invariant extended + Lacing(remaining) == table + Lacing(|packet|)
    {
      extended := extended + [255];
      remaining := remaining - 255;
    }
    extended := extended + [remaining];
  }

  method LacePackets(packets: seq<Packet>) returns (table: seq<byte>, payload: seq<byte>)
    ensures table == SegmentTable(packets) && payload == Concat(packets)
  {
    table, payload := [], [];
    for i := 0 to |packets|
      invariant table == SegmentTable(packets[..i])
      invariant payload == Concat(packets[..i])
    {
      table := LaceOne(table, packets[i]);
      payload := payload + packets[i];
      assert packets[..i + 1][..i] == packets[..i];
    }
    assert packets[..|packets|] == packets;
  }

  /** The page both writePage and flushPage assemble. */
  method AssemblePage(crcTable: seq<OggCrc.Word>, flags: byte, granule: nat, seqNo: nat,
                      table: seq<byte>, payload: seq<byte>) returns (bytes: seq<byte>)
    requires OggCrc.IsCrcTable(crcTable)
    ensures bytes == PageBytes(flags, granule, seqNo, table, payload)
  {
    var page := new byte[HEADER_LEN + |table| + |payload|](_ => 0);
    FillHeader(page, flags, granule, seqNo, |table|);
    WriteAt(page, HEADER_LEN, table);
    WriteAt(page, HEADER_LEN + |table|, payload);
    assert page[..] == page[..page.Length];
    var crc := OggCrc.OggCrc32(crcTable, page[..]);
    ghost var blank := page[..];
    WriteAt(page, 22, LittleEndian(OggCrc.Value(crc), 4));
    bytes := page[..];
    assert bytes == page[..26] + page[26..];
    assert page[..26] == blank[..22] + Checksum(blank);
    assert page[26..] == blank[26..];
  }

  /** The fixed 27 bytes of a freshly allocated page. */
  method FillHeader(page: array<byte>, flags: byte, granule: nat, seqNo: nat, segments: nat)
    requires page.Length >= HEADER_LEN && forall i :: 0 <= i < page.Length ==> page[i] == 0
    modifies page
    ensures page[..HEADER_LEN] == PageHeader(flags, granule, seqNo, segments)
  {
    WriteAt(page, 0, SIGNATURE);
    WriteAt(page, 4, [0, flags]);
    WriteAt(page, 6, LittleEndian(granule, 8));
    WriteAt(page, 14, [0, 0, 0, 0]);
    WriteAt(page, 18, LittleEndian(seqNo, 4));
    WriteAt(page, 22, [0, 0, 0, 0]);
    WriteAt(page, 26, [segments % 256]);
  }

  /** `file` holds the headers and the full pages of everything in `given` but the buffered tail. */
  ghost predicate Buffering(header: seq<byte>, given: seq<Packet>, pageBuf: seq<Packet>, pageSeqNo: nat,
        file: seq<byte>) {
    && |pageBuf| <= |given|
    && var k := |given| - |pageBuf|;
    && pageBuf == given[k..]
    && k % MAX_PAGE_PACKETS == 0
    && pageSeqNo == k / MAX_PAGE_PACKETS <= PAGE_NUMBER_LIMIT
    && file == header + FullPages(given[..k])
  }

  lemma BufferOne(header: seq<byte>, given: seq<Packet>, pageBuf: seq<Packet>, pageSeqNo: nat, file: seq<byte>,
        packet: Packet)
    requires Buffering(header, given, pageBuf, pageSeqNo, file)
    ensures Buffering(header, given + [packet], pageBuf + [packet], pageSeqNo, file)
  {
    hide DataPage;
    var k := |given| - |pageBuf|;
    assert (given + [packet])[..k] == given[..k];
    assert (given + [packet])[k..] == pageBuf + [packet];
  }

  lemma EmptyConcat()
    ensures Concat([]) == []
  {
  }

  lemma ConcatAppend(packets: seq<Packet>, packet: Packet)
    ensures Concat(packets + [packet]) == Concat(packets) + packet
  {
    assert (packets + [packet])[..|packets|] == packets;
  }

  lemma FlushFull(header: seq<byte>, given: seq<Packet>, pageBuf: seq<Packet>, pageSeqNo: nat, file: seq<byte>)
    requires Buffering(header, given, pageBuf, pageSeqNo, file)
    requires |pageBuf| == MAX_PAGE_PACKETS && pageSeqNo < PAGE_NUMBER_LIMIT
    ensures Buffering(header, given, [], pageSeqNo + 1,
                      file + DataPage(0, SAMPLES_PER_FRAME * |given|, pageSeqNo, pageBuf))
  {
    hide DataPage, FullPages;
    assert given[..|given|] == given;
    var page := DataPage(0, SAMPLES_PER_FRAME * |given|, pageSeqNo, pageBuf);
    var k := |given| - |pageBuf|;
    LastFullPage(given, k);
    assert header + (FullPages(given[..k]) + page) == header + FullPages(given[..k]) + page;
  }

  lemma LastFullPage(packets: seq<Packet>, k: nat)
    requires |packets| == k + MAX_PAGE_PACKETS && k % MAX_PAGE_PACKETS == 0
    ensures |packets| % MAX_PAGE_PACKETS == 0 && |packets| / MAX_PAGE_PACKETS == k / MAX_PAGE_PACKETS + 1
    ensures FullPages(packets) == FullPages(packets[..k])
      + DataPage(0, SAMPLES_PER_FRAME * |packets|, k / MAX_PAGE_PACKETS, packets[k..])
  {
    hide DataPage;
  }

  lemma FullPart(n: nat, k: nat)
    requires k <= n < k + MAX_PAGE_PACKETS && k % MAX_PAGE_PACKETS == 0
    ensures InFullPages(n) == k
  {
  }

  lemma FlushTail(header: seq<byte>, given: seq<Packet>, pageBuf: seq<Packet>, pageSeqNo: nat, file: seq<byte>)
    requires Buffering(header, given, pageBuf, pageSeqNo, file) && |pageBuf| < MAX_PAGE_PACKETS
    ensures header + DataPages(given) == file + if pageBuf == [] then [] else
              DataPage(FLAG_EOS, SAMPLES_PER_FRAME * |given|, pageSeqNo, pageBuf)
  {
    hide DataPage, FullPages, InFullPages;
    var k := |given| - |pageBuf|;
    FullPart(|given|, k);
    if pageBuf == [] {
      assert given[..k] == given;
    } else {
      var page := DataPage(FLAG_EOS, SAMPLES_PER_FRAME * |given|, pageSeqNo, pageBuf);
      assert DataPages(given) == FullPages(given[..k]) + page;
      assert header + (FullPages(given[..k]) + page) == file + page;
    }
  }

  /**
   * A recording in progress. Calls are taken one after the other; `file` is what the write
   * stream has received.
   */
  class CallRecorder {
    const crcTable: seq<OggCrc.Word>
    var granulePos: nat
    var pageSeqNo: nat
    var pageBuf: seq<Packet>
    var pageBufBytes: nat
    var packetCount: nat
    var stopped: bool
    var closed: bool
    var file: seq<byte>

    ghost const header: seq<byte> // the two header pages
    ghost var given: seq<Packet>  // every packet accepted so far
    ghost var failed: bool        // a flush has thrown because the page number no longer fits

    ghost predicate Valid()
      reads this
    {
      && OggCrc.IsCrcTable(crcTable)
      && packetCount == |given|
      && pageBufBytes == |Concat(pageBuf)|
      && (stopped && !failed ==> pageBuf == [] && file == header + DataPages(given))
      && (!stopped || failed ==> Buffering(header, given, pageBuf, pageSeqNo, file))
      && (!stopped && !failed ==>
            |pageBuf| < MAX_PAGE_PACKETS && granulePos == SAMPLES_PER_FRAME * (|given| - |pageBuf|))
      && (failed ==> pageSeqNo == PAGE_NUMBER_LIMIT)
    }

    constructor Init()
      ensures Valid() && !stopped && !failed
      ensures given == [] && header == HeaderBytes()
    {
      hide PageBytes, Lacing, LittleEndian, OggCrc.IsCrcTable;
      assert Concat([]) == [];
      var table := OggCrc.BuildTable();
      crcTable := table;
      header := HeaderBytes();
      granulePos, pageSeqNo, pageBuf, pageBufBytes, packetCount := 0, 0, [], 0, 0;
      stopped, closed, file, given, failed := false, false, [], [], false;
      new;
      WritePage(OPUS_HEAD, true, false, 0);
      WritePage(OPUS_TAGS, false, false, 0);
    }

    /** A header page; the page number is whatever it currently is and does not advance. */
    method WritePage(payload: seq<byte>, bos: bool, eos: bool, granule: nat)
      requires OggCrc.IsCrcTable(crcTable) && pageSeqNo < PAGE_NUMBER_LIMIT
      modifies this`file
      ensures file == old(file) + PageBytes((if bos then FLAG_BOS else 0) + (if eos then FLAG_EOS else 0),
                                            granule, pageSeqNo, Lacing(|payload|), payload)
    {
      var table := LaceOne([], payload);
      assert [] + Lacing(|payload|) == Lacing(|payload|);
      var flags: byte := (if bos then FLAG_BOS else 0) + (if eos then FLAG_EOS else 0);
      var page := AssemblePage(crcTable, flags, granule, pageSeqNo, table, payload);
      file := file + page;
    }

    /** Write the buffered packets as one page; fails when the page number needs 33 bits. */
    method FlushPage(lastPage: bool) returns (ok: bool)
      requires OggCrc.IsCrcTable(crcTable)
      modifies this`file, this`granulePos
      ensures ok == (pageBuf == [] || pageSeqNo < 0x1_0000_0000)
      ensures granulePos == old(granulePos) + 960 * |pageBuf|
      ensures !ok || pageBuf == [] ==> file == old(file)
      ensures ok && pageBuf != [] ==>
        file == old(file) + DataPage(if lastPage then FLAG_EOS else 0, granulePos, pageSeqNo, pageBuf)
    {
      if |pageBuf| == 0 { return true; }
      var table, payload := LacePackets(pageBuf);
      granulePos := granulePos + |pageBuf| * SAMPLES_PER_FRAME;
      if pageSeqNo >= PAGE_NUMBER_LIMIT { return false; }
      var page := AssemblePage(crcTable, if lastPage then FLAG_EOS else 0, granulePos, pageSeqNo, table, payload);
      file := file + page;
      ok := true;
    }

    lemma PagesWritten()
      requires Valid() && !failed && !stopped
      ensures pageSeqNo <= 0x1_0000_0000 && 48 * pageSeqNo + |pageBuf| == |given|
    {
      hide FullPages, OggCrc.IsCrcTable, Concat;
    }

    method WritePacket(opusData: Packet) returns (ok: bool)
      requires Valid()
      modifies this
      ensures Valid()
      ensures stopped == old(stopped)
      ensures given == if old(stopped) then old(given) else old(given) + [opusData]
      ensures old(stopped) ==> file == old(file)
      ensures ok == (old(stopped) || |old(pageBuf)| + 1 < 48 || old(pageSeqNo) < 0x1_0000_0000)
      ensures failed == (old(failed) || !ok)
    {
      hide DataPage, FullPages, Concat, OggCrc.IsCrcTable;
      ConcatAppend(pageBuf, opusData);
      EmptyConcat();
      if stopped { return true; }
      BufferOne(header, given, pageBuf, pageSeqNo, file, opusData);
      pageBuf := pageBuf + [opusData];
      pageBufBytes := pageBufBytes + |opusData|;
      packetCount := packetCount + 1;
      given := given + [opusData];
      ok := true;
      if |pageBuf| >= MAX_PAGE_PACKETS {
        ghost var before := file;
        ok := FlushPage(false);
        if !ok {
          failed := true;
          return;
        }
        FlushFull(header, given, pageBuf, pageSeqNo, before);
        pageSeqNo := pageSeqNo + 1;
        pageBuf := [];
        pageBufBytes := 0;
      }
    }

    method Stop() returns (ok: bool, count: nat)
      requires Valid()
      modifies this
      ensures Valid() && stopped
      ensures given == old(given) && count == |given|
      ensures ok == (old(stopped) || old(pageBuf) == [] || old(pageSeqNo) < 0x1_0000_0000)
      ensures failed == (old(failed) || !ok)
      ensures !failed ==> file == header + DataPages(given)
      ensures old(stopped) ==> file == old(file)
    {
      hide DataPage, FullPages, Concat, OggCrc.IsCrcTable;
      EmptyConcat();
      count := packetCount;
      if stopped { return true, count; }
      stopped := true;
      ok := true;
      if !failed { FlushTail(header, given, pageBuf, pageSeqNo, file); }
      if |pageBuf| > 0 {
        ok := FlushPage(true);
        if !ok {
          failed := true;
          return;
        }
        pageSeqNo := pageSeqNo + 1;
        pageBuf := [];
        pageBufBytes := 0;
      }
      closed := true;
    }
  }
}
