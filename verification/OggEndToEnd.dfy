/** A recording made packet by packet and read back by the player. */
module OggEndToEnd {
  import opened OggFormat
  import opened OggRoundTrip
  import OggReader
  import Recorder

  /** writePacket for each packet, stop, readOpusPackets: ok when no write failed. */
  method RecordAndRead(packets: seq<Packet>) returns (ok: bool, packetCount: nat, read: seq<Packet>)
    ensures packetCount == |packets|
    ensures |packets| <= 48 * 0x1_0000_0000 ==> ok
    ensures ok && AtMost(packets, 1274) ==> read == packets
  {
    hide HeaderBytes, DataPages, OggReader.ParsePages, AtMost, Recorder.CallRecorder.Valid;
    var recorder := new Recorder.CallRecorder.Init();
    ok := true;
    for i := 0 to |packets|
      invariant recorder.Valid() && !recorder.stopped && fresh(recorder)
      invariant recorder.header == HeaderBytes() && recorder.given == packets[..i] && ok == !recorder.failed
      invariant |packets| <= MAX_PAGE_PACKETS * Recorder.PAGE_NUMBER_LIMIT ==> ok
    {
      if ok { recorder.PagesWritten(); }
      var written := recorder.WritePacket(packets[i]);
      ok := ok && written;
      assert packets[..i + 1] == packets[..i] + [packets[i]];
    }
    assert packets[..|packets|] == packets;
    if ok { recorder.PagesWritten(); }
    var stopped, count := recorder.Stop();
    ok, packetCount := ok && stopped, count;
    read := OggReader.ReadOpusPackets(recorder.file);
    if ok && AtMost(packets, 1274) {
      SmallPagesFit(packets);
      RoundTrip(packets);
    }
  }
}
