/** packages/calling/src/audio-player.ts, readOpusPackets: walk pages and lacing tables. */
module OggReader {
  import opened Bytes
  import opened OggFormat

  /** Decoding as 'ascii' drops the high bit of every byte before the comparison with 'OggS'. */
  predicate IsSignature(header: seq<byte>)
    requires |header| >= 4
  {
    forall i :: 0 <= i < 4 ==> header[i] % 128 == SIGNATURE[i]
  }

  // ---------------------------------------------------------------- what the loops compute

  /** Cut a payload at the lacing values below 255; pieces still open at the end form a packet. */
  function Unlace(table: seq<byte>, payload: seq<byte>, current: Packet, pieces: nat): seq<Packet>
    requires Sum(table) == |payload|
    decreases |table|
  {
    if table == [] then (if pieces > 0 then [current] else [])
    else
      var piece := current + payload[..table[0]];
      if table[0] < 255 then [piece] + Unlace(table[1..], payload[table[0]..], [], 0)
      else Unlace(table[1..], payload[table[0]..], piece, pieces + 1)
  }

  datatype PageRead = Stop | Read(table: seq<byte>, payload: seq<byte>, rest: seq<byte>)

  /** Split the first page off; Stop on a short, truncated or foreign page. */
  function ReadPage(data: seq<byte>): (r: PageRead)
    ensures r.Read? ==> |r.rest| < |data| && Sum(r.table) == |r.payload|
  {
    if |data| < HEADER_LEN || !IsSignature(data) then Stop
    else
      var start := HEADER_LEN + data[26];
      if start > |data| then Stop
      else
        var table := data[HEADER_LEN..start];
        var end := start + Sum(table);
        if end > |data| then Stop else Read(table, data[start..end], data[end..])
  }

  /** The packets of all pages after the first two, which are headers. */
  function ParsePages(data: seq<byte>, headersSkipped: nat): seq<Packet>
    decreases |data|
  {
    match ReadPage(data)
    case Stop => []
    case Read(table, payload, rest) =>
      if headersSkipped < 2 then ParsePages(rest, headersSkipped + 1)
      else Unlace(table, payload, [], 0) + ParsePages(rest, headersSkipped)
  }

  // ---------------------------------------------------------------- the loops

  method SumSegments(table: seq<byte>) returns (size: nat)
    ensures size == Sum(table)
  {
    size := 0;
    for i := 0 to |table|
      invariant size + Sum(table[i..]) == Sum(table)
    {
      size := size + table[i];
    }
  }

  method UnlacePage(table: seq<byte>, payload: seq<byte>) returns (packets: seq<Packet>)
    requires Sum(table) == |payload|
    ensures packets == Unlace(table, payload, [], 0)
  {
    packets := [];
    var payloadOffset: nat := 0;
    var current: Packet := [];
    var pieces: nat := 0;
    for i := 0 to |table|
      invariant payloadOffset + Sum(table[i..]) == |payload|
      invariant packets + Unlace(table[i..], payload[payloadOffset..], current, pieces) == Unlace(table, payload, [], 0)
    {
      var piece := payload[payloadOffset..payloadOffset + table[i]];
      assert table[i..][1..] == table[i + 1..];
      assert payload[payloadOffset..][..table[i]] == piece;
      assert payload[payloadOffset..][table[i]..] == payload[payloadOffset + table[i]..];
      current := current + piece;
      pieces := pieces + 1;
      payloadOffset := payloadOffset + table[i];
      if table[i] < 255 {
        packets := packets + [current];
        current := [];
        pieces := 0;
      }
    }
    if pieces > 0 {
      packets := packets + [current];
    }
  }

  /** One turn of the page loop up to the payload; not ok is each of its `break`s. */
  method ReadPageAt(data: seq<byte>, offset: nat)
    returns (ok: bool, table: seq<byte>, payload: seq<byte>, next: nat)
    requires offset + HEADER_LEN <= |data|
    ensures ok == ReadPage(data[offset..]).Read?
    ensures ok ==> offset < next <= |data| && ReadPage(data[offset..]) == Read(table, payload, data[next..])
  {
    hide Sum, IsSignature;
    ok, table, payload, next := false, [], [], offset;
    if !IsSignature(data[offset..]) { return; }
    var segmentsCount := data[offset + 26];
    var start := offset + HEADER_LEN + segmentsCount;
    if start > |data| { return; }
    table := data[offset + HEADER_LEN..start];
    assert table == data[offset..][HEADER_LEN..HEADER_LEN + segmentsCount];
    var payloadSize := SumSegments(table);
    if start + payloadSize > |data| { return; }
    next := start + payloadSize;
    payload := data[start..next];
    ok := true;
    assert payload == data[offset..][start - offset..next - offset];
    assert data[next..] == data[offset..][next - offset..];
  }

  method ReadOpusPackets(data: seq<byte>) returns (packets: seq<Packet>)
    ensures packets == ParsePages(data, 0)
  {
    hide Unlace, ReadPage;
    packets := [];
    var offset: nat := 0;
    var headersSkipped: nat := 0;
    assert data[0..] == data;
    while offset + HEADER_LEN <= |data|
      invariant offset <= |data|
      invariant packets + ParsePages(data[offset..], headersSkipped) == ParsePages(data, 0)
    {
      var ok, table, payload, next := ReadPageAt(data, offset);
      if !ok { break; }
      offset := next;
      if headersSkipped < 2 {
        headersSkipped := headersSkipped + 1;
        continue;
      }
      var more := UnlacePage(table, payload);
      packets := packets + more;
    }
    ShortTail(data[offset..], headersSkipped);
  }

  lemma ShortTail(data: seq<byte>, headersSkipped: nat)
    ensures |data| < HEADER_LEN ==> ParsePages(data, headersSkipped) == []
  {
  }
}
