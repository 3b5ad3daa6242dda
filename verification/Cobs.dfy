/** The COBS decoder of the serial link, a state machine fed one byte at a time, against the COBS
    encoding of Cheshire and Baker. */
module Cobs {
  import opened Bytes
  import opened Options

  const BUFFER_SIZE := 2048

  const FULL_GROUP := 254

  // ----- the decoder -----

  /** `written` is the part of the buffer in use; `packets` are the packets handed on so far. */
  datatype Decoder = Decoder(written: seq<byte>, code: byte, block: byte, packets: seq<seq<byte>>)

  function Reset(d: Decoder): Decoder {
    d.(written := [], code := 0xff, block := 0)
  }

  /** The zero a group other than a full one stands for; it is written when the next group begins. */
  function PendingZero(code: byte): seq<byte> {
    if code != 0xff then [0] else []
  }

  function Step(d: Decoder, b: byte): Decoder {
    var e := if |d.written| == BUFFER_SIZE - 1 && b != 0 then Reset(d) else d;
    if e.block != 0 then
      if b == 0 then Reset(e)
      else e.(written := e.written + [b], block := e.block - 1)
    else
      var w := e.written + PendingZero(e.code);
      if b == 0 then Reset(e.(packets := if w == [] then e.packets else e.packets + [w[..|w| - 1]]))
      else e.(written := w, code := b, block := b - 1)
  }

  function Feed(d: Decoder, bytes: seq<byte>): Decoder
    decreases |bytes|
  {
    if bytes == [] then d else Feed(Step(d, bytes[0]), bytes[1..])
  }

  class Serial {
    const msg: array<byte>
    var code: byte
    var block: byte
    var decode: nat
    var packets: seq<seq<byte>>

    ghost predicate Valid()
      reads this
    {
      msg.Length == BUFFER_SIZE && decode < BUFFER_SIZE
    }

    ghost function Contents(): Decoder
      reads this, msg
      requires Valid()
    {
      Decoder(msg[..decode], code, block, packets)
    }

    constructor ()
      ensures Valid() && Contents() == Decoder([], 0xff, 0, [])
    {
      msg := new byte[BUFFER_SIZE](_ => 0);
      code, block, decode, packets := 0xff, 0, 0, [];
    }

    method CobsDecodeReset()
      requires Valid()
      modifies `code, `block, `decode
      ensures Valid() && Contents() == Reset(old(Contents()))
    {
      code := 0xff;
      block := 0;
      decode := 0;
    }

    /** `*decode++ = b`: the byte goes behind what is written, inside the buffer. */
    method Put(b: byte)
      requires decode < msg.Length
      modifies `decode, msg
      ensures decode == old(decode) + 1
      ensures msg[..decode] == old(msg[..decode]) + [b]
    {
      msg[decode] := b;
      decode := decode + 1;
    }

    method HandlePacket(len: nat)
      requires len <= msg.Length
      modifies `packets
      ensures packets == old(packets) + [msg[..len]]
    {
      packets := packets + [msg[..len]];
    }

    /** Whatever the state and the byte, every write lands inside the buffer and `block` stays a byte. */
    method CobsDecodeByte(b: byte)
      requires Valid()
      modifies this, msg
      ensures Valid() && Contents() == Step(old(Contents()), b)
    {
      if decode == BUFFER_SIZE - 1 && b != 0x00 {
        CobsDecodeReset();
      }
      if block != 0 {
        if b == 0x00 {
          CobsDecodeReset();
          return;
        }
        Put(b);
      } else {
        ghost var before := msg[..decode];
        if code != 0xff {
          Put(0);
        }
        assert msg[..decode] == before + PendingZero(code);
        code := b;
        block := b;
        if code == 0x00 {
          if decode != 0 {
            HandlePacket(decode - 1);
            assert msg[..decode - 1] == msg[..decode][..decode - 1];
          }
          decode := 0;
          CobsDecodeReset();
          return;
        }
      }
      block := block - 1;
    }

    method CobsDecode(buf: seq<byte>)
      requires Valid()
      modifies this, msg
      ensures Valid() && Contents() == Feed(old(Contents()), buf)
    {
      for i := 0 to |buf|
        invariant Valid()
        invariant Contents() == Feed(old(Contents()), buf[..i])
      {
        FeedAppends(old(Contents()), buf[..i], [buf[i]]);
        FeedOne(Contents(), buf[i]);
        assert buf[..i + 1] == buf[..i] + [buf[i]];
        CobsDecodeByte(buf[i]);
      }
      assert buf[..|buf|] == buf;
    }
  }

  lemma FeedOne(d: Decoder, b: byte)
    ensures Feed(d, [b]) == Step(d, b)
  {
    assert [b][1..] == [];
  }

  lemma {:induction false} FeedAppends(d: Decoder, a: seq<byte>, b: seq<byte>)
    ensures Feed(d, a + b) == Feed(Feed(d, a), b)
    decreases |a|
  {
    if a == [] {
      assert a + b == b;
    } else {
      assert (a + b)[1..] == a[1..] + b;
      FeedAppends(Step(d, a[0]), a[1..], b);
    }
  }

  // ----- the encoding -----

  /** How many bytes come before the first zero, counting no further than a full group. */
  function RunLength(data: seq<byte>): (k: nat)
    ensures k <= |data| && k <= FULL_GROUP
    ensures forall i :: 0 <= i < k ==> data[i] != 0
    ensures k < FULL_GROUP && k < |data| ==> data[k] == 0
  {
    RunFrom(data, 0)
  }

  function RunFrom(data: seq<byte>, i: nat): (k: nat)
    requires i <= |data| && i <= FULL_GROUP
    ensures i <= k <= |data| && k <= FULL_GROUP
    ensures forall j :: i <= j < k ==> data[j] != 0
    ensures k < FULL_GROUP && k < |data| ==> data[k] == 0
    decreases |data| - i
  {
    if i == |data| || i == FULL_GROUP || data[i] == 0 then i else RunFrom(data, i + 1)
  }

  /** Data with its phantom zero at the end. */
  predicate Closed(data: seq<byte>) {
    data != [] && data[|data| - 1] == 0
  }

  /** A full group is 0xff and 254 bytes; any other is its length plus one, its bytes, and stands for them
      with a zero behind. */
  function Groups(data: seq<byte>): seq<byte>
    requires Closed(data)
    decreases |data|
  {
    var k := RunLength(data);
    if k == FULL_GROUP then [0xff] + data[..k] + Groups(data[k..])
    else if k + 1 == |data| then [k + 1] + data[..k]
    else [k + 1] + data[..k] + Groups(data[k + 1..])
  }

  function Encode(payload: seq<byte>): seq<byte> {
    Groups(payload + [0])
  }

  lemma {:induction false} GroupsHaveNoZero(data: seq<byte>)
    requires Closed(data)
    ensures forall i :: 0 <= i < |Groups(data)| ==> Groups(data)[i] != 0
    decreases |data|
  {
    var k := RunLength(data);
    if k == FULL_GROUP {
      GroupsHaveNoZero(data[k..]);
    } else if k + 1 < |data| {
      GroupsHaveNoZero(data[k + 1..]);
    }
  }

  /** The last group before the closing 0x01 is a full one. */
  predicate EndsInFullGroup(data: seq<byte>, afterFull: bool)
    requires Closed(data)
    decreases |data|
  {
    if |data| == 1 then afterFull
    else
      var k := RunLength(data);
      if k == FULL_GROUP then EndsInFullGroup(data[k..], true)
      else k + 1 != |data| && EndsInFullGroup(data[k + 1..], false)
  }

  // ----- decoding groups -----

  /** What the groups read so far stand for. */
  function Value(d: Decoder): seq<byte> {
    d.written + PendingZero(d.code)
  }

  lemma {:induction false} FeedBlock(d: Decoder, bytes: seq<byte>)
    requires d.block == |bytes|
    requires forall i :: 0 <= i < |bytes| ==> bytes[i] != 0
    requires |d.written| + |bytes| < BUFFER_SIZE
    ensures Feed(d, bytes) == d.(written := d.written + bytes, block := 0)
    decreases |bytes|
  {
    if bytes == [] {
      assert d.written + bytes == d.written;
    } else {
      FeedBlock(Step(d, bytes[0]), bytes[1..]);
      assert d.written + [bytes[0]] + bytes[1..] == d.written + bytes;
    }
  }

  /** One group, read between groups. */
  lemma FeedGroup(d: Decoder, code: byte, bytes: seq<byte>)
    requires d.block == 0 && code == |bytes| + 1
    requires forall i :: 0 <= i < |bytes| ==> bytes[i] != 0
    requires |d.written| < BUFFER_SIZE - 1
    requires |Value(d)| + |bytes| < BUFFER_SIZE
    ensures Feed(d, [code] + bytes) == Decoder(Value(d) + bytes, code, 0, d.packets)
  {
    assert ([code] + bytes)[1..] == bytes;
    FeedBlock(Step(d, code), bytes);
  }

  /** The remaining data fits: together with what was read it fills at most the buffer, and if it fills it
      to the last byte, no full group comes right before the closing group. */
  predicate Fits(d: Decoder, data: seq<byte>)
    requires Closed(data)
  {
    || |Value(d)| + |data| < BUFFER_SIZE
    || (|Value(d)| + |data| == BUFFER_SIZE && !EndsInFullGroup(data, d.code == 0xff))
  }

  /** The decoder after the first group of the data. */
  function AfterGroup(d: Decoder, data: seq<byte>): Decoder
    requires Closed(data)
  {
    var k := RunLength(data);
    Decoder(Value(d) + data[..k], k + 1, 0, d.packets)
  }

  /** How much of the data the first group stands for. */
  function GroupSize(data: seq<byte>): (n: nat)
    requires Closed(data)
    ensures 0 < n <= |data|
    ensures n < |data| ==> Closed(data[n..])
  {
    var k := RunLength(data);
    if k == FULL_GROUP then k else k + 1
  }

  lemma FirstGroup(d: Decoder, data: seq<byte>)
    requires Closed(data) && d.block == 0
    requires Fits(d, data)
    ensures var k := RunLength(data);
            && Feed(d, [k + 1] + data[..k]) == AfterGroup(d, data)
            && Value(AfterGroup(d, data)) == Value(d) + data[..GroupSize(data)]
  {
    var k := RunLength(data);
    FeedGroup(d, k + 1, data[..k]);
    if k == FULL_GROUP {
      assert Value(AfterGroup(d, data)) == Value(d) + data[..k];
    } else {
      assert data[..k] + [0] == data[..k + 1];
      assert Value(AfterGroup(d, data)) == Value(d) + data[..k] + [0];
      assert Value(d) + data[..k] + [0] == Value(d) + (data[..k] + [0]);
    }
  }

  lemma GroupsSplit(data: seq<byte>)
    requires Closed(data)
    ensures var k := RunLength(data);
            Groups(data) == if GroupSize(data) == |data| then [k + 1] + data[..k]
                            else [k + 1] + data[..k] + Groups(data[GroupSize(data)..])
  {
  }

  lemma {:induction false} FeedGroups(d: Decoder, data: seq<byte>)
    requires Closed(data) && d.block == 0
    requires Fits(d, data)
    ensures var end := Feed(d, Groups(data));
            && Value(end) == Value(d) + data
            && end.block == 0 && end.code != 0xff && end.packets == d.packets
    decreases |data|
  {
    var k, n := RunLength(data), GroupSize(data);
    FirstGroup(d, data);
    GroupsSplit(data);
    SplitAt(Value(d), data, n);
    if n < |data| {
      RestFits(d, data);
      FeedGroups(AfterGroup(d, data), data[n..]);
      FeedAppends(d, [k + 1] + data[..k], Groups(data[n..]));
    }
  }

  lemma SplitAt(v: seq<byte>, data: seq<byte>, n: nat)
    requires n <= |data|
    ensures v + data[..n] + data[n..] == v + data
    ensures n == |data| ==> data[..n] == data
  {
  }

  lemma RestFits(d: Decoder, data: seq<byte>)
    requires Closed(data) && d.block == 0
    requires Fits(d, data)
    requires GroupSize(data) < |data|
    ensures Fits(AfterGroup(d, data), data[GroupSize(data)..])
  {
    FirstGroup(d, data);
  }

  /** Filling the buffer with a full group leaves no room to start the closing one: the decoder resets and
      takes the closing group for a packet of its own. */
  lemma {:induction false} FeedGroupsOverflows(d: Decoder, data: seq<byte>)
    requires Closed(data) && d.block == 0
    requires |Value(d)| + |data| == BUFFER_SIZE && EndsInFullGroup(data, d.code == 0xff)
    ensures Feed(d, Groups(data)) == Decoder([], 1, 0, d.packets)
    decreases |data|
  {
    var k := RunLength(data);
    if |data| == 1 {
      assert Groups(data) == [1];
      FeedOne(d, 1);
    } else {
      var bytes := data[..k];
      FeedGroup(d, k + 1, bytes);
      var next := Decoder(Value(d) + bytes, k + 1, 0, d.packets);
      var rest := if k == FULL_GROUP then data[k..] else data[k + 1..];
      FeedGroupsOverflows(next, rest);
      FeedAppends(d, [k + 1] + bytes, Groups(rest));
    }
  }

  // ----- packets -----

  ghost predicate Fresh(d: Decoder) {
    d.written == [] && d.code == 0xff && d.block == 0
  }

  /** The payloads that survive the link. */
  predicate Deliverable(payload: seq<byte>) {
    |payload| < BUFFER_SIZE - 1 || (|payload| == BUFFER_SIZE - 1 && !EndsInFullGroup(payload + [0], true))
  }

  /** A delimiter resynchronises: whatever the state, after a zero byte the decoder is fresh. */
  lemma ZeroResynchronises(d: Decoder)
    ensures Fresh(Step(d, 0))
  {
  }

  lemma BufferStaysInBounds(d: Decoder, bytes: seq<byte>)
    requires |d.written| < 2048
    ensures |Feed(d, bytes).written| < 2048
    ensures forall i :: |d.packets| <= i < |Feed(d, bytes).packets| ==> |Feed(d, bytes).packets[i]| < 2048
    ensures d.packets <= Feed(d, bytes).packets
    decreases |bytes|
  {
    if bytes != [] { BufferStaysInBounds(Step(d, bytes[0]), bytes[1..]); }
  }

  lemma PacketArrives(d: Decoder, payload: seq<byte>)
    requires Fresh(d)
    requires Deliverable(payload)
    ensures Feed(d, Encode(payload) + [0]) == d.(packets := d.packets + [payload])
  {
    var data := payload + [0];
    FeedGroups(d, data);
    FeedAppends(d, Encode(payload), [0]);
    var end := Feed(d, Encode(payload));
    FeedOne(end, 0);
    assert Value(d) + data == data;
    assert data[..|data| - 1] == payload;
  }

  /** Round trip, exactly: the encoding of a payload and a delimiter hand over that payload if and only if
      it has at most 2046 bytes, or 2047 and does not end in a full group. */
  lemma RoundTripIffDeliverable(payload: seq<byte>)
    ensures Feed(Decoder([], 0xff, 0, []), Encode(payload) + [0]).packets == [payload]
       <==> |payload| <= 2046 || (|payload| == 2047 && !EndsInFullGroup(payload + [0], true))
  {
    var d := Decoder([], 0xff, 0, []);
    var data := payload + [0];
    if Deliverable(payload) {
      PacketArrives(d, payload);
    } else if |payload| == BUFFER_SIZE - 1 {
      FeedGroupsOverflows(d, data);
      FeedAppends(d, Encode(payload), [0]);
      FeedOne(Decoder([], 1, 0, []), 0);
      assert Feed(d, Encode(payload) + [0]).packets == [[]];
      assert [payload][0] != [[]][0];
    } else {
      BufferStaysInBounds(d, Encode(payload) + [0]);
      var packets := Feed(d, Encode(payload) + [0]).packets;
      assert packets != [] ==> |packets[0]| < 2048;
    }
  }

  function Stream(payloads: seq<seq<byte>>): seq<byte> {
    if payloads == [] then [] else Encode(payloads[0]) + [0] + Stream(payloads[1..])
  }

  lemma {:induction false} StreamArrives(d: Decoder, payloads: seq<seq<byte>>)
    requires Fresh(d)
    requires forall i :: 0 <= i < |payloads| ==> Deliverable(payloads[i])
    ensures Feed(d, Stream(payloads)) == d.(packets := d.packets + payloads)
    decreases |payloads|
  {
    if payloads == [] {
      assert d.packets + payloads == d.packets;
    } else {
      PacketArrives(d, payloads[0]);
      FeedAppends(d, Encode(payloads[0]) + [0], Stream(payloads[1..]));
      StreamArrives(d.(packets := d.packets + [payloads[0]]), payloads[1..]);
      assert d.packets + [payloads[0]] + payloads[1..] == d.packets + payloads;
    }
  }

  function Concat(chunks: seq<seq<byte>>): seq<byte> {
    if chunks == [] then [] else chunks[0] + Concat(chunks[1..])
  }

  /** One call of `cobsDecode` per chunk. */
  function FeedChunks(d: Decoder, chunks: seq<seq<byte>>): Decoder
    decreases |chunks|
  {
    if chunks == [] then d else FeedChunks(Feed(d, chunks[0]), chunks[1..])
  }

  lemma {:induction false} ChunksDoNotMatter(d: Decoder, chunks: seq<seq<byte>>)
    ensures FeedChunks(d, chunks) == Feed(d, Concat(chunks))
    decreases |chunks|
  {
    if chunks != [] {
      FeedAppends(d, chunks[0], Concat(chunks[1..]));
      ChunksDoNotMatter(Feed(d, chunks[0]), chunks[1..]);
    }
  }

  /** After any bytes that end in a zero, from any state, the encodings of any deliverable payloads, each
      ended by a zero and cut into any chunks, hand over exactly these payloads in order. */
  lemma RoundTripAfterResync(d: Decoder, noise: seq<byte>, payloads: seq<seq<byte>>, chunks: seq<seq<byte>>)
    requires forall i :: 0 <= i < |payloads| ==> Deliverable(payloads[i])
    requires Concat(chunks) == noise + [0] + Stream(payloads)
    ensures FeedChunks(d, chunks).packets == Feed(d, noise + [0]).packets + payloads
  {
    ChunksDoNotMatter(d, chunks);
    FeedAppends(d, noise + [0], Stream(payloads));
    FeedAppends(d, noise, [0]);
    FeedOne(Feed(d, noise), 0);
    ZeroResynchronises(Feed(d, noise));
    StreamArrives(Feed(d, noise + [0]), payloads);
  }

  // ----- what any frame at all is taken for -----

  predicate ZeroFree(frame: seq<byte>) {
    0 !in frame
  }

  /** What the groups of a frame stand for, if the last one is complete. */
  function Unstuffed(frame: seq<byte>): Option<seq<byte>>
    requires ZeroFree(frame)
    decreases |frame|
  {
    if frame == [] then Some([])
    else
      assert frame[0] in frame;
      var n := frame[0];
      if |frame| < n then None
      else
        match Unstuffed(frame[n..])
        case None => None
        case Some(rest) => Some(frame[1..n] + (if n < 255 then [0] else []) + rest)
  }

  lemma UnstuffedGroup(frame: seq<byte>, n: nat, v: seq<byte>)
    requires ZeroFree(frame) && frame != [] && frame[0] == n && n <= |frame| && ZeroFree(frame[n..])
    requires n > 0 && Unstuffed(frame[n..]) == Some(v)
    ensures Unstuffed(frame) == Some(frame[1..n] + (if n < 255 then [0] else []) + v)
  {
  }

  lemma Parts(code: byte, bytes: seq<byte>, rest: seq<byte>)
    ensures var g := [code] + bytes + rest;
            |g| == 1 + |bytes| + |rest| && g[0] == code && g[1..|bytes| + 1] == bytes && g[|bytes| + 1..] == rest
  {
  }

  lemma OneMoreTaken(data: seq<byte>, k: nat)
    requires k < |data|
    ensures data[..k] + [data[k]] == data[..k + 1]
  {
  }

  lemma WithNothing<T>(xs: seq<T>)
    ensures xs + [] == xs && xs[..|xs|] == xs
  {
  }

  lemma FirstGroupAt(data: seq<byte>)
    requires Closed(data)
    ensures var g, k, n := Groups(data), RunLength(data), GroupSize(data);
            && |g| > k && g[0] == k + 1 && g[1..k + 1] == data[..k]
            && g[k + 1..] == (if n < |data| then Groups(data[n..]) else [])
            && data[..k] + (if k + 1 < 255 then [0] else []) == data[..n]
  {
    var k, n := RunLength(data), GroupSize(data);
    assert n == (if k == FULL_GROUP then k else k + 1) && (k < FULL_GROUP ==> k < |data| && data[k] == 0);
    GroupsSplit(data);
    hide *;
    Parts(k + 1, data[..k], if n < |data| then Groups(data[n..]) else []);
    WithNothing([k + 1] + data[..k]);
    WithNothing(data[..k]);
    if k < |data| { OneMoreTaken(data, k); }
  }

  lemma ZeroFreeGroups(data: seq<byte>)
    requires Closed(data)
    ensures ZeroFree(Groups(data))
  {
    GroupsHaveNoZero(data);
  }

  /** The encoding of a payload stands for it and the zero behind it. */
  lemma {:induction false} EncodedUnstuffs(data: seq<byte>)
    requires Closed(data)
    ensures ZeroFree(Groups(data)) && Unstuffed(Groups(data)) == Some(data)
    decreases |data|
  {
    assert ZeroFree([]) && Unstuffed([]) == Some([]);
    hide *;
    var g, k, n := Groups(data), RunLength(data), GroupSize(data);
    ZeroFreeGroups(data);
    FirstGroupAt(data);
    SplitAt([], data, n);
    WithNothing(data);
    if n < |data| {
      EncodedUnstuffs(data[n..]);
      UnstuffedGroup(g, k + 1, data[n..]);
      StartsEmpty(data[..n], data[n..], data);
    } else {
      UnstuffedGroup(g, k + 1, []);
    }
  }

  lemma StartsEmpty(a: seq<byte>, b: seq<byte>, c: seq<byte>)
    requires [] + a + b == [] + c
    ensures a + b == c
  {
    assert [] + a == a && [] + c == c;
  }

  lemma {:induction false} FeedPartOfBlock(d: Decoder, bytes: seq<byte>)
    requires |bytes| <= d.block && ZeroFree(bytes)
    requires |d.written| + |bytes| <= 2047
    ensures Feed(d, bytes) == d.(written := d.written + bytes, block := d.block - |bytes|)
    decreases |bytes|
  {
    if bytes == [] {
      assert d.written + bytes == d.written;
    } else {
      assert bytes[0] in bytes;
      FeedPartOfBlock(Step(d, bytes[0]), bytes[1..]);
      assert d.written + [bytes[0]] + bytes[1..] == d.written + bytes;
    }
  }

  /** A frame read between groups: the decoder is between groups again exactly if the last group is complete. */
  ghost predicate FrameRead(d: Decoder, frame: seq<byte>)
    requires ZeroFree(frame)
  {
    var end := Feed(d, frame);
    && end.packets == d.packets
    && match Unstuffed(frame)
       case None => end.block != 0
       case Some(v) => end.block == 0 && Value(end) == Value(d) + v
  }

  lemma ReadTruncated(d: Decoder, frame: seq<byte>)
    requires d.block == 0 && ZeroFree(frame) && frame != [] && |frame| < frame[0]
    requires |d.written| + |frame| <= 2047
    ensures FrameRead(d, frame)
  {
    FeedPartOfBlock(Step(d, frame[0]), frame[1..]);
  }

  lemma ReadFirstGroup(d: Decoder, frame: seq<byte>) returns (next: Decoder)
    requires d.block == 0 && ZeroFree(frame) && frame != [] && frame[0] <= |frame|
    requires |d.written| + |frame| <= 2047
    ensures var n := frame[0];
            && n > 0 && next == Feed(d, frame[..n]) && next.block == 0 && next.packets == d.packets
            && |next.written| + |frame[n..]| <= 2047
            && Value(next) == Value(d) + (frame[1..n] + if n < 255 then [0] else [])
  {
    var n := frame[0];
    assert frame[0] in frame;
    var bytes := frame[1..n];
    assert forall i :: 0 <= i < |bytes| ==> bytes[i] == frame[i + 1] && frame[i + 1] in frame;
    FeedGroup(d, n, bytes);
    assert [n] + bytes == frame[..n];
    next := Decoder(Value(d) + bytes, n, 0, d.packets);
    assert Value(next) == Value(d) + (bytes + if n < 255 then [0] else []);
  }

  lemma {:induction false} ReadFrame(d: Decoder, frame: seq<byte>)
    requires d.block == 0 && ZeroFree(frame)
    requires |d.written| + |frame| <= 2047
    ensures FrameRead(d, frame)
    decreases |frame|
  {
    if frame == [] {
      assert Value(d) + [] == Value(d);
    } else if |frame| < frame[0] {
      ReadTruncated(d, frame);
    } else {
      var n := frame[0];
      var next := ReadFirstGroup(d, frame);
      ReadFrame(next, frame[n..]);
      FeedAppends(d, frame[..n], frame[n..]);
      assert frame[..n] + frame[n..] == frame;
      hide Feed, Value;
      if v: seq<byte> :| Unstuffed(frame[n..]) == Some(v) {
        AppendsAssociate(Value(d), frame[1..n] + (if n < 255 then [0] else []), v);
      }
    }
  }

  lemma AppendsAssociate<T>(a: seq<T>, b: seq<T>, c: seq<T>)
    ensures a + b + c == a + (b + c)
  {
  }

  /** The packets a frame is handed over as: none if it breaks off inside a group or is empty, and otherwise what it
      stands for without the last byte, which is the zero behind the payload unless the last group is a full one. */
  function HandedOver(frame: seq<byte>): seq<seq<byte>>
    requires ZeroFree(frame)
  {
    match Unstuffed(frame)
    case None => []
    case Some(v) => if v == [] then [] else [v[..|v| - 1]]
  }

  lemma FrameArrives(d: Decoder, frame: seq<byte>)
    requires Fresh(d) && ZeroFree(frame) && |frame| <= 2047
    ensures Feed(d, frame + [0]) == d.(packets := d.packets + HandedOver(frame))
  {
    ReadFrame(d, frame);
    FeedAppends(d, frame, [0]);
    FeedOne(Feed(d, frame), 0);
    assert d.packets + [] == d.packets;
    if v: seq<byte> :| Unstuffed(frame) == Some(v) {
      assert Value(d) + v == v;
    }
  }

  function Frames(frames: seq<seq<byte>>): seq<byte> {
    if frames == [] then [] else frames[0] + [0] + Frames(frames[1..])
  }

  function AllHandedOver(frames: seq<seq<byte>>): seq<seq<byte>>
    requires forall i :: 0 <= i < |frames| ==> ZeroFree(frames[i])
  {
    if frames == [] then [] else HandedOver(frames[0]) + AllHandedOver(frames[1..])
  }

  /** Whatever comes over the line, sound or broken, as long as no 2048 bytes pass without a zero: each frame between
      two zeros is handed over as what it stands for or not at all, and never affects the others. */
  lemma {:induction false} EveryFrameArrivesOnItsOwn(d: Decoder, frames: seq<seq<byte>>)
    requires Fresh(d)
    requires forall i :: 0 <= i < |frames| ==> ZeroFree(frames[i]) && |frames[i]| <= 2047
    ensures Feed(d, Frames(frames)) == d.(packets := d.packets + AllHandedOver(frames))
    decreases |frames|
  {
    if frames == [] {
      assert d.packets + [] == d.packets;
    } else {
      FrameArrives(d, frames[0]);
      FeedAppends(d, frames[0] + [0], Frames(frames[1..]));
      EveryFrameArrivesOnItsOwn(d.(packets := d.packets + HandedOver(frames[0])), frames[1..]);
      hide *;
      AppendsAssociate(d.packets, HandedOver(frames[0]), AllHandedOver(frames[1..]));
    }
  }
}
