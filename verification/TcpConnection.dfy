/** gpnet/gp/net/TcpConnection.cpp: the abridged framing and the tag-driven state machine that undoes it. */
module TcpConnections {
  import opened Bytes

  const MAX_PACKET := 4 * 1024 * 1024
  const SHORT_LIMIT := 0x7e

  datatype ReadTag = ShortLength | LongLength | Body | Head

  datatype ReadRequest = ReadRequest(length: nat, tag: ReadTag)

  /** What the receiving side amounts to: whether the socket is held, the reads it still owes, and what the delegate got. */
  datatype Receiver = Receiver(open: bool, pending: seq<ReadRequest>, delivered: seq<seq<byte>>)

  // ---------- framing ----------

  function FrameHeader(n: nat): (h: seq<byte>)
    ensures |h| == if n / 4 <= SHORT_LIMIT then 1 else 4
  {
    if n / 4 <= SHORT_LIMIT then [n / 4] else [0x7f] + LittleEndian(n / 4 % 0x100_0000, 3)
  }

  function Frame(d: seq<byte>): seq<byte> {
    FrameHeader(|d|) + d
  }

  function Frames(datas: seq<seq<byte>>): seq<byte> {
    if datas == [] then [] else Frame(datas[0]) + Frames(datas[1..])
  }

  /** The packets of one call that are framed: empty ones are skipped and the first misaligned one ends the call. */
  function Accepted(datas: seq<seq<byte>>): seq<seq<byte>> {
    if datas == [] then []
    else if datas[0] == [] then Accepted(datas[1..])
    else if |datas[0]| % 4 != 0 then []
    else [datas[0]] + Accepted(datas[1..])
  }

  function NonEmpty(datas: seq<seq<byte>>): seq<seq<byte>> {
    if datas == [] then [] else (if datas[0] == [] then [] else [datas[0]]) + NonEmpty(datas[1..])
  }

  /** One call sends exactly the non-empty packets in front of the first one whose length is no multiple of four. */
  lemma {:induction false} AcceptedExact(datas: seq<seq<byte>>, k: nat)
    requires k <= |datas| && forall i :: 0 <= i < k ==> |datas[i]| % 4 == 0
    requires k < |datas| ==> |datas[k]| % 4 != 0
    ensures Accepted(datas) == NonEmpty(datas[..k])
  {
    if k > 0 {
      AcceptedExact(datas[1..], k - 1);
      assert datas[..k][1..] == datas[1..][..k - 1];
    }
  }

  // ---------- deframing ----------

  function Request(r: Receiver, length: nat, tag: ReadTag): Receiver {
    r.(pending := r.pending + [ReadRequest(length, tag)])
  }

  /** The socket completes a read. */
  function OnData(r: Receiver, data: seq<byte>, tag: ReadTag): Receiver {
    if !r.open then r
    else if tag == ShortLength && |data| == 1 then
      var marker: nat := data[0];
      if 1 <= marker <= 0x7e then Request(r, 4 * marker, Body)
      else if marker == 0x7f then Request(r, 3, LongLength)
      else r.(open := false)
    else if tag == LongLength && |data| == 3 then
      var length := 4 * FromLittleEndian(data);
      if 0 < length < MAX_PACKET then Request(r, length, Body) else r.(open := false)
    else if tag == Body && |data| > 0 then
      Request(r.(delivered := r.delivered + [data]), 1, ShortLength)
    else r
  }

  /** A connection started again after a close: closeAndNotify does nothing any more, so a bad header only ends the
      reading. */
  function OnDataRestarted(r: Receiver, data: seq<byte>, tag: ReadTag): Receiver {
    OnData(r, data, tag).(open := r.open)
  }

  /** A length of zero, a first byte above 0x7f, or a body of 4 MiB or more. */
  predicate BadHeader(data: seq<byte>, tag: ReadTag) {
    || (tag == ShortLength && |data| == 1 && !(1 <= data[0] <= 0x7f))
    || (tag == LongLength && |data| == 3 && !(0 < 4 * FromLittleEndian(data) < MAX_PACKET))
  }

  /** An open receiver has exactly one read outstanding, of the size its tag calls for. */
  predicate Steady(r: Receiver) {
    r.open ==>
      && |r.pending| == 1
      && match r.pending[0].tag
         case ShortLength => r.pending[0].length == 1
         case LongLength => r.pending[0].length == 3
         case Body => 0 < r.pending[0].length < MAX_PACKET
         case Head => false
  }

  /** A socket that completes its oldest read once that many bytes are there; second result: bytes not yet read. */
  function Feed(r: Receiver, stream: seq<byte>): (Receiver, seq<byte>)
    requires Steady(r)
    decreases |stream|
  {
    if !r.open || |stream| < r.pending[0].length then (r, stream) else
      var n := r.pending[0].length;
      SteadyStep(r, stream[..n]);
      Feed(OnData(r.(pending := []), stream[..n], r.pending[0].tag), stream[n..])
  }

  /** While the socket is held and reads are exact, there is always exactly one read outstanding. */
  lemma SteadyStep(r: Receiver, data: seq<byte>)
    requires Steady(r) && r.open && |data| == r.pending[0].length
    ensures Steady(OnData(r.(pending := []), data, r.pending[0].tag))
  {
  }

  /** A restarted connection keeps its one outstanding read exactly until a bad header; then it holds its socket and
      never reads again. */
  lemma RestartedStalls(r: Receiver, data: seq<byte>)
    requires Steady(r) && r.open && |data| == r.pending[0].length
    ensures var t := OnDataRestarted(r.(pending := []), data, r.pending[0].tag);
            && t.open
            && (Steady(t) <==> !BadHeader(data, r.pending[0].tag))
            && (t.pending == [] <==> BadHeader(data, r.pending[0].tag))
  {
  }

  /** How the stream is cut into pieces does not matter. */
  lemma {:induction false} FeedInPieces(r: Receiver, s: seq<byte>, t: seq<byte>)
    requires Steady(r)
    ensures Steady(Feed(r, s).0) && Feed(r, s + t) == Feed(Feed(r, s).0, Feed(r, s).1 + t)
    decreases |s|
  {
    if r.open && |s| >= r.pending[0].length {
      var n := r.pending[0].length;
      SteadyStep(r, s[..n]);
      assert (s + t)[..n] == s[..n] && (s + t)[n..] == s[n..] + t;
      FeedInPieces(OnData(r.(pending := []), s[..n], r.pending[0].tag), s[n..], t);
    }
  }

  lemma {:induction false} DeliveriesAreFinal(r: Receiver, s: seq<byte>)
    requires Steady(r)
    ensures r.delivered <= Feed(r, s).0.delivered
    decreases |s|
  {
    if r.open && |s| >= r.pending[0].length {
      var n := r.pending[0].length;
      SteadyStep(r, s[..n]);
      DeliveriesAreFinal(OnData(r.(pending := []), s[..n], r.pending[0].tag), s[n..]);
    }
  }

  /** Waiting for the first byte of a frame. */
  function AtFrame(delivered: seq<seq<byte>>): (r: Receiver)
    ensures Steady(r)
  {
    Receiver(true, [ReadRequest(1, ShortLength)], delivered)
  }

  lemma FrameAtATime(delivered: seq<seq<byte>>, d: seq<byte>, rest: seq<byte>)
    requires 0 < |d| < MAX_PACKET && |d| % 4 == 0
    ensures Feed(AtFrame(delivered), Frame(d) + rest) == Feed(AtFrame(delivered + [d]), rest)
  {
    hide Feed, FromLittleEndian, LittleEndian;
    var q := |d| / 4;
    BodyStep(delivered, d, rest);
    if q <= SHORT_LIMIT {
      ShortHeader(delivered, q, d + rest);
      assert Frame(d) + rest == [q] + (d + rest);
    } else {
      LongHeader(delivered, q, d + rest);
      assert Frame(d) + rest == [0x7f] + (LittleEndian(q, 3) + (d + rest));
    }
  }

  lemma ShortHeader(delivered: seq<seq<byte>>, q: nat, rest: seq<byte>)
    requires 1 <= q <= SHORT_LIMIT
    ensures Feed(AtFrame(delivered), [q] + rest) == Feed(AwaitBody(delivered, 4 * q), rest)
  {
    hide FromLittleEndian;
    var s := [q] + rest;
    assert s[..1] == [q] && s[1..] == rest;
    assert OnData(AtFrame(delivered).(pending := []), [q], ShortLength) == AwaitBody(delivered, 4 * q);
  }

  function AwaitBody(delivered: seq<seq<byte>>, n: nat): Receiver {
    Receiver(true, [ReadRequest(n, Body)], delivered)
  }

  lemma BodyStep(delivered: seq<seq<byte>>, d: seq<byte>, rest: seq<byte>)
    requires 0 < |d| < MAX_PACKET
    ensures Feed(AwaitBody(delivered, |d|), d + rest) == Feed(AtFrame(delivered + [d]), rest)
  {
    assert (d + rest)[..|d|] == d && (d + rest)[|d|..] == rest;
    assert OnData(AwaitBody(delivered, |d|).(pending := []), d, Body) == AtFrame(delivered + [d]);
  }

  /** What a long header leads to, for any value of its 24-bit length field. */
  lemma LongHeader(delivered: seq<seq<byte>>, q: nat, rest: seq<byte>)
    requires q < 0x100_0000
    ensures Feed(AtFrame(delivered), [0x7f] + (LittleEndian(q, 3) + rest))
            == if 0 < 4 * q < MAX_PACKET then Feed(AwaitBody(delivered, 4 * q), rest)
               else (Receiver(false, [], delivered), rest)
  {
    hide FromLittleEndian, LittleEndian;
    var field := LittleEndian(q, 3);
    var s1 := field + rest;
    var s := [0x7f] + s1;
    assert s[..1] == [0x7f] && s[1..] == s1;
    assert s1[..3] == field && s1[3..] == rest;
    Widths();
    DecodeLittleEndian(q, 3);
    var waiting := Receiver(true, [ReadRequest(3, LongLength)], delivered);
    assert OnData(AtFrame(delivered).(pending := []), [0x7f], ShortLength) == waiting;
    assert Feed(AtFrame(delivered), s) == Feed(waiting, s1);
    var next := OnData(waiting.(pending := []), field, LongLength);
    assert next == if 0 < 4 * q < MAX_PACKET then AwaitBody(delivered, 4 * q) else Receiver(false, [], delivered);
    assert Feed(waiting, s1) == Feed(next, rest);
  }

  /** A packet of 4 MiB or more either closes the connection or is cut: it is never delivered whole. */
  lemma OversizedFrame(delivered: seq<seq<byte>>, d: seq<byte>, rest: seq<byte>)
    requires |d| >= MAX_PACKET
    ensures var got := Feed(AtFrame(delivered), Frame(d) + rest).0.delivered;
            got == delivered || (|got| > |delivered| && got[|delivered|] != d)
  {
    hide LittleEndian, Feed;
    var q := |d| / 4 % 0x100_0000;
    var s := Frame(d) + rest;
    assert s == [0x7f] + (LittleEndian(q, 3) + (d + rest));
    LongHeader(delivered, q, d + rest);
    if 0 < 4 * q < MAX_PACKET {
      var cut := d[..4 * q];
      var after := d[4 * q..] + rest;
      assert d + rest == cut + after;
      BodyStep(delivered, cut, after);
      DeliveriesAreFinal(AtFrame(delivered + [cut]), after);
      var got := Feed(AtFrame(delivered + [cut]), after).0.delivered;
      assert got[|delivered|] == cut;
    } else {
      assert Feed(AtFrame(delivered), s).0.delivered == delivered;
    }
  }

  ghost predicate Sendable(datas: seq<seq<byte>>) {
    forall k :: 0 <= k < |datas| ==> |datas[k]| > 0 && |datas[k]| % 4 == 0
  }

  ghost predicate BelowLimit(datas: seq<seq<byte>>) {
    forall k :: 0 <= k < |datas| ==> |datas[k]| < MAX_PACKET
  }

  /** Deframing the frames of a list delivers exactly that list, in order, when every packet is below 4 MiB. */
  lemma {:induction false} FramesRoundTrip(delivered: seq<seq<byte>>, datas: seq<seq<byte>>, rest: seq<byte>)
    requires Sendable(datas) && BelowLimit(datas)
    ensures Feed(AtFrame(delivered), Frames(datas) + rest) == Feed(AtFrame(delivered + datas), rest)
    decreases |datas|
  {
    hide Feed, Frame;
    if datas == [] {
      assert Frames(datas) + rest == rest && delivered + datas == delivered;
    } else {
      var tail := Frames(datas[1..]) + rest;
      assert Frames(datas) + rest == Frame(datas[0]) + tail;
      FrameAtATime(delivered, datas[0], tail);
      FramesRoundTrip(delivered + [datas[0]], datas[1..], rest);
      assert delivered + [datas[0]] + datas[1..] == delivered + datas;
    }
  }

  /** ... and only then. */
  lemma {:induction false} FramesExact(delivered: seq<seq<byte>>, datas: seq<seq<byte>>)
    requires Sendable(datas)
    ensures Feed(AtFrame(delivered), Frames(datas)).0.delivered == delivered + datas <==> BelowLimit(datas)
    decreases |datas|
  {
    hide Frame;
    if datas == [] {
      assert delivered + datas == delivered;
    } else {
      var tail := Frames(datas[1..]);
      if |datas[0]| < MAX_PACKET {
        FrameAtATime(delivered, datas[0], tail);
        FramesExact(delivered + [datas[0]], datas[1..]);
        assert delivered + [datas[0]] + datas[1..] == delivered + datas;
        assert BelowLimit(datas) <==> BelowLimit(datas[1..]);
      } else {
        OversizedFrame(delivered, datas[0], tail);
        assert (delivered + datas)[|delivered|] == datas[0];
      }
    }
  }

  lemma {:induction false} AcceptedIsSendable(datas: seq<seq<byte>>)
    ensures Sendable(Accepted(datas))
    ensures Sendable(datas) ==> Accepted(datas) == datas
  {
    if datas != [] {
      AcceptedIsSendable(datas[1..]);
      assert datas == [datas[0]] + datas[1..];
      if Sendable(datas) {
        assert datas[0] != [];
        assert Sendable(datas[1..]);
      }
    }
  }

  /** What one sendDatas call puts on the wire arrives as the packets it accepted, in order, exactly when they are all
      below 4 MiB. */
  lemma WireRoundTrip(datas: seq<seq<byte>>)
    ensures Feed(AtFrame([]), Frames(Accepted(datas))).0.delivered == Accepted(datas) <==> BelowLimit(Accepted(datas))
  {
    AcceptedIsSendable(datas);
    FramesExact([], Accepted(datas));
    assert [] + Accepted(datas) == Accepted(datas);
  }

  // ---------- the connection ----------

  /** The calls a connection makes on its socket and its delegate are kept as ghost logs. */
  class TcpConnection {
    var socketHeld: bool
    var closed: bool
    ghost var sent: seq<byte>
    ghost var pending: seq<ReadRequest>
    ghost var delivered: seq<seq<byte>>
    ghost var closeNotices: nat

    ghost function State(): Receiver
      reads this
    {
      Receiver(socketHeld, pending, delivered)
    }

    constructor ()
      ensures State() == Receiver(false, [], []) && !closed && sent == [] && closeNotices == 0
    {
      socketHeld, closed := false, false;
      sent, pending, delivered, closeNotices := [], [], [], 0;
    }

    /** A new socket, with one read requested. */
    method Start()
      modifies this
      ensures State() == if old(socketHeld) then old(State())
                         else Receiver(true, [ReadRequest(1, ShortLength)], old(delivered))
      ensures closed == old(closed) && sent == old(sent) && closeNotices == old(closeNotices)
    {
      if socketHeld {
        return;
      }
      socketHeld := true;
      pending := [ReadRequest(1, ShortLength)];
    }

    method SendDatas(datas: seq<seq<byte>>)
      modifies this`sent
      ensures sent == if closed || !socketHeld then old(sent) else old(sent) + Frames(Accepted(datas))
    {
      hide Frame;
      var i := 0;
      assert datas[0..] == datas;
      while i < |datas|
        invariant 0 <= i <= |datas|
        invariant closed || !socketHeld ==> sent == old(sent)
        invariant !closed && socketHeld ==>
                    sent + Frames(Accepted(datas[i..])) == old(sent) + Frames(Accepted(datas))
      {
        assert datas[i..][1..] == datas[i + 1..];
        var length := |datas[i]|;
        if length != 0 {
          if length % 4 != 0 {
            return;
          }
          if closed || !socketHeld {
            return;
          }
          var finalData := FinalData(datas[i]);
          sent := sent + finalData;
        }
        i := i + 1;
      }
    }

    /** The bytes of one packet as they reach the socket. */
    method FinalData(d: seq<byte>) returns (finalData: seq<byte>)
      ensures finalData == Frame(d)
    {
      var quarterLength := |d| / 4;
      if quarterLength <= 0x7e {
        finalData := [quarterLength];
      } else {
        finalData := [0x7f] + LittleEndian(quarterLength % 0x100_0000, 3);
      }
      finalData := finalData + d;
    }

    method CloseAndNotify()
      requires !closed ==> socketHeld
      modifies this
      ensures closed && sent == old(sent)
      ensures State() == if old(closed) then old(State()) else old(State()).(open := false)
      ensures closeNotices == old(closeNotices) + if old(closed) then 0 else 1
    {
      if !closed {
        closed := true;
        socketHeld := false;
        closeNotices := closeNotices + 1;
      }
    }

    method NetworkSocketDidReadData(data: seq<byte>, tag: ReadTag)
      modifies this
      ensures State() == if old(closed) then OnDataRestarted(old(State()), data, tag) else OnData(old(State()), data, tag)
      ensures sent == old(sent) && (closed <==> old(closed) || (old(socketHeld) && !socketHeld))
      ensures closeNotices == old(closeNotices) + if old(socketHeld) && !socketHeld then 1 else 0
    {
      if !socketHeld {
        return;
      }
      if tag == ShortLength && |data| == 1 {
        var lengthMarker: nat := data[0];
        if 0x1 <= lengthMarker <= 0x7e {
          pending := pending + [ReadRequest(lengthMarker * 4, Body)];
        } else if lengthMarker == 0x7f {
          pending := pending + [ReadRequest(3, LongLength)];
        } else {
          CloseAndNotify();
        }
      } else if tag == LongLength && |data| == 3 {
        var lengthMarker := FromLittleEndian(data) * 4;
        if lengthMarker > 0 && lengthMarker < MAX_PACKET {
          pending := pending + [ReadRequest(lengthMarker, Body)];
        } else {
          CloseAndNotify();
        }
      } else if tag == Body && |data| > 0 {
        delivered := delivered + [data];
        pending := pending + [ReadRequest(1, ShortLength)];
      }
    }
  }
}
