/** Datagrams over a relay connection: each is sent behind its length, the first behind the cached header. */
module Relay {
  import opened Bytes
  import opened Wrappers

  const MAX_DATAGRAM := 0xFFFF

  /** binary.BigEndian.PutUint16 and Uint16. */
  function PutUint16(n: nat): seq<byte>
    requires n <= MAX_DATAGRAM
  {
    [n / 256, n % 256]
  }

  function Uint16(hi: byte, lo: byte): nat { hi as int * 256 + lo as int }

  function Frame(b: seq<byte>): seq<byte>
    requires |b| <= MAX_DATAGRAM
  {
    PutUint16(|b|) + b
  }

  /** What Write decides on. */
  datatype Writer = Writer(udp: bool, wbuf: seq<byte>, headerSent: bool)
  {
    /** What one call hands to the connection below. */
    function Sends(b: seq<byte>): seq<byte>
      requires |b| <= MAX_DATAGRAM
    {
      if wbuf != [] then wbuf + (if udp then Frame(b) else b)
      else if !udp then b
      else if !headerSent then b + [0, 0]
      else Frame(b)
    }

    function Next(): Writer { Writer(udp, [], headerSent || udp) }
  }

  /** All that a series of calls sends. */
  function Wire(w: Writer, bs: seq<seq<byte>>): seq<byte>
    requires forall b :: b in bs ==> |b| <= MAX_DATAGRAM
    decreases |bs|
  {
    if bs == [] then [] else w.Sends(bs[0]) + Wire(w.Next(), bs[1..])
  }

  function Frames(bs: seq<seq<byte>>): seq<byte>
    requires forall b :: b in bs ==> |b| <= MAX_DATAGRAM
    decreases |bs|
  {
    if bs == [] then [] else Frame(bs[0]) + Frames(bs[1..])
  }

  /** A datagram read into a buffer of some size, or what a stream that ends inside a datagram leaves. */
  datatype Received = Received(data: seq<byte>, ok: bool, rest: seq<byte>)

  function Zeros(n: nat): (z: seq<byte>)
    ensures |z| == n
  {
    seq(n, _ => 0 as byte)
  }

  /** A cut datagram is copied with zeros in place of the missing bytes if the buffer is too small for it. */
  function Receive(stream: seq<byte>, size: nat): Received
  {
    if |stream| < 2 then Received([], false, [])
    else
      var dlen, body := Uint16(stream[0], stream[1]), stream[2..];
      if |body| < dlen then Received(if size >= dlen then body else (body + Zeros(dlen - |body|))[..size], false, [])
      else Received(body[..if size >= dlen then dlen else size], true, body[dlen..])
  }

  /** Reads with buffers of the given sizes, one after the other. */
  function ReceiveAll(stream: seq<byte>, sizes: seq<nat>): (r: (seq<seq<byte>>, seq<byte>))
    ensures |r.0| == |sizes|
    decreases |sizes|
  {
    if sizes == [] then ([], stream)
    else
      var first := Receive(stream, sizes[0]);
      var (more, rest) := ReceiveAll(first.rest, sizes[1..]);
      ([first.data] + more, rest)
  }

  function Cut(b: seq<byte>, size: nat): seq<byte> { if |b| <= size then b else b[..size] }

  function CutAll(bs: seq<seq<byte>>, sizes: seq<nat>): seq<seq<byte>>
    requires |sizes| <= |bs|
  {
    seq(|sizes|, i requires 0 <= i < |sizes| => Cut(bs[i], sizes[i]))
  }

  lemma ReceivesFrame(b: seq<byte>, size: nat, tail: seq<byte>)
    requires |b| <= MAX_DATAGRAM
    ensures Receive(Frame(b) + tail, size) == Received(Cut(b, size), true, tail)
  {
    var stream := Frame(b) + tail;
    assert stream[2..] == b + tail;
  }

  /** Datagrams come back one per read in the order they were sent, each cut to its own buffer. */
  lemma {:induction false} ReadsEachDatagram(bs: seq<seq<byte>>, sizes: seq<nat>, tail: seq<byte>)
    requires (forall b :: b in bs ==> |b| <= MAX_DATAGRAM) && |sizes| <= |bs|
    ensures ReceiveAll(Frames(bs) + tail, sizes) == (CutAll(bs, sizes), Frames(bs[|sizes|..]) + tail)
    decreases |sizes|
  {
    if sizes == [] {
      assert bs[|sizes|..] == bs && CutAll(bs, sizes) == [];
    } else {
      var stream, after := Frames(bs) + tail, Frames(bs[1..]) + tail;
      Associates(Frame(bs[0]), Frames(bs[1..]), tail);
      ReceivesFrame(bs[0], sizes[0], after);
      ReceivesNext(stream, sizes, Cut(bs[0], sizes[0]), after);
      ReadsEachDatagram(bs[1..], sizes[1..], tail);
      CutsFirst(bs, sizes);
    }
  }

  lemma ReceivesNext(stream: seq<byte>, sizes: seq<nat>, d: seq<byte>, after: seq<byte>)
    requires sizes != [] && Receive(stream, sizes[0]) == Received(d, true, after)
    ensures ReceiveAll(stream, sizes) == ([d] + ReceiveAll(after, sizes[1..]).0, ReceiveAll(after, sizes[1..]).1)
  {
  }

  lemma CutsFirst(bs: seq<seq<byte>>, sizes: seq<nat>)
    requires 0 < |sizes| <= |bs|
    ensures CutAll(bs, sizes) == [Cut(bs[0], sizes[0])] + CutAll(bs[1..], sizes[1..])
    ensures bs[1..][|sizes[1..]|..] == bs[|sizes|..]
  {
  }

  lemma {:induction false} WireAfterHeader(bs: seq<seq<byte>>)
    requires forall b :: b in bs ==> |b| <= MAX_DATAGRAM
    ensures Wire(Writer(true, [], true), bs) == Frames(bs)
    decreases |bs|
  {
    if bs != [] {
      WireAfterHeader(bs[1..]);
    }
  }

  /** The length of the header a stream starts with, and whether its version and status are fine. */
  datatype Header = Header(length: nat, good: bool)

  type HeaderParser = seq<byte> -> Option<Header>

  /** A header that can be told from whatever follows it, as the relay protocol writes it. */
  ghost predicate Delimited(parse: HeaderParser, header: seq<byte>)
  {
    header != [] && forall tail :: parse(header + tail) == Some(Header(|header|, true))
  }

  /** The datagrams the peer gets: with its header sent ahead, an empty one comes first. */
  function Expected(noDelay: bool, bs: seq<seq<byte>>): (e: seq<seq<byte>>)
    ensures (forall b :: b in bs ==> |b| <= MAX_DATAGRAM) ==> forall b :: b in e ==> |b| <= MAX_DATAGRAM
  {
    if noDelay then [[]] + bs else bs
  }

  /** What a connection sends for datagrams, with the header cached or sent ahead by itself. */
  function SentFor(noDelay: bool, header: seq<byte>, bs: seq<seq<byte>>): seq<byte>
    requires |header| <= MAX_DATAGRAM && forall b :: b in bs ==> |b| <= MAX_DATAGRAM
  {
    if noDelay then Wire(Writer(true, [], false), [header] + bs) else Wire(Writer(true, header, false), bs)
  }

  lemma SendsFrames(noDelay: bool, header: seq<byte>, bs: seq<seq<byte>>)
    requires |header| <= MAX_DATAGRAM && header != [] && forall b :: b in bs ==> |b| <= MAX_DATAGRAM
    requires noDelay || bs != []
    ensures SentFor(noDelay, header, bs) == header + Frames(Expected(noDelay, bs))
  {
    if noDelay {
      assert ([header] + bs)[1..] == bs && ([[]] + bs)[1..] == bs;
      WireAfterHeader(bs);
      assert Frame([]) == [0, 0];
      Associates(header, [0, 0], Frames(bs));
    } else {
      WireAfterHeader(bs[1..]);
      Associates(header, Frame(bs[0]), Frames(bs[1..]));
    }
  }

  /**
   Relayed datagrams keep their boundaries: once the peer has taken the header off, its reads
   return what was written, one datagram each, cut to the reader's buffer and no further.
   */
  lemma KeepsDatagrams(parse: HeaderParser, noDelay: bool, header: seq<byte>, bs: seq<seq<byte>>, sizes: seq<nat>)
    requires Delimited(parse, header) && |header| <= MAX_DATAGRAM && forall b :: b in bs ==> |b| <= MAX_DATAGRAM
    requires noDelay || bs != []
    requires |sizes| <= |Expected(noDelay, bs)|
    ensures var sent := SentFor(noDelay, header, bs);
            && parse(sent) == Some(Header(|header|, true)) && |header| <= |sent|
            && ReceiveAll(sent[|header|..], sizes).0 == CutAll(Expected(noDelay, bs), sizes)
            && ReceiveAll(sent[|header|..], sizes).1 == Frames(Expected(noDelay, bs)[|sizes|..])
  {
    var e := Expected(noDelay, bs);
    SendsFrames(noDelay, header, bs);
    ReadsEachDatagram(e, sizes, []);
    Skips(header, Frames(e));
    Skips([], Frames(e[|sizes|..]));
  }

  lemma Skips(a: seq<byte>, b: seq<byte>)
    ensures (a + b)[|a|..] == b && b + [] == b
  {
  }

  /** The connection below: bytes handed to it, and bytes that are still to arrive before it ends. */
  class Conn {
    var sent: seq<byte>
    var incoming: seq<byte>

    constructor (incoming: seq<byte>)
      ensures sent == [] && this.incoming == incoming
    {
      sent, this.incoming := [], incoming;
    }

    method Write(b: seq<byte>)
      modifies this`sent
      ensures sent == old(sent) + b
    {
      sent := sent + b;
    }

    /** Any number of bytes that have arrived. */
    method Read(b: array<byte>) returns (n: nat)
      modifies this`incoming, b
      ensures n <= b.Length && n <= |old(incoming)| && incoming == old(incoming)[n..]
      ensures b[..n] == old(incoming)[..n] && b[n..] == old(b[n..])
    {
      var most := if b.Length <= |incoming| then b.Length else |incoming|;
      n :| 0 <= n <= most;
      forall i | 0 <= i < n {
        b[i] := incoming[i];
      }
      incoming := incoming[n..];
    }

    /** io.ReadFull into the first size bytes of b: fails if the stream ends before. */
    method ReadFull(b: array<byte>, size: nat) returns (n: nat, ok: bool)
      requires size <= b.Length
      modifies this`incoming, b
      ensures ok <==> size <= |old(incoming)|
      ensures n == (if ok then size else |old(incoming)|) && incoming == old(incoming)[n..]
      ensures b[..n] == old(incoming)[..n] && b[n..] == old(b[n..])
    {
      ok := size <= |incoming|;
      n := if ok then size else |incoming|;
      forall i | 0 <= i < n {
        b[i] := incoming[i];
      }
      incoming := incoming[n..];
    }
  }

  class RelayConn {
    const conn: Conn
    const isServer: bool
    const udp: bool
    const parse: HeaderParser
    var wbuf: seq<byte>
    var headerSent: bool
    var once: bool

    constructor (conn: Conn, isServer: bool, udp: bool, parse: HeaderParser, wbuf: seq<byte>)
      ensures this.conn == conn && this.isServer == isServer && this.udp == udp && this.parse == parse
      ensures this.wbuf == wbuf && !headerSent && !once
    {
      this.conn, this.isServer, this.udp, this.parse := conn, isServer, udp, parse;
      this.wbuf, headerSent, once := wbuf, false, false;
    }

    function State(): Writer
      reads this
    {
      Writer(udp, wbuf, headerSent)
    }

    method Write(b: seq<byte>) returns (n: nat, ok: bool)
      modifies this`wbuf, this`headerSent, conn`sent
      ensures ok <==> |b| <= MAX_DATAGRAM
      ensures ok ==> n == |b| && conn.sent == old(conn.sent) + old(State()).Sends(b) && State() == old(State()).Next()
      ensures !ok ==> n == 0 && conn.sent == old(conn.sent) && State() == old(State())
    {
      if |b| > MAX_DATAGRAM {
        return 0, false;
      }
      n, ok := |b|, true;
      if |wbuf| > 0 {
        if udp {
          wbuf := wbuf + PutUint16(|b|);
          headerSent := true;
        }
        wbuf := wbuf + b;
        conn.Write(wbuf);
        assert udp ==> old(wbuf) + PutUint16(|b|) + b == old(wbuf) + Frame(b);
        wbuf := [];
        return;
      }
      if !udp {
        conn.Write(b);
        return;
      }
      if !headerSent {
        headerSent := true;
        var b2 := new byte[|b| + 2](_ => 0);
        forall i | 0 <= i < |b| {
          b2[i] := b[i];
        }
        conn.Write(b2[..]);
        assert b2[..] == b + [0, 0];
        return;
      }
      var buf := new byte[2 + |b|](_ => 0);
      buf[0], buf[1] := |b| / 256, |b| % 256;
      forall i | 0 <= i < |b| {
        buf[2 + i] := b[i];
      }
      conn.Write(buf[..]);
      assert buf[..] == Frame(b);
    }

    /** The first read of a client takes the response off the stream, and fails if it is bad. */
    method Handshake() returns (ok: bool)
      modifies this`once, conn`incoming
      ensures once
      ensures (ok, conn.incoming) == AfterHandshake(old(once) || isServer, parse, old(conn.incoming))
    {
      if once || isServer {
        once := true;
        return true;
      }
      once := true;
      match parse(conn.incoming)
      case None =>
        conn.incoming := [];
        ok := false;
      case Some(header) =>
        conn.incoming := if header.length <= |conn.incoming| then conn.incoming[header.length..] else [];
        ok := header.good;
    }

    /** One datagram into b. */
    method ReadDatagram(b: array<byte>) returns (n: nat, ok: bool)
      modifies conn`incoming, b
      ensures var r := Receive(old(conn.incoming), b.Length);
              ok == r.ok && conn.incoming == r.rest && n == |r.data| <= b.Length && b[..n] == r.data
                  && b[n..] == old(b[n..])
    {
      var bb := new byte[2](_ => 0);
      var m, full := conn.ReadFull(bb, 2);
      if !full {
        return 0, false;
      }
      var dlen := Uint16(bb[0], bb[1]);
      assert bb[..2][0] == bb[0] && bb[..2][1] == bb[1];
      if b.Length >= dlen {
        n, ok := conn.ReadFull(b, dlen);
        return;
      }
      var buf := new byte[dlen](_ => 0);
      ghost var body := conn.incoming;
      m, ok := conn.ReadFull(buf, dlen);
      assert buf[..] == buf[..m] + buf[m..] == body[..m] + Zeros(dlen - m);
      n := b.Length;
      forall i | 0 <= i < n {
        b[i] := buf[i];
      }
    }

    method Read(b: array<byte>) returns (n: nat, ok: bool)
      modifies this`once, conn`incoming, b
      ensures var (shaken, stream) := AfterHandshake(old(once) || isServer, parse, old(conn.incoming));
              && once && n <= b.Length && b[n..] == old(b[n..])
              && (!shaken ==> !ok && n == 0 && conn.incoming == stream)
              && (shaken && udp ==> Received(b[..n], ok, conn.incoming) == Receive(stream, b.Length))
              && (shaken && !udp ==> n <= |stream| && b[..n] == stream[..n] && conn.incoming == stream[n..])
    {
      var shaken := Handshake();
      if !shaken {
        return 0, false;
      }
      if !udp {
        n := conn.Read(b);
        ok := true;
        return;
      }
      n, ok := ReadDatagram(b);
    }
  }

  /** Whether the header was fine or had been dealt with, and the stream after it. */
  function AfterHandshake(done: bool, parse: HeaderParser, stream: seq<byte>): (bool, seq<byte>)
  {
    if done then (true, stream)
    else
      match parse(stream)
      case None => (false, [])
      case Some(header) => (header.good, if header.length <= |stream| then stream[header.length..] else [])
  }

  /** relayConnector.ConnectContext: the request is sent at once, or kept to go with the first data. */
  method Connect(conn: Conn, udp: bool, header: seq<byte>, noDelay: bool, parse: HeaderParser)
    returns (rc: Option<RelayConn>)
    modifies conn`sent
    ensures rc.None? <==> noDelay && |header| > MAX_DATAGRAM
    ensures rc.None? || !noDelay ==> conn.sent == old(conn.sent)
    ensures rc.Some? ==> fresh(rc.value) && rc.value.conn == conn && !rc.value.once && !rc.value.isServer
    ensures rc.Some? && noDelay ==>
              && conn.sent == old(conn.sent) + Writer(udp, [], false).Sends(header)
              && rc.value.State() == Writer(udp, [], false).Next()
    ensures rc.Some? && !noDelay ==> rc.value.State() == Writer(udp, header, false)
  {
    var c := new RelayConn(conn, false, udp, parse, if noDelay then [] else header);
    if noDelay {
      var _, ok := c.Write(header);
      if !ok {
        return None;
      }
    }
    return Some(c);
  }
}
