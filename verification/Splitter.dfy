/** The server-to-client packet splitter: three size disciplines, one buffer,
    and independence from how the bytes were cut into reads. */
module Splitter {
  import opened Common

  datatype SplitError =
    | UnknownHeader(header: byte)
    | BadEmbeddedLength(header: byte, size: nat)
    | Eof
    | UnexpectedEof(buffered: nat)
    | Io

  const GC_CHAT: byte := 4
  const GC_LAND_LIST: byte := 130
  const GC_LOCALE: byte := 140
  const GC_HYBRIDCRYPT_KEYS: byte := 152
  const GC_HYBRIDCRYPT_SDB: byte := 153

  /** Header and payload together, for the packets of fixed size. */
  function FixedSize(hdr: byte): (r: Option<nat>)
    ensures r.Some? ==> r.value >= 1
  {
    match hdr
    case 0xfd => Some(2)
    case 0xff => Some(13)
    case 150 => Some(6)
    case 7 => Some(10)
    case 118 => Some(5)
    case 90 => Some(2)
    case 32 => Some(449)
    case 1 => Some(37)
    case 136 => Some(70)
    case 44 => Some(1)
    case 15 => Some(47)
    case 16 => Some(1021)
    case 76 => Some(1531)
    case 28 => Some(4)
    case 21 => Some(51)
    case 126 => Some(22)
    case 106 => Some(5)
    case 121 => Some(2)
    case 3 => Some(24)
    case 26 => Some(58)
    case 27 => Some(5)
    case 31 => Some(30)
    case 25 => Some(38)
    case 20 => Some(42)
    case 14 => Some(5)
    case 2 => Some(5)
    case 65 => Some(15)
    case 12 => Some(10)
    case 135 => Some(10)
    case 151 => Some(289)
    case 164 => Some(152)
    case _ => None
  }

  /** Headers whose length field is the whole packet, with the least value. */
  function EmbeddedMin(hdr: byte): (r: Option<nat>)
    ensures r.Some? ==> r.value >= 3
  {
    if hdr == GC_CHAT then Some(9)
    else if hdr == GC_LAND_LIST then Some(3)
    else if hdr == GC_HYBRIDCRYPT_KEYS || hdr == GC_HYBRIDCRYPT_SDB then Some(7)
    else None
  }

  /** Headers whose length field is the payload behind it. */
  function PayloadMin(hdr: byte): (r: Option<nat>) {
    if hdr == GC_LOCALE then Some(1) else None
  }

  /** Two bytes, little end first. */
  function U16(lo: byte, hi: byte): (n: nat) {
    lo + 256 * hi
  }

  /** What the front of the buffer says about the next packet. */
  datatype Front = More | Packet(total: nat) | Bad(error: SplitError)

  /** A declared length against what is there. */
  function Declared(buf: seq<byte>, total: nat): (f: Front) {
    if |buf| < total then More else Packet(total)
  }

  /** `try_extract` as a function of the buffer. */
  function Look(buf: seq<byte>): (f: Front)
    ensures f.Packet? ==> 1 <= f.total <= |buf|
  {
    if buf == [] then More
    else
      var hdr := buf[0];
      if PayloadMin(hdr).Some? then
        if |buf| < 3 then More
        else
          var payload := U16(buf[1], buf[2]);
          if payload < PayloadMin(hdr).value then Bad(BadEmbeddedLength(hdr, payload))
          else Declared(buf, payload + 3)
      else if EmbeddedMin(hdr).Some? then
        if |buf| < 3 then More
        else
          var total := U16(buf[1], buf[2]);
          if total < EmbeddedMin(hdr).value then Bad(BadEmbeddedLength(hdr, total))
          else Declared(buf, total)
      else match FixedSize(hdr)
           case None => Bad(UnknownHeader(hdr))
           case Some(size) => Declared(buf, size)
  }

  /** All that can be taken off a buffer, what is left, and the error that
      stopped it, if one did. */
  datatype Split = Split(packets: seq<seq<byte>>, rest: seq<byte>, error: Option<SplitError>)

  function SplitAll(buf: seq<byte>): (s: Split)
    decreases |buf|
  {
    match Look(buf)
    case More => Split([], buf, None)
    case Bad(e) => Split([], buf, Some(e))
    case Packet(n) =>
      Put(buf[..n], SplitAll(buf[n..]))
  }

  /** The error of a read that finds the socket at its end, or broken. */
  function AtEnd(buf: seq<byte>, broken: bool): (e: SplitError) {
    if broken then Io else if buf == [] then Eof else UnexpectedEof(|buf|)
  }

  /** What a session of `next` calls returns: the packets, and the error that
      ends it. */
  function Session(buf: seq<byte>, incoming: seq<seq<byte>>, broken: bool): (s: (seq<seq<byte>>, SplitError))
    decreases |incoming|, |buf|
  {
    match Look(buf)
    case Packet(n) => Before([buf[..n]], Session(buf[n..], incoming, broken))
    case Bad(e) => ([], e)
    case More =>
      if incoming == [] then ([], AtEnd(buf, broken)) else Session(buf + incoming[0], incoming[1..], broken)
  }

  function Before(packets: seq<seq<byte>>, s: (seq<seq<byte>>, SplitError)): (t: (seq<seq<byte>>, SplitError)) {
    (packets + s.0, s.1)
  }

  lemma BeforeTwice(packets: seq<seq<byte>>, p: seq<byte>, s: (seq<seq<byte>>, SplitError))
    ensures Before(packets, Before([p], s)) == Before(packets + [p], s)
  {
    Associate(packets, [p], s.0);
  }

  /** One call of `next` in a session. */
  lemma {:induction false} SessionStep(buf: seq<byte>, incoming: seq<seq<byte>>, used: nat, broken: bool)
    requires used <= |incoming|
    requires forall k :: 0 <= k < used ==> Look(buf + Flatten(incoming[..k])).More?
    ensures var all := buf + Flatten(incoming[..used]);
            match Look(all)
            case Packet(n) =>
              Session(buf, incoming, broken) == Before([all[..n]], Session(all[n..], incoming[used..], broken))
            case Bad(e) => Session(buf, incoming, broken) == ([], e)
            case More => used == |incoming| ==> Session(buf, incoming, broken) == ([], AtEnd(all, broken))
    decreases |incoming|
  {
    if used == 0 {
      assert buf + Flatten(incoming[..0]) == buf && incoming[0..] == incoming;
    } else {
      assert Look(buf + Flatten(incoming[..0])).More? && buf + Flatten(incoming[..0]) == buf;
      var next, tail := buf + incoming[0], incoming[1..];
      forall k | 0 <= k < used
        ensures next + Flatten(tail[..k]) == buf + Flatten(incoming[..k + 1])
      {
        FlattenPrefix(buf, incoming, k + 1);
      }
      FlattenPrefix(buf, incoming, used);
      assert tail[used - 1..] == incoming[used..];
      SessionStep(next, tail, used - 1, broken);
    }
  }

  // ------------------------------------------------------------ the splitter

  class Splitter {
    var buf: seq<byte>

    constructor ()
      ensures buf == []
    {
      buf := [];
    }

    /** Takes one packet off the front, if it is complete. */
    method TryExtract() returns (r: Result<Option<seq<byte>>, SplitError>)
      modifies this
      ensures match Look(old(buf))
              case More => r == Ok(None) && buf == old(buf)
              case Bad(e) => r == Err(e) && buf == old(buf)
              case Packet(n) => r == Ok(Some(old(buf)[..n])) && buf == old(buf)[n..]
    {
      if buf == [] {
        return Ok(None);
      }
      var hdr := buf[0];
      var total: nat;
      var payload := PayloadMin(hdr);
      var embedded := EmbeddedMin(hdr);
      if payload.Some? {
        if |buf| < 3 {
          return Ok(None);
        }
        var n := U16(buf[1], buf[2]);
        if n < payload.value {
          return Err(BadEmbeddedLength(hdr, n));
        }
        total := n + 3;
      } else if embedded.Some? {
        if |buf| < 3 {
          return Ok(None);
        }
        total := U16(buf[1], buf[2]);
        if total < embedded.value {
          return Err(BadEmbeddedLength(hdr, total));
        }
      } else {
        var size := FixedSize(hdr);
        if size.None? {
          return Err(UnknownHeader(hdr));
        }
        total := size.value;
      }
      if |buf| < total {
        return Ok(None);
      }
      var pkt := buf[..total];
      buf := buf[total..];
      return Ok(Some(pkt));
    }

    /** Appends a read and returns every complete packet. On an error the
        packets taken in this call are dropped with it. */
    method Push(data: seq<byte>) returns (r: Result<seq<seq<byte>>, SplitError>)
      modifies this
      ensures var s := SplitAll(old(buf) + data);
              && buf == s.rest
              && r == if s.error.Some? then Err(s.error.value) else Ok(s.packets)
    {
      buf := buf + data;
      ghost var all := SplitAll(buf);
      var out: seq<seq<byte>> := [];
      while true
        invariant all == SplitAll(buf).(packets := out + SplitAll(buf).packets)
        decreases |buf|
      {
        ghost var s := SplitAll(buf);
        var one := TryExtract();
        if one.Err? {
          return Err(one.error);
        }
        if one.value.None? {
          assert out + [] == out;
          return Ok(out);
        }
        assert s.packets == [one.value.value] + SplitAll(buf).packets;
        assert out + s.packets == out + [one.value.value] + SplitAll(buf).packets;
        out := out + [one.value.value];
      }
    }

    /** Pulls one packet, reading from the socket as long as it is
        incomplete. `incoming` is what the socket gives, read by read; after the
        last one it is at its end, or the read fails. */
    method Next(incoming: seq<seq<byte>>, broken: bool) returns (r: Result<seq<byte>, SplitError>, used: nat)
      requires forall i :: 0 <= i < |incoming| ==> incoming[i] != []
      modifies this
      ensures used <= |incoming|
      ensures var all := old(buf) + Flatten(incoming[..used]);
              match Look(all)
              case Packet(n) => r == Ok(all[..n]) && buf == all[n..]
              case Bad(e) => r == Err(e) && buf == all
              case More => used == |incoming| && buf == all && r == Err(AtEnd(all, broken))
      ensures forall k :: 0 <= k < used ==> Look(old(buf) + Flatten(incoming[..k])).More?
    {
      used := 0;
      assert incoming[..0] == [] && old(buf) + [] == old(buf);
      while true
        invariant used <= |incoming| && buf == old(buf) + Flatten(incoming[..used])
        invariant forall k :: 0 <= k < used ==> Look(old(buf) + Flatten(incoming[..k])).More?
        decreases |incoming| - used
      {
        var one := TryExtract();
        if one.Err? {
          return Err(one.error), used;
        }
        if one.value.Some? {
          return Ok(one.value.value), used;
        }
        if used == |incoming| {
          if broken {
            return Err(Io), used;
          }
          return Err(if buf == [] then Eof else UnexpectedEof(|buf|)), used;
        }
        buf := buf + incoming[used];
        FlattenSnoc(incoming[..used], incoming[used]);
        assert incoming[..used + 1] == incoming[..used] + [incoming[used]];
        used := used + 1;
      }
    }

    /** A session of `next` calls, up to the first error. */
    method Drain(incoming: seq<seq<byte>>, broken: bool) returns (packets: seq<seq<byte>>, error: SplitError)
      requires forall i :: 0 <= i < |incoming| ==> incoming[i] != []
      modifies this
      ensures (packets, error) == Session(old(buf), incoming, broken)
    {
      packets := [];
      var left := incoming;
      ghost var all := Session(buf, incoming, broken);
      assert [] + all.0 == all.0;
      while true
        invariant forall i :: 0 <= i < |left| ==> left[i] != []
        invariant all == Before(packets, Session(buf, left, broken))
        decreases |left|, |buf|
      {
        ghost var before := buf;
        var r, used := Next(left, broken);
        SessionStep(before, left, used, broken);
        if r.Err? {
          assert packets + [] == packets;
          return packets, r.error;
        }
        BeforeTwice(packets, r.value, Session(buf, left[used..], broken));
        packets := packets + [r.value];
        left := left[used..];
      }
    }
  }

  // ------------------------------------------------------------- extensions

  /** A decision once made stays made when more bytes arrive. */
  lemma LookExtends(a: seq<byte>, b: seq<byte>)
    requires !Look(a).More?
    ensures Look(a + b) == Look(a)
  {
    assert (a + b)[0] == a[0];
    if |a| >= 3 {
      assert (a + b)[1] == a[1] && (a + b)[2] == a[2];
    }
  }

  /** A split with one more packet in front. */
  function Put(p: seq<byte>, s: Split): (t: Split) {
    s.(packets := [p] + s.packets)
  }

  lemma SplitStep(buf: seq<byte>, n: nat)
    requires Look(buf) == Packet(n)
    ensures SplitAll(buf) == Put(buf[..n], SplitAll(buf[n..]))
  {
  }

  /** A split continued on its rest with more bytes. */
  function Continue(s: Split, b: seq<byte>): (t: Split) {
    if s.error.Some? then Split(s.packets, s.rest + b, s.error)
    else var t := SplitAll(s.rest + b); t.(packets := s.packets + t.packets)
  }

  lemma ContinuePut(p: seq<byte>, s: Split, b: seq<byte>)
    ensures Continue(Put(p, s), b) == Put(p, Continue(s, b))
  {
    Associate([p], s.packets, SplitAll(s.rest + b).packets);
  }

  lemma ContinueNothing(a: seq<byte>, b: seq<byte>)
    ensures Continue(Split([], a, None), b) == SplitAll(a + b)
  {
    var t := SplitAll(a + b);
    assert [] + t.packets == t.packets;
  }

  lemma AppendMore(a: seq<byte>, b: seq<byte>)
    requires Look(a).More?
    ensures SplitAll(a + b) == Continue(SplitAll(a), b)
  {
    ContinueNothing(a, b);
  }

  lemma AppendBad(a: seq<byte>, b: seq<byte>)
    requires Look(a).Bad?
    ensures SplitAll(a + b) == Continue(SplitAll(a), b)
  {
    LookExtends(a, b);
  }

  lemma AppendPacket(a: seq<byte>, b: seq<byte>, n: nat)
    requires Look(a) == Packet(n)
    ensures SplitAll(a + b) == Put(a[..n], SplitAll(a[n..] + b))
  {
    LookExtends(a, b);
    SplitStep(a + b, n);
    assert (a + b)[..n] == a[..n] && (a + b)[n..] == a[n..] + b;
  }

  /** Splitting what is left together with more bytes continues the split. */
  lemma {:induction false} SplitAppend(a: seq<byte>, b: seq<byte>)
    ensures SplitAll(a + b) == Continue(SplitAll(a), b)
    decreases |a|
  {
    match Look(a)
    case More => AppendMore(a, b);
    case Bad(e) => AppendBad(a, b);
    case Packet(n) =>
      SplitAppend(a[n..], b);
      AppendPacket(a, b, n);
      SplitStep(a, n);
      ContinuePut(a[..n], SplitAll(a[n..]), b);
  }

  lemma JoinBytes(buf: seq<byte>, n: nat, s: Split)
    requires n <= |buf| && Flatten(s.packets) + s.rest == buf[n..]
    ensures Flatten([buf[..n]] + s.packets) + s.rest == buf
  {
    FlattenCons(buf[..n], s.packets);
    Associate(buf[..n], Flatten(s.packets), s.rest);
    assert buf[..n] + buf[n..] == buf;
  }

  /** No byte is lost or invented. */
  lemma {:induction false} SplitKeepsBytes(buf: seq<byte>)
    ensures Flatten(SplitAll(buf).packets) + SplitAll(buf).rest == buf
    decreases |buf|
  {
    match Look(buf)
    case Packet(n) =>
      SplitKeepsBytes(buf[n..]);
      SplitStep(buf, n);
      JoinBytes(buf, n, SplitAll(buf[n..]));
    case _ => assert [] + buf == buf;
  }

  /** What stops the splitting is what the rest begins with. */
  lemma {:induction false} SplitStops(buf: seq<byte>)
    ensures var s := SplitAll(buf);
            Look(s.rest) == if s.error.Some? then Bad(s.error.value) else More
    decreases |buf|
  {
    match Look(buf)
    case Packet(n) => SplitStops(buf[n..]);
    case _ =>
  }

  // -------------------------------------------------------- chunk invariance

  /** A session: the reads pushed one after the other until one fails, with
      the packets returned so far. */
  function PushAll(buf: seq<byte>, chunks: seq<seq<byte>>): (s: Split)
    decreases |chunks|
  {
    if chunks == [] then Split([], buf, None)
    else
      var s := SplitAll(buf + chunks[0]);
      if s.error.Some? then Split([], s.rest, s.error)
      else
        var t := PushAll(s.rest, chunks[1..]);
        t.(packets := s.packets + t.packets)
  }

  lemma {:induction false} PushAllIsSplit(buf: seq<byte>, chunks: seq<seq<byte>>)
    requires Look(buf).More? && SplitAll(buf + Flatten(chunks)).error.None?
    ensures PushAll(buf, chunks) == SplitAll(buf + Flatten(chunks))
    decreases |chunks|
  {
    if chunks == [] {
      assert buf + Flatten(chunks) == buf;
    } else {
      var more := Flatten(chunks[1..]);
      assert buf + Flatten(chunks) == (buf + chunks[0]) + more;
      SplitAppend(buf + chunks[0], more);
      SplitStops(buf + chunks[0]);
      PushAllIsSplit(SplitAll(buf + chunks[0]).rest, chunks[1..]);
    }
  }

  /** For an error-free stream the packets and the final buffer do not depend
      on where the stream was cut. */
  lemma ChunkInvariance(chunks: seq<seq<byte>>, others: seq<seq<byte>>)
    requires Flatten(chunks) == Flatten(others)
    requires SplitAll(Flatten(chunks)).error.None?
    ensures PushAll([], chunks) == PushAll([], others)
    ensures var s := PushAll([], chunks); s.error.None? && Flatten(s.packets) + s.rest == Flatten(chunks)
  {
    assert [] + Flatten(chunks) == Flatten(chunks);
    PushAllIsSplit([], chunks);
    PushAllIsSplit([], others);
    SplitKeepsBytes(Flatten(chunks));
  }

  /** With an error the cut shows: `push` returns just the packets completed
      by the reads before the failing one, and which read fails is decided by
      the bytes alone. */
  lemma {:induction false} PushUntilError(buf: seq<byte>, chunks: seq<seq<byte>>, k: nat)
    requires Look(buf).More? && k < |chunks|
    requires SplitAll(buf + Flatten(chunks[..k])).error.None?
    requires SplitAll(buf + Flatten(chunks[..k + 1])).error.Some?
    ensures var s := PushAll(buf, chunks);
            && s.packets == SplitAll(buf + Flatten(chunks[..k])).packets
            && s.error == SplitAll(buf + Flatten(chunks[..k + 1])).error
            && s.rest == SplitAll(buf + Flatten(chunks[..k + 1])).rest
    decreases |chunks|
  {
    var head, tail := chunks[0], chunks[1..];
    FlattenPrefix(buf, chunks, k);
    FlattenPrefix(buf, chunks, k + 1);
    assert tail[..0] == [] && buf + head + [] == buf + head;
    if k > 0 {
      SplitAppend(buf + head, Flatten(tail[..k - 1]));
      SplitAppend(buf + head, Flatten(tail[..k]));
      SplitStops(buf + head);
      PushUntilError(SplitAll(buf + head).rest, tail, k - 1);
    } else {
      assert SplitAll(buf) == Split([], buf, None);
      assert buf + [] == buf;
    }
  }

  lemma FlattenPrefix(buf: seq<byte>, chunks: seq<seq<byte>>, k: nat)
    requires k <= |chunks|
    ensures buf + Flatten(chunks[..k]) ==
            if k == 0 then buf + [] else buf + chunks[0] + Flatten(chunks[1..][..k - 1])
  {
    if k > 0 {
      assert chunks[..k] == [chunks[0]] + chunks[1..][..k - 1];
      FlattenCons(chunks[0], chunks[1..][..k - 1]);
      Associate(buf, chunks[0], Flatten(chunks[1..][..k - 1]));
    }
  }

  /** Pulling packets one by one gives them up to the error, however the reads
      came: what `next` returns is the next packet of the stream. */
  lemma NextOfStream(buf: seq<byte>, incoming: seq<seq<byte>>, used: nat)
    requires used <= |incoming| && !Look(buf + Flatten(incoming[..used])).More?
    ensures Look(buf + Flatten(incoming)) == Look(buf + Flatten(incoming[..used]))
  {
    assert incoming == incoming[..used] + incoming[used..];
    FlattenAppend(incoming[..used], incoming[used..]);
    Associate(buf, Flatten(incoming[..used]), Flatten(incoming[used..]));
    LookExtends(buf + Flatten(incoming[..used]), Flatten(incoming[used..]));
  }

  /** A session in terms of the bytes alone. */
  lemma {:induction false} SessionIsSplit(buf: seq<byte>, incoming: seq<seq<byte>>, broken: bool)
    ensures var s := SplitAll(buf + Flatten(incoming));
            Session(buf, incoming, broken) ==
            (s.packets, if s.error.Some? then s.error.value else AtEnd(s.rest, broken))
    decreases |incoming|, |buf|
  {
    var more := Flatten(incoming);
    match Look(buf)
    case Packet(n) =>
      LookExtends(buf, more);
      assert (buf + more)[..n] == buf[..n] && (buf + more)[n..] == buf[n..] + more;
      SplitStep(buf + more, n);
      SessionIsSplit(buf[n..], incoming, broken);
    case Bad(e) => LookExtends(buf, more);
    case More =>
      if incoming == [] {
        assert buf + more == buf;
      } else {
        assert buf + more == (buf + incoming[0]) + Flatten(incoming[1..]);
        SessionIsSplit(buf + incoming[0], incoming[1..], broken);
      }
  }

  /** Two cuts of one stream give the same session: the same packets and the
      same final error, also for a stream that goes wrong. */
  lemma SessionInvariance(chunks: seq<seq<byte>>, others: seq<seq<byte>>, broken: bool)
    requires Flatten(chunks) == Flatten(others)
    ensures Session([], chunks, broken) == Session([], others, broken)
  {
    SessionIsSplit([], chunks, broken);
    SessionIsSplit([], others, broken);
  }

  // -------------------------------------------------------------- round trip

  /** Exactly one packet, complete. */
  predicate WellFormed(p: seq<byte>) {
    Look(p) == Packet(|p|)
  }

  lemma SplitOne(p: seq<byte>, tail: seq<byte>)
    requires WellFormed(p)
    ensures SplitAll(p + tail) == Put(p, SplitAll(tail))
  {
    LookExtends(p, tail);
    assert (p + tail)[..|p|] == p && (p + tail)[|p|..] == tail;
  }

  /** Splitting inverts concatenation: well-formed packets followed by an
      incomplete one come back exactly, with the incomplete one left over. */
  lemma {:induction false} SplitInvertsFlatten(ps: seq<seq<byte>>, rest: seq<byte>)
    requires AllWellFormed(ps)
    requires Look(rest).More?
    ensures SplitAll(Flatten(ps) + rest) == Split(ps, rest, None)
  {
    if ps == [] {
      assert [] + rest == rest;
    } else {
      SplitInvertsFlatten(ps[1..], rest);
      Associate(ps[0], Flatten(ps[1..]), rest);
      SplitOne(ps[0], Flatten(ps[1..]) + rest);
      assert [ps[0]] + ps[1..] == ps;
    }
  }

  predicate AllWellFormed(ps: seq<seq<byte>>) {
    forall i :: 0 <= i < |ps| ==> WellFormed(ps[i])
  }

  lemma WellFormedPut(p: seq<byte>, ps: seq<seq<byte>>)
    requires WellFormed(p) && AllWellFormed(ps)
    ensures AllWellFormed([p] + ps)
  {
  }

  lemma {:induction false} SplitIsWellFormed(buf: seq<byte>)
    ensures AllWellFormed(SplitAll(buf).packets)
    decreases |buf|
  {
    match Look(buf)
    case Packet(n) =>
      SplitIsWellFormed(buf[n..]);
      SplitStep(buf, n);
      PacketAlone(buf);
      WellFormedPut(buf[..n], SplitAll(buf[n..]).packets);
    case _ =>
  }

  lemma PacketAlone(buf: seq<byte>)
    requires Look(buf).Packet?
    ensures WellFormed(buf[..Look(buf).total])
  {
    var p := buf[..Look(buf).total];
    assert p[0] == buf[0];
    if |p| >= 3 {
      assert p[1] == buf[1] && p[2] == buf[2];
    }
  }

  /** There is one way to read a stream: the split is the only sequence of
      well-formed packets with an incomplete rest that makes up the bytes. */
  lemma SplitUnique(buf: seq<byte>, ps: seq<seq<byte>>, rest: seq<byte>)
    requires SplitAll(buf).error.None?
    ensures SplitAll(buf) == Split(ps, rest, None) <==>
            AllWellFormed(ps) && Look(rest).More? && Flatten(ps) + rest == buf
  {
    if SplitAll(buf) == Split(ps, rest, None) {
      SplitKeepsBytes(buf);
      SplitStops(buf);
      SplitIsWellFormed(buf);
    }
    if AllWellFormed(ps) && Look(rest).More? && Flatten(ps) + rest == buf {
      SplitInvertsFlatten(ps, rest);
    }
  }

  // ---------------------------------------------------------------- the wire

  /** The headers of the packets of fixed size, and the sizes. */
  ghost predicate Fixed(h: int, n: int) {
    (h, n) in {(1, 37), (2, 5), (3, 24), (7, 10), (12, 10), (14, 5), (15, 47), (16, 1021), (20, 42), (21, 51),
               (25, 38), (26, 58), (27, 5), (28, 4), (31, 30), (32, 449), (44, 1), (65, 15), (76, 1531), (90, 2),
               (106, 5), (118, 5), (121, 2), (126, 22), (135, 10), (136, 70), (150, 6), (151, 289), (164, 152),
               (253, 2), (255, 13)}
  }

  /** The headers whose length is that of the packet, and the least length. */
  ghost predicate Sized(h: int, least: int) {
    (h, least) in {(4, 9), (130, 3), (152, 7), (153, 7)}
  }

  /** A header, a length, low byte first, and what follows. */
  function Framed(h: byte, n: nat, q: seq<byte>): (p: seq<byte>)
    requires n < 0x1_0000
  {
    [h, n % 256, n / 256] + q
  }

  /** A packet as the server writes it: of fixed size; with its own length; or,
      under header 140, with the length of what follows the three bytes. */
  ghost predicate OnWire(p: seq<byte>) {
    || (p != [] && Fixed(p[0], |p|))
    || (exists h: byte, least: nat, q: seq<byte> ::
          Sized(h, least) && least <= |q| + 3 < 0x1_0000 && p == Framed(h, |q| + 3, q))
    || (exists q: seq<byte> :: 1 <= |q| < 0x1_0000 && p == Framed(140, |q|, q))
  }

  lemma FixedIs(h: byte, n: nat)
    ensures Fixed(h, n) <==> FixedSize(h) == Some(n)
    ensures FixedSize(h).Some? ==> EmbeddedMin(h) == None && PayloadMin(h) == None
  {
  }

  lemma SizedIs(h: byte, least: nat)
    ensures Sized(h, least) <==> EmbeddedMin(h) == Some(least)
  {
  }

  lemma TwoBytes(n: nat)
    requires n < 0x1_0000
    ensures n / 256 < 256 && U16(n % 256, n / 256) == n
  {
  }

  lemma TwoBytesOnly(lo: byte, hi: byte)
    ensures U16(lo, hi) < 0x1_0000 && lo == U16(lo, hi) % 256 && hi == U16(lo, hi) / 256
  {
  }

  lemma FramedAt(h: byte, n: nat, q: seq<byte>)
    requires n < 0x1_0000
    ensures var p := Framed(h, n, q);
            |p| == |q| + 3 && p[0] == h && U16(p[1], p[2]) == n && p[3..] == q
  {
    TwoBytes(n);
  }

  lemma SizedLooks(h: byte, least: nat, q: seq<byte>)
    requires Sized(h, least) && least <= |q| + 3 < 0x1_0000
    ensures WellFormed(Framed(h, |q| + 3, q))
  {
    SizedIs(h, least);
    FramedAt(h, |q| + 3, q);
  }

  lemma LocaleLooks(q: seq<byte>)
    requires 1 <= |q| < 0x1_0000
    ensures WellFormed(Framed(140, |q|, q))
  {
    FramedAt(140, |q|, q);
  }

  lemma Reframed(p: seq<byte>)
    requires |p| >= 3
    ensures U16(p[1], p[2]) < 0x1_0000 && p == Framed(p[0], U16(p[1], p[2]), p[3..])
  {
    TwoBytesOnly(p[1], p[2]);
  }

  lemma SizedOnly(p: seq<byte>)
    requires WellFormed(p) && EmbeddedMin(p[0]).Some? && PayloadMin(p[0]).None?
    ensures OnWire(p)
  {
    var h, q := p[0], p[3..];
    Reframed(p);
    SizedIs(h, EmbeddedMin(h).value);
    assert p == Framed(h, |q| + 3, q);
  }

  lemma LocaleOnly(p: seq<byte>)
    requires WellFormed(p) && PayloadMin(p[0]).Some?
    ensures OnWire(p)
  {
    var q := p[3..];
    Reframed(p);
    assert p == Framed(140, |q|, q);
  }

  /** What the splitter takes for a packet is exactly what the server writes as
      one. */
  lemma WireExact(p: seq<byte>)
    ensures WellFormed(p) <==> OnWire(p)
  {
    if WellFormed(p) {
      if PayloadMin(p[0]).Some? {
        LocaleOnly(p);
      } else if EmbeddedMin(p[0]).Some? {
        SizedOnly(p);
      } else {
        FixedIs(p[0], |p|);
      }
    }
    if OnWire(p) {
      if p != [] && Fixed(p[0], |p|) {
        FixedIs(p[0], |p|);
      } else if h: byte, least: nat, q: seq<byte> :|
        Sized(h, least) && least <= |q| + 3 < 0x1_0000 && p == Framed(h, |q| + 3, q) {
        SizedLooks(h, least, q);
      } else {
        var q: seq<byte> :| 1 <= |q| < 0x1_0000 && p == Framed(140, |q|, q);
        LocaleLooks(q);
      }
    }
  }

  ghost predicate AllOnWire(ps: seq<seq<byte>>) {
    forall i :: 0 <= i < |ps| ==> OnWire(ps[i])
  }

  /** So whatever packets the server writes one after the other, the splitter
      gives them back, with the beginning of the next one left over. */
  lemma WireRoundTrip(ps: seq<seq<byte>>, next: seq<byte>, n: nat)
    requires AllOnWire(ps) && OnWire(next) && n < |next|
    ensures SplitAll(Flatten(ps) + next[..n]) == Split(ps, next[..n], None)
  {
    forall i | 0 <= i < |ps|
      ensures WellFormed(ps[i])
    {
      WireExact(ps[i]);
    }
    WireExact(next);
    PartIsMore(next, n);
    SplitInvertsFlatten(ps, next[..n]);
  }

  lemma PartIsMore(p: seq<byte>, n: nat)
    requires WellFormed(p) && n < |p|
    ensures Look(p[..n]).More?
  {
    assert p == p[..n] + p[n..];
    if !Look(p[..n]).More? {
      LookExtends(p[..n], p[n..]);
    }
  }

  /** The errors: a header that no packet has, and a length below the least. */
  lemma WireErrors(buf: seq<byte>, e: SplitError)
    requires buf != []
    ensures Look(buf) == Bad(e) <==>
            || (e == UnknownHeader(buf[0]) && buf[0] != 140
                && (forall n :: !Fixed(buf[0], n)) && (forall least :: !Sized(buf[0], least)))
            || (|buf| >= 3 && e == BadEmbeddedLength(buf[0], buf[1] + 256 * (buf[2] as int))
                && exists least :: buf[1] + 256 * (buf[2] as int) < least
                                   && (Sized(buf[0], least) || (buf[0] == 140 && least == 1)))
  {
    var h := buf[0];
    forall n: nat
      ensures Fixed(h, n) <==> FixedSize(h) == Some(n)
      ensures Sized(h, n) <==> EmbeddedMin(h) == Some(n)
    {
      FixedIs(h, n);
      SizedIs(h, n);
    }
  }

  /** How a session ends. */
  lemma SessionEnds(buf: seq<byte>, incoming: seq<seq<byte>>, broken: bool)
    ensures var s, e := SplitAll(buf + Flatten(incoming)), Session(buf, incoming, broken).1;
            s.error.None? ==>
              e == if broken then Io else if s.rest == [] then Eof else UnexpectedEof(|s.rest|)
  {
    SessionIsSplit(buf, incoming, broken);
  }
}
