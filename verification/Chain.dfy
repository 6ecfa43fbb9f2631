/** The downstream route carried ahead of the activation in a chain frame: a count, then for each
    hop its host length, host, big-endian port and 32-byte wire key. */
module ChainRoute {
  import opened Wrappers

  newtype byte = x: int | 0 <= x < 256

  /** Where to dial, and the key to encrypt to. */
  datatype Hop = Hop(host: seq<byte>, port: int, key: seq<byte>)

  datatype RouteError = TooManyHops | HostTooLong | BadPort | BadKey | EmptyPayload | Truncated

  // ----- encoding -----

  function HopError(h: Hop): Result<(), RouteError>
  {
    if |h.host| > 255 then Err(HostTooLong)
    else if !(0 <= h.port <= 65535) then Err(BadPort)
    else if |h.key| != 32 then Err(BadKey)
    else Ok(())
  }

  predicate Encodable(hops: seq<Hop>)
  {
    |hops| <= 255 && forall i :: 0 <= i < |hops| ==> HopError(hops[i]).Ok?
  }

  function HopBytes(h: Hop): seq<byte>
    requires HopError(h).Ok?
  {
    [|h.host| as byte] + h.host + [(h.port / 256) as byte, (h.port % 256) as byte] + h.key
  }

  function HopsBytes(hops: seq<Hop>): seq<byte>
    requires forall i :: 0 <= i < |hops| ==> HopError(hops[i]).Ok?
  {
    if hops == [] then [] else HopBytes(hops[0]) + HopsBytes(hops[1..])
  }

  /** The header of an encodable route. */
  function RouteBytes(hops: seq<Hop>): seq<byte>
    requires Encodable(hops)
  {
    [|hops| as byte] + HopsBytes(hops)
  }

  lemma {:induction false} HopsBytesSnoc(hops: seq<Hop>, h: Hop)
    requires forall i :: 0 <= i < |hops| ==> HopError(hops[i]).Ok?
    requires HopError(h).Ok?
    ensures HopsBytes(hops + [h]) == HopsBytes(hops) + HopBytes(h)
  {
    if hops != [] {
      assert (hops + [h])[1..] == hops[1..] + [h];
      HopsBytesSnoc(hops[1..], h);
    }
  }

  lemma NoHopsBytes()
    ensures HopsBytes([]) == []
  {
  }

  method EncodeRoute(hops: seq<Hop>) returns (r: Result<seq<byte>, RouteError>)
    ensures r.Ok? <==> Encodable(hops)
    ensures r.Ok? ==> r.value == RouteBytes(hops)
    ensures |hops| > 255 ==> r == Err(TooManyHops)
  {
    hide HopsBytes;
    if |hops| > 255 {
      return Err(TooManyHops);
    }
    var out: seq<byte> := [|hops| as byte];
    NoHopsBytes();
    for i := 0 to |hops|
      invariant forall j :: 0 <= j < i ==> HopError(hops[j]).Ok?
      invariant out == [|hops| as byte] + HopsBytes(hops[..i])
    {
      var h := hops[i];
      var e := HopError(h);
      if e.Err? {
        return Err(e.error);
      }
      HopsBytesSnoc(hops[..i], h);
      assert hops[..i + 1] == hops[..i] + [h];
      ghost var before := out;
      out := out + [|h.host| as byte];
      out := out + h.host;
      out := out + [(h.port / 256) as byte, (h.port % 256) as byte];
      out := out + h.key;
      assert out == before + HopBytes(h);
    }
    assert hops[..|hops|] == hops;
    return Ok(out);
  }

  // ----- decoding -----

  /** Python's slice: clipped to the buffer. */
  function Slice(buf: seq<byte>, off: nat, n: nat): (out: seq<byte>)
    ensures |out| <= n
    ensures |out| == n <==> off + n <= |buf| || n == 0
  {
    if off >= |buf| then [] else if off + n <= |buf| then buf[off..off + n] else buf[off..]
  }

  /** The hop at offset `off`, and the offset after it. */
  function ReadHop(buf: seq<byte>, off: nat): (r: Result<(Hop, nat), RouteError>)
    ensures r.Ok? ==> HopError(r.value.0).Ok? && off < r.value.1 <= |buf|
  {
    if off >= |buf| then Err(Truncated) else
      var hl := buf[off] as int;
      if |buf| < off + hl + 35 then Err(Truncated) else
        var h := Hop(buf[off + 1..off + 1 + hl],
                     (buf[off + 1 + hl] as int) * 256 + buf[off + 2 + hl] as int,
                     buf[off + 3 + hl..off + 35 + hl]);
        Ok((h, off + hl + 35))
  }

  /** The `n` hops from offset `off`, and the offset after them. */
  function ReadHops(buf: seq<byte>, off: nat, n: nat): (r: Result<(seq<Hop>, nat), RouteError>)
    requires off <= |buf|
    ensures r.Ok? ==> |r.value.0| == n && off <= r.value.1 <= |buf|
    ensures r.Err? ==> r.error == Truncated
    decreases n
  {
    if n == 0 then Ok(([], off)) else
      var h := ReadHop(buf, off);
      if h.Err? then Err(Truncated) else
        var t := ReadHops(buf, h.value.1, n - 1);
        if t.Err? then Err(Truncated) else Ok(([h.value.0] + t.value.0, t.value.1))
  }

  /** The route a payload starts with and the bytes that follow its header. */
  function Decoded(buf: seq<byte>): Result<(seq<Hop>, seq<byte>), RouteError>
  {
    if buf == [] then Err(EmptyPayload) else
      var r := ReadHops(buf, 1, buf[0] as int);
      if r.Err? then Err(Truncated) else Ok((r.value.0, buf[r.value.1..]))
  }

  method DecodeRoute(buf: seq<byte>) returns (r: Result<(seq<Hop>, seq<byte>), RouteError>)
    ensures r == Decoded(buf)
  {
    if buf == [] {
      return Err(EmptyPayload);
    }
    var n, off := buf[0] as int, 1;
    var hops: seq<Hop> := [];
    ghost var all := ReadHops(buf, 1, n);
    NoneAhead(all);
    for i := 0 to n
      invariant 1 <= off <= |buf|
      invariant all == Ahead(hops, ReadHops(buf, off, n - i))
    {
      hide *;
      var hop, next := DecodeHop(buf, off);
      ReadNext(buf, off, n - i, hops);
      if next == 0 {
        return Err(Truncated);
      }
      hops, off := hops + [hop], next;
    }
    assert hops + [] == hops;
    return Ok((hops, buf[off..]));
  }

  /** The outcome of reading on, after `hops` have been read. */
  function Ahead(hops: seq<Hop>, r: Result<(seq<Hop>, nat), RouteError>): Result<(seq<Hop>, nat), RouteError>
  {
    if r.Err? then Err(Truncated) else Ok((hops + r.value.0, r.value.1))
  }

  lemma NoneAhead(r: Result<(seq<Hop>, nat), RouteError>)
    requires r.Err? ==> r.error == Truncated
    ensures Ahead([], r) == r
  {
    if r.Ok? { assert [] + r.value.0 == r.value.0; }
  }

  lemma ReadNext(buf: seq<byte>, off: nat, n: nat, hops: seq<Hop>)
    requires off <= |buf| && n > 0
    ensures var h := ReadHop(buf, off);
            Ahead(hops, ReadHops(buf, off, n)) ==
            if h.Err? then Err(Truncated)
            else Ahead(hops + [h.value.0], ReadHops(buf, h.value.1, n - 1))
  {
    hide ReadHop, HopError;
    var h := ReadHop(buf, off);
    if h.Ok? {
      var t := ReadHops(buf, h.value.1, n - 1);
      if t.Ok? { assert hops + ([h.value.0] + t.value.0) == hops + [h.value.0] + t.value.0; }
    }
  }

  /** One turn of the decoding loop: the hop at `start` and the offset after it, or 0 where the
      header is cut short. */
  method DecodeHop(buf: seq<byte>, start: nat) returns (hop: Hop, next: nat)
    requires start <= |buf|
    ensures next == 0 <==> ReadHop(buf, start).Err?
    ensures next != 0 ==> ReadHop(buf, start) == Ok((hop, next)) && next <= |buf|
  {
    hop := Hop([], 0, []);
    var off := start;
    if off >= |buf| {
      return hop, 0;
    }
    var hl := buf[off] as int;
    off := off + 1;
    var host := Slice(buf, off, hl);
    off := off + hl;
    var ports := Slice(buf, off, 2);
    if |ports| < 2 {
      return hop, 0;
    }
    off := off + 2;
    var key := Slice(buf, off, 32);
    off := off + 32;
    if |key| != 32 {
      return hop, 0;
    }
    return Hop(host, (ports[0] as int) * 256 + ports[1] as int, key), off;
  }

  // ----- the two are inverse -----

  /** A hop's bytes at `off` read back as that hop. */
  lemma ReadOneHop(buf: seq<byte>, off: nat, h: Hop, rest: seq<byte>)
    requires HopError(h).Ok? && off <= |buf| && buf[off..] == HopBytes(h) + rest
    ensures ReadHop(buf, off) == Ok((h, off + |HopBytes(h)|))
  {
    var b, hl := HopBytes(h) + rest, |h.host|;
    assert buf[off] == b[0] && buf[off + 1 + hl] == b[1 + hl] && buf[off + 2 + hl] == b[2 + hl];
    assert b[1..1 + hl] == h.host && b[3 + hl..35 + hl] == h.key;
    SliceBehind(buf, off, b, 1, 1 + hl);
    SliceBehind(buf, off, b, 3 + hl, 35 + hl);
    assert h.port / 256 * 256 + h.port % 256 == h.port;
  }

  lemma SliceBehind(buf: seq<byte>, off: nat, b: seq<byte>, i: nat, j: nat)
    requires off <= |buf| && buf[off..] == b && i <= j <= |b|
    ensures off + j <= |buf| && buf[off + i..off + j] == b[i..j]
  {
    assert |buf| == off + |b|;
    assert forall k :: i <= k < j ==> buf[off + k] == b[k];
  }

  lemma AfterFront(buf: seq<byte>, off: nat, front: seq<byte>, more: seq<byte>)
    requires off <= |buf| && buf[off..] == front + more
    ensures off + |front| <= |buf| && buf[off + |front|..] == more
  {
    assert |buf| - off == |front| + |more|;
    assert buf[off + |front|..] == buf[off..][|front|..];
  }

  lemma {:induction false} ReadBackHops(buf: seq<byte>, off: nat, hops: seq<Hop>, rest: seq<byte>)
    requires forall i :: 0 <= i < |hops| ==> HopError(hops[i]).Ok?
    requires off <= |buf| && buf[off..] == HopsBytes(hops) + rest
    ensures ReadHops(buf, off, |hops|) == Ok((hops, |buf| - |rest|))
    decreases |hops|
  {
    hide HopBytes, ReadHop, HopError;
    if hops == [] {
      assert HopsBytes(hops) + rest == rest;
    } else {
      var h, more := hops[0], HopsBytes(hops[1..]) + rest;
      assert buf[off..] == HopBytes(h) + more;
      ReadOneHop(buf, off, h, more);
      AfterFront(buf, off, HopBytes(h), more);
      ReadBackHops(buf, off + |HopBytes(h)|, hops[1..], rest);
      assert [h] + hops[1..] == hops;
    }
  }

  /** Decoding a header followed by any activation bytes gives the route and those bytes back. */
  lemma DecodeEncode(hops: seq<Hop>, rest: seq<byte>)
    requires Encodable(hops)
    ensures Decoded(RouteBytes(hops) + rest) == Ok((hops, rest))
  {
    var buf := RouteBytes(hops) + rest;
    assert buf[1..] == HopsBytes(hops) + rest;
    ReadBackHops(buf, 1, hops, rest);
  }

  lemma HopCanonical(buf: seq<byte>, off: nat)
    requires ReadHop(buf, off).Ok?
    ensures buf[off..ReadHop(buf, off).value.1] == HopBytes(ReadHop(buf, off).value.0)
  {
    var (h, next) := ReadHop(buf, off).value;
    var hl := buf[off] as int;
    assert h.port / 256 == buf[off + 1 + hl] as int && h.port % 256 == buf[off + 2 + hl] as int;
    assert buf[off..next] == [buf[off]] + buf[off + 1..off + 1 + hl]
        + [buf[off + 1 + hl], buf[off + 2 + hl]] + buf[off + 3 + hl..off + 35 + hl];
  }

  lemma {:induction false} ReadHopsCanonical(buf: seq<byte>, off: nat, n: nat)
    requires off <= |buf| && ReadHops(buf, off, n).Ok?
    ensures var (hops, end) := ReadHops(buf, off, n).value;
            && (forall i :: 0 <= i < |hops| ==> HopError(hops[i]).Ok?)
            && buf[off..end] == HopsBytes(hops)
    decreases n
  {
    hide HopBytes, ReadHop, HopError, HopsBytes;
    if n == 0 {
      NoHops();
    } else {
      var (h, next) := ReadHop(buf, off).value;
      HopCanonical(buf, off);
      ReadHopsCanonical(buf, next, n - 1);
      var (hops, end) := ReadHops(buf, next, n - 1).value;
      HopsBytesCons(h, hops);
      assert buf[off..end] == buf[off..next] + buf[next..end];
    }
  }

  lemma NoHops()
    ensures HopsBytes([]) == []
  {
  }

  lemma HopsBytesCons(h: Hop, hops: seq<Hop>)
    requires HopError(h).Ok? && forall i :: 0 <= i < |hops| ==> HopError(hops[i]).Ok?
    ensures forall i :: 0 <= i < |[h] + hops| ==> HopError(([h] + hops)[i]).Ok?
    ensures HopsBytes([h] + hops) == HopBytes(h) + HopsBytes(hops)
  {
    assert ([h] + hops)[1..] == hops;
  }

  /** Whatever decodes was an encoding: the codec is a bijection between encodable routes with a
      payload and the buffers it accepts. */
  lemma EncodeDecode(buf: seq<byte>)
    requires Decoded(buf).Ok?
    ensures var (hops, rest) := Decoded(buf).value;
            Encodable(hops) && buf == RouteBytes(hops) + rest
  {
    hide ReadHops, HopsBytes, HopError;
    ReadHopsCanonical(buf, 1, buf[0] as int);
    var end := ReadHops(buf, 1, buf[0] as int).value.1;
    assert buf == [buf[0]] + buf[1..end] + buf[end..];
  }

  /** Split a downstream route into its next hop, if any, and the rest. */
  function PopNext(hops: seq<Hop>): (r: (seq<Hop>, seq<Hop>))
    ensures |r.0| <= 1 && r.0 + r.1 == hops && (r.0 == [] ==> hops == [])
  {
    if hops == [] then ([], []) else (hops[..1], hops[1..])
  }
}
