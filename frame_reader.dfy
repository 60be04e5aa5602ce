/** recv_full: receive into a buffer until exactly `len` bytes have arrived, giving
    up on the first failed receive and stopping early when the process is asked to
    shut down.

    The connected socket is modelled by what the peer will deliver and how: the
    bytes the server sends, in order, and the outcome of each successive recv call.
    The process-wide shutdown flag (g_running) lives beside it, since the only event
    that clears it, SIGINT, is seen by the receive loop only at its next test. */
module FrameReader {
  import opened Wire

  /** The outcome of one recv call as the network decides it: a positive size hands
      over at most that many of the waiting bytes, a size <= 0 is a failure; when
      `signal` holds, SIGINT is delivered while the call blocks, so g_running is
      false once it returns (a blocking receive completes before shutdown is seen). */
  datatype Reply = Reply(size: int, signal: bool)

  /** The peer's side of the connection, fixed for the session: every byte the
      server sends, in order, and the outcome of each successive recv call. When
      the schedule is exhausted, or nothing is left to deliver, the peer has closed
      the connection and recv returns 0. */
  datatype Peer = Peer(stream: seq<byte>, replies: seq<Reply>)

  /** How far the receiver has got: `pos` bytes of the stream have been delivered,
      `next` recv calls have been made, and g_running. */
  datatype LinkState = LinkState(pos: nat, next: nat, running: bool)

  ghost predicate Within(p: Peer, s: LinkState)
  {
    s.pos <= |p.stream| && s.next <= |p.replies|
  }

  /** What one recv call returns and the link afterwards; the bytes it stores are
      p.stream[s.pos..after.pos]. */
  datatype Received = Received(n: int, after: LinkState)

  /** How many bytes a successful recv hands over: what the network offers, capped
      by the room the caller gave and by what the peer has left to send. */
  function Take(size: int, max: int, avail: int): (n: int)
    requires size > 0 && max > 0 && avail >= 0
    ensures 0 <= n <= max && n <= size && n <= avail
    ensures n == size || n == max || n == avail
    ensures n == 0 <==> avail == 0
  {
    if size <= max && size <= avail then size else if max <= avail then max else avail
  }

  /** recv(sock, ptr, max, 0): at most `max` bytes, taken from the front of what the
      peer has not yet delivered. */
  function RecvOutcome(p: Peer, s: LinkState, max: int): (r: Received)
    requires max > 0 && Within(p, s)
    ensures Within(p, r.after) && s.next <= r.after.next
    ensures r.n <= 0 ==> r.after.pos == s.pos
    ensures r.n > 0 ==> r.n <= max && r.after.pos == s.pos + r.n && r.after.next > s.next
    ensures r.after.running ==> s.running
  {
    if s.next == |p.replies| then Received(0, s)
    else
      var reply := p.replies[s.next];
      var after := s.(next := s.next + 1, running := s.running && !reply.signal);
      if reply.size <= 0 then Received(reply.size, after)
      else
        var n := Take(reply.size, max, |p.stream| - s.pos);
        Received(n, after.(pos := s.pos + n))
  }

  /** What recv_full returns (len, a short count, or -1) and the link afterwards;
      the bytes it has stored at the front of the buffer are p.stream[start..after.pos]
      where `start` is the position it was called at. */
  datatype Gathered = Gathered(result: int, after: LinkState)

  /** The loop of recv_full once `total` bytes are in the buffer. */
  function RecvFullLoop(p: Peer, s: LinkState, len: int, total: nat): Gathered
    requires Within(p, s) && (total <= len || total == 0)
    decreases |p.replies| - s.next
  {
    if total < len && s.running then
      var r := RecvOutcome(p, s, len - total);
      if r.n <= 0 then Gathered(-1, r.after)
      else RecvFullLoop(p, r.after, len, total + r.n)
    else Gathered(total, s)
  }

  /** Each pass of the loop adds exactly what recv stored, so the count it ends with
      is the number of stream bytes consumed; it fails only while bytes are missing,
      never overshoots `len`, and stops short only once shutdown is seen. */
  lemma {:induction false} RecvFullLoopBounds(p: Peer, s: LinkState, len: int, total: nat)
    requires Within(p, s) && (total <= len || total == 0)
    ensures var g := RecvFullLoop(p, s, len, total);
      && Within(p, g.after) && s.pos <= g.after.pos && s.next <= g.after.next
      && (g.result == -1 || g.result == total + g.after.pos - s.pos)
      && (g.result == -1 ==> len > total)
      && (total + g.after.pos - s.pos <= len || g.after.pos == s.pos)
      && (0 <= g.result < len ==> !g.after.running)
      && (g.result == len && len > total ==> g.after.next > s.next)
    decreases |p.replies| - s.next
  {
    if total < len && s.running {
      var r := RecvOutcome(p, s, len - total);
      if r.n > 0 {
        RecvFullLoopBounds(p, r.after, len, total + r.n);
      }
    }
  }

  /** recv_full(sock, buf, len). */
  function RecvFullOutcome(p: Peer, s: LinkState, len: int): (g: Gathered)
    requires Within(p, s)
    ensures Within(p, g.after) && s.pos <= g.after.pos && s.next <= g.after.next
    ensures g.result == -1 || 0 <= g.result <= len || (len < 0 && g.result == 0)
  {
    RecvFullLoopBounds(p, s, len, 0);
    RecvFullLoop(p, s, len, 0)
  }

  /** recv_full returns `len` exactly when it has taken the next `len` bytes of the
      stream; it never reports more than it was asked for; -1 means a receive failed;
      any other result is a short count, which only shutdown produces. The bytes it
      stores are always the next ones the peer sent, none skipped. */
  lemma RecvFullResult(p: Peer, s: LinkState, len: int)
    requires Within(p, s)
    ensures var g := RecvFullOutcome(p, s, len);
      && Within(p, g.after) && s.next <= g.after.next
      && (g.result == -1 || 0 <= g.result <= len || (len < 0 && g.result == 0))
      && (g.result != -1 ==> g.after.pos == s.pos + g.result)
      && (g.result == len ==> s.pos + len <= |p.stream|)
      && (0 <= g.result < len ==> !g.after.running)
      && (g.result == -1 ==> len > 0)
      && (g.result == len && len > 0 ==> g.after.next > s.next)
  {
    RecvFullLoopBounds(p, s, len, 0);
  }

  /** Nothing is received once shutdown has been requested: the result is 0 and the
      link is untouched. */
  lemma RecvFullAfterShutdown(p: Peer, s: LinkState, len: int)
    requires Within(p, s) && !s.running
    ensures RecvFullOutcome(p, s, len) == Gathered(0, s)
  {
  }

  /** A first receive that fails makes the whole call fail. */
  lemma RecvFullFirstFailure(p: Peer, s: LinkState, len: int)
    requires Within(p, s) && s.running && len > 0
    requires s.next < |p.replies| && p.replies[s.next].size <= 0
    ensures RecvFullOutcome(p, s, len).result == -1
  {
  }

  /** recv_full gives up on whichever receive fails, not only the first: a result
      other than -1 means every receive it made succeeded, and a result of -1 means
      its last receive failed or found the peer closed. */
  lemma {:induction false} RecvFullFailures(p: Peer, s: LinkState, len: int, total: nat)
    requires Within(p, s) && (total <= len || total == 0)
    ensures var g := RecvFullLoop(p, s, len, total);
      && Within(p, g.after) && s.next <= g.after.next
      && (g.result != -1 ==> forall k :: s.next <= k < g.after.next ==> p.replies[k].size > 0)
      && (g.result == -1 ==>
            && (forall k :: s.next <= k < g.after.next - 1 ==> p.replies[k].size > 0)
            && (g.after.next == |p.replies| || g.after.pos == |p.stream|
                || (g.after.next > s.next && p.replies[g.after.next - 1].size <= 0)))
    decreases |p.replies| - s.next
  {
    if total < len && s.running {
      var r := RecvOutcome(p, s, len - total);
      if r.n > 0 {
        RecvFullFailures(p, r.after, len, total + r.n);
      }
    }
  }

  /** No signal and no failure among the receive calls still to come. */
  ghost predicate Cooperative(p: Peer, s: LinkState)
  {
    s.running && forall k :: s.next <= k < |p.replies| ==> p.replies[k].size > 0 && !p.replies[k].signal
  }

  /** On a cooperating link with enough data and enough receive calls, recv_full
      gets all `len` bytes, whatever sizes the individual receives deliver. */
  lemma {:induction false} RecvFullCompletes(p: Peer, s: LinkState, len: int, total: nat)
    requires Within(p, s) && Cooperative(p, s) && total <= len
    requires s.pos + len - total <= |p.stream| && s.next + len - total <= |p.replies|
    ensures RecvFullLoop(p, s, len, total).result == len
    decreases |p.replies| - s.next
  {
    if total < len {
      var r := RecvOutcome(p, s, len - total);
      assert r.n > 0 && r.after.next == s.next + 1;
      RecvFullCompletes(p, r.after, len, total + r.n);
    }
  }

  /** The connected socket and the shutdown flag, as the receiver's calls update them. */
  class Link {
    const peer: Peer
    var pos: nat
    var next: nat
    var running: bool

    function State(): LinkState
      reads this
    {
      LinkState(pos, next, running)
    }

    ghost predicate Valid()
      reads this
    {
      Within(peer, State())
    }

    constructor (peer: Peer, running: bool)
      ensures Valid() && this.peer == peer && State() == LinkState(0, 0, running)
    {
      this.peer := peer;
      pos, next, this.running := 0, 0, running;
    }

    /** recv(sock, buf + off, max, 0): the kernel copies the bytes it hands over. */
    method Recv(buf: array<byte>, off: nat, max: int) returns (n: int)
      requires Valid() && max > 0 && off + max <= buf.Length
      modifies this, buf
      ensures Valid()
      ensures var r := RecvOutcome(peer, old(State()), max); n == r.n && State() == r.after
      ensures n > 0 ==> && buf[..off] == old(buf[..off])
                        && buf[off..off + n] == peer.stream[old(pos)..pos]
                        && buf[off + n..] == old(buf[off + n..])
      ensures n <= 0 ==> buf[..] == old(buf[..])
    {
      var r := RecvOutcome(peer, State(), max);
      n := r.n;
      if n > 0 {
        ghost var held := buf[..];
        Store(buf, off, peer.stream[pos..r.after.pos]);
        Pieces(buf[..], held[..off], peer.stream[pos..r.after.pos], held[off + n..]);
      }
      pos, next, running := r.after.pos, r.after.next, r.after.running;
    }

    /** recv_full(sock, buf, len): the bytes received land at the front of `buf`;
        the rest of it is not touched. */
    method RecvFull(buf: array<byte>, len: int) returns (result: int)
      requires Valid() && len <= buf.Length
      modifies this, buf
      ensures Valid()
      ensures var g := RecvFullOutcome(peer, old(State()), len); result == g.result && State() == g.after
      ensures old(pos) <= pos && pos - old(pos) <= buf.Length
      ensures buf[..pos - old(pos)] == peer.stream[old(pos)..pos]
      ensures buf[pos - old(pos)..] == old(buf[..])[pos - old(pos)..]
    {
      ghost var goal := RecvFullOutcome(peer, State(), len);
      ghost var orig := buf[..];
      var total := 0;
      while total < len && running
        invariant Valid()
        invariant 0 <= total <= buf.Length && (total <= len || total == 0)
        invariant pos == old(pos) + total
        invariant RecvFullLoop(peer, LinkState(pos, next, running), len, total) == goal
        invariant buf[..total] == peer.stream[old(pos)..pos]
        invariant buf[total..] == orig[total..]
        decreases |peer.replies| - next
      {
        ghost var s := LinkState(pos, next, running);
        ghost var held := buf[..];
        var n := Recv(buf, total, len - total);
        LoopPass(peer, s, len, total, n, State());
        if n <= 0 {
          return -1;
        }
        Grow(held, buf[..], orig, peer.stream, old(pos), total, n);
        total := total + n;
      }
      result := total;
    }
  }

  /** One pass of the recv_full loop, given what its recv returned. */
  lemma LoopPass(p: Peer, s: LinkState, len: int, total: nat, n: int, after: LinkState)
    requires Within(p, s) && (total <= len || total == 0) && total < len && s.running
    requires RecvOutcome(p, s, len - total) == Received(n, after)
    ensures n <= 0 ==> RecvFullLoop(p, s, len, total) == Gathered(-1, after) && after.pos == s.pos
    ensures n > 0 ==> && total + n <= len && after.pos == s.pos + n && Within(p, after) && s.next < after.next
                      && RecvFullLoop(p, s, len, total) == RecvFullLoop(p, after, len, total + n)
  {
  }

  /** Consecutive slices join up. */
  lemma SliceSplit(x: seq<byte>, i: nat, j: nat, k: nat)
    requires i <= j <= k <= |x|
    ensures x[i..k] == x[i..j] + x[j..k]
  {
    assert x[i..k] == x[i..j] + x[j..k];
  }

  /** The three parts of a buffer written as front, data and rest. */
  lemma Pieces(x: seq<byte>, front: seq<byte>, data: seq<byte>, rest: seq<byte>)
    requires x == front + data + rest
    ensures x[..|front|] == front && x[|front|..|front| + |data|] == data && x[|front| + |data|..] == rest
  {
  }

  /** One more receive of `n` bytes at offset `total`: the front that held the
      first `total` bytes from `start` now holds the first `total + n`, and the
      rest is still what the buffer held at the outset. */
  lemma Grow(held: seq<byte>, now: seq<byte>, orig: seq<byte>, stream: seq<byte>, start: nat, total: nat, n: nat)
    requires |held| == |now| == |orig| && total + n <= |now| && start + total + n <= |stream|
    requires now[..total] == stream[start..start + total]
    requires now[total..total + n] == stream[start + total..start + total + n]
    requires held[total..] == orig[total..]
    requires now[total + n..] == held[total + n..]
    ensures now[..total + n] == stream[start..start + total + n]
    ensures now[total + n..] == orig[total + n..]
  {
    assert now[..total + n] == now[..total] + now[total..total + n];
    SliceSplit(stream, start, start + total, start + total + n);
    assert held[total + n..] == held[total..][n..];
    assert orig[total + n..] == orig[total..][n..];
  }

  /** Copies `data` into buf[off..off + |data|], leaving the rest of `buf` as it was. */
  method Store(buf: array<byte>, off: nat, data: seq<byte>)
    requires off + |data| <= buf.Length
    modifies buf
    ensures buf[..] == old(buf[..off]) + data + old(buf[off + |data|..])
  {
    for k := 0 to |data|
      invariant buf[..] == old(buf[..off]) + data[..k] + old(buf[off + k..])
    {
      buf[off + k] := data[k];
      assert data[..k + 1] == data[..k] + [data[k]];
    }
  }
}
