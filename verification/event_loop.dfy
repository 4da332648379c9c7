/**
 The bookkeeping `main` in chatServer.c does for each descriptor `select`
 reports ready: accepting on the listening socket, and receiving from a
 client, which either closes the connection or relays the chunk to every
 other client. The OS calls (`accept`, `recv`, `send`) become inputs and
 outputs: the step functions take what `accept` or `recv` returned, and what
 `send` would put on the wire is appended to a log of deliveries.
 */
module EventLoop {
  import opened ChatTypes
  import opened ConnPool

  /** One message sent on the connection with descriptor `fd`. */
  datatype Delivery = Delivery(fd: int, msg: Msg)

  /**
   The state `main` carries from one ready descriptor to the next: the pool,
   the listening socket, the `end_server` flag and everything sent so far.
   */
  datatype Server = Server(pool: Pool, listenFd: int, stop: bool, wire: seq<Delivery>)

  /**
   What the OS reported for a ready descriptor: the result of `accept` on the
   listening socket, or the result of `recv` (its return value and the
   receive buffer) on a client.
   */
  datatype Event = Accepted(newFd: int) | Received(n: int, buf: seq<byte>)

  /**
   The invariant of the pool between two ready descriptors: distinct,
   valid client descriptors, never the listening one; `maxfd` at least every
   watched descriptor; the counter equal to the list's length; and nothing
   left queued, since every relayed chunk is written out at once.
   */
  predicate Inv(s: Server)
  {
    && s.listenFd >= 0
    && UniqueFds(s.pool.conns)
    && !HasFd(s.pool.conns, s.listenFd)
    && (forall i :: 0 <= i < |s.pool.conns| ==> 0 <= s.pool.conns[i].fd <= s.pool.maxfd)
    && s.listenFd <= s.pool.maxfd
    && s.pool.nrConns == |s.pool.conns|
    && QueuesEmpty(s.pool.conns)
  }

  /** The descriptors in the `master` set handed to `select`: the listener and every client. */
  predicate Watched(s: Server, fd: int)
  {
    fd == s.listenFd || HasFd(s.pool.conns, fd)
  }

  /** A descriptor `accept` may return: not already open as the listener or a client. */
  predicate Fresh(s: Server, fd: int)
  {
    fd != s.listenFd && !HasFd(s.pool.conns, fd)
  }

  /**
   The state before the first `select`: `init_pool`, then `maxfd` set to the
   listening socket.
   */
  function StartServer(listenFd: int): (s: Server)
    requires listenFd >= 0
    ensures Inv(s)
    ensures s.pool.conns == [] && s.pool.nrConns == 0 && s.pool.maxfd == listenFd
    ensures !s.stop && s.wire == []
    ensures forall fd :: Watched(s, fd) <==> fd == listenFd
  {
    Server(InitPool().pool.(maxfd := listenFd), listenFd, false, [])
  }

  function Max(a: int, b: int): int
  {
    if a < b then b else a
  }

  /**
   The listening socket is ready, as the source does it: `new_client` is
   registered and counted even when `accept` failed and returned a negative
   value; the failure only raises the stop flag.
   */
  function OnAcceptAsWritten(s: Server, newFd: int): (t: Server)
    requires Fresh(s, newFd)
    ensures HasFd(t.pool.conns, newFd)
    ensures t.pool.nrConns == s.pool.nrConns + 1
    ensures t.stop <==> s.stop || newFd < 0
  {
    var p := AddConn(newFd, s.pool).pool;
    s.(pool := p.(nrConns := p.nrConns + 1, maxfd := Max(p.maxfd, newFd)),
       stop := s.stop || newFd < 0)
  }

  /**
   The listening socket is ready: a valid `newFd` is appended to the pool,
   counted, and raises `maxfd` to cover it; a failed `accept` raises the stop
   flag and registers nothing.
   */
  function OnAccept(s: Server, newFd: int): (t: Server)
    requires newFd < 0 || Fresh(s, newFd)
    ensures t.listenFd == s.listenFd && t.wire == s.wire
    ensures newFd < 0 ==> t.pool == s.pool && t.stop
    ensures newFd >= 0 ==> t.stop == s.stop
    ensures newFd >= 0 ==> t.pool.nrConns == s.pool.nrConns + 1
    ensures newFd >= 0 ==> t.pool.maxfd == Max(s.pool.maxfd, newFd)
    ensures newFd >= 0 ==> t.pool.conns == s.pool.conns + [Conn(newFd, [])]
    ensures forall fd :: Watched(t, fd) <==> Watched(s, fd) || (fd == newFd && newFd >= 0)
  {
    if newFd < 0 then s.(stop := true)
    else
      var p := AddConn(newFd, s.pool).pool;
      s.(pool := p.(nrConns := p.nrConns + 1, maxfd := Max(p.maxfd, newFd)))
  }

  /** No descriptor occurs twice in `fds`. */
  predicate Distinct(fds: seq<int>)
  {
    forall i, j :: 0 <= i < j < |fds| ==> fds[i] != fds[j]
  }

  /**
   The descriptors of every connection except `origin`, in list order: whom
   a chunk goes to. `RecipientsInListOrder` states the order.
   */
  function Recipients(conns: seq<Conn>, origin: int): (fds: seq<int>)
    ensures forall fd :: fd in fds <==> HasFd(conns, fd) && fd != origin
    ensures UniqueFds(conns) ==> Distinct(fds)
  {
    if |conns| == 0 then []
    else
      var rest := Recipients(conns[1..], origin);
      assert forall j :: 1 <= j < |conns| ==> conns[j] == conns[1..][j - 1];
      assert forall fd :: HasFd(conns[1..], fd) ==> HasFd(conns, fd) by {
        forall fd | HasFd(conns[1..], fd)
          ensures HasFd(conns, fd)
        {
          var k :| 0 <= k < |conns[1..]| && conns[1..][k].fd == fd;
          assert conns[k + 1].fd == fd;
        }
      }
      assert forall fd :: HasFd(conns, fd) && fd != conns[0].fd ==> HasFd(conns[1..], fd) by {
        forall fd | HasFd(conns, fd) && fd != conns[0].fd
          ensures HasFd(conns[1..], fd)
        {
          var k :| 0 <= k < |conns| && conns[k].fd == fd;
          assert conns[1..][k - 1].fd == fd;
        }
      }
      assert UniqueFds(conns) ==> UniqueFds(conns[1..]) && !HasFd(conns[1..], conns[0].fd);
      if conns[0].fd == origin then rest else [conns[0].fd] + rest
  }

  /** One delivery to `fd` per message of `ms`, in order. */
  function Tag(fd: int, ms: seq<Msg>): (ds: seq<Delivery>)
    ensures |ds| == |ms|
    ensures forall i :: 0 <= i < |ms| ==> ds[i] == Delivery(fd, ms[i])
  {
    seq(|ms|, i requires 0 <= i < |ms| => Delivery(fd, ms[i]))
  }

  /**
   `write_to_client` for each descriptor of `fds` in turn, collecting what is
   sent: the writes `main` issues while walking the list after a receive.
   */
  function Flush(fds: seq<int>, p: Pool): (r: (Pool, seq<Delivery>))
    ensures FdList(r.0.conns) == FdList(p.conns)
    ensures r.0.nrConns == p.nrConns && r.0.maxfd == p.maxfd
    ensures forall i :: 0 <= i < |r.1| ==> r.1[i].fd in fds
  {
    if |fds| == 0 then (p, [])
    else
      var w := WriteToClient(fds[0], p);
      var rest := Flush(fds[1..], w.pool);
      (rest.0, Tag(fds[0], w.written) + rest.1)
  }

  /** The deliveries of one chunk `m` to each of `fds`, in that order. */
  function Fanout(fds: seq<int>, m: Msg): (ds: seq<Delivery>)
    ensures |ds| == |fds|
    ensures forall i :: 0 <= i < |fds| ==> ds[i] == Delivery(fds[i], m)
  {
    seq(|fds|, i requires 0 <= i < |fds| => Delivery(fds[i], m))
  }

  /**
   A client is ready and `recv` returned `n` into `buf`. If `n <= 0` the
   client is removed, the counter drops by one, and when no connection is
   left the stop flag rises and `maxfd` falls back to the listening socket.
   Otherwise the `n` received bytes are queued for every other connection
   and each of them is written out, in list order.
   (`main` calls `add_msg` with the recipient's descriptor, then writes that
   recipient out; the model queues once for everyone but the sender and then
   writes each recipient out. `OnRecvMatchesMain` shows both leave the same
   pool and put the same deliveries on the wire.)
   */
  function OnRecv(s: Server, desc: int, n: int, buf: seq<byte>): (t: Server)
    requires desc != s.listenFd
    requires n <= BUFFER_SIZE && |buf| == BUFFER_SIZE
    ensures t.listenFd == s.listenFd
    ensures s.stop ==> t.stop
    ensures |s.wire| <= |t.wire| && t.wire[..|s.wire|] == s.wire
    ensures forall i :: |s.wire| <= i < |t.wire| ==> t.wire[i].fd != desc
    ensures n > 0 ==> t.stop == s.stop && t.pool.nrConns == s.pool.nrConns
    ensures n > 0 ==> FdList(t.pool.conns) == FdList(s.pool.conns)
    ensures n <= 0 ==> t.wire == s.wire
    ensures n <= 0 ==> t.pool.nrConns == s.pool.nrConns - 1
    ensures n <= 0 ==> (t.stop <==> s.stop || t.pool.nrConns == 0 || t.pool.conns == [])
  {
    if n <= 0 then
      var p := RemoveConn(desc, s.pool).pool;
      var p' := p.(nrConns := p.nrConns - 1);
      if p'.nrConns == 0 || p'.conns == [] then
        s.(pool := p'.(maxfd := s.listenFd), stop := true)
      else
        s.(pool := p')
    else
      var m := Msg(buf[..n]);
      var p := AddMsg(desc, m, s.pool).pool;
      var r := Flush(Recipients(p.conns, desc), p);
      s.(pool := r.0, wire := s.wire + r.1)
  }

  /**
   The relay loop of `main` as written: walking the list, for every
   descriptor other than the sender's it calls `add_msg` with that
   descriptor, then `write_to_client` with it, collecting what is sent.
   */
  function MainRelay(fds: seq<int>, desc: int, m: Msg, p: Pool): (r: (Pool, seq<Delivery>))
    ensures FdList(r.0.conns) == FdList(p.conns)
    ensures r.0.nrConns == p.nrConns && r.0.maxfd == p.maxfd
    ensures forall i :: 0 <= i < |r.1| ==> r.1[i].fd in fds && r.1[i].fd != desc
  {
    if |fds| == 0 then (p, [])
    else if fds[0] == desc then
      var rest := MainRelay(fds[1..], desc, m, p);
      assert forall x :: x in fds[1..] ==> x in fds;
      rest
    else
      var q := AddMsgFor(fds[0], m, p).pool;
      var w := WriteToClient(fds[0], q);
      var rest := MainRelay(fds[1..], desc, m, w.pool);
      assert forall x :: x in fds[1..] ==> x in fds;
      (rest.0, Tag(fds[0], w.written) + rest.1)
  }

  /**
   One ready descriptor. The caller is `select`: the descriptor is watched,
   and the event matches its role (accept on the listener, recv on a client).
   The listener goes to the corrected `OnAccept`; with the source's own
   accept step, `OnAcceptAsWritten`, a failed `accept` breaks the invariant
   (`AcceptFailureRegistersInvalid`).
   */
  function Dispatch(s: Server, desc: int, ev: Event): (t: Server)
    requires Watched(s, desc)
    requires desc == s.listenFd <==> ev.Accepted?
    requires ev.Accepted? ==> ev.newFd < 0 || Fresh(s, ev.newFd)
    requires ev.Received? ==> ev.n <= BUFFER_SIZE && |ev.buf| == BUFFER_SIZE
    ensures t.listenFd == s.listenFd
    ensures s.stop ==> t.stop
    ensures |s.wire| <= |t.wire| && t.wire[..|s.wire|] == s.wire
  {
    match ev
    case Accepted(fd) => OnAccept(s, fd)
    case Received(n, buf) => OnRecv(s, desc, n, buf)
  }

  // ---------------------------------------------------------------------
  // Properties of the steps
  // ---------------------------------------------------------------------

  /** Two lists with the same descriptors and no pending messages are the same list. */
  lemma {:induction false} SameFdsEmptyQueues(a: seq<Conn>, b: seq<Conn>)
    requires FdList(a) == FdList(b) && QueuesEmpty(a) && QueuesEmpty(b)
    ensures a == b
  {
    assert |a| == |FdList(a)|;
    assert forall i :: 0 <= i < |a| ==> a[i].fd == FdList(a)[i] == b[i].fd;
  }

  /** Accepting keeps the invariant: the new descriptor is fresh, valid and covered by `maxfd`. */
  lemma {:induction false} OnAcceptKeepsInv(s: Server, newFd: int)
    requires Inv(s)
    requires newFd < 0 || Fresh(s, newFd)
    ensures Inv(OnAccept(s, newFd))
  {
    if newFd >= 0 {
      var t := OnAccept(s, newFd);
      assert forall i :: 0 <= i < |s.pool.conns| ==> t.pool.conns[i] == s.pool.conns[i];
    }
  }

  /**
   The defect of the as-written accept path: after a failed `accept` (-1)
   the pool holds the invalid descriptor -1, and it is counted.
   */
  lemma {:induction false} AcceptFailureRegistersInvalid(s: Server)
    requires Inv(s)
    ensures HasFd(OnAcceptAsWritten(s, -1).pool.conns, -1)
    ensures OnAcceptAsWritten(s, -1).pool.nrConns == s.pool.nrConns + 1
    ensures !Inv(OnAcceptAsWritten(s, -1))
  {
    assert !HasFd(s.pool.conns, -1);
  }

  /** Exactly the connections of `fds` hold one pending message, `m`; the rest hold none. */
  predicate PendingFor(conns: seq<Conn>, fds: seq<int>, m: Msg)
  {
    forall i :: 0 <= i < |conns| ==> conns[i].queue == (if conns[i].fd in fds then [m] else [])
  }

  /** The rest of a duplicate-free list holds every element but the first. */
  lemma {:induction false} DistinctTail(fds: seq<int>)
    requires |fds| > 0 && Distinct(fds)
    ensures Distinct(fds[1..])
    ensures forall fd :: fd in fds[1..] <==> fd in fds && fd != fds[0]
  {
    assert fds == [fds[0]] + fds[1..];
  }

  /** Writing out the first recipient sends `m` to it and leaves the rest pending. */
  lemma {:induction false} WriteFirstRecipient(fds: seq<int>, p: Pool, m: Msg)
    requires |fds| > 0 && UniqueFds(p.conns) && Distinct(fds)
    requires forall fd :: fd in fds ==> HasFd(p.conns, fd)
    requires PendingFor(p.conns, fds, m)
    ensures WriteToClient(fds[0], p).written == [m]
    ensures UniqueFds(WriteToClient(fds[0], p).pool.conns)
    ensures forall fd :: fd in fds[1..] ==> HasFd(WriteToClient(fds[0], p).pool.conns, fd)
    ensures PendingFor(WriteToClient(fds[0], p).pool.conns, fds[1..], m)
  {
    var w := WriteToClient(fds[0], p);
    var i := IndexOf(p.conns, fds[0]).value;
    DistinctTail(fds);
    SameFdsSameMembers(w.pool.conns, p.conns);
    SameFdsSameIndex(p.conns, w.pool.conns, fds[0]);
    assert w.pool.conns[i].queue == [];
    forall k | 0 <= k < |p.conns|
      ensures w.pool.conns[k].queue == (if w.pool.conns[k].fd in fds[1..] then [m] else [])
    {
      FdAt(p.conns, w.pool.conns, k);
      if k != i {
        assert p.conns[k].fd != fds[0];
      }
    }
  }

  lemma {:induction false} FanoutCons(fds: seq<int>, m: Msg)
    requires |fds| > 0
    ensures Fanout(fds, m) == Tag(fds[0], [m]) + Fanout(fds[1..], m)
  {
    assert Tag(fds[0], [m]) == [Delivery(fds[0], m)];
  }

  /** Writing out a list of recipients, each holding exactly the chunk `m`, sends `m` once to each, in order. */
  lemma {:induction false} FlushSendsEach(fds: seq<int>, p: Pool, m: Msg)
    requires UniqueFds(p.conns) && Distinct(fds)
    requires forall fd :: fd in fds ==> HasFd(p.conns, fd)
    requires PendingFor(p.conns, fds, m)
    ensures Flush(fds, p).1 == Fanout(fds, m)
    ensures QueuesEmpty(Flush(fds, p).0.conns)
    decreases |fds|
  {
    if |fds| == 0 {
      assert QueuesEmpty(p.conns);
    } else {
      var w := WriteToClient(fds[0], p);
      WriteFirstRecipient(fds, p, m);
      DistinctTail(fds);
      FlushSendsEach(fds[1..], w.pool, m);
      var r := Flush(fds[1..], w.pool);
      assert Flush(fds, p) == (r.0, Tag(fds[0], w.written) + r.1);
      FanoutCons(fds, m);
    }
  }

  /**
   A chunk of `n > 0` bytes from a registered client is sent exactly once to
   every other connection, in list order, and never back to its sender; the
   pool is unchanged afterwards, since each recipient's queue is written out.
   */
  lemma {:induction false} RelayReachesEveryOtherClient(s: Server, desc: int, n: int, buf: seq<byte>)
    requires Inv(s) && HasFd(s.pool.conns, desc)
    requires 0 < n <= BUFFER_SIZE && |buf| == BUFFER_SIZE
    ensures OnRecv(s, desc, n, buf).wire
            == s.wire + Fanout(Recipients(s.pool.conns, desc), Msg(buf[..n]))
    ensures OnRecv(s, desc, n, buf).pool == s.pool
    ensures OnRecv(s, desc, n, buf).stop == s.stop
  {
    var m := Msg(buf[..n]);
    var p := AddMsg(desc, m, s.pool).pool;
    var fds := Recipients(s.pool.conns, desc);
    BroadcastLeavesOnePending(s, desc, m);
    RecipientsDependOnFds(p.conns, s.pool.conns, desc);
    FlushSendsEach(fds, p, m);
    var r := Flush(fds, p);
    SameFdsEmptyQueues(r.0.conns, s.pool.conns);
  }

  /** After `add_msg` from a registered client, each other client holds just `m` and the sender nothing. */
  lemma {:induction false} BroadcastLeavesOnePending(s: Server, desc: int, m: Msg)
    requires Inv(s) && HasFd(s.pool.conns, desc)
    ensures UniqueFds(AddMsg(desc, m, s.pool).pool.conns)
    ensures forall fd :: fd in Recipients(s.pool.conns, desc) ==> HasFd(AddMsg(desc, m, s.pool).pool.conns, fd)
    ensures PendingFor(AddMsg(desc, m, s.pool).pool.conns, Recipients(s.pool.conns, desc), m)
    ensures Distinct(Recipients(s.pool.conns, desc))
  {
    var p := AddMsg(desc, m, s.pool).pool;
    SameFdsSameMembers(p.conns, s.pool.conns);
    forall i | 0 <= i < |p.conns|
      ensures p.conns[i].queue == (if p.conns[i].fd in Recipients(s.pool.conns, desc) then [m] else [])
    {
      FdAt(p.conns, s.pool.conns, i);
      assert HasFd(s.pool.conns, s.pool.conns[i].fd);
    }
  }

  /** Past a head connection that does not hold `fd`, the search for `fd` lands one further on. */
  lemma {:induction false} IndexOfPastHead(conns: seq<Conn>, fd: int)
    requires |conns| > 0 && conns[0].fd != fd && HasFd(conns[1..], fd)
    ensures IndexOf(conns, fd) == Some(IndexOf(conns[1..], fd).value + 1)
  {
  }

  /** Every descriptor of `fds` is registered, and they come in the order of their connections in `conns`. */
  predicate InListOrder(conns: seq<Conn>, fds: seq<int>)
  {
    && (forall i :: 0 <= i < |fds| ==> HasFd(conns, fds[i]))
    && (forall i, j :: 0 <= i < j < |fds| ==> IndexOf(conns, fds[i]).value < IndexOf(conns, fds[j]).value)
  }

  /** Descriptors in order behind the head stay in order, one position further on, once the head is put back. */
  lemma {:induction false} ShiftOrder(conns: seq<Conn>, fds: seq<int>)
    requires |conns| > 0 && InListOrder(conns[1..], fds)
    requires forall i :: 0 <= i < |fds| ==> fds[i] != conns[0].fd
    ensures InListOrder(conns, fds)
    ensures forall i :: 0 <= i < |fds| ==> IndexOf(conns, fds[i]).value >= 1
  {
    forall i | 0 <= i < |fds|
      ensures HasFd(conns, fds[i])
      ensures IndexOf(conns, fds[i]) == Some(IndexOf(conns[1..], fds[i]).value + 1)
    {
      var k := IndexOf(conns[1..], fds[i]).value;
      assert conns[k + 1] == conns[1..][k];
      IndexOfPastHead(conns, fds[i]);
    }
  }

  /** The head's descriptor goes in front of descriptors that sit behind it. */
  lemma {:induction false} ConsOrder(conns: seq<Conn>, fds: seq<int>)
    requires |conns| > 0 && InListOrder(conns, fds)
    requires forall i :: 0 <= i < |fds| ==> IndexOf(conns, fds[i]).value >= 1
    ensures InListOrder(conns, [conns[0].fd] + fds)
  {
    var all := [conns[0].fd] + fds;
    assert IndexOf(conns, conns[0].fd) == Some(0);
    assert forall i :: 1 <= i < |all| ==> all[i] == fds[i - 1];
  }

  /**
   With distinct descriptors, the recipients come in the order of their
   connections in the list: head to tail, as `main` walks it.
   */
  lemma {:induction false} RecipientsInListOrder(conns: seq<Conn>, origin: int)
    requires UniqueFds(conns)
    ensures InListOrder(conns, Recipients(conns, origin))
    decreases |conns|
  {
    if |conns| > 0 {
      var tail := conns[1..];
      var rest := Recipients(tail, origin);
      assert forall j :: 1 <= j < |conns| ==> conns[j] == tail[j - 1];
      assert UniqueFds(tail) && !HasFd(tail, conns[0].fd);
      RecipientsInListOrder(tail, origin);
      ShiftOrder(conns, rest);
      if conns[0].fd != origin {
        ConsOrder(conns, rest);
      }
    }
  }

  lemma {:induction false} RecipientsDependOnFds(a: seq<Conn>, b: seq<Conn>, origin: int)
    requires FdList(a) == FdList(b)
    ensures Recipients(a, origin) == Recipients(b, origin)
    decreases |a|
  {
    assert |a| == |FdList(a)| == |b|;
    if |a| > 0 {
      assert a[0].fd == FdList(a)[0] == b[0].fd;
      assert FdList(a[1..]) == FdList(a)[1..];
      assert FdList(b[1..]) == FdList(b)[1..];
      RecipientsDependOnFds(a[1..], b[1..], origin);
    }
  }

  /** Every relayed delivery carries between 1 and `BUFFER_SIZE` bytes: one `recv` worth. */
  lemma {:induction false} RelayedChunkFitsBuffer(s: Server, desc: int, n: int, buf: seq<byte>)
    requires Inv(s) && HasFd(s.pool.conns, desc)
    requires 0 < n <= BUFFER_SIZE && |buf| == BUFFER_SIZE
    ensures forall i :: |s.wire| <= i < |OnRecv(s, desc, n, buf).wire| ==>
              0 < |OnRecv(s, desc, n, buf).wire[i].msg.payload| <= BUFFER_SIZE
  {
    RelayReachesEveryOtherClient(s, desc, n, buf);
  }

  /**
   A `recv` of zero or fewer bytes removes exactly the client `desc`, which
   `select` no longer watches, keeps the other clients in order, counts one
   connection fewer, and stops the server exactly when none is left, with
   `maxfd` then back at the listening socket and otherwise unchanged.
   */
  lemma {:induction false} CloseRemovesClient(s: Server, desc: int, n: int, buf: seq<byte>)
    requires Inv(s) && HasFd(s.pool.conns, desc)
    requires n <= 0 && |buf| == BUFFER_SIZE
    ensures desc != s.listenFd
    ensures OnRecv(s, desc, n, buf).pool.conns == Without(s.pool.conns, desc)
    ensures !Watched(OnRecv(s, desc, n, buf), desc)
    ensures forall fd :: fd != desc ==> (Watched(OnRecv(s, desc, n, buf), fd) <==> Watched(s, fd))
    ensures OnRecv(s, desc, n, buf).pool.nrConns == s.pool.nrConns - 1
    ensures OnRecv(s, desc, n, buf).stop <==> s.stop || s.pool.nrConns == 1
    ensures OnRecv(s, desc, n, buf).pool.maxfd
            == if s.pool.nrConns == 1 then s.listenFd else s.pool.maxfd
    ensures Inv(OnRecv(s, desc, n, buf))
  {
    var t := OnRecv(s, desc, n, buf);
    RemoveConnDeletesExactly(desc, s.pool);
    var p := RemoveConn(desc, s.pool).pool;
    assert forall j :: 0 <= j < |p.conns| ==> p.conns[j] in s.pool.conns by {
      forall j | 0 <= j < |p.conns| ensures p.conns[j] in s.pool.conns {
        assert HasFd(p.conns, p.conns[j].fd);
        var k :| 0 <= k < |s.pool.conns| && s.pool.conns[k].fd == p.conns[j].fd;
        WithoutKeepsElements(s.pool.conns, desc, j);
      }
    }
  }

  lemma {:induction false} WithoutKeepsElements(conns: seq<Conn>, fd: int, j: nat)
    requires j < |Without(conns, fd)|
    ensures Without(conns, fd)[j] in conns
    decreases |conns|
  {
    if |conns| > 0 {
      if conns[0].fd == fd {
        WithoutKeepsElements(conns[1..], fd, j);
      } else if j > 0 {
        WithoutKeepsElements(conns[1..], fd, j - 1);
      }
    }
  }

  /** Every ready descriptor `select` can report keeps the invariant. */
  lemma {:induction false} DispatchKeepsInv(s: Server, desc: int, ev: Event)
    requires Inv(s) && Watched(s, desc)
    requires desc == s.listenFd <==> ev.Accepted?
    requires ev.Accepted? ==> ev.newFd < 0 || Fresh(s, ev.newFd)
    requires ev.Received? ==> ev.n <= BUFFER_SIZE && |ev.buf| == BUFFER_SIZE
    ensures Inv(Dispatch(s, desc, ev))
  {
    match ev
    case Accepted(fd) => OnAcceptKeepsInv(s, fd);
    case Received(n, buf) =>
      if n <= 0 {
        CloseRemovesClient(s, desc, n, buf);
      } else {
        RelayReachesEveryOtherClient(s, desc, n, buf);
      }
  }

  /** With nothing pending, queueing `m` for a registered `fd` and writing `fd` out sends just `m` and restores the pool. */
  lemma {:induction false} QueueThenWrite(fd: int, m: Msg, p: Pool)
    requires QueuesEmpty(p.conns) && HasFd(p.conns, fd)
    ensures WriteToClient(fd, AddMsgFor(fd, m, p).pool) == WriteResult(Success, p, [m])
  {
    var i := IndexOf(p.conns, fd).value;
    var q := AddMsgFor(fd, m, p).pool;
    SameFdsSameIndex(p.conns, q.conns, fd);
    FdAt(p.conns, q.conns, i);
    assert q.conns[i].queue == [m];
    assert q.conns == p.conns[i := Conn(fd, [m])];
    assert q.conns[i := q.conns[i].(queue := [])] == p.conns;
  }

  /**
   Walking the connections `cs` of a pool with nothing pending, `main`'s
   loop sends `m` once to each descriptor other than `desc`, in list order,
   and leaves the pool as it found it.
   */
  lemma {:induction false} MainRelaySends(cs: seq<Conn>, desc: int, m: Msg, p: Pool)
    requires QueuesEmpty(p.conns)
    requires forall i :: 0 <= i < |cs| ==> HasFd(p.conns, cs[i].fd)
    ensures MainRelay(FdList(cs), desc, m, p) == (p, Fanout(Recipients(cs, desc), m))
    decreases |cs|
  {
    if |cs| > 0 {
      assert FdList(cs)[1..] == FdList(cs[1..]);
      assert forall i :: 0 <= i < |cs[1..]| ==> cs[1..][i] == cs[i + 1];
      MainRelaySends(cs[1..], desc, m, p);
      if cs[0].fd != desc {
        QueueThenWrite(cs[0].fd, m, p);
        FanoutCons(Recipients(cs, desc), m);
      }
    }
  }

  /**
   `OnRecv` and `main`'s loop agree on a chunk from a registered client:
   queueing for everyone but the sender and then writing each recipient out
   leaves the same pool and the same wire as calling `add_msg` and
   `write_to_client` with each recipient's descriptor in turn.
   */
  lemma {:induction false} OnRecvMatchesMain(s: Server, desc: int, n: int, buf: seq<byte>)
    requires Inv(s) && HasFd(s.pool.conns, desc)
    requires 0 < n <= BUFFER_SIZE && |buf| == BUFFER_SIZE
    ensures OnRecv(s, desc, n, buf).pool == MainRelay(FdList(s.pool.conns), desc, Msg(buf[..n]), s.pool).0
    ensures OnRecv(s, desc, n, buf).wire == s.wire + MainRelay(FdList(s.pool.conns), desc, Msg(buf[..n]), s.pool).1
  {
    RelayReachesEveryOtherClient(s, desc, n, buf);
    MainRelaySends(s.pool.conns, desc, Msg(buf[..n]), s.pool);
  }
}
