/**
 The connection-pool API of chatServer.c: `init_pool`, `add_conn`,
 `remove_conn`, `add_msg` and `write_to_client`, each modelled after the
 contract its doc comment in chatServer.h promises. Where the C body does
 something else, the comment on the member says what and where.
 */
module ConnPool {
  import opened ChatTypes

  /** What `write_to_client` reports: its return code, the pool, and the messages it sent, in order. */
  datatype WriteResult = WriteResult(status: Status, pool: Pool, written: seq<Msg>)

  /** `init_pool`: an empty list (head = tail = NULL), no connections, `maxfd` 0. */
  function InitPool(): (r: PoolResult)
    ensures r.status == Success && r.status.Code() == SUCCESS
    ensures r.pool.conns == [] && r.pool.nrConns == 0 && r.pool.maxfd == 0
    ensures forall fd :: !HasFd(r.pool.conns, fd)
  {
    PoolResult(Success, Pool([], 0, 0))
  }

  /**
   `add_conn`: append a connection for `sd`, with an empty queue, at the tail.
   The descriptor comes fresh from `accept`, so it is not yet in the pool.
   The counter and `maxfd` are left to the caller, as in the source.
   (The C body never initialises the new node's `next` or `write_msg_head`;
   the model gives the connection the empty queue its documentation implies.)
   */
  function AddConn(sd: int, p: Pool): (r: PoolResult)
    requires !HasFd(p.conns, sd)
    ensures r.status == Success && r.status.Code() == SUCCESS
    ensures |r.pool.conns| == |p.conns| + 1
    ensures r.pool.conns[..|p.conns|] == p.conns
    ensures r.pool.conns[|p.conns|] == Conn(sd, [])
    ensures p.conns == [] ==> r.pool.conns == [Conn(sd, [])]
    ensures r.pool.nrConns == p.nrConns && r.pool.maxfd == p.maxfd
    ensures forall fd :: HasFd(r.pool.conns, fd) <==> HasFd(p.conns, fd) || fd == sd
    ensures UniqueFds(p.conns) ==> UniqueFds(r.pool.conns)
  {
    var conns := p.conns + [Conn(sd, [])];
    assert forall i :: 0 <= i < |p.conns| ==> conns[i] == p.conns[i];
    PoolResult(Success, p.(conns := conns))
  }

  /**
   `remove_conn`: unlink the first connection whose descriptor is `sd`,
   discarding its queue. An empty pool or an absent descriptor is a FAILURE
   that changes nothing. `maxfd` is NOT updated (the step-4 comment of the
   C function promises it, the body never does it), and the counter is left
   to the caller.
   */
  function RemoveConn(sd: int, p: Pool): (r: PoolResult)
    ensures r.status == Failure <==> !HasFd(p.conns, sd)
    ensures r.status.Code() == FAILURE <==> !HasFd(p.conns, sd)
    ensures r.status == Failure ==> r.pool == p
    ensures p.conns == [] ==> r.status == Failure
    ensures r.pool.nrConns == p.nrConns && r.pool.maxfd == p.maxfd
    ensures r.status == Success ==> |r.pool.conns| == |p.conns| - 1
    ensures r.status == Success && |p.conns| == 1 ==> r.pool.conns == []
    ensures forall fd :: HasFd(r.pool.conns, fd) ==> HasFd(p.conns, fd)
    ensures UniqueFds(p.conns) ==> UniqueFds(r.pool.conns) && !HasFd(r.pool.conns, sd)
    ensures UniqueFds(p.conns) ==>
              forall fd :: fd != sd ==> (HasFd(r.pool.conns, fd) <==> HasFd(p.conns, fd))
  {
    if |p.conns| == 0 then PoolResult(Failure, p)
    else
      match IndexOf(p.conns, sd)
      case None => PoolResult(Failure, p)
      case Some(i) =>
        var conns := p.conns[..i] + p.conns[i + 1..];
        DropAt(p.conns, i);
        PoolResult(Success, p.(conns := conns))
  }

  /** Dropping position `i` keeps every other descriptor and, when they are distinct, loses the one at `i`. */
  lemma {:induction false} DropAt(conns: seq<Conn>, i: int)
    requires 0 <= i < |conns|
    ensures forall fd :: HasFd(conns[..i] + conns[i + 1..], fd) ==> HasFd(conns, fd)
    ensures forall fd :: HasFd(conns, fd) && fd != conns[i].fd ==> HasFd(conns[..i] + conns[i + 1..], fd)
    ensures UniqueFds(conns) ==>
              UniqueFds(conns[..i] + conns[i + 1..]) && !HasFd(conns[..i] + conns[i + 1..], conns[i].fd)
  {
    var rest := conns[..i] + conns[i + 1..];
    assert forall j :: 0 <= j < i ==> rest[j] == conns[j];
    assert forall j :: i <= j < |rest| ==> rest[j] == conns[j + 1];
    forall fd | HasFd(conns, fd) && fd != conns[i].fd
      ensures HasFd(rest, fd)
    {
      var k :| 0 <= k < |conns| && conns[k].fd == fd;
      if k < i { assert rest[k].fd == fd; } else { assert rest[k - 1].fd == fd; }
    }
  }

  /**
   Append `m` to the queue of every connection in `conns` whose descriptor is
   not `origin`, walking the list from the head as the loop of `add_msg` does.
   The loop itself appends to every connection, the sender's included; the
   origin is skipped because the doc comment of `add_msg` (chatServer.h:128)
   says so.
   */
  function Enqueue(conns: seq<Conn>, origin: int, m: Msg): (r: seq<Conn>)
    ensures |r| == |conns|
    ensures forall i :: 0 <= i < |conns| ==> r[i].fd == conns[i].fd
    ensures forall i :: 0 <= i < |conns| && conns[i].fd == origin ==> r[i].queue == conns[i].queue
    ensures forall i :: 0 <= i < |conns| && conns[i].fd != origin ==> r[i].queue == conns[i].queue + [m]
  {
    if |conns| == 0 then []
    else
      var c := conns[0];
      var head := if c.fd == origin then c else c.(queue := c.queue + [m]);
      var rest := Enqueue(conns[1..], origin, m);
      assert forall i :: 1 <= i < |conns| ==> conns[i] == conns[1..][i - 1];
      [head] + rest
  }

  /**
   `add_msg`: put `m` at the tail of the queue of every connection except the
   origin `sd`, leaving the origin's queue and the list itself unchanged.
   (The C body ignores `sd`, appends to every connection including the
   sender, and links one shared node into every list; the model follows the
   doc comment and gives each recipient its own queue entry.)
   */
  function AddMsg(sd: int, m: Msg, p: Pool): (r: PoolResult)
    ensures r.status == Success && r.status.Code() == SUCCESS
    ensures r.pool.nrConns == p.nrConns && r.pool.maxfd == p.maxfd
    ensures FdList(r.pool.conns) == FdList(p.conns)
    ensures forall i :: 0 <= i < |p.conns| && p.conns[i].fd == sd ==>
              r.pool.conns[i].queue == p.conns[i].queue
    ensures forall i :: 0 <= i < |p.conns| && p.conns[i].fd != sd ==>
              r.pool.conns[i].queue == p.conns[i].queue + [m]
  {
    PoolResult(Success, p.(conns := Enqueue(p.conns, sd, m)))
  }

  /** The pending messages of the connection `remove_conn` would find for `fd`; none if it is absent. */
  function QueueOf(conns: seq<Conn>, fd: int): seq<Msg>
  {
    match IndexOf(conns, fd)
    case None => []
    case Some(i) => conns[i].queue
  }

  /**
   `write_to_client`: send every queued message of connection `sd`, in FIFO
   order, and empty its queue; every other connection is untouched. An
   unregistered `sd` is a FAILURE that sends nothing.
   (The C body walks `conn_head`'s queue instead of `sd`'s, ignores what
   `send` returns and never unlinks a sent entry; the model follows the doc
   comment. With an empty pool the C body dereferences NULL.)
   */
  function WriteToClient(sd: int, p: Pool): (r: WriteResult)
    ensures r.status == Failure <==> !HasFd(p.conns, sd)
    ensures r.status.Code() == (if HasFd(p.conns, sd) then SUCCESS else FAILURE)
    ensures r.status == Failure ==> r.pool == p && r.written == []
    ensures r.written == QueueOf(p.conns, sd)
    ensures r.pool.nrConns == p.nrConns && r.pool.maxfd == p.maxfd
    ensures FdList(r.pool.conns) == FdList(p.conns)
    ensures r.status == Success ==> QueueOf(r.pool.conns, sd) == []
    ensures forall i :: 0 <= i < |p.conns| && p.conns[i].fd != sd ==> r.pool.conns[i] == p.conns[i]
    ensures UniqueFds(p.conns) ==>
              (QueuesEmpty(r.pool.conns) <==>
               forall i :: 0 <= i < |p.conns| && p.conns[i].fd != sd ==> p.conns[i].queue == [])
  {
    match IndexOf(p.conns, sd)
    case None => WriteResult(Failure, p, [])
    case Some(i) =>
      var conns := p.conns[i := p.conns[i].(queue := [])];
      assert FdList(conns) == FdList(p.conns);
      SameFdsSameIndex(p.conns, conns, sd);
      WriteResult(Success, p.(conns := conns), p.conns[i].queue)
  }

  /**
   `add_msg` as the parameter line of its doc comment (chatServer.h:129) and
   `main`'s call read it: `sd` is the connection whose queue receives `m`.
   Only that connection's queue grows; an unregistered `sd` changes nothing.
   */
  function AddMsgFor(sd: int, m: Msg, p: Pool): (r: PoolResult)
    ensures r.status == Success && r.status.Code() == SUCCESS
    ensures r.pool.nrConns == p.nrConns && r.pool.maxfd == p.maxfd
    ensures FdList(r.pool.conns) == FdList(p.conns)
    ensures !HasFd(p.conns, sd) ==> r.pool == p
    ensures QueueOf(r.pool.conns, sd) == QueueOf(p.conns, sd) + (if HasFd(p.conns, sd) then [m] else [])
    ensures forall i :: 0 <= i < |p.conns| && IndexOf(p.conns, sd) != Some(i) ==> r.pool.conns[i] == p.conns[i]
  {
    match IndexOf(p.conns, sd)
    case None => PoolResult(Success, p)
    case Some(i) =>
      var conns := p.conns[i := p.conns[i].(queue := p.conns[i].queue + [m])];
      assert FdList(conns) == FdList(p.conns);
      SameFdsSameIndex(p.conns, conns, sd);
      PoolResult(Success, p.(conns := conns))
  }

  /** Reference definition: `conns` with every connection of descriptor `fd` filtered out. */
  function Without(conns: seq<Conn>, fd: int): seq<Conn>
  {
    if |conns| == 0 then []
    else if conns[0].fd == fd then Without(conns[1..], fd)
    else [conns[0]] + Without(conns[1..], fd)
  }

  lemma {:induction false} WithoutAbsent(conns: seq<Conn>, fd: int)
    requires !HasFd(conns, fd)
    ensures Without(conns, fd) == conns
  {
    if |conns| > 0 {
      assert forall j :: 0 <= j < |conns[1..]| ==> conns[1..][j] == conns[j + 1];
      WithoutAbsent(conns[1..], fd);
      assert conns == [conns[0]] + conns[1..];
    }
  }

  lemma {:induction false} WithoutAppend(a: seq<Conn>, b: seq<Conn>, fd: int)
    ensures Without(a + b, fd) == Without(a, fd) + Without(b, fd)
  {
    if |a| > 0 {
      assert (a + b)[1..] == a[1..] + b;
      WithoutAppend(a[1..], b, fd);
    } else {
      assert a + b == b;
    }
  }

  /**
   With unique descriptors, a successful `remove_conn` deletes exactly the
   connection of `sd` and keeps every other one, in its order.
   */
  lemma {:induction false} RemoveConnDeletesExactly(sd: int, p: Pool)
    requires UniqueFds(p.conns) && HasFd(p.conns, sd)
    ensures RemoveConn(sd, p).status == Success
    ensures RemoveConn(sd, p).pool.conns == Without(p.conns, sd)
  {
    var i := IndexOf(p.conns, sd).value;
    var c := p.conns[i];
    var pre, post := p.conns[..i], p.conns[i + 1..];
    assert p.conns == pre + ([c] + post);
    SliceLacksFd(p.conns, i, 0, i);
    SliceLacksFd(p.conns, i, i + 1, |p.conns|);
    WithoutAppend(pre, [c] + post, sd);
    WithoutAppend([c], post, sd);
    WithoutAbsent(pre, sd);
    WithoutAbsent(post, sd);
    assert Without([c], sd) == [] by {
      assert [c][1..] == [];
    }
    assert RemoveConn(sd, p).pool.conns == pre + post;
  }

  /** With distinct descriptors, a slice that skips position `i` lacks the descriptor at `i`. */
  lemma {:induction false} SliceLacksFd(conns: seq<Conn>, i: int, lo: int, hi: int)
    requires UniqueFds(conns) && 0 <= i < |conns| && 0 <= lo <= hi <= |conns|
    requires i < lo || hi <= i
    ensures !HasFd(conns[lo..hi], conns[i].fd)
  {
    forall j | 0 <= j < hi - lo
      ensures conns[lo..hi][j].fd != conns[i].fd
    {
      assert conns[lo..hi][j] == conns[lo + j];
    }
  }

  /** `remove_conn` undoes `add_conn`: adding a fresh descriptor and removing it restores the pool. */
  lemma {:induction false} RemoveAfterAdd(sd: int, p: Pool)
    requires !HasFd(p.conns, sd)
    ensures RemoveConn(sd, AddConn(sd, p).pool) == PoolResult(Success, p)
  {
    var q := AddConn(sd, p).pool;
    assert IndexOf(q.conns, sd) == Some(|p.conns|) by {
      assert forall j :: 0 <= j < |p.conns| ==> q.conns[j] == p.conns[j];
    }
    assert q.conns[..|p.conns|] + q.conns[|p.conns| + 1..] == p.conns;
  }

  /**
   Per-connection FIFO: after two broadcasts from `origin`, first `a` then
   `b`, writing out another connection `fd` sends what it had pending, then
   `a`, then `b`.
   */
  lemma {:induction false} QueueIsFifo(origin: int, a: Msg, b: Msg, p: Pool, fd: int)
    requires fd != origin && HasFd(p.conns, fd)
    ensures WriteToClient(fd, AddMsg(origin, b, AddMsg(origin, a, p).pool).pool).written
            == QueueOf(p.conns, fd) + [a, b]
  {
    var p1 := AddMsg(origin, a, p).pool;
    var p2 := AddMsg(origin, b, p1).pool;
    var i := IndexOf(p.conns, fd).value;
    FdAt(p.conns, p1.conns, i);
    assert p1.conns[i].queue == p.conns[i].queue + [a];
    assert p2.conns[i].queue == p1.conns[i].queue + [b];
    SameFdsSameIndex(p.conns, p2.conns, fd);
    assert QueueOf(p2.conns, fd) == p2.conns[i].queue;
  }

  /** Lists with the same descriptors agree on the descriptor at each position. */
  lemma {:induction false} FdAt(a: seq<Conn>, b: seq<Conn>, i: int)
    requires FdList(a) == FdList(b) && 0 <= i < |a|
    ensures |b| == |a| && a[i].fd == b[i].fd
  {
    assert a[i].fd == FdList(a)[i];
  }

  /** Lists with the same descriptors hold the same descriptors, and are both duplicate-free or neither. */
  lemma {:induction false} SameFdsSameMembers(a: seq<Conn>, b: seq<Conn>)
    requires FdList(a) == FdList(b)
    ensures forall fd :: HasFd(a, fd) <==> HasFd(b, fd)
    ensures UniqueFds(a) <==> UniqueFds(b)
  {
    assert |a| == |FdList(a)| == |b|;
    assert forall i :: 0 <= i < |a| ==> a[i].fd == FdList(a)[i] == b[i].fd;
  }

  /** The connection `IndexOf` finds depends only on the descriptors in the list. */
  lemma {:induction false} SameFdsSameIndex(a: seq<Conn>, b: seq<Conn>, fd: int)
    requires FdList(a) == FdList(b)
    ensures IndexOf(a, fd) == IndexOf(b, fd)
  {
    assert forall i :: 0 <= i < |a| ==> a[i].fd == FdList(a)[i] == FdList(b)[i] == b[i].fd;
    if HasFd(a, fd) {
      assert HasFd(b, fd);
      var i, j := IndexOf(a, fd).value, IndexOf(b, fd).value;
      assert !(i < j) && !(j < i);
    } else {
      assert !HasFd(b, fd);
    }
  }
}
