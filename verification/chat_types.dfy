/**
 Types and constants of the chat relay's connection pool (chatServer.h).

 The C header keeps connections and messages in doubly-linked lists; here a
 list is a `seq` in head-to-tail order, and `prev`/`next` pointers disappear.
 */
module ChatTypes {

  /** Return codes of every pool operation. */
  const SUCCESS: int := 0
  const FAILURE: int := -1

  /** Accepted port numbers, inclusive. */
  const MIN_PORT_NUM: int := 1
  const MAX_PORT_NUM: int := 65536

  /** The program name plus one positional argument. */
  const CMDLINE_ARG_NUM: nat := 2

  /** Capacity of the receive buffer: one recv never yields more bytes. */
  const BUFFER_SIZE: nat := 4096

  newtype byte = x: int | 0 <= x < 256

  datatype Option<T> = None | Some(value: T)

  /** The two outcomes a pool operation reports. */
  datatype Status = Success | Failure {
    /** The integer the C function returns for this outcome. */
    function Code(): (c: int)
      ensures c == SUCCESS || c == FAILURE
      ensures c == SUCCESS <==> Success?
    {
      if Success? then SUCCESS else FAILURE
    }
  }

  /** One queued message: the bytes of one received chunk (its size is their count). */
  datatype Msg = Msg(payload: seq<byte>)

  /** A client connection: its descriptor and the FIFO of messages still to write to it. */
  datatype Conn = Conn(fd: int, queue: seq<Msg>)

  /**
   The pool of client connections (the listening socket is never in it).
   `conns` runs from `conn_head` to `conn_tail`; `nrConns` is the counter that
   `main` maintains; `maxfd` bounds the descriptors handed to `select`.
   */
  datatype Pool = Pool(conns: seq<Conn>, nrConns: int, maxfd: int)

  /** A pool operation's return code together with the pool it leaves behind. */
  datatype PoolResult = PoolResult(status: Status, pool: Pool)

  /** `fd` belongs to some connection of `conns`. */
  predicate HasFd(conns: seq<Conn>, fd: int)
  {
    exists i :: 0 <= i < |conns| && conns[i].fd == fd
  }

  /** No descriptor occurs twice in `conns`. */
  predicate UniqueFds(conns: seq<Conn>)
  {
    forall i, j :: 0 <= i < j < |conns| ==> conns[i].fd != conns[j].fd
  }

  /** Every queue in `conns` is empty. */
  predicate QueuesEmpty(conns: seq<Conn>)
  {
    forall i :: 0 <= i < |conns| ==> conns[i].queue == []
  }

  /** The descriptors of `conns`, in list order. */
  function FdList(conns: seq<Conn>): (fds: seq<int>)
    ensures |fds| == |conns|
    ensures forall i :: 0 <= i < |conns| ==> fds[i] == conns[i].fd
  {
    seq(|conns|, i requires 0 <= i < |conns| => conns[i].fd)
  }

  /**
   The position of the first connection whose descriptor is `fd`: the search
   `remove_conn` performs from the head of the list.
   */
  function IndexOf(conns: seq<Conn>, fd: int): (r: Option<nat>)
    ensures r.None? <==> !HasFd(conns, fd)
    ensures r.Some? ==> r.value < |conns| && conns[r.value].fd == fd
    ensures r.Some? ==> forall j :: 0 <= j < r.value ==> conns[j].fd != fd
  {
    if |conns| == 0 then None
    else if conns[0].fd == fd then Some(0)
    else
      match IndexOf(conns[1..], fd)
      case None =>
        assert forall j :: 1 <= j < |conns| ==> conns[j] == conns[1..][j - 1];
        None
      case Some(k) =>
        assert conns[k + 1] == conns[1..][k];
        assert forall j :: 1 <= j < k + 1 ==> conns[j] == conns[1..][j - 1];
        Some(k + 1)
  }
}
