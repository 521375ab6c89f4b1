/** Client mode: `socket_client` walks the addresses the resolver returned
    and keeps the first one that accepts a connection; `client_mode` relays
    over that connection or gives up.

    The resolver's answer is the `HostEntry` parameter, the socket that
    `socket()` created is the descriptor `sock`, and the outcome of each
    connect attempt is the script `connectOk`, one entry per attempt in
    order (past its end, connect fails). */
module Client {
  import opened Relay

  /** The IPv4 address family. */
  const AF_INET: int := 2

  /** An IPv4 address as the resolver lists it. */
  newtype InAddr = x: int | 0 <= x < 0x1_0000_0000

  /** What `gethostbyname` returns: the address family and the addresses. */
  datatype HostEntry = HostEntry(addrtype: int, addrs: seq<InAddr>)

  /** Connect attempt number `k` succeeds. */
  predicate Accepts(connectOk: seq<bool>, k: int)
  {
    0 <= k < |connectOk| && connectOk[k]
  }

  /** `socket_client`: -2 for a host that is not IPv4, before any attempt;
      otherwise the socket once an address accepts, having tried the
      addresses in list order up to and including that one and none after
      it; -1 once every address, possibly none, has been tried and failed. */
  method SocketClient(host: HostEntry, sock: nat, connectOk: seq<bool>) returns (r: int, tried: seq<InAddr>)
    ensures r == -2 <==> host.addrtype != AF_INET
    ensures r == -2 ==> tried == []
    ensures r == -1 <==> host.addrtype == AF_INET && forall k :: 0 <= k < |host.addrs| ==> !Accepts(connectOk, k)
    ensures r == -1 ==> tried == host.addrs
    ensures r >= 0 ==> r == sock && 0 < |tried| <= |host.addrs| && tried == host.addrs[..|tried|] && Accepts(connectOk, |tried| - 1)
    ensures forall k :: 0 <= k < |tried| - 1 ==> !Accepts(connectOk, k)
    ensures r == -2 || r == -1 || r == sock
  {
    if host.addrtype != AF_INET {
      return -2, [];
    }
    tried := [];
    var i := 0;
    while i < |host.addrs|
      invariant 0 <= i <= |host.addrs|
      invariant tried == host.addrs[..i]
      invariant forall k :: 0 <= k < i ==> !Accepts(connectOk, k)
    {
      tried := tried + [host.addrs[i]];
      if Accepts(connectOk, i) {
        return sock, tried;
      }
      i := i + 1;
    }
    r := -1;
  }

  /** `client_mode`: 0 once connected and relayed, -1 when no connection was
      made. The relay's own outcome does not change the result. */
  method ClientMode(host: HostEntry, sock: nat, connectOk: seq<bool>, io: Streams) returns (code: int, relayed: bool)
    requires ReadsWithinBuffer(io)
    ensures code == 0 <==> host.addrtype == AF_INET && exists k :: 0 <= k < |host.addrs| && Accepts(connectOk, k)
    ensures code == 0 || code == -1
    ensures relayed <==> code == 0
  {
    var conn, tried := SocketClient(host, sock, connectOk);
    if conn < 0 {
      return -1, false;
    }
    var up, down, peerGot, stdoutGot := SendRecv(io);
    return 0, true;
  }
}
