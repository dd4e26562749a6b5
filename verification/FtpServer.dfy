/**
 * Which clients the FTP server admits (Plugins/FtpServer/BackendFtpServer.cpp) and the table of clients
 * that the window keeps from its signals (Src/FrmViewServer.cpp).
 */
module FtpServer {

  /** Address and port of a client, the two columns the table is searched by. */
  datatype Peer = Peer(ip: string, port: nat)

  datatype Signal = Connected(peer: Peer) | Disconnected(peer: Peer)

  /** A connection, QSslSocket. */
  class Socket {
    const peer: Peer
    constructor (peer: Peer)
      ensures this.peer == peer
    {
      this.peer := peer;
    }
  }

  /** One entry of a filter: the addresses of its subnet. */
  type Subnet = string -> bool

  predicate InSome(filter: seq<Subnet>, ip: string)
  {
    exists i :: 0 <= i < |filter| && filter[i](ip)
  }

  // ----- the table of the window -----

  function FirstRow(rows: seq<Peer>, p: Peer): (i: nat)
    ensures i <= |rows|
    ensures i < |rows| ==> rows[i] == p
    ensures i == |rows| <==> p !in rows
    ensures forall k :: 0 <= k < i ==> rows[k] != p
  {
    if rows == [] || rows[0] == p then 0 else 1 + FirstRow(rows[1..], p)
  }

  /** What a signal does to the rows. */
  function Shown(rows: seq<Peer>, s: Signal): seq<Peer>
  {
    match s
    case Connected(p) => rows + [p]
    case Disconnected(p) =>
      var i := FirstRow(rows, p);
      if i == |rows| then rows else rows[..i] + rows[i + 1..]
  }

  /** The rows once all waiting signals have arrived, in order. */
  function ShownAll(rows: seq<Peer>, signals: seq<Signal>): seq<Peer>
    decreases |signals|
  {
    if signals == [] then rows else ShownAll(Shown(rows, signals[0]), signals[1..])
  }

  lemma {:induction false} ShownAllSnoc(rows: seq<Peer>, signals: seq<Signal>, s: Signal)
    ensures ShownAll(rows, signals + [s]) == Shown(ShownAll(rows, signals), s)
    decreases |signals|
  {
    if signals == [] {
      assert (signals + [s])[1..] == [];
    } else {
      assert (signals + [s])[1..] == signals[1..] + [s];
      ShownAllSnoc(Shown(rows, signals[0]), signals[1..], s);
    }
  }

  lemma {:induction false} OneLess(a: seq<Peer>, p: Peer, b: seq<Peer>)
    ensures multiset(a + b) == multiset(a + ([p] + b)) - multiset{p}
  {
  }

  lemma {:induction false} SplitAtRow(rows: seq<Peer>, p: Peer) returns (a: seq<Peer>, b: seq<Peer>)
    requires p in rows
    ensures rows == a + ([p] + b) && Shown(rows, Disconnected(p)) == a + b
  {
    var i := FirstRow(rows, p);
    a, b := rows[..i], rows[i + 1..];
  }

  /** A row goes away for the first row that has the address and port. */
  lemma {:induction false} DisconnectedCount(rows: seq<Peer>, p: Peer)
    ensures multiset(Shown(rows, Disconnected(p))) == multiset(rows) - multiset{p}
  {
    if p in rows {
      var a, b := SplitAtRow(rows, p);
      OneLess(a, p, b);
    } else {
      assert multiset(rows)[p] == 0;
    }
  }

  class FrmViewServer {
    var rows: seq<Peer>

    constructor ()
      ensures rows == []
    {
      rows := [];
    }

    method SlotConnected(p: Peer)
      modifies this
      ensures rows == Shown(old(rows), Connected(p))
    {
      rows := rows + [p];
    }

    /** Lines 91-105. */
    method SlotDisconnected(p: Peer)
      modifies this
      ensures rows == Shown(old(rows), Disconnected(p))
    {
      var row := 0;
      while row < |rows|
        invariant 0 <= row <= |rows| && rows == old(rows)
        invariant row <= FirstRow(rows, p)
      {
        if rows[row] == p {
          assert row == FirstRow(rows, p);
          rows := rows[..row] + rows[row + 1..];
          break;
        }
        row := row + 1;
      }
    }
  }

  // ----- the server -----

  function Peers(sockets: seq<Socket>): seq<Peer>
  {
    if sockets == [] then [] else [sockets[0].peer] + Peers(sockets[1..])
  }

  /** QList::removeAll. */
  function RemoveAll(sockets: seq<Socket>, s: Socket): (r: seq<Socket>)
    ensures s !in r
    ensures s !in sockets ==> r == sockets
    ensures forall x :: x in r ==> x in sockets
  {
    if sockets == [] then []
    else (if sockets[0] == s then [] else [sockets[0]]) + RemoveAll(sockets[1..], s)
  }

  ghost predicate Distinct(sockets: seq<Socket>)
  {
    forall i, j :: 0 <= i < j < |sockets| ==> sockets[i] != sockets[j]
  }

  lemma {:induction false} PeersConcat(xs: seq<Socket>, ys: seq<Socket>)
    ensures Peers(xs + ys) == Peers(xs) + Peers(ys)
  {
    if xs == [] {
      assert xs + ys == ys;
    } else {
      assert (xs + ys)[1..] == xs[1..] + ys;
      PeersConcat(xs[1..], ys);
    }
  }

  lemma {:induction false} PeersSnoc(sockets: seq<Socket>, s: Socket)
    ensures Peers(sockets + [s]) == Peers(sockets) + [s.peer]
  {
    PeersConcat(sockets, [s]);
    assert [s][1..] == [];
  }

  /** Removing all occurrences of a socket that is listed once takes out that one place. */
  lemma {:induction false} RemoveAllAt(sockets: seq<Socket>, i: nat)
    requires Distinct(sockets) && i < |sockets|
    ensures RemoveAll(sockets, sockets[i]) == sockets[..i] + sockets[i + 1..]
  {
    var s, rest := sockets[i], sockets[1..];
    if i == 0 {
      assert s !in rest;
    } else {
      RemoveAllAt(rest, i - 1);
      assert sockets[..i] == [sockets[0]] + rest[..i - 1] && sockets[i + 1..] == rest[i..];
    }
  }

  /** The peers around the i-th socket. */
  lemma {:induction false} SplitAtSocket(sockets: seq<Socket>, i: nat)
    requires i < |sockets|
    ensures Peers(sockets) == Peers(sockets[..i]) + ([sockets[i].peer] + Peers(sockets[i + 1..]))
    ensures Peers(sockets[..i] + sockets[i + 1..]) == Peers(sockets[..i]) + Peers(sockets[i + 1..])
  {
    PeersConcat(sockets[..i], sockets[i + 1..]);
    PeersConcat(sockets[..i], sockets[i..]);
    assert sockets == sockets[..i] + sockets[i..] && sockets[i..][1..] == sockets[i + 1..];
  }

  /** Dropping a client takes one of its peers away. */
  lemma {:induction false} RemoveAllPeers(sockets: seq<Socket>, s: Socket)
    requires Distinct(sockets) && s in sockets
    ensures multiset(Peers(RemoveAll(sockets, s))) == multiset(Peers(sockets)) - multiset{s.peer}
  {
    var i :| 0 <= i < |sockets| && sockets[i] == s;
    RemoveAllAt(sockets, i);
    SplitAtSocket(sockets, i);
    OneLess(Peers(sockets[..i]), s.peer, Peers(sockets[i + 1..]));
  }

  /** And it keeps the others, once each. */
  lemma {:induction false} RemoveAllDistinct(sockets: seq<Socket>, s: Socket)
    requires Distinct(sockets) && s in sockets
    ensures Distinct(RemoveAll(sockets, s)) && |RemoveAll(sockets, s)| == |sockets| - 1
  {
    var i :| 0 <= i < |sockets| && sockets[i] == s;
    RemoveAllAt(sockets, i);
  }

  /** The rows, once the waiting signals have arrived, are the peers of the sockets. */
  ghost predicate Mirrors(rows: seq<Peer>, signals: seq<Signal>, sockets: seq<Socket>)
  {
    multiset(ShownAll(rows, signals)) == multiset(Peers(sockets))
  }

  lemma {:induction false} ConnectMirrors(rows: seq<Peer>, signals: seq<Signal>, sockets: seq<Socket>, s: Socket)
    requires Mirrors(rows, signals, sockets)
    ensures Mirrors(rows, signals + [Connected(s.peer)], sockets + [s])
  {
    PeersSnoc(sockets, s);
    ShownAllSnoc(rows, signals, Connected(s.peer));
  }

  lemma {:induction false} DisconnectMirrors(rows: seq<Peer>, signals: seq<Signal>, sockets: seq<Socket>, s: Socket)
    requires Mirrors(rows, signals, sockets) && Distinct(sockets) && s in sockets
    ensures Mirrors(rows, signals + [Disconnected(s.peer)], RemoveAll(sockets, s))
  {
    RemoveAllPeers(sockets, s);
    ShownAllSnoc(rows, signals, Disconnected(s.peer));
    DisconnectedCount(ShownAll(rows, signals), s.peer);
  }

  class BackendFtpServer {
    var m_Sockets: seq<Socket>
    const white: seq<Subnet>
    const black: seq<Subnet>
    /** The connection limit; a negative one means none. */
    const limit: int
    /** Signals sent and not yet delivered to the window. */
    var signals: seq<Signal>
    /** The rows the window shows now. */
    ghost var rows: seq<Peer>

    /** The window will show the connected clients, and the limit is kept. */
    ghost predicate Valid()
      reads this
    {
      && Distinct(m_Sockets)
      && (0 <= limit ==> |m_Sockets| <= limit)
      && Mirrors(rows, signals, m_Sockets)
    }

    constructor (white: seq<Subnet>, black: seq<Subnet>, limit: int)
      ensures Valid() && m_Sockets == [] && signals == [] && rows == []
      ensures this.white == white && this.black == black && this.limit == limit
    {
      this.white, this.black, this.limit := white, black, limit;
      m_Sockets, signals, rows := [], [], [];
    }

    /** The enumeration of a filter, which stops at the first subnet that has the address. */
    method InFilter(filter: seq<Subnet>, ip: string) returns (found: bool)
      ensures found == InSome(filter, ip)
    {
      found := false;
      var i := 0;
      while i < |filter|
        invariant 0 <= i <= |filter| && !found
        invariant forall k :: 0 <= k < i ==> !filter[k](ip)
      {
        if filter[i](ip) {
          return true;
        }
        i := i + 1;
      }
    }

    /** Lines 141-170. */
    method Filtered(ip: string) returns (filtered: bool)
      ensures filtered <==> InSome(black, ip) && !InSome(white, ip)
    {
      var bInWhite := false;
      if white != [] {
        bInWhite := InFilter(white, ip);
      }
      filtered := false;
      if !bInWhite && black != [] {
        filtered := InFilter(black, ip);
      }
    }

    /** Lines 135-188; true means the client is turned away. */
    method OnFilter(socket: Socket?) returns (refused: bool)
      requires Valid() && (socket != null ==> socket !in m_Sockets)
      modifies this`m_Sockets, this`signals
      ensures Valid()
      ensures refused <==>
                || socket == null
                || ((exists i :: 0 <= i < |black| && black[i](socket.peer.ip))
                    && forall i :: 0 <= i < |white| ==> !white[i](socket.peer.ip))
                || 0 <= limit <= |old(m_Sockets)|
      ensures refused ==> m_Sockets == old(m_Sockets) && signals == old(signals)
      ensures !refused ==>
                m_Sockets == old(m_Sockets) + [socket] && signals == old(signals) + [Connected(socket.peer)]
    {
      if socket == null {
        return true;
      }
      var filtered := Filtered(socket.peer.ip);
      if filtered || (limit >= 0 && limit <= |m_Sockets|) {
        return true;
      }
      Admit(socket);
      return false;
    }

    /** Lines 177-186. */
    method Admit(socket: Socket)
      requires Valid() && socket !in m_Sockets && (0 <= limit ==> |m_Sockets| < limit)
      modifies this`m_Sockets, this`signals
      ensures Valid() && m_Sockets == old(m_Sockets) + [socket]
      ensures signals == old(signals) + [Connected(socket.peer)]
    {
      ConnectMirrors(rows, signals, m_Sockets, socket);
      m_Sockets := m_Sockets + [socket];
      signals := signals + [Connected(socket.peer)];
    }

    /** Lines 190-200, for a client that was admitted: only those are connected to the slot. */
    method SlotDisconnected(socket: Socket)
      requires Valid() && socket in m_Sockets
      modifies this`m_Sockets, this`signals
      ensures Valid() && m_Sockets == RemoveAll(old(m_Sockets), socket)
      ensures signals == old(signals) + [Disconnected(socket.peer)]
    {
      DisconnectMirrors(rows, signals, m_Sockets, socket);
      RemoveAllDistinct(m_Sockets, socket);
      m_Sockets := RemoveAll(m_Sockets, socket);
      signals := signals + [Disconnected(socket.peer)];
    }

    /** The oldest signal reaches the window, which runs in another thread. */
    method Deliver(view: FrmViewServer)
      requires Valid() && signals != [] && view.rows == rows
      modifies this`signals, this`rows, view
      ensures Valid() && view.rows == rows == Shown(old(rows), old(signals[0])) && signals == old(signals)[1..]
    {
      match signals[0] {
        case Connected(p) => view.SlotConnected(p);
        case Disconnected(p) => view.SlotDisconnected(p);
      }
      rows := view.rows;
      signals := signals[1..];
    }

    /** When nothing is on its way, the window shows exactly the connected clients. */
    lemma {:induction false} TableMirrorsSockets()
      requires Valid() && signals == []
      ensures multiset(rows) == multiset(Peers(m_Sockets)) && |rows| == |m_Sockets|
    {
      PeersLength(m_Sockets);
      assert |multiset(rows)| == |rows| && |multiset(Peers(m_Sockets))| == |Peers(m_Sockets)|;
    }
  }

  lemma {:induction false} PeersLength(sockets: seq<Socket>)
    ensures |Peers(sockets)| == |sockets|
  {
    if sockets != [] {
      PeersLength(sockets[1..]);
    }
  }
}
