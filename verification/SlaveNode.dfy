/** A slave's copy of the session table (slave/main.go). */
module SlaveNode {
  import opened Wrappers
  import opened Bytes
  import opened Crypto
  import opened SessionTable

  /** What the master tells a slave about a session. */
  datatype Announcement = Announcement(id: SessionId, client: Addr, ip: IPv4)

  datatype ControlMsg = NewSession(info: Announcement) | SessionEnd(id: SessionId)

  /** A slave-side session; `punched` is the source address of the latest punch, if any. */
  datatype Entry = Entry(info: Announcement, key: Key, punched: Option<Addr>)

  function ClientAddr(e: Entry): Addr {
    if e.punched.Some? then e.punched.value else e.info.client
  }

  type Entries = map<IPv4, Entry>

  function WithNew(m: Entries, token: seq<byte>, info: Announcement): Entries {
    m[info.ip := Entry(info, SessionKey(token, info.ip), None)]
  }

  function WithoutId(m: Entries, id: SessionId): Entries {
    map ip | ip in m && m[ip].info.id != id :: m[ip]
  }

  function WithPunch(m: Entries, ip: IPv4, src: Addr): Entries {
    if ip in m && ClientAddr(m[ip]) != src then m[ip := m[ip].(punched := Some(src))] else m
  }

  function Handled(m: Entries, token: seq<byte>, msg: ControlMsg): Entries {
    match msg
    case NewSession(info) => WithNew(m, token, info)
    case SessionEnd(id) => WithoutId(m, id)
  }

  /** No two tunnel addresses carry the same session. */
  ghost predicate DistinctIds(m: Entries) {
    forall a, b :: a in m && b in m && m[a].info.id == m[b].info.id ==> a == b
  }

  /** The destination field of an IPv4 header. */
  function Destination(pkt: seq<byte>): IPv4
    requires |pkt| >= 20
  {
    U32At(pkt, 16)
  }

  /** What the slave sends for a decrypted downlink packet, and where to. */
  function Forwarded(m: Entries, nonce: nat, pkt: seq<byte>): Option<(Addr, Cipher)> {
    if |pkt| < 20 || Destination(pkt) !in m then None
    else
      var e := m[Destination(pkt)];
      Some((ClientAddr(e), Seal(e.key, nonce, pkt)))
  }

  class SlaveServer {
    const token: seq<byte>
    var sessions: Entries

    constructor (token: seq<byte>)
      ensures this.token == token && sessions == map[]
    {
      this.token := token;
      sessions := map[];
    }

    method HandleNewSession(info: Announcement)
      modifies this
      ensures sessions == WithNew(old(sessions), token, info)
    {
      var key := SessionKey(token, info.ip);
      sessions := sessions[info.ip := Entry(info, key, None)];
    }

    /**
     Walks the map in an arbitrary order and stops at the first entry with the
     identifier, which is every entry with it when identifiers are distinct.
     */
    method HandleSessionEnd(id: SessionId)
      requires DistinctIds(sessions)
      modifies this
      ensures sessions == WithoutId(old(sessions), id)
      ensures DistinctIds(sessions)
    {
      var rest := sessions.Keys;
      while rest != {}
        invariant rest <= sessions.Keys && sessions == old(sessions)
        invariant forall ip :: ip in sessions && ip !in rest ==> sessions[ip].info.id != id
      {
        var ip :| ip in rest;
        if sessions[ip].info.id == id {
          sessions := sessions - {ip};
          return;
        }
        rest := rest - {ip};
      }
      assert WithoutId(sessions, id) == sessions;
    }

    method HandlePunch(ip: IPv4, src: Addr)
      modifies this
      ensures sessions == WithPunch(old(sessions), ip, src)
      ensures ip in sessions ==> ClientAddr(sessions[ip]) == src
    {
      if ip in sessions {
        var e := sessions[ip];
        if ClientAddr(e) != src {
          sessions := sessions[ip := e.(punched := Some(src))];
        }
      }
    }
  }
}
