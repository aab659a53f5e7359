/** The two peer lists of edge.c on values: what every message, send and tick does to them. */
module EdgePeers {
  import opened EdgePunch

  const AF_INET := 2
  const AF_INET6 := 10
  const ACTIVE_WINDOW := 30
  const DIRECT_ALIVE_SECS := 300
  const REGISTRATION_TIMEOUT := 150
  const STUCK_SECS := 1800

  type Mac = nat

  const BROADCAST: Mac := 0xffff_ffff_ffff

  /** n2n_sock_t; the address as one number, zero when all its bytes are. */
  datatype Sock = Sock(family: nat, addr: nat, port: nat)

  const NO_SOCK := Sock(0, 0, 0)

  /** The fields of peer_info that these handlers read or write. */
  datatype Info = Info(sock: Sock, sock6: Sock, s0: Sock, s1: Sock, num: nat, lastSeen: int, directSeen: nat,
                       lastQuery: nat, ip: nat, punch: Punch)

  /** What calloc gives. */
  const BLANK := Info(NO_SOCK, NO_SOCK, NO_SOCK, NO_SOCK, 0, 0, 0, 0, 0, IDLE)

  datatype Entry = Entry(mac: Mac, info: Info)

  datatype Lists = Lists(known: seq<Entry>, pending: seq<Entry>)

  /** What the handlers read of the rest of n2n_edge_t. */
  datatype Env = Env(useWs: bool, udp4: bool, udp6: bool, own6: bool, snIpv6: bool, publicSock: Sock, localEna: bool)

  // ---------------------------------------------------------------- searching a list

  /** find_peer_by_mac: the place of the first entry with this address, or -1. */
  function IndexOf(s: seq<Entry>, mac: Mac): (i: int)
    ensures -1 <= i < |s|
    ensures i >= 0 ==> s[i].mac == mac && forall j :: 0 <= j < i ==> s[j].mac != mac
    ensures i < 0 ==> forall j :: 0 <= j < |s| ==> s[j].mac != mac
  {
    if s == [] then -1
    else if s[0].mac == mac then 0
    else
      var i := IndexOf(s[1..], mac);
      if i < 0 then -1 else i + 1
  }

  predicate Has(s: seq<Entry>, mac: Mac) {
    IndexOf(s, mac) >= 0
  }

  function InfoOf(s: seq<Entry>, mac: Mac): Info
    requires Has(s, mac)
  {
    s[IndexOf(s, mac)].info
  }

  /** The entry's fields replaced; nothing if there is none. */
  function Put(s: seq<Entry>, mac: Mac, info: Info): seq<Entry> {
    if Has(s, mac) then s[IndexOf(s, mac) := Entry(mac, info)] else s
  }

  /** The entry unlinked. */
  function Without(s: seq<Entry>, mac: Mac): seq<Entry> {
    var i := IndexOf(s, mac);
    if i < 0 then s else s[..i] + s[i + 1..]
  }

  // ---------------------------------------------------------------- registering

  predicate CanPunch(env: Env, info: Info) {
    || (info.sock.family == AF_INET && env.udp4)
    || (info.sock6.family == AF_INET6 && info.sock6.addr != 0 && env.own6)
  }

  /** start_punch */
  function Started(env: Env, info: Info, now: nat): Info {
    if env.useWs then info else info.(punch := StartPunch(info.punch, CanPunch(env, info), now).0)
  }

  /** The slot of the address's own family. */
  function Store(info: Info, peer: Sock): Info {
    if peer.family == AF_INET6 then info.(sock6 := peer) else info.(sock := peer)
  }

  function Slot(info: Info, family: nat): Sock {
    if family == AF_INET6 then info.sock6 else info.sock
  }

  /** try_send_register on a pending peer. */
  function Reregistered(env: Env, info: Info, peer: Sock, now: nat): Info {
    if Slot(info, peer.family) != peer
    then Started(env, Store(info, peer).(num := 1, s0 := peer, punch := Forget(info.punch)), now)
    else if info.punch.start == 0 && !info.punch.failed then Started(env, info, now)
    else info
  }

  /** try_send_register */
  function TrySendRegister(env: Env, pending: seq<Entry>, mac: Mac, peer: Sock, now: nat): seq<Entry> {
    if Has(pending, mac) then Put(pending, mac, Reregistered(env, InfoOf(pending, mac), peer, now))
    else [Entry(mac, Started(env, Store(BLANK, peer).(lastSeen := now), now))] + pending
  }

  /** The LAN phase begins. */
  function OnLan(info: Info, peer: Sock, lan: Sock, now: nat): Info {
    Store(info, peer).(num := 2, s0 := peer, s1 := lan,
                       punch := info.punch.(lanStart := now, lanDone := false, start := 0, failed := false))
  }

  /** try_send_register_lan */
  function TrySendRegisterLan(pending: seq<Entry>, mac: Mac, peer: Sock, lan: Sock, now: nat): seq<Entry> {
    if Has(pending, mac) then Put(pending, mac, OnLan(InfoOf(pending, mac), peer, lan, now))
    else [Entry(mac, OnLan(BLANK, peer, lan, now).(lastSeen := now))] + pending
  }

  /** We and the peer have one public IPv4 address. */
  predicate SamePublic(env: Env, peer: Sock) {
    env.publicSock.family == AF_INET && peer.family == AF_INET && env.publicSock.addr == peer.addr
  }

  predicate SameLan(env: Env, hasLocal: bool, pub: Sock, lan: Sock) {
    hasLocal && lan.family != 0 && lan.port != 0 && SamePublic(env, pub)
  }

  /** try_peer_lan_ipv4 on a pending peer; `v6` says whether its own IPv6 address is tried beside. */
  function LanOrIpv4(env: Env, info: Info, hasLocal: bool, pub: Sock, lan: Sock, v6: bool, now: nat): Info {
    var i1 := if SameLan(env, hasLocal, pub, lan) then OnLan(info, pub, lan.(port := pub.port), now)
              else Reregistered(env, info, info.sock, now);
    if v6 && i1.sock6.family == AF_INET6 && env.udp6 then Reregistered(env, i1, i1.sock6, now) else i1
  }

  /** restart_punch_for_peer */
  function Restarted(env: Env, info: Info, hasLocal: bool, pub: Sock, lan: Sock, now: nat): Info {
    if env.useWs then info
    else
      var i1 := info.(num := 1, punch := Forget(info.punch).(round := 0, roundTime := 0));
      if i1.sock6.family == AF_INET6 && env.udp6 && env.snIpv6 then Reregistered(env, i1, i1.sock6, now)
      else LanOrIpv4(env, i1, hasLocal, pub, lan, i1.sock6.family == AF_INET6 && env.udp6, now)
  }

  // ---------------------------------------------------------------- moving between the lists

  /** The entry to the head of known_peers, with the address that answered. */
  function Operational(info: Info, peer: Sock, now: nat): Info {
    var i1 := if peer.family == AF_INET6 then info.(sock6 := peer, sock := NO_SOCK)
              else info.(sock := peer, sock6 := NO_SOCK);
    i1.(lastSeen := now, directSeen := now, punch := i1.punch.(start := 0, failed := false))
  }

  /** set_peer_operational */
  function SetOperational(l: Lists, mac: Mac, peer: Sock, now: nat): Lists {
    if Has(l.pending, mac) then
      Lists([Entry(mac, Operational(InfoOf(l.pending, mac), peer, now))] + l.known, Without(l.pending, mac))
    else if Has(l.known, mac) then
      var info := InfoOf(l.known, mac);
      if info.sock6.family == AF_INET6 && info.sock.family == 0 && peer.family == AF_INET
      then l.(known := Put(l.known, mac, info.(sock := peer, sock6 := NO_SOCK, lastSeen := now)))
      else l
    else l
  }

  /** A known entry back to the head of pending_peers. */
  function BackToPending(l: Lists, mac: Mac): Lists {
    if Has(l.known, mac) then Lists(Without(l.known, mac), [Entry(mac, InfoOf(l.known, mac))] + l.pending) else l
  }

  // ---------------------------------------------------------------- messages

  /** A REGISTER for us: where it came from, the source to believe, and the LAN address it carries. */
  function KnownRegistered(info: Info, orig: Sock, now: nat): Info {
    if (info.sock.family == AF_INET) == (orig.family == AF_INET) then
      var expected := if info.sock.family == AF_INET then info.sock else info.sock6;
      if expected == orig then info.(lastSeen := now)
      else if info.sock.family == AF_INET then info.(sock := orig, s0 := orig, lastSeen := now)
      else info.(sock6 := orig, s0 := orig, lastSeen := now)
    else info
  }

  function OnRegister(env: Env, l: Lists, mac: Mac, regSock: Sock, sender: Sock, orig: Sock, now: nat): Lists {
    if Has(l.known, mac) then l.(known := Put(l.known, mac, KnownRegistered(InfoOf(l.known, mac), orig, now)))
    else if regSock.family != 0 && regSock.port != 0 && env.localEna && SamePublic(env, sender)
    then l.(pending := TrySendRegisterLan(l.pending, mac, orig, regSock.(port := orig.port), now))
    else l.(pending := TrySendRegister(env, l.pending, mac, orig, now))
  }

  function OnRegisterAck(l: Lists, mac: Mac, fromSn: bool, sender: Sock, now: nat): Lists {
    if !fromSn then SetOperational(l, mac, sender, now)
    else if Has(l.pending, mac) then l.(pending := Put(l.pending, mac, InfoOf(l.pending, mac).(lastSeen := now)))
    else l
  }

  function OnProbe(env: Env, l: Lists, mac: Mac, sender: Sock, now: nat): Lists {
    if Has(l.known, mac) then l.(known := Put(l.known, mac, InfoOf(l.known, mac).(lastSeen := now, directSeen := now)))
    else if Has(l.pending, mac) then l.(pending := Put(l.pending, mac, Store(InfoOf(l.pending, mac), sender)))
    else l.(pending := TrySendRegister(env, l.pending, mac, sender, now))
  }

  function OnProbeAck(l: Lists, mac: Mac, now: nat): Lists {
    if Has(l.known, mac) then
      l.(known := Put(l.known, mac, InfoOf(l.known, mac).(lastSeen := now, directSeen := now)))
    else l
  }

  /** A PEER_INFO as decoded. */
  datatype PeerMsg = PeerMsg(mac: Mac, s0: Sock, s1: Sock, sock6: Sock, hasLocal: bool, hasV6: bool, ip: nat)

  /** The second socket and the IPv6 address of a PEER_INFO. */
  function Extras(info: Info, pi: PeerMsg): Info {
    var i1 := if pi.hasLocal && pi.s1.family != 0 && pi.s1.port != 0 then info.(s1 := pi.s1, num := 2) else info;
    if pi.hasV6 && pi.sock6.family == AF_INET6 then i1.(sock6 := pi.sock6) else i1
  }

  /** A known peer moved: only a difference in the same family counts. */
  predicate KnownMoved(info: Info, pi: PeerMsg) {
    || (pi.s0.family == AF_INET && info.sock.family == AF_INET && info.sock != pi.s0)
    || (pi.sock6.family == AF_INET6 && info.sock6.family == AF_INET6 && info.sock6 != pi.sock6)
  }

  predicate PendingMoved(info: Info, pi: PeerMsg) {
    || (pi.s0.family == AF_INET && (info.sock.family != AF_INET || info.sock != pi.s0))
    || (pi.sock6.family == AF_INET6 && (info.sock6.family != AF_INET6 || info.sock6 != pi.sock6))
  }

  /** A pending peer under a PEER_INFO without punch request. */
  function PendingInformed(env: Env, info: Info, pi: PeerMsg, moved: bool, now: nat): Info {
    var talking := info.directSeen != 0 || now - info.lastSeen <= ACTIVE_WINDOW;
    var i1 := if pi.s0.family == AF_INET then info.(sock := pi.s0, s0 := pi.s0) else info;
    var i2 := Extras(i1, pi).(ip := pi.ip);
    if (moved || PendingMoved(info, pi)) && talking then Restarted(env, i2, pi.hasLocal, pi.s0, pi.s1, now) else i2
  }

  function OnPeerInfo(env: Env, l: Lists, pi: PeerMsg, syncing: bool, now: nat): Lists {
    if Has(l.known, pi.mac) then
      var info := InfoOf(l.known, pi.mac);
      if syncing && info.directSeen != 0 then l
      else if !KnownMoved(info, pi) then
        var i1 := Extras(info, pi);
        l.(known := Put(l.known, pi.mac, if pi.ip != 0 then i1.(ip := pi.ip) else i1))
      else
        var m := BackToPending(l, pi.mac);
        m.(pending := Put(m.pending, pi.mac, PendingInformed(env, info, pi, true, now)))
    else if Has(l.pending, pi.mac) then
      l.(pending := Put(l.pending, pi.mac, PendingInformed(env, InfoOf(l.pending, pi.mac), pi, false, now)))
    else
      var i1 := Extras(BLANK.(sock := pi.s0, s0 := pi.s0, num := 1), pi);
      l.(pending := [Entry(pi.mac, i1.(ip := pi.ip, lastSeen := now - ACTIVE_WINDOW - 1))] + l.pending)
  }

  predicate Alive(info: Info, now: nat) {
    info.directSeen != 0 && now - info.directSeen < DIRECT_ALIVE_SECS
  }

  /** A pending peer under a PUNCH request. */
  function Punched(env: Env, info: Info, pi: PeerMsg, now: nat): Info {
    var i1 := Extras(Store(info, pi.s0).(s0 := pi.s0, num := 1), pi).(ip := pi.ip, lastSeen := now);
    var moved := i1.sock != info.sock || i1.sock6 != info.sock6;
    var running := info.punch.start != 0 || info.punch.lanStart != 0;
    if moved || (!running && !Alive(i1, now)) then Restarted(env, i1, pi.hasLocal, pi.s0, pi.s1, now) else i1
  }

  /** A PEER_INFO that asks for a punch. */
  function OnPunch(env: Env, l: Lists, pi: PeerMsg, now: nat): Lists {
    if Has(l.known, pi.mac) && Alive(InfoOf(l.known, pi.mac), now) then l
    else
      var m := BackToPending(l, pi.mac);
      var p := if Has(m.pending, pi.mac) then m.pending else [Entry(pi.mac, BLANK.(lastSeen := now))] + m.pending;
      m.(pending := Put(p, pi.mac, Punched(env, InfoOf(p, pi.mac), pi, now)))
  }

  function OnDeregister(l: Lists, mac: Mac): Lists {
    Lists(Without(l.known, mac), Without(l.pending, mac))
  }

  /** A frame that came straight from the peer. */
  function DirectFrame(info: Info, inKnown: bool, mac: Mac, orig: Sock, now: nat): Info {
    var i1 := info.(directSeen := now);
    var ours := (i1.sock.family == AF_INET && orig.family == AF_INET)
        || (i1.sock6.family == AF_INET6 && orig.family != AF_INET);
    var expected := if i1.sock.family == AF_INET then i1.sock else i1.sock6;
    if !ours || expected == orig then i1.(lastSeen := now)
    else if !inKnown || orig.addr == 0 || mac == BROADCAST then i1
    else if i1.sock.family == AF_INET && orig.family == AF_INET then i1.(sock := orig, lastSeen := now)
    else if i1.sock.family == AF_INET || orig.family == AF_INET then i1.(lastSeen := now)
    else i1.(sock6 := orig, lastSeen := now)
  }

  /** A frame that came through the supernode or a relay, with the address it names. */
  function RelayedFrame(info: Info, psock: Sock, toUs: bool, now: nat): Info {
    var i1 :=
      if info.directSeen == 0 && psock.addr != 0
      then if info.sock.family == AF_INET then info.(sock := psock) else info.(sock6 := psock)
      else info;
    if toUs then i1.(lastSeen := now) else i1
  }

  datatype Frame = Frame(mac: Mac, fromSn: bool, fromRelay: bool, orig: Sock, psock: Sock, toUs: bool, ip: nat)

  function FrameSeen(info: Info, f: Frame, inKnown: bool, now: nat): Info {
    var i1 := if f.fromSn || f.fromRelay then RelayedFrame(info, f.psock, f.toUs, now)
              else DirectFrame(info, inKnown, f.mac, f.orig, now);
    if i1.ip == 0 then i1.(ip := f.ip) else i1
  }

  /** handle_PACKET: `f.ip` is the sender's address in the frame, or zero. */
  function OnPacket(l: Lists, f: Frame, now: nat): Lists {
    if Has(l.known, f.mac) then l.(known := Put(l.known, f.mac, FrameSeen(InfoOf(l.known, f.mac), f, true, now)))
    else if Has(l.pending, f.mac) then
      l.(pending := Put(l.pending, f.mac, FrameSeen(InfoOf(l.pending, f.mac), f, false, now)))
    else if f.fromSn then
      var i1 := BLANK.(sock := f.orig, s0 := f.orig, num := 1, lastSeen := now - ACTIVE_WINDOW - 1, ip := f.ip);
      l.(pending := [Entry(f.mac, if f.orig.family == AF_INET6 then i1.(sock6 := f.orig) else i1)] + l.pending)
    else l
  }

  /** send_PACKET to a unicast address without a direct path. */
  function OnSend(l: Lists, mac: Mac, now: nat): Lists {
    if Has(l.pending, mac) then
      var info := InfoOf(l.pending, mac);
      if now - info.lastQuery >= 5 then l.(pending := Put(l.pending, mac, info.(lastQuery := now))) else l
    else if Has(l.known, mac) then
      var info := InfoOf(l.known, mac);
      if now - info.lastQuery >= 5 then l.(known := Put(l.known, mac, info.(lastQuery := now))) else l
    else l.(pending := [Entry(mac, BLANK.(lastQuery := now, lastSeen := now))] + l.pending)
  }

  // ---------------------------------------------------------------- ticks

  /** purge_peer_list: only what was seen in time stays. */
  function Purged(s: seq<Entry>, before: int): seq<Entry> {
    if s == [] then []
    else if s[0].info.lastSeen < before then Purged(s[1..], before)
    else [s[0]] + Purged(s[1..], before)
  }

  /** The LAN phase of check_punch_timeouts on one peer. */
  function LanTicked(env: Env, info: Info, now: nat): Info {
    var p := info.punch;
    var onLan := info.num == 2 && !p.lanDone && p.lanStart != 0;
    var i1 := if onLan && now - p.lanStart < LAN_SECS && now - info.lastSeen >= 1 then info.(lastSeen := now) else info;
    i1.(punch := LanPhase(p, info.num == 2, CanPunch(env, info), now).0)
  }

  /** A pending peer whose punch never began and that has been silent too long. */
  predicate Stuck(info: Info, now: nat) {
    info.punch.start == 0 && !info.punch.failed && info.lastSeen != 0 && now - info.lastSeen > STUCK_SECS
  }

  /** The rounds and retries. */
  function WanTicked(env: Env, info: Info, now: nat): Info {
    info.(punch := WanPhase(info.punch, CanPunch(env, info), now).0)
  }

  /** check_punch_timeouts */
  function PunchPass(env: Env, s: seq<Entry>, now: nat): seq<Entry> {
    if s == [] then []
    else
      var info := LanTicked(env, s[0].info, now);
      if Stuck(info, now) then PunchPass(env, s[1..], now)
      else [Entry(s[0].mac, WanTicked(env, info, now))] + PunchPass(env, s[1..], now)
  }

  function OnPunchTimeouts(env: Env, l: Lists, now: nat): Lists {
    if env.useWs then l else l.(pending := PunchPass(env, l.pending, now))
  }

  /** The periodic purge of both lists. */
  function OnPurge(l: Lists, now: nat): Lists {
    Lists(Purged(l.known, now - REGISTRATION_TIMEOUT), Purged(l.pending, now - STUCK_SECS))
  }

  /** The first entry with this virtual address, and without a direct path if `relayed`. */
  function IndexOfIp(s: seq<Entry>, ip: nat, relayed: bool): (i: int)
    ensures -1 <= i < |s|
    ensures i >= 0 ==> s[i].info.ip == ip && (relayed ==> s[i].info.directSeen == 0)
  {
    if s == [] then -1
    else if s[0].info.ip == ip && (relayed ==> s[0].info.directSeen == 0) then 0
    else
      var i := IndexOfIp(s[1..], ip, relayed);
      if i < 0 then -1 else i + 1
  }

  function WithoutIp(s: seq<Entry>, ip: nat, relayed: bool): seq<Entry> {
    var i := IndexOfIp(s, ip, relayed);
    if i < 0 then s else s[..i] + s[i + 1..]
  }

  function WithoutIps(s: seq<Entry>, ips: seq<nat>, relayed: bool): seq<Entry>
    decreases |ips|
  {
    if ips == [] then s else WithoutIp(WithoutIps(s, ips[..|ips| - 1], relayed), ips[|ips| - 1], relayed)
  }

  /** The end of a peer sync: those the supernode did not confirm go. */
  function OnSync(l: Lists, ips: seq<nat>): Lists {
    Lists(WithoutIps(l.known, ips, true), WithoutIps(l.pending, ips, false))
  }

  /** check_keepalive gives a silent known peer up: it stays known, and is punched again. */
  function OnSilence(env: Env, l: Lists, mac: Mac, now: nat): Lists {
    if Has(l.known, mac) then
      var info := InfoOf(l.known, mac);
      l.(known := Put(l.known, mac, Started(env, info.(directSeen := 0, punch := Forget(info.punch)), now)))
    else l
  }

  // ---------------------------------------------------------------- events

  datatype Event =
    | Register(mac: Mac, regSock: Sock, sender: Sock, orig: Sock)
    | RegisterAck(mac: Mac, fromSn: bool, sender: Sock)
    | Probe(mac: Mac, sender: Sock)
    | ProbeAck(mac: Mac)
    | PeerInfo(pi: PeerMsg, syncing: bool)
    | PunchRequest(pi: PeerMsg)
    | Deregister(mac: Mac)
    | Packet(f: Frame)
    | Send(mac: Mac)
    | Silence(mac: Mac)
    | PunchTimeouts
    | Purge
    | SyncEnd(ips: seq<nat>)

  function Next(env: Env, l: Lists, e: Event, now: nat): Lists {
    match e
    case Register(mac, regSock, sender, orig) => OnRegister(env, l, mac, regSock, sender, orig, now)
    case RegisterAck(mac, fromSn, sender) => OnRegisterAck(l, mac, fromSn, sender, now)
    case Probe(mac, sender) => OnProbe(env, l, mac, sender, now)
    case ProbeAck(mac) => OnProbeAck(l, mac, now)
    case PeerInfo(pi, syncing) => OnPeerInfo(env, l, pi, syncing, now)
    case PunchRequest(pi) => OnPunch(env, l, pi, now)
    case Deregister(mac) => OnDeregister(l, mac)
    case Packet(f) => OnPacket(l, f, now)
    case Send(mac) => OnSend(l, mac, now)
    case Silence(mac) => OnSilence(env, l, mac, now)
    case PunchTimeouts => OnPunchTimeouts(env, l, now)
    case Purge => OnPurge(l, now)
    case SyncEnd(ips) => OnSync(l, ips)
  }

  // ---------------------------------------------------------------- looking an address up

  datatype Found = Absent | Found(info: Info)

  function Look(s: seq<Entry>, mac: Mac): Found {
    if Has(s, mac) then Found(InfoOf(s, mac)) else Absent
  }

  /** No MAC occurs twice. */
  ghost predicate Unique(s: seq<Entry>) {
    forall i, j :: 0 <= i < j < |s| ==> s[i].mac != s[j].mac
  }

  lemma LookPut(s: seq<Entry>, mac: Mac, info: Info, m: Mac)
    ensures Look(Put(s, mac, info), m) == if m == mac && Has(s, mac) then Found(info) else Look(s, m)
    ensures Has(Put(s, mac, info), m) == Has(s, m) && (Unique(s) ==> Unique(Put(s, mac, info)))
  {
    hide IndexOf;
    var t := Put(s, mac, info);
    assert |t| == |s| && forall i :: 0 <= i < |s| ==> t[i].mac == s[i].mac;
  }

  lemma LookAdd(e: Entry, s: seq<Entry>, m: Mac)
    ensures Look([e] + s, m) == if m == e.mac then Found(e.info) else Look(s, m)
    ensures Unique(s) && !Has(s, e.mac) ==> Unique([e] + s)
  {
  }

  /** The list with place k left out. */
  function Cut(s: seq<Entry>, k: nat): seq<Entry>
    requires k < |s|
  {
    s[..k] + s[k + 1..]
  }

  lemma LookCut(s: seq<Entry>, k: nat, m: Mac)
    requires k < |s| && Unique(s)
    ensures Look(Cut(s, k), m) == (if m == s[k].mac then Absent else Look(s, m)) && Unique(Cut(s, k))
  {
    hide IndexOf;
    var t := Cut(s, k);
    assert forall i :: 0 <= i < |t| ==> t[i] == if i < k then s[i] else s[i + 1];
    if Has(t, m) {
      var i := IndexOf(t, m);
    } else {
      assert forall i :: 0 <= i < |s| && i != k ==> s[i] == t[if i < k then i else i - 1];
    }
  }

  lemma LookWithout(s: seq<Entry>, mac: Mac, m: Mac)
    requires Unique(s)
    ensures Look(Without(s, mac), m) == (if m == mac then Absent else Look(s, m)) && Unique(Without(s, mac))
  {
    hide IndexOf;
    if Has(s, mac) {
      LookCut(s, IndexOf(s, mac), m);
    }
  }

  // ---------------------------------------------------------------- no address twice

  /** No MAC occurs twice in the two lists taken together. */
  ghost predicate NoDup(l: Lists) {
    Unique(l.known + l.pending)
  }

  lemma NoDupParts(l: Lists)
    ensures NoDup(l) <==> Unique(l.known) && Unique(l.pending) && forall m :: !(Has(l.known, m) && Has(l.pending, m))
  {
    hide IndexOf;
    var s, k := l.known + l.pending, |l.known|;
    if NoDup(l) {
      forall i, j | 0 <= i < j < |l.pending| ensures l.pending[i].mac != l.pending[j].mac {
        assert s[k + i].mac != s[k + j].mac;
      }
      forall i, j | 0 <= i < j < k ensures l.known[i].mac != l.known[j].mac {
        assert s[i].mac != s[j].mac;
      }
      forall i, j | 0 <= i < k && 0 <= j < |l.pending| ensures l.known[i].mac != l.pending[j].mac {
        assert s[i].mac != s[k + j].mac;
      }
    } else if Unique(l.known) && Unique(l.pending) {
      var i, j :| 0 <= i < j < |s| && s[i].mac == s[j].mac;
      assert i < k <= j;
      assert Has(l.known, s[i].mac) && Has(l.pending, l.pending[j - k].mac);
    }
  }

  // ---------------------------------------------------------------- one event

  /** The peer an event is about, if it is about one. */
  predicate AboutOne(e: Event) {
    !e.PunchTimeouts? && !e.Purge? && !e.SyncEnd?
  }

  function MacOf(e: Event): Mac
    requires AboutOne(e)
  {
    if e.PeerInfo? || e.PunchRequest? then e.pi.mac else if e.Packet? then e.f.mac else e.mac
  }

  /** l' is l but for what it says of one address, and that address is in one list at most. */
  ghost predicate OnlyAbout(l: Lists, l': Lists, mac: Mac) {
    && Unique(l'.known) && Unique(l'.pending) && !(Has(l'.known, mac) && Has(l'.pending, mac))
    && forall m :: m != mac ==> Look(l'.known, m) == Look(l.known, m) && Look(l'.pending, m) == Look(l.pending, m)
  }

  /** Both lists in order. */
  ghost predicate Sound(l: Lists) {
    Unique(l.known) && Unique(l.pending) && forall m :: !(Has(l.known, m) && Has(l.pending, m))
  }

  lemma OnlyAboutSound(l: Lists, l': Lists, mac: Mac)
    requires Sound(l) && OnlyAbout(l, l', mac)
    ensures Sound(l')
  {
    hide IndexOf, Unique;
    forall m ensures !(Has(l'.known, m) && Has(l'.pending, m)) {
      if m != mac {
        assert Look(l'.known, m) == Look(l.known, m) && Look(l'.pending, m) == Look(l.pending, m);
      }
    }
  }

  lemma PutKnown(l: Lists, mac: Mac, info: Info)
    requires Sound(l) && Has(l.known, mac)
    ensures OnlyAbout(l, l.(known := Put(l.known, mac, info)), mac)
  {
    hide Has, Put, Look, Unique;
    forall m ensures Look(Put(l.known, mac, info), m) == (if m == mac then Found(info) else Look(l.known, m))
                     && Has(Put(l.known, mac, info), m) == Has(l.known, m) && Unique(Put(l.known, mac, info)) {
      LookPut(l.known, mac, info, m);
    }
  }

  lemma PutPending(l: Lists, mac: Mac, info: Info)
    requires Sound(l) && Has(l.pending, mac)
    ensures OnlyAbout(l, l.(pending := Put(l.pending, mac, info)), mac)
  {
    hide Has, Put, Look, Unique;
    forall m ensures Look(Put(l.pending, mac, info), m) == (if m == mac then Found(info) else Look(l.pending, m))
                     && Has(Put(l.pending, mac, info), m) == Has(l.pending, m) && Unique(Put(l.pending, mac, info)) {
      LookPut(l.pending, mac, info, m);
    }
  }

  lemma AddPending(l: Lists, e: Entry)
    requires Sound(l) && !Has(l.known, e.mac) && !Has(l.pending, e.mac)
    ensures OnlyAbout(l, l.(pending := [e] + l.pending), e.mac) && Look([e] + l.pending, e.mac) == Found(e.info)
  {
  }

  lemma RegisterOk(env: Env, l: Lists, mac: Mac, peer: Sock, now: nat)
    requires Sound(l) && !Has(l.known, mac)
    ensures OnlyAbout(l, l.(pending := TrySendRegister(env, l.pending, mac, peer, now)), mac)
  {
    if Has(l.pending, mac) {
      PutPending(l, mac, Reregistered(env, InfoOf(l.pending, mac), peer, now));
    } else {
      AddPending(l, Entry(mac, Started(env, Store(BLANK, peer).(lastSeen := now), now)));
    }
    hide OnlyAbout, Has, Put, Reregistered, Started;
  }

  lemma RegisterLanOk(l: Lists, mac: Mac, peer: Sock, lan: Sock, now: nat)
    requires Sound(l) && !Has(l.known, mac)
    ensures OnlyAbout(l, l.(pending := TrySendRegisterLan(l.pending, mac, peer, lan, now)), mac)
  {
    if Has(l.pending, mac) {
      PutPending(l, mac, OnLan(InfoOf(l.pending, mac), peer, lan, now));
    } else {
      AddPending(l, Entry(mac, OnLan(BLANK, peer, lan, now).(lastSeen := now)));
    }
    hide OnlyAbout, Has, Put, OnLan;
  }

  /** A move keeps every other entry, and takes this one from the one list to the other. */
  lemma MoveOk(l: Lists, mac: Mac, info: Info)
    requires Sound(l) && Has(l.known, mac)
    ensures var l' := Lists(Without(l.known, mac), [Entry(mac, info)] + l.pending);
            OnlyAbout(l, l', mac) && Look(l'.pending, mac) == Found(info) && !Has(l'.known, mac)
  {
    hide Has, Without, Look, Unique;
    forall m ensures Look(Without(l.known, mac), m) == (if m == mac then Absent else Look(l.known, m))
        && Unique(Without(l.known, mac)) {
      LookWithout(l.known, mac, m);
    }
    forall m ensures Look([Entry(mac, info)] + l.pending, m) == (if m == mac then Found(info) else Look(l.pending, m))
                     && Unique([Entry(mac, info)] + l.pending) {
      LookAdd(Entry(mac, info), l.pending, m);
    }
    LookAdd(Entry(mac, info), l.pending, mac);
    LookWithout(l.known, mac, mac);
    AbsentHas(Without(l.known, mac), mac);
  }

  lemma AbsentHas(s: seq<Entry>, mac: Mac)
    ensures Has(s, mac) <==> Look(s, mac) != Absent
  {
  }

  lemma MoveUpOk(l: Lists, mac: Mac, info: Info)
    requires Sound(l) && Has(l.pending, mac)
    ensures OnlyAbout(l, Lists([Entry(mac, info)] + l.known, Without(l.pending, mac)), mac)
  {
    MoveOk(Lists(l.pending, l.known), mac, info);
  }

  lemma Unchanged(l: Lists, mac: Mac)
    requires Sound(l)
    ensures OnlyAbout(l, l, mac)
  {
  }

  lemma OperationalOk(l: Lists, mac: Mac, peer: Sock, now: nat)
    requires Sound(l)
    ensures OnlyAbout(l, SetOperational(l, mac, peer, now), mac)
  {
    Unchanged(l, mac);
    if Has(l.pending, mac) {
      MoveUpOk(l, mac, Operational(InfoOf(l.pending, mac), peer, now));
    } else if Has(l.known, mac) {
      PutKnown(l, mac, InfoOf(l.known, mac).(sock := peer, sock6 := NO_SOCK, lastSeen := now));
    }
    hide OnlyAbout, Has, Put, Operational, Without;
  }

  lemma PeerInfoOk(env: Env, l: Lists, pi: PeerMsg, syncing: bool, now: nat)
    requires Sound(l)
    ensures OnlyAbout(l, OnPeerInfo(env, l, pi, syncing, now), pi.mac)
  {
    var mac := pi.mac;
    Unchanged(l, mac);
    if Has(l.known, mac) {
      var info := InfoOf(l.known, mac);
      if syncing && info.directSeen != 0 {
      } else if !KnownMoved(info, pi) {
        var i1 := Extras(info, pi);
        PutKnown(l, mac, if pi.ip != 0 then i1.(ip := pi.ip) else i1);
      } else {
        MovedPut(l, mac, PendingInformed(env, info, pi, true, now));
      }
    } else if Has(l.pending, mac) {
      PutPending(l, mac, PendingInformed(env, InfoOf(l.pending, mac), pi, false, now));
    } else {
      AddPending(l, Entry(mac,
          Extras(BLANK.(sock := pi.s0, s0 := pi.s0, num := 1), pi).(ip := pi.ip, lastSeen := now - ACTIVE_WINDOW - 1)));
    }
    hide OnlyAbout, Has, Put, PendingInformed, Extras, Without, KnownMoved;
  }

  /** A known entry moved back and then changed. */
  lemma MovedPut(l: Lists, mac: Mac, info: Info)
    requires Sound(l) && Has(l.known, mac)
    ensures var m := BackToPending(l, mac);
            Has(m.pending, mac) && InfoOf(m.pending, mac) == InfoOf(l.known, mac)
            && OnlyAbout(l, m.(pending := Put(m.pending, mac, info)), mac)
  {
    var m := BackToPending(l, mac);
    MoveOk(l, mac, InfoOf(l.known, mac));
    OnlyAboutSound(l, m, mac);
    AbsentHas(m.pending, mac);
    PutPending(m, mac, info);
    hide Has, Put, Without, Unique;
  }

  lemma PunchRequestOk(env: Env, l: Lists, pi: PeerMsg, now: nat)
    requires Sound(l)
    ensures OnlyAbout(l, OnPunch(env, l, pi, now), pi.mac)
  {
    var mac := pi.mac;
    Unchanged(l, mac);
    if Has(l.known, mac) {
      MovedPut(l, mac, Punched(env, InfoOf(l.known, mac), pi, now));
    } else if Has(l.pending, mac) {
      PutPending(l, mac, Punched(env, InfoOf(l.pending, mac), pi, now));
    } else {
      var e := Entry(mac, BLANK.(lastSeen := now));
    }
    hide OnlyAbout, Has, Put, Punched, Without, Alive, InfoOf;
  }

  lemma DeregisterOk(l: Lists, mac: Mac)
    requires Sound(l)
    ensures OnlyAbout(l, OnDeregister(l, mac), mac)
  {
    hide Has, Without, Look, Unique;
    forall m ensures Look(Without(l.known, mac), m) == (if m == mac then Absent else Look(l.known, m))
        && Unique(Without(l.known, mac)) {
      LookWithout(l.known, mac, m);
    }
    forall m ensures Look(Without(l.pending, mac), m) == (if m == mac then Absent else Look(l.pending, m))
        && Unique(Without(l.pending, mac)) {
      LookWithout(l.pending, mac, m);
    }
    LookWithout(l.known, mac, mac);
    LookWithout(l.pending, mac, mac);
    AbsentHas(Without(l.known, mac), mac);
  }

  lemma PacketOk(l: Lists, f: Frame, now: nat)
    requires Sound(l)
    ensures OnlyAbout(l, OnPacket(l, f, now), f.mac)
  {
    Unchanged(l, f.mac);
    if Has(l.known, f.mac) {
      PutKnown(l, f.mac, FrameSeen(InfoOf(l.known, f.mac), f, true, now));
    } else if Has(l.pending, f.mac) {
      PutPending(l, f.mac, FrameSeen(InfoOf(l.pending, f.mac), f, false, now));
    } else if f.fromSn {
      var i1 := BLANK.(sock := f.orig, s0 := f.orig, num := 1, lastSeen := now - ACTIVE_WINDOW - 1, ip := f.ip);
      AddPending(l, Entry(f.mac, if f.orig.family == AF_INET6 then i1.(sock6 := f.orig) else i1));
    }
    hide OnlyAbout, Has, Put, FrameSeen;
  }

  /** An event about one peer changes nothing about any other, and leaves this one in one list at most. */
  lemma NextOnlyAbout(env: Env, l: Lists, e: Event, now: nat)
    requires Sound(l) && AboutOne(e)
    ensures OnlyAbout(l, Next(env, l, e, now), MacOf(e))
  {
    hide OnlyAbout, Sound, Put, Has, InfoOf, Without, TrySendRegister, TrySendRegisterLan, SetOperational,
      OnPeerInfo, OnPunch, OnDeregister,
         OnPacket, KnownRegistered, Store, Started, SamePublic;
    var mac := MacOf(e);
    Unchanged(l, mac);
    match e {
      case Register(_, regSock, sender, orig) =>
        if Has(l.known, mac) {
          PutKnown(l, mac, KnownRegistered(InfoOf(l.known, mac), orig, now));
        } else {
          RegisterLanOk(l, mac, orig, regSock.(port := orig.port), now);
          RegisterOk(env, l, mac, orig, now);
        }
      case RegisterAck(_, _, sender) =>
        OperationalOk(l, mac, sender, now);
        if Has(l.pending, mac) { PutPending(l, mac, InfoOf(l.pending, mac).(lastSeen := now)); }
      case Probe(_, sender) =>
        if Has(l.known, mac) {
          PutKnown(l, mac, InfoOf(l.known, mac).(lastSeen := now, directSeen := now));
        } else if Has(l.pending, mac) {
          PutPending(l, mac, Store(InfoOf(l.pending, mac), sender));
        } else {
          RegisterOk(env, l, mac, sender, now);
        }
      case ProbeAck(_) =>
        if Has(l.known, mac) { PutKnown(l, mac, InfoOf(l.known, mac).(lastSeen := now, directSeen := now)); }
      case PeerInfo(pi, syncing) => PeerInfoOk(env, l, pi, syncing, now);
      case PunchRequest(pi) => PunchRequestOk(env, l, pi, now);
      case Deregister(_) => DeregisterOk(l, mac);
      case Packet(f) => PacketOk(l, f, now);
      case Send(_) =>
        if Has(l.pending, mac) {
          PutPending(l, mac, InfoOf(l.pending, mac).(lastQuery := now));
        } else if Has(l.known, mac) {
          PutKnown(l, mac, InfoOf(l.known, mac).(lastQuery := now));
        } else {
          AddPending(l, Entry(mac, BLANK.(lastQuery := now, lastSeen := now)));
        }
      case Silence(_) =>
        if Has(l.known, mac) {
          var info := InfoOf(l.known, mac);
          PutKnown(l, mac, Started(env, info.(directSeen := 0, punch := Forget(info.punch)), now));
        }
    }
  }

  // ---------------------------------------------------------------- ticks

  /** t has its addresses from s. */
  ghost predicate FewerMacs(t: seq<Entry>, s: seq<Entry>) {
    forall m :: Has(t, m) ==> Has(s, m)
  }

  /** One entry more at the head. */
  lemma ConsOk(e: Entry, t: seq<Entry>, s: seq<Entry>)
    requires s != [] && e.mac == s[0].mac && Unique(s) && Unique(t) && FewerMacs(t, s[1..])
    ensures Unique([e] + t) && FewerMacs([e] + t, s)
  {
    hide IndexOf;
    assert !Has(s[1..], e.mac);
    LookAdd(e, t, e.mac);
    forall m | Has([e] + t, m) ensures Has(s, m) {
      LookAdd(e, t, m);
      if m != e.mac {
        assert Has(t, m) && Has(s[1..], m);
      }
    }
  }

  /** The purge keeps exactly the entries seen in time. */
  lemma {:induction false} PurgedOk(s: seq<Entry>, before: int)
    requires Unique(s)
    ensures Unique(Purged(s, before)) && FewerMacs(Purged(s, before), s)
    ensures forall e :: e in Purged(s, before) <==> e in s && e.info.lastSeen >= before
  {
    if s != [] {
      PurgedOk(s[1..], before);
      var t := Purged(s[1..], before);
      assert s == [s[0]] + s[1..];
      hide IndexOf;
      if s[0].info.lastSeen >= before { ConsOk(s[0], t, s); }
    }
  }

  /** A pass of check_punch_timeouts treats every pending peer by itself. */
  lemma {:induction false} PunchPassOk(env: Env, s: seq<Entry>, now: nat)
    requires Unique(s)
    ensures Unique(PunchPass(env, s, now)) && FewerMacs(PunchPass(env, s, now), s)
    ensures forall i :: 0 <= i < |s| ==>
              var info := LanTicked(env, s[i].info, now);
              Look(PunchPass(env, s, now), s[i].mac)
                  == if Stuck(info, now) then Absent else Found(WanTicked(env, info, now))
  {
    if s != [] {
      PunchPassOk(env, s[1..], now);
      var t, info := PunchPass(env, s[1..], now), LanTicked(env, s[0].info, now);
      hide IndexOf, LanTicked, WanTicked, Stuck, PunchPass;
      var e := Entry(s[0].mac, WanTicked(env, info, now));
      assert !Has(s[1..], e.mac);
      assert FewerMacs(t, s[1..]);
      assert !Has(t, e.mac);
      ConsOk(e, t, s);
      forall i | 0 <= i < |s|
        ensures var info := LanTicked(env, s[i].info, now);
                Look(PunchPass(env, s, now), s[i].mac)
                    == if Stuck(info, now) then Absent else Found(WanTicked(env, info, now))
      {
        LookAdd(e, t, s[i].mac);
        if i > 0 {
          assert s[1..][i - 1] == s[i] && s[i].mac != e.mac;
        }
      }
    }
  }

  /** On one peer it is TickPunch, the punch machine of EdgePunch. */
  lemma PassIsTickPunch(env: Env, info: Info, now: nat)
    ensures var i1 := LanTicked(env, info, now);
            !Stuck(i1, now) ==>
              WanTicked(env, i1, now).punch == TickPunch(info.punch, info.num == 2, CanPunch(env, info), now).0
  {
  }

  /** How a restart goes about it. */
  function WayOf(env: Env, info: Info, pi: PeerMsg): Way {
    var v6 := info.sock6.family == AF_INET6 && env.udp6;
    if v6 && env.snIpv6 then Wan
    else if !SameLan(env, pi.hasLocal, pi.s0, pi.s1) then Wan
    else if v6 then Both else Lan
  }

  /** A PUNCH request that brings the addresses we have is the handoff of EdgePunch: the punch is left alone
      unless none is under way. */
  lemma PunchedIsHandoff(env: Env, info: Info, pi: PeerMsg, now: nat)
    requires !env.useWs && info.sock.family != AF_INET6
    requires var i1 := Extras(Store(info, pi.s0).(s0 := pi.s0, num := 1), pi);
             i1.sock == info.sock && i1.sock6 == info.sock6
    ensures Punched(env, info, pi, now).punch ==
            Handoff(info.punch, WayOf(env, info, pi), Alive(info, now), CanPunch(env, info), now).0
  {
  }

  /** And try_send_register from the address we have is its registration. */
  lemma ReregisteredIsRegister(env: Env, info: Info, peer: Sock, now: nat)
    requires !env.useWs && Slot(info, peer.family) == peer
    ensures Reregistered(env, info, peer, now).punch == EdgePunch.Register(info.punch, CanPunch(env, info), now).0
  {
  }

  lemma CutOk(s: seq<Entry>, k: nat)
    requires k < |s| && Unique(s)
    ensures Unique(Cut(s, k)) && FewerMacs(Cut(s, k), s)
  {
  }

  lemma {:induction false} WithoutIpsOk(s: seq<Entry>, ips: seq<nat>, relayed: bool)
    requires Unique(s)
    ensures Unique(WithoutIps(s, ips, relayed)) && FewerMacs(WithoutIps(s, ips, relayed), s)
    decreases |ips|
  {
    hide IndexOf, Unique;
    if ips != [] {
      var n := |ips| - 1;
      WithoutIpsOk(s, ips[..n], relayed);
      var t := WithoutIps(s, ips[..n], relayed);
      var i := IndexOfIp(t, ips[n], relayed);
      if i >= 0 { CutOk(t, i); }
    }
  }

  lemma NextSound(env: Env, l: Lists, e: Event, now: nat)
    requires Sound(l)
    ensures Sound(Next(env, l, e, now))
  {
    if AboutOne(e) {
      NextOnlyAbout(env, l, e, now);
      OnlyAboutSound(l, Next(env, l, e, now), MacOf(e));
      hide OnlyAbout, Sound, Next, MacOf;
    } else {
      var l' := Next(env, l, e, now);
      if e.SyncEnd? {
        WithoutIpsOk(l.known, e.ips, true);
        WithoutIpsOk(l.pending, e.ips, false);
      } else if e.Purge? {
        PurgedOk(l.known, now - REGISTRATION_TIMEOUT);
        PurgedOk(l.pending, now - STUCK_SECS);
      } else {
        PunchPassOk(env, l.pending, now);
      }
      hide Has, Unique, FewerMacs, Purged, PunchPass, WithoutIps;
    }
  }

  // ---------------------------------------------------------------- whole runs

  datatype Stamped = Stamped(env: Env, e: Event, now: nat)

  /** The lists after any messages, sends and ticks, from nothing. */
  function After(run: seq<Stamped>): Lists
    decreases |run|
  {
    if run == [] then Lists([], [])
    else
      var n := |run| - 1;
      Next(run[n].env, After(run[..n]), run[n].e, run[n].now)
  }

  /** In every reachable state no MAC occurs twice in known_peers and pending_peers taken together. */
  lemma {:induction false} NoMacTwice(run: seq<Stamped>)
    ensures NoDup(After(run))
    decreases |run|
  {
    SoundAfter(run);
    NoDupParts(After(run));
  }

  lemma {:induction false} SoundAfter(run: seq<Stamped>)
    ensures Sound(After(run))
    decreases |run|
  {
    if run != [] {
      var n := |run| - 1;
      SoundAfter(run[..n]);
      NextSound(run[n].env, After(run[..n]), run[n].e, run[n].now);
      hide Sound, Next;
    }
  }

  /** Entry k of b goes to the head of a, as e. */
  lemma Carried(a: seq<Entry>, b: seq<Entry>, k: nat, e: Entry)
    requires k < |b|
    ensures multiset(([e] + a) + Cut(b, k)) == multiset(Cut(b, k) + ([e] + a))
            == multiset(a + b) - multiset{b[k]} + multiset{e}
    ensures multiset(a + b) == multiset(b + a)
  {
    assert b == b[..k] + [b[k]] + b[k + 1..];
  }

  /** A move neither loses nor copies an entry: the entries of both lists, counted, are the same afterwards ... */
  lemma DemotionConserves(l: Lists, mac: Mac)
    ensures var l' := BackToPending(l, mac); multiset(l'.known + l'.pending) == multiset(l.known + l.pending)
  {
    hide IndexOf;
    if Has(l.known, mac) {
      Carried(l.pending, l.known, IndexOf(l.known, mac), Entry(mac, InfoOf(l.known, mac)));
    }
  }

  /** ... but for what the move writes into the one that moved. */
  lemma PromotionConserves(l: Lists, mac: Mac, peer: Sock, now: nat)
    requires Has(l.pending, mac)
    ensures var l', info := SetOperational(l, mac, peer, now), InfoOf(l.pending, mac);
            multiset(l'.known + l'.pending) ==
            multiset(l.known + l.pending) - multiset{Entry(mac, info)}
                + multiset{Entry(mac, Operational(info, peer, now))}
  {
    hide IndexOf, Operational;
    Carried(l.known, l.pending, IndexOf(l.pending, mac), Entry(mac, Operational(InfoOf(l.pending, mac), peer, now)));
  }
}
