/** What becomes of the peer that an event is about, field by field. */
module EdgeEffects {
  import EdgePunch
  import opened EdgePeers

  /** Where a peer is. */
  datatype Place = Nowhere | Known(info: Info) | Pending(info: Info)

  function At(l: Lists, mac: Mac): Place {
    if Has(l.known, mac) then Known(InfoOf(l.known, mac))
    else if Has(l.pending, mac) then Pending(InfoOf(l.pending, mac))
    else Nowhere
  }

  lemma AtPutKnown(l: Lists, mac: Mac, info: Info)
    requires Has(l.known, mac)
    ensures At(l.(known := Put(l.known, mac, info)), mac) == Known(info)
  {
    LookPut(l.known, mac, info, mac);
    hide IndexOf, Put;
  }

  lemma AtPutPending(l: Lists, mac: Mac, info: Info)
    requires !Has(l.known, mac) && Has(l.pending, mac)
    ensures At(l.(pending := Put(l.pending, mac, info)), mac) == Pending(info)
  {
    LookPut(l.pending, mac, info, mac);
    hide IndexOf, Put;
  }

  lemma AtAdd(l: Lists, mac: Mac, info: Info)
    requires !Has(l.known, mac)
    ensures At(l.(pending := [Entry(mac, info)] + l.pending), mac) == Pending(info)
  {
    LookAdd(Entry(mac, info), l.pending, mac);
    hide IndexOf;
  }

  lemma AtMoveUp(l: Lists, mac: Mac, info: Info)
    ensures At(Lists([Entry(mac, info)] + l.known, Without(l.pending, mac)), mac) == Known(info)
  {
    LookAdd(Entry(mac, info), l.known, mac);
    hide IndexOf, Without;
  }

  lemma AtMoveDown(l: Lists, mac: Mac, info: Info)
    requires Sound(l) && Has(l.known, mac)
    ensures var m := BackToPending(l, mac);
            && At(m, mac) == Pending(InfoOf(l.known, mac)) && Has(m.pending, mac) && !Has(m.known, mac)
            && At(m.(pending := Put(m.pending, mac, info)), mac) == Pending(info)
  {
    var m := BackToPending(l, mac);
    MoveOk(l, mac, InfoOf(l.known, mac));
    AbsentHas(m.pending, mac);
    hide IndexOf, Put, Without;
    AtPutPending(m, mac, info);
  }

  lemma AtCut(l: Lists, mac: Mac)
    requires Sound(l)
    ensures At(OnDeregister(l, mac), mac) == Nowhere
  {
    LookWithout(l.known, mac, mac);
    LookWithout(l.pending, mac, mac);
    AbsentHas(Without(l.known, mac), mac);
    AbsentHas(Without(l.pending, mac), mac);
    hide IndexOf, Without;
  }

  // ---------------------------------------------------------------- acknowledgements and contact

  /** A REGISTER_ACK straight from a pending peer makes it known, by the address that answered and no other: its slot
      holds that address, the other none; the contact is now; and no punch runs or has failed.  A known peer is moved
      only from IPv6 to an IPv4 address that answers late.  One through the supernode only shows that a pending peer
      lives. */
  lemma RegisterAckEffect(env: Env, l: Lists, mac: Mac, fromSn: bool, sender: Sock, now: nat)
    requires Sound(l)
    ensures var at, at' := At(l, mac), At(Next(env, l, RegisterAck(mac, fromSn, sender), now), mac);
            match at
            case Nowhere => at' == Nowhere
            case Pending(i) =>
              if fromSn then at' == Pending(i.(lastSeen := now))
              else
                && at'.Known?
                && (if sender.family == 10 then at'.info.sock6 == sender && at'.info.sock == Sock(0, 0, 0)
                    else at'.info.sock == sender && at'.info.sock6 == Sock(0, 0, 0))
                && at'.info.lastSeen == at'.info.directSeen == now
                && at'.info.punch.start == 0 && !at'.info.punch.failed
                && at'.info == i.(sock := at'.info.sock, sock6 := at'.info.sock6, lastSeen := now, directSeen := now,
                                  punch := i.punch.(start := 0, failed := false))
            case Known(i) =>
              at' == if !fromSn && i.sock6.family == 10 && i.sock.family == 0 && sender.family == 2
                     then Known(i.(sock := sender, sock6 := Sock(0, 0, 0), lastSeen := now)) else at
  {
    match At(l, mac) {
      case Nowhere =>
      case Pending(i) =>
        AtMoveUp(l, mac, Operational(i, sender, now));
        AtPutPending(l, mac, i.(lastSeen := now));
      case Known(i) =>
        AtPutKnown(l, mac, i.(sock := sender, sock6 := NO_SOCK, lastSeen := now));
    }
    hide Put, Has, InfoOf, Without;
  }

  /** A PROBE or PROBE_ACK is a contact with a known peer. */
  lemma ProbeAckEffect(env: Env, l: Lists, mac: Mac, now: nat)
    requires Sound(l)
    ensures var at := At(l, mac);
            At(Next(env, l, ProbeAck(mac), now), mac) ==
            if at.Known? then Known(at.info.(lastSeen := now, directSeen := now)) else at
  {
    if At(l, mac).Known? { AtPutKnown(l, mac, At(l, mac).info.(lastSeen := now, directSeen := now)); }
    hide Put, Has, InfoOf;
  }

  /** A peer that leaves is in neither list. */
  lemma DeregisterEffect(env: Env, l: Lists, mac: Mac, now: nat)
    requires Sound(l)
    ensures At(Next(env, l, Deregister(mac), now), mac) == Nowhere
  {
    AtCut(l, mac);
  }

  // ---------------------------------------------------------------- registering

  /** There is an address that we can punch. */
  predicate CanReach(env: Env, i: Info) {
    !env.useWs && ((i.sock.family == 2 && env.udp4) || (i.sock6.family == 10 && i.sock6.addr != 0 && env.own6))
  }

  /** j is i, and its punch runs from now on if it can and none had begun. */
  predicate Begins(env: Env, i: Info, j: Info, now: nat) {
    j == if i.punch.start == 0 && !i.punch.failed && CanReach(env, i)
         then i.(punch := i.punch.(start := now, round := 0, roundTime := now)) else i
  }

  /** i with the address in the slot of its family. */
  function With(i: Info, peer: Sock): Info {
    if peer.family == 10 then i.(sock6 := peer) else i.(sock := peer)
  }

  predicate HasAddress(i: Info, peer: Sock) {
    if peer.family == 10 then i.sock6 == peer else i.sock == peer
  }

  /** A punch of which all but the last round is forgotten. */
  function Anew(p: EdgePunch.Punch): EdgePunch.Punch {
    EdgePunch.Punch(0, false, p.round, p.roundTime, 0, 0, 0, false)
  }

  /** A pending peer registers with an address: one it had starts a punch if none had begun; another replaces the one
      of its family, and all is forgotten of the old punch. */
  predicate Registers(env: Env, i: Info, j: Info, peer: Sock, now: nat) {
    if HasAddress(i, peer) then Begins(env, i, j, now)
    else Begins(env, With(i, peer).(num := 1, s0 := peer, punch := Anew(i.punch)), j, now)
  }

  lemma ReregisteredEffect(env: Env, i: Info, peer: Sock, now: nat)
    ensures Registers(env, i, Reregistered(env, i, peer, now), peer, now)
  {
  }

  /** Both are behind one public IPv4 address, and the peer has told its own. */
  predicate OneLan(env: Env, told: bool, peer: Sock, lan: Sock) {
    told && lan.family != 0 && lan.port != 0
    && env.publicSock.family == 2 && peer.family == 2 && env.publicSock.addr == peer.addr
  }

  /** The LAN phase begins, with both addresses. */
  function LanBegun(i: Info, peer: Sock, lan: Sock, now: nat): Info {
    With(i, peer).(num := 2, s0 := peer, s1 := lan,
                   punch := i.punch.(start := 0, failed := false, lanStart := now, lanDone := false))
  }

  /** A REGISTER from an unknown or pending peer makes it pending, by LAN or by the address it came from.  One from a
      known peer shows that it lives, and moves it if its address in the same family has changed. */
  lemma RegisterEffect(env: Env, l: Lists, mac: Mac, regSock: Sock, sender: Sock, orig: Sock, now: nat)
    requires Sound(l)
    ensures var at, at' := At(l, mac), At(Next(env, l, Register(mac, regSock, sender, orig), now), mac);
            var lan := OneLan(env, env.localEna, sender, regSock);
            match at
            case Known(i) =>
              && at'.Known?
              && at'.info == (if (i.sock.family == 2) != (orig.family == 2) then i
                              else if i.sock.family == 2 then
                                i.(lastSeen := now, sock := orig, s0 := if i.sock == orig then i.s0 else orig)
                              else i.(lastSeen := now, sock6 := orig, s0 := if i.sock6 == orig then i.s0 else orig))
            case Pending(i) =>
              at'.Pending? && if lan then at'.info == LanBegun(i, orig, regSock.(port := orig.port), now)
                              else Registers(env, i, at'.info, orig, now)
            case Nowhere =>
              && at'.Pending?
              && if lan then at'.info == LanBegun(BLANK, orig, regSock.(port := orig.port), now).(lastSeen := now)
                 else Begins(env, With(BLANK, orig).(lastSeen := now), at'.info, now)
  {
    var lan := regSock.(port := orig.port);
    match At(l, mac) {
      case Known(i) => AtPutKnown(l, mac, KnownRegistered(i, orig, now));
      case Pending(i) =>
        AtPutPending(l, mac, OnLan(i, orig, lan, now));
        AtPutPending(l, mac, Reregistered(env, i, orig, now));
        ReregisteredEffect(env, i, orig, now);
      case Nowhere =>
        AtAdd(l, mac, OnLan(BLANK, orig, lan, now).(lastSeen := now));
        AtAdd(l, mac, Started(env, Store(BLANK, orig).(lastSeen := now), now));
    }
    hide Put, Has, InfoOf, Reregistered, Registers;
  }

  /** A PROBE is a contact with a known peer, shows a pending one at another address, and makes an unknown one
      pending. */
  lemma ProbeEffect(env: Env, l: Lists, mac: Mac, sender: Sock, now: nat)
    requires Sound(l)
    ensures var at, at' := At(l, mac), At(Next(env, l, Probe(mac, sender), now), mac);
            match at
            case Known(i) => at' == Known(i.(lastSeen := now, directSeen := now))
            case Pending(i) => at' == Pending(With(i, sender))
            case Nowhere => at'.Pending? && Begins(env, With(BLANK, sender).(lastSeen := now), at'.info, now)
  {
    match At(l, mac) {
      case Known(i) => AtPutKnown(l, mac, i.(lastSeen := now, directSeen := now));
      case Pending(i) => AtPutPending(l, mac, Store(i, sender));
      case Nowhere => AtAdd(l, mac, Started(env, Store(BLANK, sender).(lastSeen := now), now));
    }
    hide Put, Has, InfoOf;
  }

  // ---------------------------------------------------------------- news from the supernode

  /** A LAN address and an IPv6 address that the message carries. */
  function Told(i: Info, pi: PeerMsg): Info {
    var i1 := if pi.hasLocal && pi.s1.family != 0 && pi.s1.port != 0 then i.(s1 := pi.s1, num := 2) else i;
    if pi.hasV6 && pi.sock6.family == 10 then i1.(sock6 := pi.sock6) else i1
  }

  /** Everything about the punch is forgotten.  With IPv6 here and at the supernode only that is punched; otherwise
      the LAN or the IPv4 address, and beside it IPv6 if there is any. */
  ghost predicate Restarts(env: Env, i: Info, j: Info, pi: PeerMsg, now: nat) {
    if env.useWs then j == i
    else
      var i1 := i.(num := 1, punch := EdgePunch.Punch(0, false, 0, 0, 0, 0, 0, false));
      if i.sock6.family == 10 && env.udp6 && env.snIpv6 then Begins(env, i1, j, now)
      else
        exists m ::
          && (if OneLan(env, pi.hasLocal, pi.s0, pi.s1) then m == LanBegun(i1, pi.s0, pi.s1.(port := pi.s0.port), now)
              else Registers(env, i1, m, i.sock, now))
          && if i.sock6.family == 10 && m.sock6.family == 10 && env.udp6 then Begins(env, m, j, now) else j == m
  }

  lemma RestartedEffect(env: Env, i: Info, pi: PeerMsg, now: nat)
    ensures Restarts(env, i, Restarted(env, i, pi.hasLocal, pi.s0, pi.s1, now), pi, now)
  {
    if !env.useWs {
      var i1 := i.(num := 1, punch := EdgePunch.Forget(i.punch).(round := 0, roundTime := 0));
      ReregisteredEffect(env, i1, i1.sock6, now);
      var m := if SameLan(env, pi.hasLocal, pi.s0, pi.s1) then OnLan(i1, pi.s0, pi.s1.(port := pi.s0.port), now)
               else Reregistered(env, i1, i1.sock, now);
      ReregisteredEffect(env, i1, i1.sock, now);
      ReregisteredEffect(env, m, m.sock6, now);
    }
    hide Reregistered;
  }

  /** A restart arms the LAN phase or a punch whenever there is somewhere to punch. */
  lemma RestartArms(env: Env, i: Info, j: Info, pi: PeerMsg, now: nat)
    requires Restarts(env, i, j, pi, now) && now > 0
    ensures CanReach(env, j) ==> j.punch.start == now || j.punch.lanStart == now
    ensures !env.useWs ==> !j.punch.failed && j.punch.retries == 0
  {
  }

  /** A pending peer of which a PEER_INFO tells: its addresses are taken over, and a change restarts the punch if it is
      talking or was heard of in the last thirty seconds. */
  ghost predicate Informs(env: Env, i: Info, j: Info, pi: PeerMsg, moved: bool, now: nat) {
    var i1 := Told(if pi.s0.family == 2 then i.(sock := pi.s0, s0 := pi.s0) else i, pi).(ip := pi.ip);
    var news := || (pi.s0.family == 2 && (i.sock.family != 2 || i.sock != pi.s0))
                || (pi.sock6.family == 10 && (i.sock6.family != 10 || i.sock6 != pi.sock6));
    if (moved || news) && (i.directSeen != 0 || now - i.lastSeen <= 30) then Restarts(env, i1, j, pi, now) else j == i1
  }

  lemma InformedEffect(env: Env, i: Info, pi: PeerMsg, moved: bool, now: nat)
    ensures Informs(env, i, PendingInformed(env, i, pi, moved, now), pi, moved, now)
  {
    var i1 := Told(if pi.s0.family == 2 then i.(sock := pi.s0, s0 := pi.s0) else i, pi).(ip := pi.ip);
    RestartedEffect(env, i1, pi, now);
    hide Restarts, Restarted;
  }

  /** A known peer is moved back if its address in some family has changed, unless it is in touch during a sync; an
      unknown one is added as if last heard of before the punch window. */
  lemma PeerInfoEffect(env: Env, l: Lists, pi: PeerMsg, syncing: bool, now: nat)
    requires Sound(l)
    ensures var at, at' := At(l, pi.mac), At(Next(env, l, PeerInfo(pi, syncing), now), pi.mac);
            match at
            case Known(i) =>
              var moved := || (pi.s0.family == 2 && i.sock.family == 2 && i.sock != pi.s0)
                           || (pi.sock6.family == 10 && i.sock6.family == 10 && i.sock6 != pi.sock6);
              if syncing && i.directSeen != 0 then at' == at
              else if !moved then at' == Known(Told(i, pi).(ip := if pi.ip != 0 then pi.ip else i.ip))
              else at'.Pending? && Informs(env, i, at'.info, pi, true, now)
            case Pending(i) => at'.Pending? && Informs(env, i, at'.info, pi, false, now)
            case Nowhere =>
              at' == Pending(Told(BLANK.(sock := pi.s0, s0 := pi.s0, num := 1), pi).(ip := pi.ip, lastSeen := now - 31))
  {
    hide Put, Has, InfoOf, PendingInformed, Informs, BackToPending;
    match At(l, pi.mac) {
      case Known(i) =>
        AtPutKnown(l, pi.mac, Told(i, pi).(ip := if pi.ip != 0 then pi.ip else i.ip));
        AtMoveDown(l, pi.mac, PendingInformed(env, i, pi, true, now));
        InformedEffect(env, i, pi, true, now);
      case Pending(i) =>
        AtPutPending(l, pi.mac, PendingInformed(env, i, pi, false, now));
        InformedEffect(env, i, pi, false, now);
      case Nowhere =>
        AtAdd(l, pi.mac, Told(BLANK.(sock := pi.s0, s0 := pi.s0, num := 1), pi).(ip := pi.ip, lastSeen := now - 31));
    }
  }

  /** The peer was in direct contact in the last five minutes. */
  predicate InTouch(i: Info, now: nat) {
    i.directSeen != 0 && now - i.directSeen < 300
  }

  /** A punch request to a peer that is pending: its address is taken over, and the punch starts anew if that has
      changed, or if none runs and the peer is not in touch. */
  ghost predicate Punches(env: Env, i: Info, j: Info, pi: PeerMsg, now: nat) {
    var i1 := Told(With(i, pi.s0).(s0 := pi.s0, num := 1), pi).(ip := pi.ip, lastSeen := now);
    if i1.sock != i.sock || i1.sock6 != i.sock6 || (i.punch.start == 0 && i.punch.lanStart == 0 && !InTouch(i, now))
    then Restarts(env, i1, j, pi, now) else j == i1
  }

  /** A punch request is skipped for a known peer in touch; any other peer is pending afterwards. */
  lemma PunchRequestEffect(env: Env, l: Lists, pi: PeerMsg, now: nat)
    requires Sound(l)
    ensures var at, at' := At(l, pi.mac), At(Next(env, l, PunchRequest(pi), now), pi.mac);
            if at.Known? && InTouch(at.info, now) then at' == at
            else
              && at'.Pending?
              && Punches(env, if at.Nowhere? then BLANK.(lastSeen := now) else at.info, at'.info, pi, now)
  {
    PunchedEffect(env, if At(l, pi.mac).Nowhere? then BLANK.(lastSeen := now) else At(l, pi.mac).info, pi, now);
    PunchedAt(env, l, pi, now);
    hide OnPunch, At, Punches, EdgePeers.Punched, Sound;
  }

  lemma PunchedAt(env: Env, l: Lists, pi: PeerMsg, now: nat)
    requires Sound(l)
    ensures var at := At(l, pi.mac);
            At(OnPunch(env, l, pi, now), pi.mac) ==
            if at.Known? && InTouch(at.info, now) then at
            else Pending(EdgePeers.Punched(env, if at.Nowhere? then BLANK.(lastSeen := now) else at.info, pi, now))
  {
    var at := At(l, pi.mac);
    var i := if at.Nowhere? then BLANK.(lastSeen := now) else at.info;
    var j := EdgePeers.Punched(env, i, pi, now);
    match at {
      case Known(_) => AtMoveDown(l, pi.mac, j);
      case Pending(_) => AtPutPending(l, pi.mac, j);
      case Nowhere => AddAndPut(l, pi.mac, i, j);
    }
    hide Put, Has, InfoOf, EdgePeers.Punched, Without, Unique;
  }

  lemma PunchedEffect(env: Env, i: Info, pi: PeerMsg, now: nat)
    ensures Punches(env, i, Punched(env, i, pi, now), pi, now)
  {
    RestartedEffect(env, Told(With(i, pi.s0).(s0 := pi.s0, num := 1), pi).(ip := pi.ip, lastSeen := now), pi, now);
    hide Restarts, Restarted;
  }

  lemma AddAndPut(l: Lists, mac: Mac, i: Info, j: Info)
    requires !Has(l.known, mac) && !Has(l.pending, mac)
    ensures var p := [Entry(mac, i)] + l.pending;
            Has(p, mac) && InfoOf(p, mac) == i && At(l.(pending := Put(p, mac, j)), mac) == Pending(j)
  {
    var p := [Entry(mac, i)] + l.pending;
    LookAdd(Entry(mac, i), l.pending, mac);
    AbsentHas(p, mac);
    AtPutPending(l.(pending := p), mac, j);
  }

  // ---------------------------------------------------------------- frames and sends

  /** A frame straight from a peer: a contact, and a known peer that moved within the family it is reached by is
      followed there, unless the frame shows no address or claims the broadcast one. */
  predicate Followed(i: Info, j: Info, known: bool, mac: Mac, orig: Sock, now: nat) {
    var slot := if i.sock.family == 2 then i.sock else i.sock6;
    var moved := slot != orig && if orig.family == 2 then i.sock.family == 2 else i.sock6.family == 10;
    var follow := moved && known && orig.addr != 0 && mac != 0xffff_ffff_ffff;
    j == i.(directSeen := now, lastSeen := if moved && !follow then i.lastSeen else now,
            sock := if follow && i.sock.family == 2 && orig.family == 2 then orig else i.sock,
            sock6 := if follow && i.sock.family != 2 && orig.family != 2 then orig else i.sock6)
  }

  /** One through the supernode or a relay: the peer lives if the frame is for us, and its address is taken over as
      long as there never was a direct contact. */
  predicate Relayed(i: Info, j: Info, psock: Sock, toUs: bool, now: nat) {
    var learn := i.directSeen == 0 && psock.addr != 0;
    j == i.(sock := if learn && i.sock.family == 2 then psock else i.sock,
            sock6 := if learn && i.sock.family != 2 then psock else i.sock6,
            lastSeen := if toUs then now else i.lastSeen)
  }

  /** What a frame leaves of its sender: followed or only relayed, and its virtual address if none was known. */
  ghost predicate Framed(i: Info, j: Info, f: Frame, known: bool, now: nat) {
    exists m ::
      && (if f.fromSn || f.fromRelay then Relayed(i, m, f.psock, f.toUs, now)
          else Followed(i, m, known, f.mac, f.orig, now))
      && j == m.(ip := if m.ip == 0 then f.ip else m.ip)
  }

  lemma FrameEffect(i: Info, f: Frame, known: bool, now: nat)
    ensures Framed(i, FrameSeen(i, f, known, now), f, known, now)
  {
    var m := if f.fromSn || f.fromRelay then RelayedFrame(i, f.psock, f.toUs, now)
             else DirectFrame(i, known, f.mac, f.orig, now);
    assert if f.fromSn || f.fromRelay then Relayed(i, m, f.psock, f.toUs, now)
           else Followed(i, m, known, f.mac, f.orig, now);
    hide Relayed, Followed, RelayedFrame, DirectFrame;
  }

  /** A frame never moves a peer between the lists; one through the supernode from an unknown peer adds it, as if last
      heard of before the punch window. */
  lemma PacketEffect(env: Env, l: Lists, f: Frame, now: nat)
    requires Sound(l)
    ensures var at, at' := At(l, f.mac), At(Next(env, l, Packet(f), now), f.mac);
            match at
            case Known(i) => at'.Known? && Framed(i, at'.info, f, true, now)
            case Pending(i) => at'.Pending? && Framed(i, at'.info, f, false, now)
            case Nowhere =>
              at' == if !f.fromSn then Nowhere
                     else Pending(BLANK.(sock := f.orig, sock6 := if f.orig.family == 10 then f.orig else Sock(0, 0, 0),
                                         s0 := f.orig, num := 1, lastSeen := now - 31, ip := f.ip))
  {
    match At(l, f.mac) {
      case Known(i) =>
        AtPutKnown(l, f.mac, FrameSeen(i, f, true, now));
        FrameEffect(i, f, true, now);
      case Pending(i) =>
        AtPutPending(l, f.mac, FrameSeen(i, f, false, now));
        FrameEffect(i, f, false, now);
      case Nowhere =>
        AtAdd(l, f.mac, BLANK.(sock := f.orig, sock6 := if f.orig.family == 10 then f.orig else Sock(0, 0, 0),
                               s0 := f.orig, num := 1, lastSeen := now - 31, ip := f.ip));
    }
    hide Put, Has, InfoOf, FrameSeen, Framed;
  }

  /** A peer that one sends to without a direct path is asked for every five seconds at most; an unknown one is pending
      from then on. */
  lemma SendEffect(env: Env, l: Lists, mac: Mac, now: nat)
    requires Sound(l)
    ensures var at, at' := At(l, mac), At(Next(env, l, Send(mac), now), mac);
            match at
            case Nowhere => at' == Pending(BLANK.(lastQuery := now, lastSeen := now))
            case Known(i) => at' == Known(i.(lastQuery := if now >= i.lastQuery + 5 then now else i.lastQuery))
            case Pending(i) => at' == Pending(i.(lastQuery := if now >= i.lastQuery + 5 then now else i.lastQuery))
  {
    match At(l, mac) {
      case Known(i) => AtPutKnown(l, mac, i.(lastQuery := now));
      case Pending(i) => AtPutPending(l, mac, i.(lastQuery := now));
      case Nowhere => AtAdd(l, mac, BLANK.(lastQuery := now, lastSeen := now));
    }
    hide Put, Has, InfoOf;
  }

  /** A known peer that is given up stays known, without contact, and is punched anew. */
  lemma SilenceEffect(env: Env, l: Lists, mac: Mac, now: nat)
    requires Sound(l)
    ensures var at, at' := At(l, mac), At(Next(env, l, Silence(mac), now), mac);
            if at.Known? then
              at'.Known? && Begins(env, at.info.(directSeen := 0, punch := Anew(at.info.punch)), at'.info, now)
            else at' == at
  {
    if At(l, mac).Known? {
      var i := At(l, mac).info;
      AtPutKnown(l, mac, Started(env, i.(directSeen := 0, punch := EdgePunch.Forget(i.punch)), now));
    }
    hide Put, Has, InfoOf;
  }

  // ---------------------------------------------------------------- who is where

  /** The addresses of a known peer differ from those of a PEER_INFO in some family. */
  predicate Moved(i: Info, pi: PeerMsg) {
    || (pi.s0.family == 2 && i.sock.family == 2 && i.sock != pi.s0)
    || (pi.sock6.family == 10 && i.sock6.family == 10 && i.sock6 != pi.sock6)
  }

  /** A peer becomes known exactly by a REGISTER_ACK straight from it while it is pending; it stops being known
      exactly by a PEER_INFO with another address, a punch request while it is not in touch, or leaving; it is
      forgotten exactly by leaving; and a new one is entered by any sign of it but an acknowledgement, a frame
      straight from it, or silence. */
  lemma WhoIsWhere(env: Env, l: Lists, e: Event, now: nat)
    requires Sound(l) && AboutOne(e)
    ensures var at, at' := At(l, MacOf(e)), At(Next(env, l, e, now), MacOf(e));
            && (at'.Known? && !at.Known? <==> at.Pending? && e.RegisterAck? && !e.fromSn)
            && (at.Known? && !at'.Known? <==>
                  at.Known? && (|| e.Deregister? || (e.PunchRequest? && !InTouch(at.info, now))
                                || (e.PeerInfo? && Moved(at.info, e.pi) && !(e.syncing && at.info.directSeen != 0))))
            && (at'.Nowhere? && !at.Nowhere? <==> !at.Nowhere? && e.Deregister?)
            && (at.Nowhere? && !at'.Nowhere? <==>
                  at.Nowhere? && (|| e.Register? || e.Probe? || e.PeerInfo? || e.PunchRequest? || e.Send?
                                  || (e.Packet? && e.f.fromSn)))
  {
    match e {
      case Register(mac, regSock, sender, orig) => RegisterEffect(env, l, mac, regSock, sender, orig, now);
      case RegisterAck(mac, fromSn, sender) => RegisterAckEffect(env, l, mac, fromSn, sender, now);
      case Probe(mac, sender) => ProbeEffect(env, l, mac, sender, now);
      case ProbeAck(mac) => ProbeAckEffect(env, l, mac, now);
      case PeerInfo(pi, syncing) => PeerInfoEffect(env, l, pi, syncing, now);
      case PunchRequest(pi) => PunchRequestEffect(env, l, pi, now);
      case Deregister(mac) => DeregisterEffect(env, l, mac, now);
      case Packet(f) => PacketEffect(env, l, f, now);
      case Send(mac) => SendEffect(env, l, mac, now);
      case Silence(mac) => SilenceEffect(env, l, mac, now);
    }
    hide Next, At, Sound, Informs, Punches, Framed, Registers, Begins, With, LanBegun, Told, OneLan;
  }

  lemma RestartsKeep(env: Env, i: Info, j: Info, pi: PeerMsg, now: nat)
    ensures Restarts(env, i, j, pi, now) ==> j.directSeen == i.directSeen && j.lastSeen == i.lastSeen
  {
  }

  lemma InformsKeep(env: Env, i: Info, j: Info, pi: PeerMsg, moved: bool, now: nat)
    ensures Informs(env, i, j, pi, moved, now) ==> j.directSeen == i.directSeen
  {
    var i1 := if pi.s0.family == 2 then i.(sock := pi.s0, s0 := pi.s0) else i;
    RestartsKeep(env, Told(i1, pi).(ip := pi.ip), j, pi, now);
    hide Restarts;
  }

  lemma PunchesKeep(env: Env, i: Info, j: Info, pi: PeerMsg, now: nat)
    ensures Punches(env, i, j, pi, now) ==> j.directSeen == i.directSeen
  {
    RestartsKeep(env, Told(With(i, pi.s0).(s0 := pi.s0, num := 1), pi).(ip := pi.ip, lastSeen := now), j, pi, now);
    hide Restarts;
  }

  lemma FramedKeeps(i: Info, j: Info, f: Frame, known: bool, now: nat)
    ensures Framed(i, j, f, known, now) ==> j.directSeen == if f.fromSn || f.fromRelay then i.directSeen else now
  {
  }

  /** The time of the last direct contact is now after an acknowledgement that makes a peer known, a PROBE, a
      PROBE_ACK or a frame straight from it; it is forgotten when the peer is given up; and nothing else changes it. */
  lemma ContactIsDirect(env: Env, l: Lists, e: Event, now: nat)
    requires Sound(l) && AboutOne(e)
    ensures var at, at' := At(l, MacOf(e)), At(Next(env, l, e, now), MacOf(e));
            !at.Nowhere? && !at'.Nowhere? ==>
              at'.info.directSeen ==
              if (at.Pending? && e.RegisterAck? && !e.fromSn) || (at.Known? && (e.Probe? || e.ProbeAck?))
                 || (e.Packet? && !e.f.fromSn && !e.f.fromRelay) then now
              else if at.Known? && e.Silence? then 0
              else at.info.directSeen
    ensures var at, at' := At(l, MacOf(e)), At(Next(env, l, e, now), MacOf(e));
            at.Nowhere? && !at'.Nowhere? ==> at'.info.directSeen == 0
  {
    hide Next, At, Sound, OneLan, CanReach, HasAddress, Informs, Punches, Framed;
    var at, at' := At(l, MacOf(e)), At(Next(env, l, e, now), MacOf(e));
    var i, j := if at.Nowhere? then BLANK.(lastSeen := now) else at.info, if at'.Nowhere? then BLANK else at'.info;
    match e {
      case Register(mac, regSock, sender, orig) => RegisterEffect(env, l, mac, regSock, sender, orig, now);
      case RegisterAck(mac, fromSn, sender) => RegisterAckEffect(env, l, mac, fromSn, sender, now);
      case Probe(mac, sender) => ProbeEffect(env, l, mac, sender, now);
      case ProbeAck(mac) => ProbeAckEffect(env, l, mac, now);
      case PeerInfo(pi, syncing) =>
        PeerInfoEffect(env, l, pi, syncing, now);
        InformsKeep(env, i, j, pi, at.Known?, now);
      case PunchRequest(pi) =>
        PunchRequestEffect(env, l, pi, now);
        PunchesKeep(env, i, j, pi, now);
      case Deregister(mac) => DeregisterEffect(env, l, mac, now);
      case Packet(f) =>
        PacketEffect(env, l, f, now);
        FramedKeeps(i, j, f, at.Known?, now);
      case Send(mac) => SendEffect(env, l, mac, now);
      case Silence(mac) => SilenceEffect(env, l, mac, now);
    }
  }

  // ---------------------------------------------------------------- ticks

  /** A second in the life of a punch: the next of five rounds after two seconds, then failure; forty seconds after
      that a new attempt, twice. */
  predicate Goes(p: EdgePunch.Punch, q: EdgePunch.Punch, can: bool, now: nat) {
    q == if p.start != 0 && !p.failed then
           if now < p.roundTime + 2 then p
           else if p.round < 4 then p.(round := p.round + 1, roundTime := now)
           else p.(failed := true, resetTime := now)
         else if p.failed && p.retries < 3 && now > p.resetTime + 40 then
           if p.retries == 2 then p.(retries := 3)
           else if can then EdgePunch.Punch(now, false, 0, now, p.retries + 1, p.resetTime, 0, false)
           else EdgePunch.Punch(0, false, p.round, p.roundTime, p.retries + 1, p.resetTime, 0, false)
         else p
  }

  /** check_punch_timeouts on a pending peer.  Three seconds of LAN phase show it alive; then the phase is over and a
      punch begins.  A peer of which nothing began and nothing was heard for half an hour is removed; otherwise its
      punch goes on.  Known peers are not touched. */
  lemma TickEffect(env: Env, l: Lists, mac: Mac, now: nat)
    requires Sound(l) && !env.useWs
    ensures var at, at' := At(l, mac), At(Next(env, l, PunchTimeouts, now), mac);
            match at
            case Pending(i) =>
              var p := i.punch;
              var lan, can := i.num == 2 && !p.lanDone && p.lanStart != 0, CanReach(env, i);
              var over := lan && now >= p.lanStart + 3;
              var seen := if lan && !over && now - i.lastSeen >= 1 then now else i.lastSeen;
              var begins := over && p.start == 0 && !p.failed && can;
              var p1 := if begins then p.(lanDone := true, start := now, round := 0, roundTime := now)
                        else if over then p.(lanDone := true) else p;
              if p1.start == 0 && !p1.failed && seen != 0 && now - seen > 1800 then at' == Nowhere
              else
                && at'.Pending? && at'.info == i.(lastSeen := seen, punch := at'.info.punch)
                && Goes(p1, at'.info.punch, can, now)
            case _ => at' == at
  {
    hide PunchPass, LanTicked, WanTicked, Stuck, Goes, CanReach, IndexOf, Unique;
    var t := PunchPass(env, l.pending, now);
    PunchPassOk(env, l.pending, now);
    AbsentHas(t, mac);
    AbsentHas(l.pending, mac);
    if At(l, mac).Pending? {
      var k := IndexOf(l.pending, mac);
      var i := l.pending[k].info;
      assert Look(t, l.pending[k].mac)
             == (if Stuck(LanTicked(env, i, now), now) then Absent
                 else Found(WanTicked(env, LanTicked(env, i, now), now)));
      OnePass(env, i, now);
    }
  }

  lemma OnePass(env: Env, i: Info, now: nat)
    requires !env.useWs
    ensures var p := i.punch;
            var lan, can := i.num == 2 && !p.lanDone && p.lanStart != 0, CanReach(env, i);
            var over := lan && now >= p.lanStart + 3;
            var seen := if lan && !over && now - i.lastSeen >= 1 then now else i.lastSeen;
            var begins := over && p.start == 0 && !p.failed && can;
            var p1 := if begins then p.(lanDone := true, start := now, round := 0, roundTime := now)
                      else if over then p.(lanDone := true) else p;
            var i1 := LanTicked(env, i, now);
            var j := WanTicked(env, i1, now);
            && (Stuck(i1, now) <==> p1.start == 0 && !p1.failed && seen != 0 && now - seen > 1800)
            && j == i.(lastSeen := seen, punch := j.punch) && Goes(p1, j.punch, can, now)
  {
  }

  /** The purge keeps exactly the known peers seen in the last 150 seconds and the pending ones seen in the last half
      hour, as they are. */
  lemma PurgeEffect(env: Env, l: Lists, mac: Mac, now: nat)
    requires Sound(l)
    ensures var at := At(l, mac);
            At(Next(env, l, Purge, now), mac) ==
            match at
            case Known(i) => (if i.lastSeen >= now - 150 then at else Nowhere)
            case Pending(i) => (if i.lastSeen >= now - 1800 then at else Nowhere)
            case Nowhere => Nowhere
  {
    PurgedAt(l.known, now - REGISTRATION_TIMEOUT, mac);
    PurgedAt(l.pending, now - STUCK_SECS, mac);
    hide Purged, IndexOf;
  }

  lemma {:induction false} PurgedAt(s: seq<Entry>, before: int, mac: Mac)
    requires Unique(s)
    ensures Has(Purged(s, before), mac) <==> Has(s, mac) && InfoOf(s, mac).lastSeen >= before
    ensures Has(Purged(s, before), mac) ==> InfoOf(Purged(s, before), mac) == InfoOf(s, mac)
    decreases |s|
  {
    if s != [] {
      PurgedAt(s[1..], before, mac);
      var t := Purged(s[1..], before);
      LookAdd(s[0], s[1..], mac);
      LookAdd(s[0], t, mac);
      assert s == [s[0]] + s[1..];
      AbsentHas(s, mac);
      AbsentHas(s[1..], mac);
      AbsentHas(t, mac);
      assert Has(s[1..], mac) ==> s[1..][IndexOf(s[1..], mac)].mac == mac != s[0].mac;
      hide IndexOf;
    }
  }

  // ---------------------------------------------------------------- the end of a sync

  /** A list in which no other entry has the entry's virtual address. */
  ghost predicate Lone(s: seq<Entry>, e: Entry) {
    forall i :: 0 <= i < |s| && s[i].info.ip == e.info.ip ==> s[i] == e
  }

  predicate Unconfirmed(e: Entry, ips: seq<nat>, relayed: bool) {
    e.info.ip in ips && (relayed ==> e.info.directSeen == 0)
  }

  ghost predicate Synced(s: seq<Entry>, t: seq<Entry>, ips: seq<nat>, relayed: bool, e: Entry) {
    && (e in t || Unconfirmed(e, ips, relayed)) && (Unconfirmed(e, ips, relayed) && Lone(s, e) ==> e !in t)
    && Unique(t) && forall x :: x in t ==> x in s
  }

  lemma {:induction false} SyncKeeps(s: seq<Entry>, ips: seq<nat>, relayed: bool, e: Entry)
    requires Unique(s) && e in s
    ensures Synced(s, WithoutIps(s, ips, relayed), ips, relayed, e)
    decreases |ips|
  {
    if ips != [] {
      var n := |ips| - 1;
      assert ips == ips[..n] + [ips[n]];
      hide Unique, Synced, WithoutIp;
      SyncKeeps(s, ips[..n], relayed, e);
      SyncStep(s, WithoutIps(s, ips[..n], relayed), ips[..n], ips[n], relayed, e);
    }
  }

  lemma SyncStep(s: seq<Entry>, t: seq<Entry>, ips: seq<nat>, ip: nat, relayed: bool, e: Entry)
    requires e in s && Synced(s, t, ips, relayed, e)
    ensures Synced(s, WithoutIp(t, ip, relayed), ips + [ip], relayed, e)
  {
    WithoutOne(t, ip, relayed, e);
    var t' := WithoutIp(t, ip, relayed);
    assert Lone(s, e) ==> forall x :: x in t && x.info.ip == e.info.ip ==> x == e;
    assert e.info.ip in ips + [ip] <==> e.info.ip in ips || e.info.ip == ip;
    hide Unique, Lone, WithoutIp;
  }

  lemma WithoutOne(t: seq<Entry>, ip: nat, relayed: bool, e: Entry)
    requires Unique(t)
    ensures var t' := WithoutIp(t, ip, relayed);
            var here := e.info.ip == ip && (relayed ==> e.info.directSeen == 0);
            && Unique(t') && (forall x :: x in t' ==> x in t)
            && (e in t && !here ==> e in t')
            && (here && (forall x :: x in t && x.info.ip == ip ==> x == e) ==> e !in t')
  {
    var k := IndexOfIp(t, ip, relayed);
    NoneBefore(t, ip, relayed);
    if k >= 0 {
      CutOne(t, k);
      assert t[k] in t && t[k].info.ip == ip;
    }
    hide Unique, IndexOfIp;
  }

  lemma CutOne(s: seq<Entry>, k: nat)
    requires k < |s| && Unique(s)
    ensures Unique(s[..k] + s[k + 1..]) && forall x :: x in s[..k] + s[k + 1..] <==> x in s && x != s[k]
  {
    assert s == s[..k] + [s[k]] + s[k + 1..];
  }

  lemma {:induction false} NoneBefore(s: seq<Entry>, ip: nat, relayed: bool)
    ensures IndexOfIp(s, ip, relayed) < 0 ==>
              forall x :: x in s ==> !(x.info.ip == ip && (relayed ==> x.info.directSeen == 0))
    decreases |s|
  {
    if s != [] {
      NoneBefore(s[1..], ip, relayed);
      assert s == [s[0]] + s[1..];
    }
  }

  /** The end of a peer sync removes only peers with an address that was not confirmed, of the known ones only those
      without direct contact; and it removes every such peer whose address is its own. */
  lemma SyncEffect(env: Env, l: Lists, ips: seq<nat>, now: nat, e: Entry)
    requires Sound(l)
    ensures var l' := Next(env, l, SyncEnd(ips), now);
            && (forall x :: x in l'.known ==> x in l.known) && (forall x :: x in l'.pending ==> x in l.pending)
            && (e in l.known ==>
                  && (e.info.ip !in ips || e.info.directSeen != 0 ==> e in l'.known)
                  && (e.info.ip in ips && e.info.directSeen == 0 && Lone(l.known, e) ==> e !in l'.known))
            && (e in l.pending ==>
                  && (e.info.ip !in ips ==> e in l'.pending)
                  && (e.info.ip in ips && Lone(l.pending, e) ==> e !in l'.pending))
  {
    if e in l.known { SyncKeeps(l.known, ips, true, e); }
    if e in l.pending { SyncKeeps(l.pending, ips, false, e); }
    SyncShrinks(l.known, ips, true);
    SyncShrinks(l.pending, ips, false);
    hide WithoutIps, Unique, Lone;
  }

  lemma {:induction false} SyncShrinks(s: seq<Entry>, ips: seq<nat>, relayed: bool)
    ensures forall x :: x in WithoutIps(s, ips, relayed) ==> x in s
    decreases |ips|
  {
    if ips != [] { SyncShrinks(s, ips[..|ips| - 1], relayed); }
  }
}
