/** known_peers and pending_peers as linked lists on the heap. */
module EdgeLists {
  import EdgePunch
  import opened EdgePeers

  /** peer_info */
  class Peer {
    const mac: Mac
    var info: Info
    var next: Peer?

    constructor (mac: Mac, info: Info)
      ensures this.mac == mac && this.info == info && next == null
    {
      this.mac, this.info, next := mac, info, null;
    }
  }

  /** A list that begins at head: its nodes in order, and null at its end; so it has no cycle. */
  ghost predicate Linked(head: Peer?, s: seq<Peer>)
    reads s
  {
    head == NodeAt(s, 0) && forall i :: 0 <= i < |s| ==> s[i].next == NodeAt(s, i + 1)
  }

  /** The node at a place, or null past the end. */
  ghost function NodeAt(s: seq<Peer>, i: nat): Peer? {
    if i < |s| then s[i] else null
  }

  ghost function Nodes(s: seq<Peer>): set<Peer> {
    set q | q in s
  }

  /** The node before a place. */
  ghost function Before(s: seq<Peer>, k: nat): Peer? {
    if 0 < k <= |s| then s[k - 1] else null
  }

  ghost function Entries(s: seq<Peer>): (e: seq<Entry>)
    reads s
    ensures |e| == |s| && forall i :: 0 <= i < |s| ==> e[i] == Entry(s[i].mac, s[i].info)
  {
    seq(|s|, i requires 0 <= i < |s| reads s => Entry(s[i].mac, s[i].info))
  }

  ghost predicate DistinctNodes(s: seq<Peer>) {
    forall i, j :: 0 <= i < j < |s| ==> s[i] != s[j]
  }

  /** find_peer_by_mac */
  method Find(head: Peer?, mac: Mac, ghost s: seq<Peer>) returns (p: Peer?, ghost k: int)
    requires Linked(head, s)
    ensures k == IndexOf(Entries(s), mac) && p == (if k < 0 then null else s[k])
  {
    hide IndexOf;
    p, k := head, 0;
    while p != null
      invariant 0 <= k <= |s| && p == NodeAt(s, k)
      invariant forall j :: 0 <= j < k ==> s[j].mac != mac
      decreases |s| - k
    {
      if p.mac == mac {
        return;
      }
      p, k := p.next, k + 1;
    }
    k := -1;
  }

  /** The node at k taken out of a list. */
  ghost function CutNode(s: seq<Peer>, k: nat): seq<Peer>
    requires k < |s|
  {
    s[..k] + s[k + 1..]
  }

  lemma EntriesCut(s: seq<Peer>, k: nat)
    requires k < |s|
    ensures Entries(CutNode(s, k)) == Cut(Entries(s), k)
  {
  }

  lemma CutDistinct(s: seq<Peer>, k: nat)
    requires k < |s| && DistinctNodes(s)
    ensures DistinctNodes(CutNode(s, k)) && s[k] !in CutNode(s, k) && Nodes(CutNode(s, k)) <= Nodes(s)
  {
  }

  /** A list whose nodes are all different. */
  ghost predicate IsList(head: Peer?, s: seq<Peer>)
    reads s
  {
    Linked(head, s) && DistinctNodes(s)
  }

  /** The node at k unlinked; it still points into the list itself. */
  method Splice(head: Peer, prev: Peer?, p: Peer, ghost s: seq<Peer>, ghost k: nat) returns (rest: Peer?)
    requires Linked(head, s) && DistinctNodes(s) && k < |s| && p == s[k] && prev == Before(s, k)
    modifies prev
    ensures IsList(rest, CutNode(s, k)) && p.next == NodeAt(CutNode(s, k), k) && Nodes(CutNode(s, k)) <= Nodes(s)
    ensures Entries(CutNode(s, k)) == Cut(old(Entries(s)), k)
    ensures forall q :: q in s ==> q.info == old(q.info)
  {
    EntriesCut(s, k);
    CutDistinct(s, k);
    CutPlace(s, k, k);
    rest := head;
    if prev != null {
      prev.next := p.next;
    } else {
      rest := p.next;
    }
    ghost var t := CutNode(s, k);
    CutPlace(s, k, 0);
    hide CutNode;
    forall i | 0 <= i < |t| ensures t[i].next == NodeAt(t, i + 1) {
      CutPlace(s, k, i);
      CutPlace(s, k, i + 1);
      var j := if i < k then i else i + 1;
      assert t[i] == s[j] && (j + 1 == k <==> t[i] == prev);
    }
  }

  /** Places after a cut. */
  lemma CutPlace(s: seq<Peer>, k: nat, i: nat)
    requires k < |s|
    ensures |CutNode(s, k)| == |s| - 1
    ensures NodeAt(CutNode(s, k), i) == NodeAt(s, if i < k then i else i + 1)
    ensures Before(CutNode(s, k), k) == Before(s, k)
  {
  }

  /** The entry with this address unlinked. */
  method Unlink(head: Peer?, mac: Mac, ghost s: seq<Peer>) returns (rest: Peer?, p: Peer?, ghost t: seq<Peer>)
    requires IsList(head, s)
    modifies Nodes(s)
    ensures IsList(rest, t) && Entries(t) == Without(old(Entries(s)), mac)
    ensures p == null <==> !Has(old(Entries(s)), mac)
    ensures p == null ==> rest == head && t == s && Entries(t) == old(Entries(s))
    ensures p != null ==>
              p in Nodes(s) && Nodes(t) == Nodes(s) - {p} && p.mac == mac && p.info == InfoOf(old(Entries(s)), mac)
  {
    hide IndexOf, CutNode;
    var prev: Peer?;
    ghost var k;
    prev, p, k := Walk(head, mac, s);
    rest, t := head, s;
    if p != null {
      CutNodes(s, k);
      rest := Splice(head, prev, p, s, k);
      t := CutNode(s, k);
    }
  }

  /** A node put before a list. */
  method Push(p: Peer, head: Peer?, ghost s: seq<Peer>)
    requires IsList(head, s) && p !in Nodes(s)
    modifies p`next
    ensures IsList(p, [p] + s) && Nodes([p] + s) == {p} + Nodes(s)
    ensures Entries([p] + s) == [Entry(p.mac, p.info)] + old(Entries(s))
  {
    p.next := head;
    HeadPlaces(p, s);
  }

  /** The search with a trailing reference. */
  method Walk(head: Peer?, mac: Mac, ghost s: seq<Peer>) returns (prev: Peer?, p: Peer?, ghost k: int)
    requires Linked(head, s)
    ensures k == IndexOf(Entries(s), mac) && p == (if k < 0 then null else s[k])
    ensures k >= 0 ==> prev == Before(s, k)
  {
    hide IndexOf;
    prev, p, k := null, head, 0;
    while p != null
      invariant 0 <= k <= |s| && p == NodeAt(s, k) && prev == Before(s, k)
      invariant forall j :: 0 <= j < k ==> s[j].mac != mac
      decreases |s| - k
    {
      if p.mac == mac {
        return;
      }
      prev, p, k := p, p.next, k + 1;
    }
    k := -1;
  }

  // ---------------------------------------------------------------- whole passes

  /** One turn of a purge, on values. */
  lemma {:induction false} PurgedStep(e: seq<Entry>, k: nat, before: int)
    requires k < |e|
    ensures e[..k] + Purged(e[k..], before) ==
            if e[k].info.lastSeen < before then Cut(e, k)[..k] + Purged(Cut(e, k)[k..], before)
            else e[..k + 1] + Purged(e[k + 1..], before)
  {
  }

  /** purge_peer_list */
  method PurgeList(head: Peer?, before: int, ghost s: seq<Peer>) returns (rest: Peer?, n: nat, ghost t: seq<Peer>)
    requires IsList(head, s)
    modifies Nodes(s)
    ensures IsList(rest, t) && Nodes(t) <= Nodes(s) && n + |t| == |s|
    ensures Entries(t) == Purged(old(Entries(s)), before)
  {
    hide Purged, Cut, CutNode;
    ghost var e0 := Entries(s);
    var prev: Peer?, scan := null, head;
    rest, n, t := head, 0, s;
    ghost var k := 0;
    while scan != null
      invariant IsList(rest, t) && 0 <= k <= |t| && n + |t| == |s| && Nodes(t) <= Nodes(s)
      invariant scan == NodeAt(t, k) && prev == Before(t, k)
      invariant Entries(t)[..k] + Purged(Entries(t)[k..], before) == Purged(e0, before)
      decreases |t| - k
    {
      PurgedStep(Entries(t), k, before);
      if scan.info.lastSeen < before {
        CutPlace(t, k, k);
        assert prev != null ==> prev in t;
        rest := Splice(rest, prev, scan, t, k);
        t := CutNode(t, k);
        n, scan := n + 1, scan.next;
      } else {
        prev, scan, k := scan, scan.next, k + 1;
      }
    }
    PassEnd(Entries(t), before);
  }

  lemma {:induction false} PassEnd(e: seq<Entry>, before: int)
    ensures e[..|e|] + Purged(e[|e|..], before) == e
  {
  }

  /** One turn of check_punch_timeouts, on values; e1 is e with the LAN phase done at k. */
  lemma {:induction false} PunchStep(env: Env, e: seq<Entry>, k: nat, now: nat)
    requires k < |e|
    ensures var i1 := LanTicked(env, e[k].info, now);
            var e1 := e[k := Entry(e[k].mac, i1)];
            var e2 := e1[k := Entry(e[k].mac, WanTicked(env, i1, now))];
            e[..k] + PunchPass(env, e[k..], now) ==
            if Stuck(i1, now) then Cut(e1, k)[..k] + PunchPass(env, Cut(e1, k)[k..], now)
            else e2[..k + 1] + PunchPass(env, e2[k + 1..], now)
  {
  }

  lemma {:induction false} PunchEnd(env: Env, e: seq<Entry>, now: nat)
    ensures e[..|e|] + PunchPass(env, e[|e|..], now) == e
  {
  }

  /** The fields of one node rewritten. */
  method Rewrite(p: Peer, info: Info, head: Peer?, ghost s: seq<Peer>, ghost k: nat)
    requires IsList(head, s) && k < |s| && p == s[k]
    modifies p`info
    ensures IsList(head, s) && Entries(s) == old(Entries(s))[k := Entry(p.mac, info)]
    ensures p.info == info
  {
    p.info := info;
    assert forall i :: 0 <= i < |s| && i != k ==> s[i] != p;
  }

  /** What a pass has done up to k and has still to do. */
  ghost function PassView(env: Env, e: seq<Entry>, k: nat, now: nat): seq<Entry>
    requires k <= |e|
  {
    e[..k] + PunchPass(env, e[k..], now)
  }

  /** One turn of check_punch_timeouts. */
  method CheckPunchOne(env: Env, head: Peer?, prev: Peer?, scan: Peer, now: nat, ghost s: seq<Peer>, ghost k: nat)
    returns (rest: Peer?, prev': Peer?, scan': Peer?, ghost t: seq<Peer>, ghost k': nat)
    requires IsList(head, s) && k < |s| && scan == s[k] && prev == Before(s, k)
    modifies Nodes(s)
    ensures IsList(rest, t) && Nodes(t) <= Nodes(s) && k' <= |t| && |t| - k' < |s| - k
    ensures scan' == NodeAt(t, k') && prev' == Before(t, k')
    ensures PassView(env, Entries(t), k', now) == PassView(env, old(Entries(s)), k, now)
  {
    hide PunchPass, Cut, CutNode, LanTicked, WanTicked, Stuck;
    ghost var e := Entries(s);
    PunchStep(env, e, k, now);
    rest, t := head, s;
    Rewrite(scan, LanTicked(env, scan.info, now), rest, t, k);
    ghost var e1 := Entries(s);
    assert e1 == e[k := Entry(e[k].mac, LanTicked(env, e[k].info, now))];
    if Stuck(scan.info, now) {
      rest, prev', scan', t := DropStuck(rest, prev, scan, s, k);
      k' := k;
    } else {
      Rewrite(scan, WanTicked(env, scan.info, now), rest, t, k);
      prev', scan', k' := scan, scan.next, k + 1;
    }
  }

  /** A stuck peer unlinked in the middle of the pass. */
  method DropStuck(head: Peer?, prev: Peer?, scan: Peer, ghost s: seq<Peer>, ghost k: nat)
    returns (rest: Peer?, prev': Peer?, scan': Peer?, ghost t: seq<Peer>)
    requires IsList(head, s) && k < |s| && scan == s[k] && prev == Before(s, k)
    modifies Nodes(s)
    ensures IsList(rest, t) && Nodes(t) <= Nodes(s) && |t| == |s| - 1 && k <= |t|
    ensures scan' == NodeAt(t, k) && prev' == Before(t, k) && Entries(t) == Cut(old(Entries(s)), k)
  {
    hide Cut, CutNode;
    CutPlace(s, k, k);
    assert prev != null ==> prev in s;
    rest := Splice(head, prev, scan, s, k);
    t := CutNode(s, k);
    prev', scan' := prev, scan.next;
  }

  /** check_punch_timeouts */
  method CheckPunchList(env: Env, head: Peer?, now: nat, ghost s: seq<Peer>) returns (rest: Peer?, ghost t: seq<Peer>)
    requires IsList(head, s)
    modifies Nodes(s)
    ensures IsList(rest, t) && Nodes(t) <= Nodes(s)
    ensures Entries(t) == PunchPass(env, old(Entries(s)), now)
  {
    hide PunchPass, IsList;
    ghost var e0 := Entries(s);
    var prev: Peer?, scan: Peer? := null, head;
    rest, t := head, s;
    ghost var k := 0;
    ListStart(head, s);
    while scan != null
      invariant IsList(rest, t) && 0 <= k <= |t| && Nodes(t) <= Nodes(s)
      invariant scan == NodeAt(t, k) && prev == Before(t, k)
      invariant PassView(env, Entries(t), k, now) == PassView(env, e0, 0, now)
      decreases |t| - k
    {
      rest, prev, scan, t, k := CheckPunchOne(env, rest, prev, scan, now, t, k);
    }
    PunchEnd(env, Entries(t), now);
  }

  lemma ListStart(head: Peer?, s: seq<Peer>)
    requires IsList(head, s)
    ensures head == NodeAt(s, 0)
  {
  }

  lemma {:induction false} IpIndexIs(e: seq<Entry>, ip: nat, relayed: bool, i: nat)
    requires i < |e| && e[i].info.ip == ip && (relayed ==> e[i].info.directSeen == 0)
    requires forall j :: 0 <= j < i ==> !(e[j].info.ip == ip && (relayed ==> e[j].info.directSeen == 0))
    ensures IndexOfIp(e, ip, relayed) == i
    decreases |e|
  {
    if i > 0 {
      IpIndexIs(e[1..], ip, relayed, i - 1);
    }
  }

  /** The first entry with this virtual address unlinked. */
  method UnlinkIp(head: Peer?, ip: nat, relayed: bool, ghost s: seq<Peer>) returns (rest: Peer?, ghost t: seq<Peer>)
    requires IsList(head, s)
    modifies Nodes(s)
    ensures IsList(rest, t) && Nodes(t) <= Nodes(s)
    ensures Entries(t) == WithoutIp(old(Entries(s)), ip, relayed)
  {
    hide IndexOfIp, CutNode;
    var prev: Peer?, scan := null, head;
    rest, t := head, s;
    ghost var k := 0;
    while scan != null
      invariant IsList(rest, s) && t == s && 0 <= k <= |s| && scan == NodeAt(s, k) && prev == Before(s, k)
      invariant Entries(s) == old(Entries(s))
      invariant forall j :: 0 <= j < k ==> !(s[j].info.ip == ip && (relayed ==> s[j].info.directSeen == 0))
      decreases |s| - k
    {
      if scan.info.ip == ip && (relayed ==> scan.info.directSeen == 0) {
        IpIndexIs(Entries(s), ip, relayed, k);
        rest := Splice(rest, prev, scan, s, k);
        t := CutNode(s, k);
        return;
      }
      prev, scan, k := scan, scan.next, k + 1;
    }
  }

  /** All of them, one after the other. */
  method UnlinkIps(head: Peer?, ips: seq<nat>, relayed: bool, ghost s: seq<Peer>)
                   returns (rest: Peer?, ghost t: seq<Peer>)
    requires IsList(head, s)
    modifies Nodes(s)
    ensures IsList(rest, t) && Nodes(t) <= Nodes(s)
    ensures Entries(t) == WithoutIps(old(Entries(s)), ips, relayed)
  {
    hide WithoutIp, IsList;
    rest, t := head, s;
    var i := 0;
    assert ips[..0] == [];
    while i < |ips|
      invariant 0 <= i <= |ips| && IsList(rest, t) && Nodes(t) <= Nodes(s)
      invariant Entries(t) == WithoutIps(old(Entries(s)), ips[..i], relayed)
    {
      assert ips[..i + 1][..i] == ips[..i];
      rest, t := UnlinkIp(rest, ips[i], relayed, t);
      i := i + 1;
    }
    assert ips[..i] == ips;
  }

  /** clear_peer_list */
  method ClearList(head: Peer?, ghost s: seq<Peer>) returns (rest: Peer?, n: nat)
    requires Linked(head, s)
    ensures rest == null && n == |s|
  {
    rest, n := head, 0;
    while rest != null
      invariant 0 <= n <= |s| && rest == NodeAt(s, n)
      decreases |s| - n
    {
      rest, n := rest.next, n + 1;
    }
  }

  // ---------------------------------------------------------------- the edge

  /** The two lists of n2n_edge_t. */
  class Edge {
    var known: Peer?
    var pending: Peer?
    ghost var ks: seq<Peer>
    ghost var ps: seq<Peer>

    /** Two lists with no node in common. */
    ghost predicate Shape()
      reads this, ks, ps
    {
      IsList(known, ks) && IsList(pending, ps) && Nodes(ks) !! Nodes(ps)
    }

    /** The lists as values. */
    ghost function L(): Lists
      reads this, ks, ps
    {
      Lists(Entries(ks), Entries(ps))
    }

    /** And no address twice. */
    ghost predicate Valid()
      reads this, ks, ps
    {
      Shape() && Sound(L())
    }

    constructor ()
      ensures Valid() && L() == Lists([], [])
    {
      known, pending := null, null;
      ks, ps := [], [];
    }

    // -------------------------------------------------------------- one entry

    method FindKnown(mac: Mac) returns (p: Peer?, ghost k: int)
      requires Shape()
      ensures k == IndexOf(L().known, mac) && (p == null <==> k < 0)
              && (p != null ==> p == ks[k] && p.mac == mac && p.info == InfoOf(L().known, mac))
    {
      hide IndexOf;
      p, k := Find(known, mac, ks);
    }

    method FindPending(mac: Mac) returns (p: Peer?, ghost k: int)
      requires Shape()
      ensures k == IndexOf(L().pending, mac) && (p == null <==> k < 0)
              && (p != null ==> p == ps[k] && p.mac == mac && p.info == InfoOf(L().pending, mac))
    {
      hide IndexOf;
      p, k := Find(pending, mac, ps);
    }

    method SetKnown(p: Peer, info: Info, ghost k: nat)
      requires Shape() && k < |ks| && p == ks[k] && k == IndexOf(L().known, p.mac)
      modifies p`info
      ensures Shape() && L() == Lists(Put(old(L()).known, p.mac, info), old(L()).pending)
    {
      hide IndexOf;
      assert p in Nodes(ks);
      Rewrite(p, info, known, ks, k);
    }

    method SetPending(p: Peer, info: Info, ghost k: nat)
      requires Shape() && k < |ps| && p == ps[k] && k == IndexOf(L().pending, p.mac)
      modifies p`info
      ensures Shape() && L() == Lists(old(L()).known, Put(old(L()).pending, p.mac, info))
    {
      hide IndexOf;
      assert p in Nodes(ps);
      Rewrite(p, info, pending, ps, k);
    }

    /** peer_list_add on pending_peers. */
    method AddNode(p: Peer)
      requires Shape() && p !in Nodes(ks) && p !in Nodes(ps)
      modifies this`pending, this`ps, p`next
      ensures Shape() && pending == p && ps == [p] + old(ps)
      ensures L() == Lists(old(L()).known, [Entry(p.mac, p.info)] + old(L()).pending)
    {
      hide IsList;
      Push(p, pending, ps);
      assert forall q :: q in ks ==> q in Nodes(ks) && q != p;
      assert IsList(known, ks) && Entries(ks) == old(Entries(ks));
      pending, ps := p, [p] + ps;
    }

    /** calloc and peer_list_add. */
    method AddNew(mac: Mac, info: Info)
      requires Shape()
      modifies this`pending, this`ps
      ensures Shape() && L() == Lists(old(L()).known, [Entry(mac, info)] + old(L()).pending)
      ensures ps == [pending] + old(ps) && fresh(pending) && pending.mac == mac && pending.info == info
    {
      hide IsList;
      var p := new Peer(mac, info);
      assert IsList(known, ks) && IsList(pending, ps) && Entries(ks) == old(Entries(ks))
             && Entries(ps) == old(Entries(ps));
      AddNode(p);
    }

    /** The node of a known peer at the head of pending_peers. */
    method Demote(mac: Mac) returns (p: Peer?)
      requires Shape()
      modifies this, Nodes(ks), Nodes(ps)
      ensures Shape() && L() == BackToPending(old(L()), mac)
      ensures Nodes(ks) + Nodes(ps) == old(Nodes(ks) + Nodes(ps))
      ensures p == null <==> !Has(old(L()).known, mac)
      ensures p != null ==> ps != [] && p == ps[0] && p.mac == mac && p.info == InfoOf(old(L()).known, mac)
    {
      hide IndexOf, IsList;
      var rest;
      ghost var t;
      rest, p, t := Unlink(known, mac, ks);
      assert IsList(pending, ps) && IsList(rest, t) && Entries(ps) == old(Entries(ps));
      if p != null {
        known, ks := rest, t;
        AddNode(p);
      }
    }

    // -------------------------------------------------------------- handlers

    /** A pending entry to the head of known_peers, with what the acknowledgement says. */
    method Promote(mac: Mac, peer: Sock, now: nat) returns (moved: bool)
      requires Shape()
      modifies this, Nodes(ks), Nodes(ps)
      ensures Shape() && Nodes(ks) + Nodes(ps) == old(Nodes(ks) + Nodes(ps)) && moved == Has(old(L()).pending, mac)
      ensures !moved ==> L() == old(L())
      ensures moved ==>
                L() == Lists([Entry(mac, Operational(InfoOf(old(L()).pending, mac), peer, now))] + old(L()).known,
                             Without(old(L()).pending, mac))
    {
      hide IndexOf, IsList, Operational, InfoOf, Has, Without;
      var scan, rest;
      ghost var t;
      rest, scan, t := Unlink(pending, mac, ps);
      assert IsList(known, ks) && IsList(rest, t) && Entries(ks) == old(Entries(ks));
      moved := scan != null;
      if moved {
        pending, ps := rest, t;
        AddKnown(scan, Operational(scan.info, peer, now));
      }
    }

    /** A node as the head of known_peers, with new fields. */
    method AddKnown(p: Peer, info: Info)
      requires Shape() && p !in Nodes(ks) && p !in Nodes(ps)
      modifies this`known, this`ks, p
      ensures Shape() && ks == [p] + old(ks)
      ensures L() == Lists([Entry(p.mac, info)] + old(L()).known, old(L()).pending)
    {
      hide IsList;
      p.info := info;
      assert forall q :: q in ks + ps ==> q in Nodes(ks) + Nodes(ps) && q != p;
      assert IsList(known, ks) && IsList(pending, ps) && Entries(ks) == old(Entries(ks))
             && Entries(ps) == old(Entries(ps));
      Push(p, known, ks);
      assert IsList(pending, ps) && Entries(ps) == old(Entries(ps));
      known, ks := p, [p] + ks;
    }

    /** set_peer_operational */
    method SetPeerOperational(mac: Mac, peer: Sock, now: nat)
      requires Shape()
      modifies this, Nodes(ks), Nodes(ps)
      ensures Shape() && L() == SetOperational(old(L()), mac, peer, now)
              && Nodes(ks) + Nodes(ps) == old(Nodes(ks) + Nodes(ps))
    {
      hide IndexOf, IsList, Operational, InfoOf, Has, Without;
      var moved := Promote(mac, peer, now);
      if !moved {
        KnownRenewed(mac, peer, now);
      }
    }

    /** A late acknowledgement: from IPv6 to IPv4 only. */
    method KnownRenewed(mac: Mac, peer: Sock, now: nat)
      requires Shape() && !Has(L().pending, mac)
      modifies Nodes(ks)
      ensures Shape() && L() == SetOperational(old(L()), mac, peer, now) && known == old(known) && ks == old(ks)
    {
      hide IndexOf, IsList;
      var scan;
      ghost var k;
      scan, k := FindKnown(mac);
      if scan != null && scan.info.sock6.family == AF_INET6 && scan.info.sock.family == 0 && peer.family == AF_INET {
        SetKnown(scan, scan.info.(sock := peer, sock6 := NO_SOCK, lastSeen := now), k);
      }
    }

    /** try_send_register */
    method TryRegister(env: Env, mac: Mac, peer: Sock, now: nat)
      requires Shape()
      modifies this`pending, this`ps, Nodes(ps)
      ensures Shape() && L() == old(L()).(pending := TrySendRegister(env, old(L()).pending, mac, peer, now))
      ensures Nodes(ps) >= old(Nodes(ps)) && fresh(Nodes(ps) - old(Nodes(ps)))
    {
      hide IndexOf, IsList, Reregistered, Started, Store;
      var scan;
      ghost var k;
      scan, k := FindPending(mac);
      if scan == null {
        AddNew(mac, Started(env, Store(BLANK, peer).(lastSeen := now), now));
        HeadPlaces(pending, old(ps));
      } else {
        SetPending(scan, Reregistered(env, scan.info, peer, now), k);
      }
    }

    /** try_send_register_lan */
    method TryRegisterLan(mac: Mac, peer: Sock, lan: Sock, now: nat)
      requires Shape()
      modifies this`pending, this`ps, Nodes(ps)
      ensures Shape() && L() == old(L()).(pending := TrySendRegisterLan(old(L()).pending, mac, peer, lan, now))
      ensures Nodes(ps) >= old(Nodes(ps)) && fresh(Nodes(ps) - old(Nodes(ps)))
    {
      hide IndexOf, IsList, OnLan;
      var scan;
      ghost var k;
      scan, k := FindPending(mac);
      if scan == null {
        AddNew(mac, OnLan(BLANK, peer, lan, now).(lastSeen := now));
        HeadPlaces(pending, old(ps));
      } else {
        SetPending(scan, OnLan(scan.info, peer, lan, now), k);
      }
    }

    /** The fields of a known peer rewritten, if there is one. */
    method TouchKnown(mac: Mac, scan: Peer, info: Info, ghost k: nat)
      requires Shape() && k < |ks| && scan == ks[k] && k == IndexOf(L().known, mac) && scan.mac == mac
      modifies Nodes(ks)
      ensures Shape() && L() == old(L()).(known := Put(old(L()).known, mac, info))
    {
      hide IndexOf, IsList;
      assert scan in Nodes(ks);
      SetKnown(scan, info, k);
    }

    method TouchPending(mac: Mac, scan: Peer, info: Info, ghost k: nat)
      requires Shape() && k < |ps| && scan == ps[k] && k == IndexOf(L().pending, mac) && scan.mac == mac
      modifies Nodes(ps)
      ensures Shape() && L() == old(L()).(pending := Put(old(L()).pending, mac, info))
    {
      hide IndexOf, IsList;
      assert scan in Nodes(ps);
      SetPending(scan, info, k);
    }

    /** REGISTER */
    method HandleRegister(env: Env, mac: Mac, regSock: Sock, sender: Sock, orig: Sock, now: nat)
      requires Shape()
      modifies this, Nodes(ks), Nodes(ps)
      ensures Shape() && L() == OnRegister(env, old(L()), mac, regSock, sender, orig, now)
      ensures fresh(Nodes(ks) + Nodes(ps) - old(Nodes(ks) + Nodes(ps)))
    {
      hide IndexOf, IsList, Shape, KnownRegistered, TrySendRegister, TrySendRegisterLan;
      var scan;
      ghost var k;
      scan, k := FindKnown(mac);
      if scan == null {
        if regSock.family != 0 && regSock.port != 0 && env.localEna && SamePublic(env, sender) {
          TryRegisterLan(mac, orig, regSock.(port := orig.port), now);
        } else {
          TryRegister(env, mac, orig, now);
        }
      } else {
        TouchKnown(mac, scan, KnownRegistered(scan.info, orig, now), k);
      }
    }

    /** REGISTER_ACK */
    method HandleRegisterAck(mac: Mac, fromSn: bool, sender: Sock, now: nat)
      requires Shape()
      modifies this, Nodes(ks), Nodes(ps)
      ensures Shape() && L() == OnRegisterAck(old(L()), mac, fromSn, sender, now)
      ensures Nodes(ks) + Nodes(ps) == old(Nodes(ks) + Nodes(ps))
    {
      hide IndexOf, IsList, Shape, SetOperational;
      if fromSn {
        var scan;
        ghost var k;
        scan, k := FindPending(mac);
        if scan != null {
          TouchPending(mac, scan, scan.info.(lastSeen := now), k);
        }
      } else {
        SetPeerOperational(mac, sender, now);
      }
    }

    /** PROBE */
    method HandleProbe(env: Env, mac: Mac, sender: Sock, now: nat)
      requires Shape()
      modifies this, Nodes(ks), Nodes(ps)
      ensures Shape() && L() == OnProbe(env, old(L()), mac, sender, now)
      ensures fresh(Nodes(ks) + Nodes(ps) - old(Nodes(ks) + Nodes(ps)))
    {
      hide IndexOf, IsList, Shape, TrySendRegister, Store;
      var peer, scan;
      ghost var k, j;
      peer, k := FindKnown(mac);
      if peer == null {
        scan, j := FindPending(mac);
        if scan == null {
          TryRegister(env, mac, sender, now);
        } else {
          TouchPending(mac, scan, Store(scan.info, sender), j);
        }
      } else {
        TouchKnown(mac, peer, peer.info.(lastSeen := now, directSeen := now), k);
      }
    }

    /** PROBE_ACK */
    method HandleProbeAck(mac: Mac, now: nat)
      requires Shape()
      modifies Nodes(ks)
      ensures Shape() && L() == OnProbeAck(old(L()), mac, now)
    {
      hide IndexOf, IsList, Shape;
      var peer;
      ghost var k;
      peer, k := FindKnown(mac);
      if peer != null {
        TouchKnown(mac, peer, peer.info.(lastSeen := now, directSeen := now), k);
      }
    }

    /** A known peer back to pending, and what is then written into it. */
    method DemoteAndSet(mac: Mac, info: Info)
      requires Shape() && Has(L().known, mac)
      modifies this, Nodes(ks), Nodes(ps)
      ensures Shape() && Nodes(ks) + Nodes(ps) == old(Nodes(ks) + Nodes(ps))
      ensures var m := BackToPending(old(L()), mac); L() == m.(pending := Put(m.pending, mac, info))
    {
      hide IndexOf, IsList, Has, InfoOf, Without;
      var p := Demote(mac);
      HeadIndex(L().pending, mac);
      assert ps[0] in Nodes(ps);
      SetPending(p, info, 0);
    }

    /** PEER_INFO without a punch request. */
    method HandlePeerInfo(env: Env, pi: PeerMsg, syncing: bool, now: nat)
      requires Shape()
      modifies this, Nodes(ks), Nodes(ps)
      ensures Shape() && L() == OnPeerInfo(env, old(L()), pi, syncing, now)
      ensures fresh(Nodes(ks) + Nodes(ps) - old(Nodes(ks) + Nodes(ps)))
    {
      hide IndexOf, IsList, Shape, KnownMoved, PendingInformed, Extras, Put, BackToPending;
      var peer, scan;
      ghost var k, j;
      peer, k := FindKnown(pi.mac);
      scan, j := FindPending(pi.mac);
      if peer != null {
        if syncing && peer.info.directSeen != 0 { return; }
        if KnownMoved(peer.info, pi) {
          DemoteAndSet(pi.mac, PendingInformed(env, peer.info, pi, true, now));
        } else {
          var i1 := Extras(peer.info, pi);
          TouchKnown(pi.mac, peer, if pi.ip != 0 then i1.(ip := pi.ip) else i1, k);
        }
      } else if scan != null {
        TouchPending(pi.mac, scan, PendingInformed(env, scan.info, pi, false, now), j);
      } else {
        var i1 := Extras(BLANK.(sock := pi.s0, s0 := pi.s0, num := 1), pi);
        AddNew(pi.mac, i1.(ip := pi.ip, lastSeen := now - ACTIVE_WINDOW - 1));
        HeadPlaces(pending, old(ps));
      }
    }

    /** PEER_INFO with a punch request. */
    method HandlePunch(env: Env, pi: PeerMsg, now: nat)
      requires Shape()
      modifies this, Nodes(ks), Nodes(ps)
      ensures Shape() && L() == OnPunch(env, old(L()), pi, now)
      ensures fresh(Nodes(ks) + Nodes(ps) - old(Nodes(ks) + Nodes(ps)))
    {
      hide IndexOf, IsList, Alive, Punched;
      var peer, scan;
      ghost var k, j;
      peer, k := FindKnown(pi.mac);
      if peer != null {
        if Alive(peer.info, now) { return; }
        HeadIndex([Entry(pi.mac, peer.info)] + L().pending, pi.mac);
        DemoteAndSet(pi.mac, Punched(env, peer.info, pi, now));
        return;
      }
      scan, j := FindPending(pi.mac);
      if scan != null {
        TouchPending(pi.mac, scan, Punched(env, scan.info, pi, now), j);
      } else {
        AddAndPunch(env, pi, now);
      }
    }

    /** A new pending peer under a punch request. */
    method AddAndPunch(env: Env, pi: PeerMsg, now: nat)
      requires Shape()
      modifies this`pending, this`ps
      ensures Shape() && fresh(Nodes(ps) - old(Nodes(ps)))
      ensures var p := [Entry(pi.mac, BLANK.(lastSeen := now))] + old(L()).pending;
              L() == Lists(old(L()).known, Put(p, pi.mac, Punched(env, BLANK.(lastSeen := now), pi, now)))
    {
      hide IndexOf, IsList, Punched;
      AddNew(pi.mac, BLANK.(lastSeen := now));
      HeadPlaces(pending, old(ps));
      HeadIndex(L().pending, pi.mac);
      SetPending(pending, Punched(env, pending.info, pi, now), 0);
    }

    method DropKnown(mac: Mac)
      requires Shape()
      modifies this`known, this`ks, Nodes(ks)
      ensures Shape() && L() == old(L()).(known := Without(old(L()).known, mac)) && Nodes(ks) <= old(Nodes(ks))
    {
      hide IndexOf, IsList, Without;
      var rest, p;
      ghost var t;
      rest, p, t := Unlink(known, mac, ks);
      assert IsList(pending, ps) && Entries(ps) == old(Entries(ps));
      known, ks := rest, t;
    }

    method DropPending(mac: Mac)
      requires Shape()
      modifies this`pending, this`ps, Nodes(ps)
      ensures Shape() && L() == old(L()).(pending := Without(old(L()).pending, mac)) && Nodes(ps) <= old(Nodes(ps))
    {
      hide IndexOf, IsList, Without;
      var rest, p;
      ghost var t;
      rest, p, t := Unlink(pending, mac, ps);
      assert IsList(known, ks) && Entries(ks) == old(Entries(ks));
      pending, ps := rest, t;
    }

    /** DEREGISTER */
    method HandleDeregister(mac: Mac)
      requires Shape()
      modifies this, Nodes(ks), Nodes(ps)
      ensures Shape() && L() == OnDeregister(old(L()), mac) && Nodes(ks) + Nodes(ps) <= old(Nodes(ks) + Nodes(ps))
    {
      hide IndexOf, IsList, Shape, Without;
      DropKnown(mac);
      DropPending(mac);
    }

    /** PACKET */
    method HandlePacket(f: Frame, now: nat)
      requires Shape()
      modifies this, Nodes(ks), Nodes(ps)
      ensures Shape() && L() == OnPacket(old(L()), f, now)
      ensures fresh(Nodes(ks) + Nodes(ps) - old(Nodes(ks) + Nodes(ps)))
    {
      hide IndexOf, IsList, Shape, FrameSeen;
      var scan;
      ghost var k;
      scan, k := FindKnown(f.mac);
      if scan != null {
        TouchKnown(f.mac, scan, FrameSeen(scan.info, f, true, now), k);
        return;
      }
      scan, k := FindPending(f.mac);
      if scan != null {
        TouchPending(f.mac, scan, FrameSeen(scan.info, f, false, now), k);
      } else if f.fromSn {
        var i1 := BLANK.(sock := f.orig, s0 := f.orig, num := 1, lastSeen := now - ACTIVE_WINDOW - 1, ip := f.ip);
        AddNew(f.mac, if f.orig.family == AF_INET6 then i1.(sock6 := f.orig) else i1);
        HeadPlaces(pending, old(ps));
      }
    }

    /** send_PACKET by way of the supernode. */
    method HandleSend(mac: Mac, now: nat)
      requires Shape()
      modifies this, Nodes(ks), Nodes(ps)
      ensures Shape() && L() == OnSend(old(L()), mac, now)
      ensures fresh(Nodes(ks) + Nodes(ps) - old(Nodes(ks) + Nodes(ps)))
    {
      hide IndexOf, IsList, Shape;
      var p;
      ghost var k;
      p, k := FindPending(mac);
      if p != null {
        if now - p.info.lastQuery >= 5 { TouchPending(mac, p, p.info.(lastQuery := now), k); }
        return;
      }
      p, k := FindKnown(mac);
      if p != null {
        if now - p.info.lastQuery >= 5 { TouchKnown(mac, p, p.info.(lastQuery := now), k); }
      } else {
        AddNew(mac, BLANK.(lastQuery := now, lastSeen := now));
        HeadPlaces(pending, old(ps));
      }
    }

    /** check_keepalive on a peer that stays silent. */
    method HandleSilence(env: Env, mac: Mac, now: nat)
      requires Shape()
      modifies Nodes(ks)
      ensures Shape() && L() == OnSilence(env, old(L()), mac, now)
    {
      hide IndexOf, IsList, Shape, Started;
      var scan;
      ghost var k;
      scan, k := FindKnown(mac);
      if scan != null {
        TouchKnown(mac, scan,
            Started(env, scan.info.(directSeen := 0, punch := EdgePunch.Forget(scan.info.punch)), now), k);
      }
    }

    // -------------------------------------------------------------- passes over the lists

    method CheckPunchTimeouts(env: Env, now: nat)
      requires Shape()
      modifies this, Nodes(ks), Nodes(ps)
      ensures Shape() && L() == OnPunchTimeouts(env, old(L()), now)
              && Nodes(ks) + Nodes(ps) <= old(Nodes(ks) + Nodes(ps))
    {
      hide IsList, PunchPass;
      if !env.useWs {
        var rest;
        ghost var t;
        rest, t := CheckPunchList(env, pending, now, ps);
        assert IsList(known, ks) && Entries(ks) == old(Entries(ks));
        pending, ps := rest, t;
      }
    }

    method PurgeKnown(before: int) returns (purged: nat)
      requires Shape()
      modifies this`known, this`ks, Nodes(ks)
      ensures Shape() && L() == old(L()).(known := Purged(old(L()).known, before)) && Nodes(ks) <= old(Nodes(ks))
      ensures purged + |L().known| == |old(L()).known|
    {
      hide IsList, Purged;
      var rest;
      ghost var t;
      rest, purged, t := PurgeList(known, before, ks);
      assert IsList(pending, ps) && Entries(ps) == old(Entries(ps));
      known, ks := rest, t;
    }

    method PurgePending(before: int) returns (purged: nat)
      requires Shape()
      modifies this`pending, this`ps, Nodes(ps)
      ensures Shape() && L() == old(L()).(pending := Purged(old(L()).pending, before)) && Nodes(ps) <= old(Nodes(ps))
      ensures purged + |L().pending| == |old(L()).pending|
    {
      hide IsList, Purged;
      var rest;
      ghost var t;
      rest, purged, t := PurgeList(pending, before, ps);
      assert IsList(known, ks) && Entries(ks) == old(Entries(ks));
      pending, ps := rest, t;
    }

    /** The purges of the main loop; the result counts what went. */
    method PurgeLists(now: nat) returns (purged: nat)
      requires Shape()
      modifies this, Nodes(ks), Nodes(ps)
      ensures Shape() && L() == OnPurge(old(L()), now) && Nodes(ks) + Nodes(ps) <= old(Nodes(ks) + Nodes(ps))
      ensures purged + |L().known| + |L().pending| == |old(L()).known| + |old(L()).pending|
    {
      hide IsList, Shape, Purged;
      var n1 := PurgeKnown(now - REGISTRATION_TIMEOUT);
      var n2 := PurgePending(now - STUCK_SECS);
      purged := n1 + n2;
    }

    method SyncPending(ips: seq<nat>)
      requires Shape()
      modifies this`pending, this`ps, Nodes(ps)
      ensures Shape() && L() == old(L()).(pending := WithoutIps(old(L()).pending, ips, false))
              && Nodes(ps) <= old(Nodes(ps))
    {
      hide IsList, WithoutIps;
      var rest;
      ghost var t;
      rest, t := UnlinkIps(pending, ips, false, ps);
      assert IsList(known, ks) && Entries(ks) == old(Entries(ks));
      pending, ps := rest, t;
    }

    method SyncKnown(ips: seq<nat>)
      requires Shape()
      modifies this`known, this`ks, Nodes(ks)
      ensures Shape() && L() == old(L()).(known := WithoutIps(old(L()).known, ips, true)) && Nodes(ks) <= old(Nodes(ks))
    {
      hide IsList, WithoutIps;
      var rest;
      ghost var t;
      rest, t := UnlinkIps(known, ips, true, ks);
      assert IsList(pending, ps) && Entries(ps) == old(Entries(ps));
      known, ks := rest, t;
    }

    /** The end of a peer sync. */
    method EndSync(ips: seq<nat>)
      requires Shape()
      modifies this, Nodes(ks), Nodes(ps)
      ensures Shape() && L() == OnSync(old(L()), ips) && Nodes(ks) + Nodes(ps) <= old(Nodes(ks) + Nodes(ps))
    {
      hide IsList, Entries, WithoutIps;
      SyncPending(ips);
      SyncKnown(ips);
    }

    /** The end of the edge: both lists are emptied. */
    method Clear() returns (n: nat)
      requires Shape()
      modifies this
      ensures Valid() && L() == Lists([], []) && n == |old(L()).known| + |old(L()).pending|
    {
      var a, b;
      pending, a := ClearList(pending, ps);
      known, b := ClearList(known, ks);
      ks, ps := [], [];
      n := a + b;
    }

    // -------------------------------------------------------------- any event

    /** Whatever comes, the lists stay sound, and become what the event says. */
    method Handle(env: Env, e: EdgePeers.Event, now: nat)
      requires Valid()
      modifies this, Nodes(ks), Nodes(ps)
      ensures Valid() && L() == Next(env, old(L()), e, now)
      ensures fresh(Nodes(ks) + Nodes(ps) - old(Nodes(ks) + Nodes(ps)))
    {
      hide Sound, Shape, OnRegister, OnRegisterAck, OnProbe, OnProbeAck, OnPeerInfo, OnPunch, OnDeregister, OnPacket,
        OnSend, OnSilence,
           OnPunchTimeouts, OnPurge, OnSync;
      NextSound(env, L(), e, now);
      match e {
        case Register(mac, regSock, sender, orig) => HandleRegister(env, mac, regSock, sender, orig, now);
        case RegisterAck(mac, fromSn, sender) => HandleRegisterAck(mac, fromSn, sender, now);
        case Probe(mac, sender) => HandleProbe(env, mac, sender, now);
        case ProbeAck(mac) => HandleProbeAck(mac, now);
        case PeerInfo(pi, syncing) => HandlePeerInfo(env, pi, syncing, now);
        case PunchRequest(pi) => HandlePunch(env, pi, now);
        case Deregister(mac) => HandleDeregister(mac);
        case Packet(f) => HandlePacket(f, now);
        case Send(mac) => HandleSend(mac, now);
        case Silence(mac) => HandleSilence(env, mac, now);
        case PunchTimeouts => CheckPunchTimeouts(env, now);
        case Purge => var purged := PurgeLists(now);
        case SyncEnd(ips) => EndSync(ips);
      }
    }
  }

  lemma {:induction false} HeadIndex(s: seq<Entry>, mac: Mac)
    requires s != [] && s[0].mac == mac
    ensures IndexOf(s, mac) == 0 && Has(s, mac) && InfoOf(s, mac) == s[0].info
  {
  }

  lemma HeadPlaces(p: Peer, s: seq<Peer>)
    ensures forall i :: 0 <= i < |s| ==> ([p] + s)[i + 1] == s[i]
    ensures Nodes([p] + s) == {p} + Nodes(s) && ([p] + s)[1..] == s
  {
  }

  lemma CutNodes(s: seq<Peer>, k: nat)
    requires k < |s| && DistinctNodes(s)
    ensures Nodes(CutNode(s, k)) == Nodes(s) - {s[k]} && DistinctNodes(CutNode(s, k))
  {
  }
}
