/**
 The host side of an AT data session: the addresses it has put on the interface, the lease it
 reports, and the two ways a DHCP event changes them. Every host command may fail, and a failed
 command may or may not have taken effect.
 */
module AtSession {
  import opened Results

  type Address = x: int | 0 <= x < 0x1_0000_0000
  type Prefix = x: int | 0 <= x <= 32

  // An address with its prefix length, as the ip command writes it.
  datatype Cidr = Cidr(address: Address, prefix: Prefix)

  function Power(n: nat): (p: nat)
    ensures p > 0
  {
    if n == 0 then 1 else 2 * Power(n - 1)
  }

  predicate SameSubnet(c: Cidr, d: Cidr) {
    c.prefix == d.prefix && c.address / Power(32 - c.prefix) == d.address / Power(32 - d.prefix)
  }

  // What deleting these addresses can take from an interface: Linux drops the secondaries of a subnet
  // together with its primary address.
  function Reach(addresses: set<Cidr>, named: set<Cidr>): set<Cidr> {
    set c | c in addresses && exists n :: n in named && n in addresses && SameSubnet(c, n)
  }

  // The addresses that share no subnet with any of these.
  function Bystanders(addresses: set<Cidr>, named: set<Cidr>): set<Cidr> {
    set c | c in addresses && forall n | n in named :: !SameSubnet(c, n)
  }

  // The interface's addresses and the session's books. `attempted` is every address the session
  // ever tried to install.
  datatype Host = Host(addresses: set<Cidr>, owned: set<Cidr>, attempted: set<Cidr>, lease: Option<Cidr>)

  // Some owned addresses are removed: an address leaves the books only once it is gone, nothing beyond the
  // reach of these deletes disappears, and success means that nothing named is left.
  ghost predicate Removes(h: Host, h': Host, named: set<Cidr>, ok: bool) {
    && h'.attempted == h.attempted && h'.lease == h.lease
    && h'.owned <= h.owned && h.owned - h'.owned <= named
    && h'.addresses <= h.addresses && h.addresses - h'.addresses <= Reach(h.addresses, named)
    && h'.addresses !! (h.owned - h'.owned)
    && (ok <==> h'.owned !! named)
  }

  // A deconfiguration: the whole of the books is removed and the lease is dropped.
  ghost predicate Deconfigures(h: Host, h': Host, ok: bool) {
    Removes(h, h'.(lease := h.lease), h.owned, ok) && h'.lease.None?
  }

  // A bound or renew record for address c: the others are removed first, and only then is c taken
  // into the books and configured.
  ghost predicate Binds(h: Host, h': Host, c: Cidr) {
    exists mid: Host, removed: bool ::
      && Removes(h, mid, h.owned - {c}, removed)
      && (if removed then
            && h'.owned == mid.owned + {c} && h'.attempted == mid.attempted + {c}
            && (h'.addresses == mid.addresses || h'.addresses == mid.addresses + {c})
            && (h'.lease.None? || (h'.lease == Some(c) && c in h'.addresses))
          else h' == mid.(lease := None))
  }

  datatype Record = BoundTo(c: Cidr) | Unusable | Deconfig | Other

  // What applying one record may do.
  ghost predicate Applies(h: Host, h': Host, record: Record) {
    match record
    case BoundTo(c) => Binds(h, h', c)
    case Deconfig => exists ok :: Deconfigures(h, h', ok)
    case Unusable => h' == h
    case Other => h' == h
  }

  // ---- What every such change keeps -------------------------------------------------------------

  // A lease describes exactly the address the session owns, and that address is on the interface; what the
  // session put there and is still there is owned; and no address apart from the session's subnets is gone.
  ghost predicate Accounted(h: Host, foreign: set<Cidr>) {
    && (h.lease.Some? ==> h.owned == {h.lease.value} && h.lease.value in h.addresses)
    && h.addresses * h.attempted <= h.owned <= h.attempted
    && Bystanders(foreign, h.attempted) <= h.addresses <= foreign + h.attempted
  }

  lemma RemovesAccounted(h: Host, h': Host, named: set<Cidr>, ok: bool, foreign: set<Cidr>)
    requires Removes(h, h', named, ok) && named <= h.owned && Accounted(h.(lease := None), foreign)
    ensures Accounted(h'.(lease := None), foreign)
  {
    forall c | c in h'.addresses * h'.attempted ensures c in h'.owned {
      assert c in h.addresses * h.attempted;
    }
    forall c | c in Bystanders(foreign, h.attempted) ensures c in h'.addresses {
      assert c !in Reach(h.addresses, named);
    }
  }

  lemma AppliesAccounted(h: Host, h': Host, record: Record, foreign: set<Cidr>)
    requires Applies(h, h', record) && Accounted(h, foreign)
    ensures Accounted(h', foreign)
  {
    match record {
      case BoundTo(c) =>
        var mid: Host, removed: bool :|
          && Removes(h, mid, h.owned - {c}, removed)
          && (if removed then
                && h'.owned == mid.owned + {c} && h'.attempted == mid.attempted + {c}
                && (h'.addresses == mid.addresses || h'.addresses == mid.addresses + {c})
                && (h'.lease.None? || (h'.lease == Some(c) && c in h'.addresses))
              else h' == mid.(lease := None));
        RemovesAccounted(h, mid, h.owned - {c}, removed, foreign);
        if removed {
          assert mid.owned <= {c};
          assert h'.owned == {c};
        }
      case Deconfig =>
        var ok :| Deconfigures(h, h', ok);
        RemovesAccounted(h, h'.(lease := h.lease), h.owned, ok, foreign);
      case Unusable =>
      case Other =>
    }
  }

  /**
   Deleting owned addresses leaves every other address in place, whatever the kernel does, if and only if none
   of those shares a subnet with an address that is deleted from the interface.
   */
  lemma RemovalSparesIff(h: Host, named: set<Cidr>, others: set<Cidr>)
    requires named <= h.owned && others <= h.addresses
    ensures (forall h', ok | Removes(h, h', named, ok) :: others <= h'.addresses)
            <==> others !! Reach(h.addresses, named)
  {
    var gone := h.(addresses := h.addresses - Reach(h.addresses, named), owned := h.owned - named);
    assert forall c | c in named && c in h.addresses :: SameSubnet(c, c) && c in Reach(h.addresses, named);
    assert Removes(h, gone, named, true);
  }

  /**
   A new lease is installed only after the old addresses are gone. The other order could lose it: for every
   old address on the interface in the new one's subnet, deleting it may take the new one along.
   */
  lemma InstallingFirstCanLoseLease(h: Host, previous: Cidr, c: Cidr)
    requires previous in h.owned && previous in h.addresses && c != previous && SameSubnet(c, previous)
    ensures var installed := h.(addresses := h.addresses + {c}, owned := h.owned + {c});
            exists h' :: Removes(installed, h', {previous}, true) && c !in h'.addresses
  {
    var installed := h.(addresses := h.addresses + {c}, owned := h.owned + {c});
    var h' := installed.(addresses := installed.addresses - {previous, c}, owned := installed.owned - {previous});
    assert SameSubnet(previous, previous);
    assert Removes(installed, h', {previous}, true);
  }

  // ---- The session's methods, in the form the program has ------------------------------------------

  // One delete command: whether it took effect, what the kernel removed along with the address, and whether it
  // reported success or that there was nothing to remove.
  datatype Removal = Removal(acted: bool, along: set<Cidr>, answered: bool)

  class Session {
    var addresses: set<Cidr>
    var owned: set<Cidr>
    var lease: Option<Cidr>
    var eventsStopped: bool
    ghost var attempted: set<Cidr>

    ghost function View(): Host
      reads this
    {
      Host(addresses, owned, attempted, lease)
    }

    constructor (present: set<Cidr>)
      ensures View() == Host(present, {}, {}, None) && !eventsStopped
    {
      addresses, owned, lease, eventsStopped, attempted := present, {}, None, false, {};
    }

    // removeOwnedAddress: an address that is already absent counts as removed.
    method RemoveOwnedAddress(address: Cidr, reply: Removal) returns (ok: bool)
      requires address in owned
      modifies this`addresses, this`owned
      ensures Removes(old(View()), View(), {address}, ok)
      ensures ok <==> reply.answered && (reply.acted || address !in old(addresses))
      ensures owned == if ok then old(owned) - {address} else old(owned)
      ensures reply.acted ==> address !in addresses
    {
      if reply.acted && address in addresses {
        addresses := addresses - {address} - (reply.along * Reach(addresses, {address}));
      }
      ok := reply.answered && address !in addresses;
      if ok { owned := owned - {address}; }
    }

    // Removes each of the given owned addresses, keeping those whose removal fails.
    method RemoveEach(named: set<Cidr>, replies: Cidr -> Removal) returns (ok: bool)
      requires named <= owned
      modifies this`addresses, this`owned
      ensures Removes(old(View()), View(), named, ok)
      ensures forall a | a in named && replies(a).answered && replies(a).acted :: a !in owned && a !in addresses
      ensures forall a | a in named && !replies(a).answered :: a in owned
    {
      var left := named;
      ok := true;
      while left != {}
        invariant left <= named && left <= owned
        invariant Removes(old(View()), View(), named - left, ok)
        invariant forall a | a in named - left && replies(a).answered && replies(a).acted ::
                    a !in owned && a !in addresses
        invariant forall a | a in named - left && !replies(a).answered :: a in owned
        decreases left
      {
        var address :| address in left;
        ghost var before := View();
        left := left - {address};
        var removed := RemoveOwnedAddress(address, replies(address));
        RemovesMore(old(View()), before, View(), named - left - {address}, address, ok, removed);
        assert named - left == (named - left - {address}) + {address};
        ok := ok && removed;
      }
      assert named - left == named;
    }

    // clearLeaseHost, with the deconfiguration's verdict on the lease.
    method Deconfigure(replies: Cidr -> Removal) returns (ok: bool)
      modifies this`addresses, this`owned, this`lease
      ensures Deconfigures(old(View()), View(), ok)
      ensures forall a | a in old(owned) && replies(a).answered && replies(a).acted :: a !in owned && a !in addresses
    {
      ok := RemoveEach(owned, replies);
      lease := None;
    }

    // The bound and renew branch of applyEvent. The lease is reported exactly when nothing else is owned any
    // more and both the address and the routes were configured.
    method Bind(c: Cidr, replies: Cidr -> Removal, replaced: bool, routed: bool)
      modifies this`addresses, this`owned, this`lease, this`attempted
      ensures Binds(old(View()), View(), c)
      ensures lease == if owned == {c} && replaced && routed then Some(c) else None
      ensures (forall a | a in old(owned) && a != c :: replies(a).answered && replies(a).acted) ==>
                owned == {c} && (replaced ==> c in addresses)
    {
      var removed := RemoveEach(owned - {c}, replies);
      ghost var mid := View();
      var configured := false;
      if removed {
        owned := owned + {c};
        attempted := attempted + {c};
        if replaced { addresses := addresses + {c}; }
        configured := replaced && routed;
      }
      lease := if configured then Some(c) else None;
      assert Removes(old(View()), mid, old(owned) - {c}, removed);
    }

    // handleLeaseEvent: nothing is applied once the events are stopped.
    method HandleLeaseEvent(record: Record, replies: Cidr -> Removal, replaced: bool, routed: bool)
      modifies this`addresses, this`owned, this`lease, this`attempted
      ensures eventsStopped ==> View() == old(View())
      ensures !eventsStopped ==> Applies(old(View()), View(), record)
      ensures !eventsStopped && record.BoundTo? ==>
                lease == if owned == {record.c} && replaced && routed then Some(record.c) else None
    {
      if eventsStopped { return; }
      match record {
        case BoundTo(c) => Bind(c, replies, replaced, routed);
        case Deconfig => var ok := Deconfigure(replies);
        case Unusable =>
        case Other =>
      }
    }

    method StopLeaseEvents()
      modifies this`eventsStopped
      ensures eventsStopped
    {
      eventsStopped := true;
    }
  }

  lemma PowersOfTwo()
    ensures Power(0) == 1 && Power(7) == 0x80 && Power(8) == 0x100 && Power(24) == 0x100_0000
    ensures Power(32) == 0x1_0000_0000
  {
    assert Power(4) == 16;
    assert Power(7) == 128;
    assert Power(8) == 256;
    assert Power(12) == 4096;
    assert Power(16) == 0x1_0000;
    assert Power(20) == 0x10_0000;
    assert Power(24) == 0x100_0000;
    assert Power(28) == 0x1000_0000;
  }

  /** Two addresses share a subnet when their prefixes are as long and their first bits are the same. */
  lemma SubnetMeans(c: Cidr, d: Cidr)
    requires c.prefix in [0, 8, 24, 25, 32]
    ensures SameSubnet(c, d) <==>
            c.prefix == d.prefix
            && (c.prefix == 8 ==> c.address / 0x100_0000 == d.address / 0x100_0000)
            && (c.prefix == 24 ==> c.address / 0x100 == d.address / 0x100)
            && (c.prefix == 25 ==> c.address / 0x80 == d.address / 0x80)
            && (c.prefix == 32 ==> c.address == d.address)
  {
    PowersOfTwo();
    hide Power;
    var p := c.prefix;
    assert p == 0 || p == 8 || p == 24 || p == 25 || p == 32;
  }

  /** A bound record can be reported whenever the old addresses go and the configuration succeeds. */
  lemma BoundCanBeReported(h: Host, c: Cidr)
    ensures var h' := Host(h.addresses - Reach(h.addresses, h.owned - {c}) + {c}, {c}, h.attempted + {c}, Some(c));
            c in h.owned ==> Applies(h, h', BoundTo(c))
    ensures var h' := Host(h.addresses - Reach(h.addresses, h.owned) + {c}, {c}, h.attempted + {c}, Some(c));
            c !in h.owned ==> Applies(h, h', BoundTo(c))
  {
    var named := h.owned - {c};
    var mid := h.(addresses := h.addresses - Reach(h.addresses, named), owned := h.owned - named);
    assert forall a | a in named && a in h.addresses :: SameSubnet(a, a) && a in Reach(h.addresses, named);
    assert Removes(h, mid, named, true);
    assert c !in h.owned ==> named == h.owned;
    assert mid.owned + {c} == {c};
  }

  lemma RemovesMore(h: Host, h1: Host, h2: Host, named: set<Cidr>, address: Cidr, ok: bool, removed: bool)
    requires Removes(h, h1, named, ok) && Removes(h1, h2, {address}, removed)
    requires address in h1.owned && address !in named
    ensures Removes(h, h2, named + {address}, ok && removed)
  {
    assert h.owned - h2.owned == (h.owned - h1.owned) + (h1.owned - h2.owned);
    assert h.addresses - h2.addresses == (h.addresses - h1.addresses) + (h1.addresses - h2.addresses);
  }
}
