/** The two-way table between tester addresses and the sockets they are routed to. */
module DoipRoutingTable {
  import opened Bytes

  datatype Routing = Routing(addressToFd: map<nat, nat>, fdToAddress: map<nat, nat>)

  const EMPTY := Routing(map[], map[])

  function DeactivateFd(r: Routing, fd: nat): Routing {
    if fd in r.fdToAddress then
      Routing(Without(r.addressToFd, r.fdToAddress[fd]), Without(r.fdToAddress, fd))
    else r
  }

  function DeactivateAddress(r: Routing, address: nat): Routing {
    if address in r.addressToFd then
      Routing(Without(r.addressToFd, address), Without(r.fdToAddress, r.addressToFd[address]))
    else r
  }

  function Activate(r: Routing, fd: nat, address: nat): Routing {
    var t := DeactivateAddress(DeactivateFd(r, fd), address);
    Routing(t.addressToFd[address := fd], t.fdToAddress[fd := address])
  }

  /** The two maps are each other's inverse. */
  ghost predicate Inverse(r: Routing) {
    && (forall a :: a in r.addressToFd ==>
          r.addressToFd[a] in r.fdToAddress && r.fdToAddress[r.addressToFd[a]] == a)
    && (forall fd :: fd in r.fdToAddress ==>
          r.fdToAddress[fd] in r.addressToFd && r.addressToFd[r.fdToAddress[fd]] == fd)
  }

  /** Activation makes fd and address partners, drops whatever partners they had, and leaves every
      other pair alone; the maps stay inverse. */
  lemma ActivatePairs(r: Routing, fd: nat, address: nat)
    requires Inverse(r)
    ensures var t := Activate(r, fd, address);
      && Inverse(t)
      && fd in t.fdToAddress && t.fdToAddress[fd] == address
      && forall g :: g != fd ==>
           && (g in t.fdToAddress <==> g in r.fdToAddress && r.fdToAddress[g] != address)
           && (g in t.fdToAddress ==> t.fdToAddress[g] == r.fdToAddress[g])
  {
    var u := DeactivateFd(r, fd);
    assert Inverse(u);
    assert Inverse(DeactivateAddress(u, address));
  }

  lemma WithoutSize<K, V>(m: map<K, V>, k: K)
    requires k in m
    ensures |Without(m, k)| == |m| - 1
  {
    assert Without(m, k).Keys == m.Keys - {k};
  }

  /** Counting addresses is counting sockets. */
  lemma {:induction false} InverseSize(r: Routing)
    requires Inverse(r)
    ensures |r.addressToFd| == |r.fdToAddress|
    decreases |r.addressToFd|
  {
    if fd :| fd in r.fdToAddress {
      WithoutSize(r.addressToFd, r.fdToAddress[fd]);
      WithoutSize(r.fdToAddress, fd);
      InverseSize(DeactivateFd(r, fd));
    } else if a :| a in r.addressToFd {
      assert r.addressToFd[a] in r.fdToAddress;
    }
  }

  class DoipRoutingTable {
    var addressToFd: map<nat, nat>
    var fdToAddress: map<nat, nat>

    ghost function View(): Routing
      reads this
    {
      Routing(addressToFd, fdToAddress)
    }

    constructor ()
      ensures View() == EMPTY
    {
      addressToFd, fdToAddress := map[], map[];
    }

    predicate IsActive(address: nat)
      reads this
    {
      address in addressToFd
    }

    /** The socket an address is routed to, -1 if none. */
    function FdFor(address: nat): (fd: int)
      reads this
      ensures Inverse(View()) ==> forall g: nat :: fd == g <==> g in fdToAddress && fdToAddress[g] == address
    {
      if address in addressToFd then addressToFd[address] else -1
    }

    function ActiveCount(): nat
      reads this
    {
      |addressToFd|
    }

    predicate AtCapacity(maxOpenSockets: Byte)
      reads this
    {
      ActiveCount() >= maxOpenSockets
    }

    method Deactivate(fd: nat)
      modifies this
      ensures View() == DeactivateFd(old(View()), fd)
    {
      if fd in fdToAddress {
        addressToFd := map a | a in addressToFd && a != fdToAddress[fd] :: addressToFd[a];
        fdToAddress := map g | g in fdToAddress && g != fd :: fdToAddress[g];
      }
    }

    method DeactivateAddressOf(address: nat)
      modifies this
      ensures View() == DeactivateAddress(old(View()), address)
    {
      if address in addressToFd {
        fdToAddress := map g | g in fdToAddress && g != addressToFd[address] :: fdToAddress[g];
        addressToFd := map a | a in addressToFd && a != address :: addressToFd[a];
      }
    }

    method ActivateRoute(fd: nat, address: nat)
      modifies this
      ensures View() == Activate(old(View()), fd, address)
      ensures old(Inverse(View())) ==> Inverse(View())
    {
      if Inverse(View()) { ActivatePairs(View(), fd, address); }
      Deactivate(fd);
      DeactivateAddressOf(address);
      addressToFd := addressToFd[address := fd];
      fdToAddress := fdToAddress[fd := address];
    }
  }
}
