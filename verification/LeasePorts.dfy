/** The port block of a cluster slot. */
module LeasePorts {
  datatype Profile = Single | ThreeStore | Upstream

  function Stores(profile: Profile): nat {
    match profile
    case Single => 1
    case ThreeStore => 3
    case Upstream => 3
  }

  /** One store for the single profile, three for the others. */
  lemma StoresOfProfiles(profile: Profile)
    ensures Stores(profile) == 1 <==> profile == Single
    ensures Stores(profile) == 3 <==> profile == ThreeStore || profile == Upstream
  {
  }

  datatype PortName = PdClient | PdPeer | Store(index: nat) | Status(index: nat)

  type PortMap = map<PortName, int>

  /** Slot 0 is the classic block; every other slot has a hundred ports of its own. */
  function PdPort(slot: int): int {
    if slot == 0 then 2379 else 32000 + (slot - 1) * 100
  }

  function StorePort(slot: int, i: nat): int {
    if slot == 0 then 20160 + i else PdPort(slot) + 10 + i
  }

  function StatusPort(slot: int, i: nat): int {
    if slot == 0 then 20180 + i else PdPort(slot) + 20 + i
  }

  function PortOf(slot: int, name: PortName): int {
    match name
    case PdClient => PdPort(slot)
    case PdPeer => PdPort(slot) + 1
    case Store(i) => StorePort(slot, i)
    case Status(i) => StatusPort(slot, i)
  }

  predicate Names(stores: nat, name: PortName) {
    (name.Store? || name.Status?) ==> name.index < stores
  }

  method Ports(slot: int, stores: nat) returns (out: PortMap)
    ensures forall name :: name in out <==> Names(stores, name)
    ensures forall name :: name in out ==> out[name] == PortOf(slot, name)
  {
    var basePd, peer, store, status;
    if slot == 0 {
      basePd, peer, store, status := 2379, 2380, 20160, 20180;
    } else {
      var base := 32000 + (slot - 1) * 100;
      basePd, peer, store, status := base, base + 1, base + 10, base + 20;
    }
    out := map[PdClient := basePd, PdPeer := peer];
    forall name
      ensures name in out <==> Names(0, name)
    {
      match name {
        case PdClient =>
        case PdPeer =>
        case Store(_) =>
        case Status(_) =>
      }
    }
    for i := 0 to stores
      invariant forall name :: name in out <==> Names(i, name)
      invariant forall name :: name in out ==> out[name] == PortOf(slot, name)
    {
      out := out[Store(i) := store + i][Status(i) := status + i];
    }
  }

  /** Where a port stands in its hundred: no two names of a small block share a place, and the
      classic block shares none with the others. */
  function Place(classic: bool, name: PortName): int {
    match name
    case PdClient => if classic then 79 else 0
    case PdPeer => if classic then 80 else 1
    case Store(i) => if classic then 60 + i else 10 + i
    case Status(i) => if classic then 80 + i else 20 + i
  }

  lemma PlaceInHundred(slot: int, profile: Profile, name: PortName)
    requires Names(Stores(profile), name)
    ensures PortOf(slot, name) % 100 == Place(slot == 0, name)
  {
    if slot != 0 {
      var k := Place(false, name);
      assert PortOf(slot, name) == 100 * (320 + slot - 1) + k;
    }
  }

  /** Clusters on different slots, of any profiles and on any slot number whatever, share no
      port. */
  lemma SlotsHaveDisjointPorts(slot: int, profile: Profile, name: PortName,
                               slot': int, profile': Profile, name': PortName)
    requires slot != slot' && Names(Stores(profile), name) && Names(Stores(profile'), name')
    ensures PortOf(slot, name) != PortOf(slot', name')
  {
    PlaceInHundred(slot, profile, name);
    PlaceInHundred(slot', profile', name');
    if slot != 0 && slot' != 0 && name == name' {
      assert PortOf(slot, name) - PortOf(slot', name) == 100 * (slot - slot');
    }
  }

  /** One cluster uses each of its ports once. */
  lemma BlockHasDistinctPorts(slot: int, profile: Profile, name: PortName, name': PortName)
    requires name != name' && Names(Stores(profile), name) && Names(Stores(profile), name')
    ensures PortOf(slot, name) != PortOf(slot, name')
  {
  }
}
