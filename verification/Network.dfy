/** What a container's network is on record, interface names and addresses, and the scan that allocates them
    (cmd/macker/network.go). */
module Network {
  import opened Text

  newtype uint16 = n: int | 0 <= n < 0x1_0000

  datatype PortMapping = PortMapping(hostPort: uint16, nodePort: uint16, protocol: string)

  datatype NetConfig = NetConfig(hostInterface: string, hostIP: string, iface: string, ip: string,
                                 hostOwned: bool, ifaceOwned: bool)

  const HOST_BRIDGE := "bridge88"
  const HOST_IP := "172.31.88.1"
  const BASE_OCTET: nat := 88
  const LIMIT: nat := 167

  function SlotName(index: nat): string {
    HOST_BRIDGE + Decimal(index)
  }

  function SlotIP(index: nat): string {
    "172.31." + Decimal(BASE_OCTET + index) + ".1"
  }

  lemma SlotNamesDiffer(i: nat, j: nat)
    ensures SlotName(i) == SlotName(j) ==> i == j
    ensures SlotName(i) != HOST_BRIDGE
  {
    SuffixOf(HOST_BRIDGE, Decimal(i));
    SuffixOf(HOST_BRIDGE, Decimal(j));
    DecimalInjective(i, j);
  }

  lemma SlotIPsDiffer(i: nat, j: nat)
    ensures SlotIP(i) == SlotIP(j) ==> i == j
  {
    MiddleOf("172.31.", Decimal(BASE_OCTET + i), ".1");
    MiddleOf("172.31.", Decimal(BASE_OCTET + j), ".1");
    DecimalInjective(BASE_OCTET + i, BASE_OCTET + j);
  }

  /** Names and addresses tell slots apart, and no slot is the host bridge. */
  lemma SlotsAreDistinct(i: nat, j: nat)
    ensures SlotName(i) == SlotName(j) ==> i == j
    ensures SlotIP(i) == SlotIP(j) ==> i == j
    ensures SlotName(i) != HOST_BRIDGE
  {
    SlotNamesDiffer(i, j);
    SlotIPsDiffer(i, j);
  }

  /** The host bridge is bridge88 at 172.31.88.1, slot `i` bridge88 followed by the numeral of `i`, at 172.31.n.1 with n
      the numeral of 88 + i; there are as many slots as leave that octet at most 255. */
  lemma SlotsAreNumbered(i: nat)
    ensures HOST_BRIDGE == "bridge88" && HOST_IP == "172.31.88.1"
    ensures "bridge88" <= SlotName(i) && Numeral(SlotName(i)[8..]) == i
    ensures |SlotIP(i)| > 9 && SlotIP(i)[..7] == "172.31." && SlotIP(i)[|SlotIP(i)| - 2..] == ".1"
    ensures Numeral(SlotIP(i)[7..|SlotIP(i)| - 2]) == 88 + i
    ensures i <= LIMIT <==> 88 + i <= 255
  {
    SuffixOf("bridge88", Decimal(i));
    MiddleOf("172.31.", Decimal(88 + i), ".1");
    DecimalStandsForIt(i);
    DecimalStandsForIt(88 + i);
  }

  lemma SuffixOf(a: string, b: string)
    ensures (a + b)[|a|..] == b && |a + b| == |a| + |b|
  {
  }

  lemma MiddleOf(a: string, b: string, c: string)
    ensures (a + b + c)[|a|..|a + b + c| - |c|] == b
  {
  }

  datatype Scan = Found(index: nat) | InspectFailed | NoSlot

  /** The loop of setupMackerNetwork from `index` on: reserved names are passed over unseen, existing interfaces after
      a look, and a look that fails (at `bad`) ends the scan. */
  function ScanSlots(used: set<string>, existing: set<string>, index: nat, bad: nat): (r: Scan)
    requires 1 <= index <= LIMIT + 1
    ensures r.Found? ==>
              && index <= r.index <= LIMIT && SlotName(r.index) !in used && SlotName(r.index) !in existing
              && forall i :: index <= i < r.index ==> SlotName(i) in used || SlotName(i) in existing
    ensures r.NoSlot? ==> forall i :: index <= i <= LIMIT ==> SlotName(i) in used || SlotName(i) in existing
    ensures r.InspectFailed? ==> index <= bad <= LIMIT
    decreases LIMIT + 1 - index
  {
    if index > LIMIT then NoSlot
    else if SlotName(index) in used then ScanSlots(used, existing, index + 1, bad)
    else if index == bad then InspectFailed
    else if SlotName(index) in existing then ScanSlots(used, existing, index + 1, bad)
    else Found(index)
  }
}
