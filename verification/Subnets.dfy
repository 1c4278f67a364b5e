/** common/net/ip_helper.go and the gateway check of deployment/manifest/validator.go.
    Prefix lengths as in section 3.1 of RFC 4632; IPv4-mapped addresses as in section
    2.5.5.2 of RFC 4291. */
module Subnets {
  import opened Wrappers

  type Byte = bv8
  type Address = seq<Byte>

  datatype Net = Net(ip: Address, mask: seq<Byte>)

  const MAPPED: seq<Byte> := [0, 0, 0, 0, 0, 0, 0, 0, 0, 0, 0xff, 0xff]

  /** The 4 bytes of an IPv4 address in either of its forms. */
  function To4(ip: Address): Option<Address> {
    if |ip| == 4 then Some(ip)
    else if |ip| == 16 && ip[..12] == MAPPED then Some(ip[12..])
    else None
  }

  function Shortest(ip: Address): Address {
    match To4(ip) case Some(four) => four case None => ip
  }

  function MaskByte(ones: int): Byte {
    if ones <= 0 then 0x00 else if ones == 1 then 0x80 else if ones == 2 then 0xc0 else if ones == 3 then 0xe0
    else if ones == 4 then 0xf0 else if ones == 5 then 0xf8 else if ones == 6 then 0xfc else if ones == 7 then 0xfe
    else 0xff
  }

  predicate Agree(a: Byte, b: Byte, mask: Byte) {
    a & mask == b & mask
  }

  predicate Zeroed(ip: Byte, mask: Byte) {
    ip & mask == ip
  }

  function LastByte(ip: Byte, mask: Byte): Byte {
    ip | !mask
  }

  function NextByte(ip: Byte): Byte {
    ip | 1
  }

  /** What an address range in prefix notation stands for: the network address with its
      host bits zero, and that many leading one bits of mask. */
  ghost predicate FromRange(n: Net, prefix: nat) {
    && (|n.ip| == 4 || |n.ip| == 16) && |n.mask| == |n.ip| && prefix <= 8 * |n.ip|
    && forall i | 0 <= i < |n.ip| :: n.mask[i] == MaskByte(prefix - 8 * i) && Zeroed(n.ip[i], n.mask[i])
  }

  ghost predicate InNet(n: Net, a: Address)
    requires |n.mask| == |n.ip|
  {
    |a| == |n.ip| && forall i | 0 <= i < |a| :: Agree(a[i], n.ip[i], n.mask[i])
  }

  /** Addresses of one length in their numeric order. */
  ghost predicate Before(a: Address, b: Address) {
    exists k :: 0 <= k < |a| && k < |b| && a[k] < b[k] && forall i | 0 <= i < k :: a[i] == b[i]
  }

  ghost predicate Greatest(n: Net, a: Address)
    requires |n.mask| == |n.ip|
  {
    InNet(n, a) && forall b | InNet(n, b) && b != a :: Before(b, a)
  }

  function LastOf(ip: Address, mask: seq<Byte>): (r: Address)
    requires |ip| <= |mask|
    ensures |r| == |ip| && forall i | 0 <= i < |r| :: r[i] == LastByte(ip[i], mask[i])
  {
    seq(|ip|, i requires 0 <= i < |ip| => LastByte(ip[i], mask[i]))
  }

  /** An IPv4 result comes in the 16-byte form. */
  function LastAddress(n: Net): Address
    requires (|n.ip| == 4 || |n.ip| == 16) && |n.mask| == |n.ip|
  {
    match To4(n.ip)
    case None => LastOf(n.ip, n.mask)
    case Some(four) => MAPPED + LastOf(four, n.mask)
  }

  lemma FirstDifference(a: Address, b: Address)
    requires |a| == |b| && a != b && forall i | 0 <= i < |a| :: a[i] <= b[i]
    ensures Before(a, b)
  {
    var k := 0;
    while k < |a| && a[k] == b[k]
      invariant k <= |a| && forall i | 0 <= i < k :: a[i] == b[i]
    {
      k := k + 1;
    }
  }

  // ----- Byte by byte -----

  lemma AtMost(b: Byte, ip: Byte, mask: Byte)
    requires Agree(b, ip, mask)
    ensures b <= LastByte(ip, mask)
  {}

  lemma AtLeast(b: Byte, ip: Byte, mask: Byte)
    requires Agree(b, ip, mask) && Zeroed(ip, mask)
    ensures ip <= b
  {}

  lemma LastAgrees(ip: Byte, mask: Byte)
    ensures Agree(LastByte(ip, mask), ip, mask) && Agree(ip, ip, mask) && ip <= LastByte(ip, mask)
  {}

  lemma FullMask(a: Byte, ip: Byte, ones: int)
    requires ones >= 8
    ensures MaskByte(ones) == 0xff
    ensures Agree(a, ip, MaskByte(ones)) ==> a == ip
    ensures LastByte(ip, MaskByte(ones)) == ip
  {}

  lemma HostBits(ip: Byte, ones: int)
    requires Zeroed(ip, MaskByte(ones)) && ones < 8
    ensures LastByte(ip, MaskByte(ones)) != ip && NextByte(ip) != ip
    ensures Agree(NextByte(ip), ip, MaskByte(ones))
    ensures ones < 7 ==> NextByte(ip) != LastByte(ip, MaskByte(ones))
  {}

  lemma OneHostBit(a: Byte, ip: Byte, ones: int)
    requires Agree(a, ip, MaskByte(ones)) && Zeroed(ip, MaskByte(ones)) && ones >= 7
    ensures a == ip || a == LastByte(ip, MaskByte(ones))
  {}

  lemma LastOfIsGreatest(n: Net)
    requires |n.mask| == |n.ip|
    ensures Greatest(n, LastOf(n.ip, n.mask))
  {
    hide Agree, LastByte;
    var last := LastOf(n.ip, n.mask);
    forall b | InNet(n, b) && b != last ensures Before(b, last) {
      forall i | 0 <= i < |b| ensures b[i] <= last[i] {
        AtMost(b[i], n.ip[i], n.mask[i]);
      }
      FirstDifference(b, last);
    }
    forall i | 0 <= i < |last| ensures Agree(last[i], n.ip[i], n.mask[i]) {
      LastAgrees(n.ip[i], n.mask[i]);
    }
  }

  // ----- Where the code keeps the promise -----

  /** A network of IPv4-mapped addresses, written in 16 bytes. */
  predicate IsMapped(n: Net) {
    |n.ip| == 16 && To4(n.ip).Some?
  }

  lemma MappedPrefix(n: Net, prefix: nat)
    requires FromRange(n, prefix) && IsMapped(n)
    ensures prefix >= 96
    ensures LastAddress(n) == n.ip
  {
    assert n.ip[11] == n.ip[..12][11] == 0xff;
    assert n.mask[11] == MaskByte(prefix - 88);
    AllOnes(prefix - 88);
    var first := LastOf(n.ip[12..], n.mask);
    forall i | 0 <= i < 4 ensures first[i] == n.ip[12..][i] {
      FullMask(0, n.ip[12 + i], prefix - 8 * i);
    }
    assert first == n.ip[12..];
    assert n.ip == MAPPED + n.ip[12..];
  }

  lemma AllOnes(ones: int)
    requires Zeroed(0xff, MaskByte(ones))
    ensures ones >= 8
  {}

  lemma GreatestIsOne(n: Net, a: Address, b: Address)
    requires |n.mask| == |n.ip| && Greatest(n, a) && Greatest(n, b)
    ensures a == b
  {}

  /** LastAddress is the last address of the network, unless the network is written with
      IPv4-mapped addresses: then the code takes the first bytes of the mask for the last. */
  lemma LastAddressIsGreatest(n: Net, prefix: nat)
    requires FromRange(n, prefix)
    ensures var last := LastAddress(n);
      Greatest(n, if |n.ip| == 4 then last[12..] else last) <==> !IsMapped(n) || prefix == 128
  {
    hide MaskByte, LastByte, Zeroed, InNet, Agree, Greatest;
    LastOfIsGreatest(n);
    if IsMapped(n) {
      MappedPrefix(n, prefix);
      LastIsOwn(n, prefix);
      if Greatest(n, n.ip) {
        GreatestIsOne(n, n.ip, LastOf(n.ip, n.mask));
      }
    }
  }

  /** The network address is also the last one only when there are no host bits. */
  lemma LastIsOwn(n: Net, prefix: nat)
    requires FromRange(n, prefix)
    ensures LastOf(n.ip, n.mask) == n.ip <==> prefix == 8 * |n.ip|
  {
    hide MaskByte, LastByte, Zeroed;
    var z := |n.ip| - 1;
    if prefix == 8 * |n.ip| {
      forall i | 0 <= i <= z ensures LastByte(n.ip[i], n.mask[i]) == n.ip[i] {
        FullMask(0, n.ip[i], prefix - 8 * i);
      }
      assert LastOf(n.ip, n.mask) == n.ip;
    } else {
      assert n.mask[z] == MaskByte(prefix - 8 * z);
      HostBits(n.ip[z], prefix - 8 * z);
    }
  }

  // ----- The gateway check -----

  datatype GatewayError = NotProvided | NotAnIP | OutsideRange | IsNetworkAddress | IsBroadcastAddress

  predicate Same(a: Address, b: Address) {
    Shortest(a) == Shortest(b)
  }

  predicate Contains(n: Net, a: Address)
    requires (|n.ip| == 4 || |n.ip| == 16) && |n.mask| == |n.ip|
  {
    var number, ip := Shortest(n.ip), Shortest(a);
    var mask := n.mask[|n.mask| - |number|..];
    |ip| == |number| && forall i | 0 <= i < |ip| :: Agree(ip[i], number[i], mask[i])
  }

  predicate Accepted(n: Net, gateway: Address)
    requires (|n.ip| == 4 || |n.ip| == 16) && |n.mask| == |n.ip|
  {
    Contains(n, gateway) && !Same(n.ip, gateway) && !Same(LastAddress(n), gateway)
  }

  lemma NoAddress(n: Net)
    requires (|n.ip| == 4 || |n.ip| == 16) && |n.mask| == |n.ip|
    ensures !Contains(n, []) && !Same(n.ip, []) && !Same(LastAddress(n), [])
  {}

  lemma NetworkAddressIsInside(n: Net, a: Address)
    requires (|n.ip| == 4 || |n.ip| == 16) && |n.mask| == |n.ip|
    requires Same(n.ip, a)
    ensures Contains(n, a)
  {}

  /** Text that is not an address is no address at all, which is in no network. Without a
      usable range only the presence of the gateway is checked. */
  method ValidateGateway(blank: bool, parsed: Option<Address>, range: Option<Net>) returns (errors: seq<GatewayError>)
    requires range.Some? ==> (|range.value.ip| == 4 || |range.value.ip| == 16) && |range.value.mask| == |range.value.ip|
    requires parsed.Some? ==> |parsed.value| == 4 || |parsed.value| == 16
    ensures errors == [] <==> !blank && (range.Some? ==> parsed.Some? && Accepted(range.value, parsed.value))
    ensures NotProvided in errors <==> blank
    ensures blank || range.None? ==> NotAnIP !in errors && OutsideRange !in errors && IsNetworkAddress !in errors && IsBroadcastAddress !in errors
    ensures !blank && range.Some? ==>
      && (NotAnIP in errors <==> parsed.None?)
      && (OutsideRange in errors <==> parsed.None? || !Contains(range.value, parsed.value))
      && (IsNetworkAddress in errors <==> parsed.Some? && Same(range.value.ip, parsed.value))
      && (IsBroadcastAddress in errors <==> parsed.Some? && Same(LastAddress(range.value), parsed.value))
    ensures !(OutsideRange in errors && IsNetworkAddress in errors)
  {
    hide Contains, Same, LastAddress;
    if blank {
      return [NotProvided];
    }
    errors := [];
    if range.Some? {
      NoAddress(range.value);
      var gateway := if parsed.Some? then parsed.value else [];
      if parsed.None? {
        errors := errors + [NotAnIP];
      }
      if !Contains(range.value, gateway) {
        errors := errors + [OutsideRange];
      }
      if Same(range.value.ip, gateway) {
        NetworkAddressIsInside(range.value, gateway);
        errors := errors + [IsNetworkAddress];
      }
      if Same(LastAddress(range.value), gateway) {
        errors := errors + [IsBroadcastAddress];
      }
    }
  }

  /** The comparison with the last address does not miss it. */
  lemma LastIsRefused(n: Net, gateway: Address)
    requires (|n.ip| == 4 || |n.ip| == 16) && |n.mask| == |n.ip| && !IsMapped(n)
    requires Shortest(gateway) == LastOf(n.ip, n.mask)
    ensures Same(LastAddress(n), gateway)
  {
    var last := LastAddress(n);
    if |n.ip| == 4 {
      assert last[..12] == MAPPED && last[12..] == LastOf(n.ip, n.mask);
    } else {
      assert last == LastOf(n.ip, n.mask) == gateway;
    }
  }

  lemma ContainedIsInNet(n: Net, a: Address)
    requires (|n.ip| == 4 || |n.ip| == 16) && |n.mask| == |n.ip| && !IsMapped(n)
    ensures Contains(n, a) <==> InNet(n, Shortest(a))
  {
    hide Agree;
    assert n.mask[0..] == n.mask;
  }

  /** An accepted gateway lies strictly between the network address and the last address. */
  lemma AcceptedIsBetween(n: Net, prefix: nat, gateway: Address)
    requires FromRange(n, prefix) && Accepted(n, gateway) && !IsMapped(n)
    ensures var g, last := Shortest(gateway), LastOf(n.ip, n.mask);
      InNet(n, g) && Greatest(n, last) && Before(n.ip, g) && Before(g, last)
  {
    hide Agree, MaskByte, LastByte, Zeroed, Contains;
    var g, last := Shortest(gateway), LastOf(n.ip, n.mask);
    LastOfIsGreatest(n);
    ContainedIsInNet(n, gateway);
    forall i | 0 <= i < |g| ensures n.ip[i] <= g[i] {
      AtLeast(g[i], n.ip[i], n.mask[i]);
    }
    FirstDifference(n.ip, g);
    if g == last {
      LastIsRefused(n, gateway);
    }
  }

  lemma MappedHead(n: Net, prefix: nat, a: Address)
    requires FromRange(n, prefix) && IsMapped(n) && InNet(n, a)
    ensures Shortest(a) == a[12..] && a == MAPPED + a[12..]
  {
    hide Agree, MaskByte, LastByte, Zeroed;
    MappedPrefix(n, prefix);
    forall i | 0 <= i < 12 ensures a[i] == MAPPED[i] {
      assert n.ip[..12][i] == n.ip[i];
      FullMask(a[i], n.ip[i], prefix - 8 * i);
    }
    assert a[..12] == MAPPED;
  }

  lemma MappedIsContained(n: Net, prefix: nat, a: Address)
    requires FromRange(n, prefix) && IsMapped(n) && InNet(n, a)
    ensures Contains(n, a)
  {
    hide Agree, MaskByte, Zeroed;
    MappedHead(n, prefix, a);
    forall i | 0 <= i < 4 ensures Agree(a[12..][i], n.ip[12..][i], n.mask[12..][i]) {
      assert Agree(a[12 + i], n.ip[12 + i], n.mask[12 + i]);
    }
  }

  /** The last address of a network of mapped addresses is accepted, against the check. */
  lemma MappedLastIsAccepted(n: Net, prefix: nat)
    requires FromRange(n, prefix) && IsMapped(n) && prefix < 128
    ensures Greatest(n, LastOf(n.ip, n.mask)) && Accepted(n, LastOf(n.ip, n.mask))
  {
    hide Agree, MaskByte, LastByte, Zeroed, Contains;
    var last := LastOf(n.ip, n.mask);
    MappedPrefix(n, prefix);
    LastOfIsGreatest(n);
    LastIsOwn(n, prefix);
    MappedIsContained(n, prefix, last);
    MappedHead(n, prefix, last);
    assert n.ip == MAPPED + n.ip[12..];
  }

  /** With fewer than two host bits there are only the network address and the last one. */
  lemma NothingBetween(n: Net, prefix: nat, gateway: Address)
    requires FromRange(n, prefix) && prefix + 2 > 8 * |n.ip| && !IsMapped(n)
    ensures !Accepted(n, gateway)
  {
    hide Agree, MaskByte, LastByte, Zeroed, Contains;
    if Accepted(n, gateway) {
      AcceptedIsBetween(n, prefix, gateway);
      TwoAddresses(n, prefix, Shortest(gateway));
      NotBefore(n.ip);
      NotBefore(LastOf(n.ip, n.mask));
    }
  }

  lemma NotBefore(a: Address)
    ensures !Before(a, a)
  {}

  lemma TwoAddresses(n: Net, prefix: nat, a: Address)
    requires FromRange(n, prefix) && prefix + 2 > 8 * |n.ip| && InNet(n, a)
    ensures a == n.ip || a == LastOf(n.ip, n.mask)
  {
    hide Agree, MaskByte, LastByte, Zeroed;
    var z, last := |n.ip| - 1, LastOf(n.ip, n.mask);
    forall i | 0 <= i < z ensures a[i] == n.ip[i] == last[i] {
      FullMask(a[i], n.ip[i], prefix - 8 * i);
    }
    OneHostBit(a[z], n.ip[z], prefix - 8 * z);
    assert a == n.ip || a == last;
  }

  lemma NothingInOneAddress(n: Net, gateway: Address)
    requires FromRange(n, 128) && IsMapped(n)
    ensures !Accepted(n, gateway)
  {
    hide Agree, MaskByte, LastByte, Zeroed;
    if Contains(n, gateway) {
      var g, four := Shortest(gateway), n.ip[12..];
      forall i | 0 <= i < 4 ensures g[i] == four[i] {
        assert n.mask[12..][i] == MaskByte(128 - 8 * (12 + i));
        FullMask(g[i], four[i], 128 - 8 * (12 + i));
      }
      assert g == four;
    }
  }

  function Next(n: Net): (r: Address)
    requires |n.ip| > 0
  {
    n.ip[|n.ip| - 1 := NextByte(n.ip[|n.ip| - 1])]
  }

  lemma NextIsAccepted(n: Net, prefix: nat)
    requires FromRange(n, prefix) && prefix + 2 <= 8 * |n.ip| && !IsMapped(n)
    ensures Accepted(n, Next(n))
  {
    hide Agree, MaskByte, LastByte, NextByte, Zeroed, Contains;
    var g, z, last := Next(n), |n.ip| - 1, LastOf(n.ip, n.mask);
    HostBits(n.ip[z], prefix - 8 * z);
    assert forall i | 0 <= i < z :: g[i] == n.ip[i];
    forall i | 0 <= i < z ensures Agree(g[i], n.ip[i], n.mask[i]) {
      LastAgrees(n.ip[i], n.mask[i]);
    }
    assert |n.ip| == 16 ==> g[..12] == n.ip[..12];
    ContainedIsInNet(n, g);
    assert g[z] != last[z] && g[z] != n.ip[z];
    if |n.ip| == 4 {
      var long := LastAddress(n);
      assert long[..12] == MAPPED && long[12..] == last;
    }
  }

  /** A range has room for a gateway if and only if it has two host bits; one is enough if it
      is written with mapped addresses. */
  lemma RoomForGateway(n: Net, prefix: nat)
    requires FromRange(n, prefix)
    ensures (exists gateway :: Accepted(n, gateway)) <==> prefix + (if IsMapped(n) then 1 else 2) <= 8 * |n.ip|
  {
    hide Accepted, Greatest;
    if IsMapped(n) {
      if prefix < 128 {
        MappedLastIsAccepted(n, prefix);
      } else {
        forall gateway ensures !Accepted(n, gateway) {
          NothingInOneAddress(n, gateway);
        }
      }
    } else if prefix + 2 <= 8 * |n.ip| {
      NextIsAccepted(n, prefix);
    } else {
      forall gateway ensures !Accepted(n, gateway) {
        NothingBetween(n, prefix, gateway);
      }
    }
  }
}
