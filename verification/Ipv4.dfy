/** IPv4 subnets in CIDR notation and the address a new group member gets.

    Addresses are texts; numbers of 32 bits stand behind them. */
module Ipv4 {
  import opened Arithmetic
  import opened Options
  import opened Text
  import Decimal

  const WORD := 0x1_0000_0000

  /** The unsigned 32-bit number with the same bits. */
  function Uint32(x: int): (w: nat)
    ensures w < WORD
  {
    x % WORD
  }

  function Or(a: nat, b: nat): nat {
    if a == 0 && b == 0 then 0 else (if a % 2 == 1 || b % 2 == 1 then 1 else 0) + 2 * Or(a / 2, b / 2)
  }

  /** A blank text reads as zero. */
  function ToNumber(s: string): Option<int> {
    if Trim(s) == "" then Some(0) else Decimal.Parse(Trim(s))
  }

  function PushOctet(acc: nat, octet: Option<int>): nat {
    Uint32(Or(Uint32(acc * 256), Uint32(octet.GetOr(0))))
  }

  function Value(octets: seq<string>): nat {
    if octets == [] then 0 else PushOctet(Value(Front(octets)), ToNumber(Last(octets)))
  }

  /** Low bits that do not name the network; shifts count modulo 32. */
  function HostBits(prefix: int): nat {
    if prefix == 0 then 32 else (32 - prefix) % 32
  }

  function Network(value: nat, prefix: int): nat {
    ClearLow(value, Pow2(HostBits(prefix)))
  }

  /** The largest multiple of the block size that is not above the value: its low bits cleared. */
  function ClearLow(value: nat, size: nat): nat
    requires size > 0
  {
    if value < size then 0 else size + ClearLow(value - size, size)
  }

  datatype Cidr = Cidr(address: string, network: nat, prefix: int)

  function ParseCidr(cidr: string): Option<Cidr> {
    var parts := Split(cidr, '/');
    var octets := Split(parts[0], '.');
    var prefix := if |parts| > 1 then ToNumber(parts[1]) else None;
    if |octets| != 4 || prefix.None? then None
    else Some(Cidr(parts[0], Network(Value(octets), prefix.value), prefix.value))
  }

  function Octets(value: nat): seq<nat> {
    [value / 256 / 256 / 256 % 256, value / 256 / 256 % 256, value / 256 % 256, value % 256]
  }

  function FormatIpv4(value: nat): string {
    var o := Octets(value);
    Join([Decimal.Print(o[0]), Decimal.Print(o[1]), Decimal.Print(o[2]), Decimal.Print(o[3])], ".")
  }

  function PrefixText(subnet: string): string {
    var parts := Split(subnet, '/');
    if |parts| > 1 then parts[1] else "undefined"
  }

  predicate InSubnet(address: string, subnet: string) {
    var ofAddress, ofSubnet := ParseCidr(address + "/" + PrefixText(subnet)), ParseCidr(subnet);
    ofAddress.Some? && ofSubnet.Some? && ofAddress.value.network == ofSubnet.value.network
  }

  function Broadcast(parsed: Cidr): nat {
    Or(parsed.network, Pow2(32 - parsed.prefix % 32) - 1)
  }

  /** Strictly between the network and the broadcast address, and not taken. */
  predicate FreeHost(parsed: Cidr, taken: set<string>, value: nat) {
    parsed.network < value < Broadcast(parsed) && FormatIpv4(value) !in taken
  }

  predicate NoneAbove(parsed: Cidr, taken: set<string>, value: nat) {
    forall other: nat :: value < other < Broadcast(parsed) ==> !FreeHost(parsed, taken, other)
  }

  lemma {:induction false} NoneAtOrAbove(parsed: Cidr, taken: set<string>, value: nat)
    requires value > 0 && NoneAbove(parsed, taken, value) && FormatIpv4(value) in taken
    ensures NoneAbove(parsed, taken, value - 1)
  {
    assert !FreeHost(parsed, taken, value);
  }

  lemma {:induction false} NoneFree(parsed: Cidr, taken: set<string>, value: nat, other: nat)
    requires NoneAbove(parsed, taken, value) && (value <= parsed.network || other > value)
    ensures !FreeHost(parsed, taken, other)
  {
  }

  /** The highest free host address, if the subnet leaves room for hosts. */
  method FreeMemberAddress(subnet: string, taken: set<string>) returns (address: Option<string>, value: nat)
    ensures ParseCidr(subnet).None? || ParseCidr(subnet).value.prefix > 30 ==> address.None?
    ensures ParseCidr(subnet).Some? && ParseCidr(subnet).value.prefix <= 30 ==>
      && (address.Some? ==> address.value == FormatIpv4(value) && FreeHost(ParseCidr(subnet).value, taken, value))
      && (forall other: nat :: (address.None? || other > value) ==> !FreeHost(ParseCidr(subnet).value, taken, other))
  {
    value := 0;
    var parsed := ParseCidr(subnet);
    if parsed.None? || parsed.value.prefix > 30 {
      return None, value;
    }
    value := if Broadcast(parsed.value) == 0 then 0 else Broadcast(parsed.value) - 1;
    while value > parsed.value.network
      invariant value < Broadcast(parsed.value) || value == 0
      invariant NoneAbove(parsed.value, taken, value)
    {
      var candidate := FormatIpv4(value);
      if candidate !in taken {
        forall other: nat | other > value { NoneFree(parsed.value, taken, value, other); }
        return Some(candidate), value;
      }
      NoneAtOrAbove(parsed.value, taken, value);
      value := value - 1;
    }
    forall other: nat { NoneFree(parsed.value, taken, value, other); }
    return None, value;
  }

  // Bits

  lemma {:induction false} OrDisjoint(x: nat, k: nat, low: nat)
    requires low < Pow2(k)
    ensures Or(Pow2(k) * x, low) == Pow2(k) * x + low
  {
    if k == 0 {
      OrZero(x);
    } else {
      var half := Pow2(k - 1);
      assert Pow2(k) * x == 2 * (half * x);
      OrDisjoint(x, k - 1, low / 2);
    }
  }

  lemma {:induction false} OrZero(a: nat)
    ensures Or(a, 0) == a
  {
    if a > 0 {
      OrZero(a / 2);
    }
  }

  lemma PushInRange(acc: nat, octet: nat)
    requires acc < 0x1000000 && octet < 256
    ensures PushOctet(acc, Some(octet)) == acc * 256 + octet
  {
    EightBits();
    OrDisjoint(acc, 8, octet);
    InRange(acc * 256);
    InRange(octet);
    InRange(acc * 256 + octet);
  }

  lemma EightBits()
    ensures Pow2(8) == 256
  {
    assert Pow2(4) == 16;
  }

  lemma InRange(x: nat)
    requires x < WORD
    ensures Uint32(x) == x
  {
  }

  lemma OctetsAreDigits(value: nat)
    requires value < WORD
    ensures var o := Octets(value); ((o[0] * 256 + o[1]) * 256 + o[2]) * 256 + o[3] == value
  {
    var a := value / 256;
    var b := a / 256;
    var c := b / 256;
    assert value == a * 256 + value % 256 && a == b * 256 + a % 256 && b == c * 256 + b % 256;
    assert c < 256;
  }

  lemma {:induction false} DigitsAreFree(n: nat, c: char)
    requires !Decimal.IsDigit(c)
    ensures Free(Decimal.PrintNat(n), c)
  {
    var s := Decimal.PrintNat(n);
    forall i | 0 <= i < |s| ensures s[i] != c {
      assert Decimal.IsDigit(s[i]);
    }
  }

  lemma NumberOfPrint(n: nat)
    ensures ToNumber(Decimal.Print(n)) == Some(n)
  {
    var s := Decimal.Print(n);
    assert Decimal.IsDigit(s[0]) && Decimal.IsDigit(s[|s| - 1]);
    TrimOfTrimmed(s);
    Decimal.ParseOfPrint(n);
  }

  lemma ValueOfFour(a: string, b: string, c: string, d: string)
    ensures Value([a, b, c, d])
        == PushOctet(PushOctet(PushOctet(PushOctet(0, ToNumber(a)), ToNumber(b)), ToNumber(c)), ToNumber(d))
  {
    ValueOfPush([], a);
    ValueOfPush([a], b);
    ValueOfPush([a, b], c);
    ValueOfPush([a, b, c], d);
    assert [] + [a] == [a] && [a] + [b] == [a, b] && [a, b] + [c] == [a, b, c] && [a, b, c] + [d] == [a, b, c, d];
  }

  lemma {:induction false} ValueOfPush(octets: seq<string>, octet: string)
    ensures Value(octets + [octet]) == PushOctet(Value(octets), ToNumber(octet))
  {
    assert Front(octets + [octet]) == octets;
  }

  function Printed(value: nat): seq<string> {
    [Decimal.Print(Octets(value)[0]), Decimal.Print(Octets(value)[1]), Decimal.Print(Octets(value)[2]),
     Decimal.Print(Octets(value)[3])]
  }

  lemma {:induction false} ValueOfPrinted(value: nat)
    requires value < WORD
    ensures Value(Printed(value)) == value
  {
    var o := Octets(value);
    OctetsAreDigits(value);
    NumberOfPrint(o[0]);
    NumberOfPrint(o[1]);
    NumberOfPrint(o[2]);
    NumberOfPrint(o[3]);
    ValueOfFour(Printed(value)[0], Printed(value)[1], Printed(value)[2], Printed(value)[3]);
    PushFour(o[0], o[1], o[2], o[3]);
  }

  lemma PushFour(a: nat, b: nat, c: nat, d: nat)
    requires a < 256 && b < 256 && c < 256 && d < 256
    ensures PushOctet(PushOctet(PushOctet(PushOctet(0, Some(a)), Some(b)), Some(c)), Some(d))
        == ((a * 256 + b) * 256 + c) * 256 + d
  {
    PushInRange(0, a);
    PushInRange(a, b);
    PushInRange(a * 256 + b, c);
    PushInRange((a * 256 + b) * 256 + c, d);
  }

  /** Reading a formatted address gives its four octets back. */
  lemma FormatSplits(value: nat)
    ensures Split(FormatIpv4(value), '.') == Printed(value)
    ensures Free(FormatIpv4(value), '/')
  {
    forall part | part in Printed(value) ensures Free(part, '.') && Free(part, '/') {
      var i :| 0 <= i < 4 && part == Decimal.PrintNat(Octets(value)[i]);
      DigitsAreFree(Octets(value)[i], '.');
      DigitsAreFree(Octets(value)[i], '/');
    }
    SplitJoin(Printed(value), '.');
    JoinStaysFree(Printed(value), '/');
  }

  lemma {:induction false} JoinStaysFree(parts: seq<string>, c: char)
    requires c != '.' && forall part :: part in parts ==> Free(part, c)
    ensures Free(Join(parts, "."), c)
  {
    if |parts| > 1 {
      JoinStaysFree(parts[1..], c);
      assert Free(parts[0], c) && Free(Join(parts[1..], "."), c);
    }
  }

  /** Every 32-bit number printed as an address with a prefix reads back as that address in its network. */
  lemma FormatParses(value: nat, prefixText: string)
    requires value < WORD && Free(prefixText, '/') && ToNumber(prefixText).Some?
    ensures var prefix := ToNumber(prefixText).value;
      ParseCidr(FormatIpv4(value) + "/" + prefixText) == Some(Cidr(FormatIpv4(value), Network(value, prefix), prefix))
  {
    FormatSplits(value);
    ValueOfPrinted(value);
    SplitPrefix(FormatIpv4(value), prefixText, '/');
    SplitOfFree(prefixText, '/');
  }

  /** Different numbers have different addresses. */
  lemma FormatIsInjective(a: nat, b: nat)
    requires a < WORD && b < WORD && FormatIpv4(a) == FormatIpv4(b)
    ensures a == b
  {
    FormatSplits(a);
    FormatSplits(b);
    ValueOfPrinted(a);
    ValueOfPrinted(b);
  }

  // Subnets

  lemma {:induction false} ClearLowIsMultiple(value: nat, size: nat) returns (x: nat)
    requires size > 0
    ensures ClearLow(value, size) == x * size <= value < x * size + size
  {
    if value < size {
      x := 0;
    } else {
      var y := ClearLowIsMultiple(value - size, size);
      x := y + 1;
      assert x * size == y * size + size;
    }
  }

  /** A value is cleared to a block's start exactly when it lies in the block. */
  lemma {:induction false} ClearLowIff(value: nat, n: nat, x: nat, size: nat)
    requires size > 0 && n == x * size
    ensures ClearLow(value, size) == n <==> n <= value < n + size
  {
    var q := ClearLowIsMultiple(value, size);
    assert (q - x) * size == q * size - n;
    WholeMultiple(q - x, size);
  }

  lemma {:induction false} ValueInRange(octets: seq<string>)
    ensures Value(octets) < WORD
  {
  }

  predicate RoomForHosts(subnet: string) {
    var parsed := ParseCidr(subnet);
    parsed.Some? && 0 <= parsed.value.prefix <= 30
  }

  lemma HostBitsOfPrefix(prefix: int)
    requires 0 <= prefix <= 30
    ensures HostBits(prefix) == 32 - prefix == 32 - prefix % 32
  {
  }

  lemma OrBlock(x: nat, k: nat, network: nat)
    requires network == x * Pow2(k)
    ensures Or(network, Pow2(k) - 1) == network + (Pow2(k) - 1)
  {
    assert network == Pow2(k) * x;
    OrDisjoint(x, k, Pow2(k) - 1);
  }

  lemma WholeWord()
    ensures Pow2(32) == WORD
  {
    EightBits();
    Pow2Sum(8, 8);
    Pow2Sum(16, 16);
  }

  lemma BlockInWord(value: nat, prefix: nat)
    requires value < WORD && prefix <= 32
    ensures ClearLow(value, Pow2(32 - prefix)) + Pow2(32 - prefix) <= WORD
  {
    var size := Pow2(32 - prefix);
    WholeWord();
    Pow2Sum(prefix, 32 - prefix);
    var x := ClearLowIsMultiple(value, size);
    BlocksFill(x, Pow2(prefix), size, value);
  }

  lemma BlocksFill(q: nat, blocks: nat, size: nat, value: nat)
    requires size > 0 && q * size <= value < blocks * size
    ensures q * size + size <= blocks * size
  {
    WholeMultiple(blocks - q, size);
    assert (blocks - q) * size == blocks * size - q * size;
  }

  /** The 32-bit number a subnet's address stands for. */
  function ValueOf(subnet: string): nat { Value(Split(Split(subnet, '/')[0], '.')) }

  lemma NetworkIsBlock(value: nat, prefix: int) returns (size: nat, x: nat)
    requires value < WORD && 0 <= prefix <= 30
    ensures size == Pow2(32 - prefix) && HostBits(prefix) == 32 - prefix == 32 - prefix % 32
    ensures Network(value, prefix) == x * size
    ensures Or(Network(value, prefix), size - 1) == Network(value, prefix) + size - 1 < WORD
  {
    HostBitsOfPrefix(prefix);
    size := Pow2(32 - prefix);
    x := ClearLowIsMultiple(value, size);
    OrBlock(x, 32 - prefix, Network(value, prefix));
    BlockInWord(value, prefix);
  }

  lemma {:induction false} ParsedNetwork(subnet: string)
    requires ParseCidr(subnet).Some?
    ensures ParseCidr(subnet).value.network == Network(ValueOf(subnet), ParseCidr(subnet).value.prefix)
        && ValueOf(subnet) < WORD
  {
    ValueInRange(Split(Split(subnet, '/')[0], '.'));
  }

  lemma {:induction false} BlockOf(parsed: Cidr, value: nat) returns (size: nat, x: nat)
    requires value < WORD && 0 <= parsed.prefix <= 30 && parsed.network == Network(value, parsed.prefix)
    ensures size == Pow2(32 - parsed.prefix) && parsed.network == x * size
        && Broadcast(parsed) == parsed.network + size - 1 < WORD
  {
    size, x := NetworkIsBlock(value, parsed.prefix);
  }

  /** The network address is a multiple of the block size, the broadcast address the last one of the block. */
  lemma {:induction false} SubnetIsBlock(subnet: string) returns (size: nat, x: nat)
    requires RoomForHosts(subnet)
    ensures var parsed := ParseCidr(subnet).value;
      size == Pow2(32 - parsed.prefix) && parsed.network == x * size
        && Broadcast(parsed) == parsed.network + size - 1 < WORD
  {
    ParsedNetwork(subnet);
    size, x := BlockOf(ParseCidr(subnet).value, ValueOf(subnet));
  }

  lemma PrefixTextParses(subnet: string)
    requires ParseCidr(subnet).Some?
    ensures Free(PrefixText(subnet), '/') && ToNumber(PrefixText(subnet)) == Some(ParseCidr(subnet).value.prefix)
  {
    PartsAreFree(subnet, '/');
    assert PrefixText(subnet) in Split(subnet, '/');
  }

  /** The addresses in a subnet are exactly those of the block that starts at its network address, whatever
      the prefix; with room for hosts they end at the broadcast address. */
  lemma {:induction false} InSubnetIff(subnet: string, value: nat)
    requires ParseCidr(subnet).Some? && value < WORD
    ensures var parsed := ParseCidr(subnet).value;
      InSubnet(FormatIpv4(value), subnet) <==> parsed.network <= value < parsed.network + Pow2(HostBits(parsed.prefix))
  {
    var parsed := ParseCidr(subnet).value;
    var size := Pow2(HostBits(parsed.prefix));
    ParsedNetwork(subnet);
    var x := ClearLowIsMultiple(ValueOf(subnet), size);
    PrefixTextParses(subnet);
    FormatParses(value, PrefixText(subnet));
    ClearLowIff(value, parsed.network, x, size);
  }

  /** The address given out lies in the subnet, is none of those taken, and is neither of the two no host may use. */
  lemma GivenAddressIsFree(subnet: string, taken: set<string>, value: nat)
    requires RoomForHosts(subnet) && FreeHost(ParseCidr(subnet).value, taken, value)
    ensures InSubnet(FormatIpv4(value), subnet) && FormatIpv4(value) !in taken
    ensures FormatIpv4(value) != FormatIpv4(ParseCidr(subnet).value.network)
        && FormatIpv4(value) != FormatIpv4(Broadcast(ParseCidr(subnet).value))
  {
    var parsed := ParseCidr(subnet).value;
    var size, x := SubnetIsBlock(subnet);
    HostBitsOfPrefix(parsed.prefix);
    InSubnetIff(subnet, value);
    if FormatIpv4(value) == FormatIpv4(parsed.network) {
      FormatIsInjective(value, parsed.network);
    }
    if FormatIpv4(value) == FormatIpv4(Broadcast(parsed)) {
      FormatIsInjective(value, Broadcast(parsed));
    }
  }

  // Unusual spellings.

  /** Only four octets and a prefix that is a number are a subnet; a text without a slash never is. */
  lemma {:induction false} ParsesIff(address: string, rest: string)
    requires Free(address, '/')
    ensures ParseCidr(address).None?
    ensures ParseCidr(address + ['/'] + rest).Some?
      <==> |Split(address, '.')| == 4 && ToNumber(Split(rest, '/')[0]).Some?
    ensures ParseCidr(address + ['/'] + rest).Some?
      ==> ParseCidr(address + ['/'] + rest).value.address == address
  {
    SplitOfFree(address, '/');
    SplitPrefix(address, rest, '/');
  }

  lemma {:induction false} OrNothing(x: nat)
    requires x < WORD
    ensures Uint32(x) == x && Uint32(0) == 0 && Or(x, 0) == x
  {
    OrZero(x);
  }

  /** A blank octet counts as zero, and so does one that is no number. */
  lemma {:induction false} OddOctetsCountAsZero(acc: nat, text: string)
    requires acc * 256 < WORD
    ensures Blank(text) ==> ToNumber(text) == Some(0)
    ensures PushOctet(acc, None) == PushOctet(acc, Some(0)) == acc * 256
  {
    TrimIsEmptyIff(text);
    OrNothing(acc * 256);
  }

  /** The shift counts modulo 32, except that no prefix at all clears everything. */
  lemma {:induction false} HostBitsOfAny(prefix: int)
    ensures prefix == 0 ==> HostBits(prefix) == 32
    ensures prefix != 0 ==> HostBits(prefix) < 32 && (HostBits(prefix) + prefix) % 32 == 0
    ensures prefix == 0 || prefix % 32 != 0 ==> 32 - prefix % 32 == HostBits(prefix)
  {
  }

  /** The broadcast address sets exactly the bits that do not name the network, for negative prefixes too. */
  lemma {:induction false} BroadcastOfAny(parsed: Cidr, low: nat)
    requires (parsed.prefix == 0 || parsed.prefix % 32 != 0) && low == Pow2(HostBits(parsed.prefix)) - 1
    ensures Broadcast(parsed) == Or(parsed.network, low)
  {
    HostBitsOfAny(parsed.prefix);
  }
}
