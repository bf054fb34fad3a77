/**
 Network membership and the walk along a proxy chain. Addresses are their integer values, IPv6 ones
 as their sixteen bytes; masks are ordinary integers under a bitwise "and" written out bit by bit.
 */
module Addresses {
  import opened Common

  datatype RawAddress = V4(value: nat) | V6(bytes: seq<nat>)

  predicate Wellformed(a: RawAddress) {
    match a
    case V4(value) => value < Pow2(32)
    case V6(bytes) => |bytes| == 16 && AreBytes(bytes)
  }

  predicate AreBytes(bytes: seq<nat>) {
    forall i :: 0 <= i < |bytes| ==> bytes[i] < 256
  }

  type Address = a: RawAddress | Wellformed(a) witness V6(seq(16, _ => 0))

  datatype RawNetwork = Network(address: Address, prefix: nat)

  function Width(a: RawAddress): nat { if a.V4? then 32 else 128 }

  /** The constructor refuses a longer prefix than the family has bits. */
  type Network = n: RawNetwork | n.prefix <= Width(n.address) witness Network(V6(seq(16, _ => 0)), 0)

  // ----- powers of two, shifts and masks -----

  /** Halving k times; proved below to be division by 2^k. */
  function ShiftRight(x: nat, k: nat): nat {
    if k == 0 then x else ShiftRight(x / 2, k - 1)
  }

  function BitAnd(a: nat, b: nat): nat {
    if a == 0 || b == 0 then 0 else 2 * BitAnd(a / 2, b / 2) + (a % 2) * (b % 2)
  }

  /** The word of w one bits shifted left by k and truncated to w bits. */
  function ShiftedOnes(w: nat, k: nat): nat {
    ((Pow2(w) - 1) * Pow2(k)) % Pow2(w)
  }

  lemma MulGrows(d: nat, a: nat)
    requires a > 0
    ensures d * a >= d
  {
  }

  /** Quotient and remainder are determined by what they add up to. */
  lemma DivModIs(x: nat, d: nat, q: nat, r: nat)
    requires d > 0 && r < d && x == d * q + r
    ensures x / d == q && x % d == r
  {
    var q', r' := x / d, x % d;
    assert x == d * q' + r';
    assert d * (q - q') == r' - r;
    assert d * (q' - q) == r - r';
    if q > q' { MulGrows(d, q - q'); }
    if q < q' { MulGrows(d, q' - q); }
  }

  lemma DivHalf(x: nat, b: nat)
    requires b > 0
    ensures x / 2 / b == x / (2 * b)
  {
    var q, r := x / 2 / b, x / 2 % b;
    assert x / 2 == b * q + r;
    assert (2 * b) * q == 2 * (b * q);
    DivModIs(x, 2 * b, q, 2 * r + x % 2);
  }

  lemma {:induction false} ShiftRightIsDiv(x: nat, k: nat)
    ensures ShiftRight(x, k) == x / Pow2(k)
  {
    if k > 0 {
      ShiftRightIsDiv(x / 2, k - 1);
      DivHalf(x, Pow2(k - 1));
    }
  }

  lemma TruncatedProduct(all: nat, low: nat)
    requires 0 < low <= all
    ensures ((all - 1) * low) % all == all - low
  {
    DivModIs((all - 1) * low, all, low - 1, all - low);
  }

  lemma ShiftedOnesIs(w: nat, k: nat)
    requires k <= w
    ensures ShiftedOnes(w, k) == Pow2(w) - Pow2(k)
  {
    Pow2Grows(k, w);
    TruncatedProduct(Pow2(w), Pow2(k));
  }

  lemma {:induction false} AllOnes(x: nat, w: nat)
    requires x < Pow2(w)
    ensures BitAnd(x, Pow2(w) - 1) == x
  {
    if w > 0 { AllOnes(x / 2, w - 1); }
  }

  lemma {:induction false} HighMask(x: nat, y: nat, w: nat, k: nat)
    requires k <= w && x < Pow2(w) && y < Pow2(w)
    ensures Pow2(k) <= Pow2(w)
    ensures BitAnd(x, Pow2(w) - Pow2(k)) == BitAnd(y, Pow2(w) - Pow2(k)) <==> ShiftRight(x, k) == ShiftRight(y, k)
  {
    Pow2Grows(k, w);
    if k == 0 {
      AllOnes(x, w);
      AllOnes(y, w);
    } else {
      HighMask(x / 2, y / 2, w - 1, k - 1);
      EvenMask(x, Pow2(w - 1) - Pow2(k - 1));
      EvenMask(y, Pow2(w - 1) - Pow2(k - 1));
    }
  }

  lemma EvenMask(x: nat, mask: nat)
    ensures BitAnd(x, 2 * mask) == 2 * BitAnd(x / 2, mask)
  {
    assert 2 * mask / 2 == mask && 2 * mask % 2 == 0;
  }

  /** Two words agree under a mask of high ones exactly when their leading bits agree. */
  lemma MaskedEqual(x: nat, y: nat, w: nat, k: nat)
    requires k <= w && x < Pow2(w) && y < Pow2(w)
    ensures BitAnd(x, ShiftedOnes(w, k)) == BitAnd(y, ShiftedOnes(w, k)) <==> ShiftRight(x, k) == ShiftRight(y, k)
  {
    ShiftedOnesIs(w, k);
    HighMask(x, y, w, k);
  }

  // ----- big-endian bytes -----

  function Value(bytes: seq<nat>): nat {
    if bytes == [] then 0 else 256 * Value(bytes[..|bytes| - 1]) + bytes[|bytes| - 1]
  }

  function NumberOf(a: RawAddress): nat {
    match a
    case V4(value) => value
    case V6(bytes) => Value(bytes)
  }

  predicate ByteMatches(n: nat, a: nat, bits: nat)
    requires bits <= 8
  {
    BitAnd(n, ShiftedOnes(8, 8 - bits)) == BitAnd(a, ShiftedOnes(8, 8 - bits))
  }

  /** The byte loop from some index on: what it returns for the remaining bytes and bits. */
  predicate BytesMatch(network: seq<nat>, address: seq<nat>, remaining: nat)
    requires |network| == |address|
  {
    if network == [] || remaining == 0 then true
    else
      var bits := if remaining < 8 then remaining else 8;
      ByteMatches(network[0], address[0], bits) && BytesMatch(network[1..], address[1..], remaining - bits)
  }

  lemma ByteMatchesIs(n: nat, a: nat, bits: nat)
    requires n < 256 && a < 256 && bits <= 8
    ensures ByteMatches(n, a, bits) <==> ShiftRight(n, 8 - bits) == ShiftRight(a, 8 - bits)
  {
    assert Pow2(4) == 16 && Pow2(8) == 256;
    MaskedEqual(n, a, 8, 8 - bits);
  }

  // The loop read from its other end: the last byte counts with the bits the others leave.
  lemma {:induction false} LastByte(network: seq<nat>, address: seq<nat>, bits: nat)
    requires |network| == |address| > 0 && bits <= 8 * |network|
    ensures var n := |network| - 1;
            BytesMatch(network, address, bits) <==>
              && BytesMatch(network[..n], address[..n], if bits < 8 * n then bits else 8 * n)
              && (bits > 8 * n ==> ByteMatches(network[n], address[n], bits - 8 * n))
  {
    var n := |network| - 1;
    if n > 0 && bits > 0 {
      var used := if bits < 8 then bits else 8;
      LastByte(network[1..], address[1..], bits - used);
      assert network[1..][..n - 1] == network[..n][1..] && address[1..][..n - 1] == address[..n][1..];
    } else if bits > 0 {
      assert network[1..] == [] && network[..n] == [];
    }
  }

  lemma ShiftFour(x: nat, k: nat)
    requires k >= 4
    ensures ShiftRight(x, k) == ShiftRight(x / 2 / 2 / 2 / 2, k - 4)
  {
    assert ShiftRight(x, k) == ShiftRight(x / 2, k - 1);
    assert ShiftRight(x / 2, k - 1) == ShiftRight(x / 2 / 2, k - 2);
    assert ShiftRight(x / 2 / 2, k - 2) == ShiftRight(x / 2 / 2 / 2, k - 3);
  }

  lemma ShiftOut(v: nat, b: nat, k: nat)
    requires b < 256 && k >= 8
    ensures ShiftRight(256 * v + b, k) == ShiftRight(v, k - 8)
  {
    var x := 256 * v + b;
    assert x / 2 / 2 / 2 / 2 / 2 / 2 / 2 / 2 == v;
    ShiftFour(x, k);
    ShiftFour(x / 2 / 2 / 2 / 2, k - 4);
  }

  // Within the last byte, the leading bits are those of the byte after the number before it.
  lemma ShiftWithin(v: nat, b: nat, u: nat, c: nat, k: nat)
    requires b < 256 && c < 256 && k < 8
    ensures ShiftRight(256 * v + b, k) == ShiftRight(256 * u + c, k) <==> v == u && ShiftRight(b, k) == ShiftRight(c, k)
  {
    ShiftByte(v, b, k);
    ShiftByte(u, c, k);
  }

  function HighPart(k: nat): nat
    requires k < 8
  {
    [256, 128, 64, 32, 16, 8, 4, 2][k]
  }

  lemma {:induction false} ShiftByte(v: nat, b: nat, k: nat)
    requires b < 256 && k < 8
    ensures ShiftRight(256 * v + b, k) == HighPart(k) * v + ShiftRight(b, k) && ShiftRight(b, k) < HighPart(k)
  {
    if k > 0 {
      ShiftByte(v, b, k - 1);
      HighPartHalves(k);
      ShiftLast(256 * v + b, k);
      ShiftLast(b, k);
      HalfOfSum(HighPart(k - 1), HighPart(k), v, ShiftRight(b, k - 1));
      hide ShiftRight, HighPart;
    }
  }

  lemma HighPartHalves(k: nat)
    requires 0 < k < 8
    ensures HighPart(k - 1) == 2 * HighPart(k)
  {
  }

  /** The last of k halvings. */
  lemma {:induction false} ShiftLast(x: nat, k: nat)
    requires k > 0
    ensures ShiftRight(x, k) == ShiftRight(x, k - 1) / 2
  {
    if k > 1 { ShiftLast(x / 2, k - 1); }
  }

  lemma HalfOfSum(whole: nat, half: nat, v: nat, low: nat)
    requires whole == 2 * half
    ensures (whole * v + low) / 2 == half * v + low / 2
  {
    var p := half * v;
    assert whole * v == 2 * p;
    assert (2 * p + low) / 2 == p + low / 2;
  }

  lemma {:induction false} BytesMatchIsPrefix(network: seq<nat>, address: seq<nat>, prefix: nat)
    requires |network| == |address| && AreBytes(network) && AreBytes(address) && prefix <= 8 * |network|
    ensures BytesMatch(network, address, prefix) <==>
              ShiftRight(Value(network), 8 * |network| - prefix) == ShiftRight(Value(address), 8 * |network| - prefix)
  {
    if network != [] {
      var n := |network| - 1;
      var v, u := Value(network[..n]), Value(address[..n]);
      var k := 8 * |network| - prefix;
      LastByte(network, address, prefix);
      BytesMatchIsPrefix(network[..n], address[..n], if prefix < 8 * n then prefix else 8 * n);
      if k >= 8 {
        ShiftOut(v, network[n], k);
        ShiftOut(u, address[n], k);
      } else {
        ByteMatchesIs(network[n], address[n], prefix - 8 * n);
        ShiftWithin(v, network[n], u, address[n], k);
      }
    }
  }

  // ----- membership -----

  /** The network's prefix and the address's first bits are the same number. */
  predicate Contains(network: Network, address: Address) {
    && network.address.V4? == address.V4?
    && var shift := Width(address) - network.prefix;
       NumberOf(network.address) / Pow2(shift) == NumberOf(address) / Pow2(shift)
  }

  lemma SamePrefix(x: nat, y: nat, k: nat)
    ensures ShiftRight(x, k) == ShiftRight(y, k) <==> x / Pow2(k) == y / Pow2(k)
  {
    ShiftRightIsDiv(x, k);
    ShiftRightIsDiv(y, k);
  }

  /** The mask form and the byte loop of contains both decide prefix equality. */
  method CheckContains(network: Network, address: Address) returns (r: bool)
    ensures r == Contains(network, address)
  {
    hide Pow2, ShiftedOnes, BitAnd, ShiftRight, Value;
    if network.address.V4? != address.V4? { return false; }
    SamePrefix(NumberOf(network.address), NumberOf(address), Width(address) - network.prefix);
    if address.V4? {
      var networkValue, addressValue := network.address.value, address.value;
      MaskedEqual(networkValue, addressValue, 32, 32 - network.prefix);
      if network.prefix == 0 {
        EmptyPrefix(networkValue, 32);
        EmptyPrefix(addressValue, 32);
        return true;
      }
      var mask := if network.prefix == 32 then 0xffff_ffff else ShiftedOnes(32, 32 - network.prefix);
      FullWord();
      return BitAnd(networkValue, mask) == BitAnd(addressValue, mask);
    }
    var networkBytes, addressBytes := network.address.bytes, address.bytes;
    BytesMatchIsPrefix(networkBytes, addressBytes, network.prefix);
    var remaining := network.prefix;
    assert networkBytes[0..] == networkBytes && addressBytes[0..] == addressBytes;
    for index := 0 to |networkBytes|
      invariant BytesMatch(networkBytes, addressBytes, network.prefix)
             == BytesMatch(networkBytes[index..], addressBytes[index..], remaining)
    {
      if remaining == 0 { return true; }
      var bits := if remaining < 8 then remaining else 8;
      var mask := ShiftedOnes(8, 8 - bits);
      assert networkBytes[index..][1..] == networkBytes[index + 1..];
      assert addressBytes[index..][1..] == addressBytes[index + 1..];
      if BitAnd(networkBytes[index], mask) != BitAnd(addressBytes[index], mask) { return false; }
      remaining := remaining - bits;
    }
    return true;
  }

  lemma {:induction false} EmptyPrefix(x: nat, w: nat)
    requires x < Pow2(w)
    ensures ShiftRight(x, w) == 0
  {
    if w > 0 { EmptyPrefix(x / 2, w - 1); }
  }

  lemma FullWord()
    ensures ShiftedOnes(32, 0) == 0xffff_ffff
  {
    assert Pow2(8) == 256;
    assert Pow2(16) == 0x1_0000;
    assert Pow2(24) == 0x100_0000;
    assert Pow2(32) == 0x1_0000_0000;
    ShiftedOnesIs(32, 0);
  }

  predicate Trusted(networks: seq<Network>, address: Address) {
    exists i :: 0 <= i < |networks| && Contains(networks[i], address)
  }

  method IsTrusted(networks: seq<Network>, address: Address) returns (r: bool)
    ensures r == Trusted(networks, address)
  {
    for i := 0 to |networks|
      invariant forall j :: 0 <= j < i ==> !Contains(networks[j], address)
    {
      var inside := CheckContains(networks[i], address);
      if inside { return true; }
    }
    return false;
  }

  // ----- the walk -----

  /** The rightmost untrusted address of a chain, or its leftmost one if all are trusted. */
  function ClientOf(networks: seq<Network>, chain: seq<Address>): Address
    requires chain != []
  {
    var last := chain[|chain| - 1];
    if |chain| == 1 || !Trusted(networks, last) then last else ClientOf(networks, chain[..|chain| - 1])
  }

  lemma {:induction false} ClientIsRightmostUntrusted(networks: seq<Network>, chain: seq<Address>, i: nat)
    requires i < |chain| && (forall k :: i < k < |chain| ==> Trusted(networks, chain[k]))
    requires i == 0 || !Trusted(networks, chain[i])
    ensures ClientOf(networks, chain) == chain[i]
  {
    if i < |chain| - 1 { ClientIsRightmostUntrusted(networks, chain[..|chain| - 1], i); }
  }

  /** Nothing put in front of a chain that has an untrusted hop changes the result. */
  lemma {:induction false} PrependingIsIgnored(networks: seq<Network>, front: seq<Address>, chain: seq<Address>)
    requires exists i :: 0 <= i < |chain| && !Trusted(networks, chain[i])
    ensures ClientOf(networks, front + chain) == ClientOf(networks, chain)
  {
    var whole := front + chain;
    var last := chain[|chain| - 1];
    assert whole[|whole| - 1] == last;
    if Trusted(networks, last) {
      var shorter := chain[..|chain| - 1];
      assert whole[..|whole| - 1] == front + shorter;
      var i :| 0 <= i < |chain| && !Trusted(networks, chain[i]);
      assert !Trusted(networks, shorter[i]);
      PrependingIsIgnored(networks, front, shorter);
    }
  }

  /** The loop of resolve, from the peer leftwards. */
  method WalkChain(networks: seq<Network>, peer: Address, chain: seq<Address>) returns (current: Address)
    ensures Trusted(networks, peer) && chain != [] ==> current == ClientOf(networks, chain)
    ensures !Trusted(networks, peer) || chain == [] ==> current == peer
  {
    current := peer;
    var i := |chain|;
    while i > 0
      invariant 0 <= i <= |chain|
      invariant i == |chain| ==> current == peer
      invariant i < |chain| ==> Trusted(networks, peer) && current == chain[i] && Trusted(networks, current)
      invariant i < |chain| && i > 0 ==> ClientOf(networks, chain) == ClientOf(networks, chain[..i])
      invariant i == 0 && chain != [] ==> current == ClientOf(networks, chain)
    {
      var currentTrusted := IsTrusted(networks, current);
      if !currentTrusted { break; }
      assert i == |chain| ==> chain[..i] == chain;
      current := chain[i - 1];
      assert chain[..i][..i - 1] == chain[..i - 1];
      var candidateTrusted := IsTrusted(networks, current);
      if !candidateTrusted { break; }
      i := i - 1;
    }
  }
}
