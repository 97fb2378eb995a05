/**
 Address allow lists (src/cidr.cpp). Addresses are sixteen bytes; a rule matches
 exactly the addresses whose 128-bit number has the rule's prefix (RFC 4632,
 section 3.1).
 */
module Cidr {
  import opened Text
  import opened Bits

  type Address = s: seq<Byte> | |s| == ADDRESS_BYTES witness seq(16, _ => 0)

  const ADDRESS_BYTES := 16
  const ADDRESS_BITS := 128
  const MAPPED_BITS := 96
  const MAPPED_VALUE := 0xFFFF
  const IPV4_BITS := 32

  // ------------------------------------------------------------------- numbers

  /** The big-endian number. */
  function Number(s: seq<Byte>): nat {
    if s == [] then 0 else Number(s[..|s| - 1]) * 256 + s[|s| - 1]
  }

  lemma {:induction false} NumberBelow(s: seq<Byte>)
    ensures Number(s) < Pow2(8 * |s|)
  {
    if s != [] {
      NumberBelow(s[..|s| - 1]);
      PowAdd(8 * (|s| - 1), 8);
      assert Pow2(8) == 256;
      assert Pow2(8 * |s|) == Pow2(8 * (|s| - 1)) * 256;
    }
  }

  lemma {:induction false} NumberSplit(s: seq<Byte>, w: nat)
    requires w <= |s|
    ensures Number(s) == Number(s[..w]) * Pow2(8 * (|s| - w)) + Number(s[w..])
    ensures Number(s) / Pow2(8 * (|s| - w)) == Number(s[..w])
    decreases |s|
  {
    NumberBelow(s[w..]);
    if w == |s| {
      assert s[..w] == s;
    } else {
      var init := s[..|s| - 1];
      NumberSplit(init, w);
      assert init[..w] == s[..w] && init[w..] == s[w..][..|s| - w - 1];
      PowAdd(8 * (|s| - 1 - w), 8);
      assert Pow2(8) == 256;
      ScaleSum(Number(s[..w]), Pow2(8 * (|s| - 1 - w)), Number(init[w..]), 256, s[|s| - 1]);
    }
    DivUnique(Number(s), Pow2(8 * (|s| - w)), Number(s[..w]), Number(s[w..]));
  }

  lemma ScaleSum(a: nat, d: nat, b: nat, k: nat, c: nat)
    ensures (a * d + b) * k + c == a * (d * k) + (b * k + c)
  {}

  lemma {:induction false} NumberIsInjective(s: seq<Byte>, t: seq<Byte>)
    requires |s| == |t| && Number(s) == Number(t)
    ensures s == t
  {
    if s != [] {
      var (a, b) := (s[..|s| - 1], t[..|t| - 1]);
      DivUnique(Number(s), 256, Number(a), s[|s| - 1]);
      DivUnique(Number(t), 256, Number(b), t[|t| - 1]);
      NumberIsInjective(a, b);
      assert s == a + [s[|s| - 1]] && t == b + [t[|t| - 1]];
    }
  }

  /** The first `p` bits of an address, as a number. */
  function Top(s: Address, p: nat): nat
    requires p <= ADDRESS_BITS
  {
    Quotient(Number(s), Pow2(ADDRESS_BITS - p))
  }

  /** The `r` high bits of a byte. */
  function High(x: Byte, r: nat): (h: nat)
    requires r < 8
  {
    Quotient(x, Pow2(8 - r))
  }

  lemma HighBelow(x: Byte, r: nat)
    requires r < 8
    ensures High(x, r) < Pow2(r) && High(x, r) * Pow2(8 - r) <= x
    ensures Pow2(r) * Pow2(8 - r) == 256
  {
    PowAdd(r, 8 - r);
    assert Pow2(8) == 256;
    QuotientBelow(x, Pow2(r), Pow2(8 - r));
  }

  lemma QuotientBelow(x: nat, a: nat, d: nat)
    requires d > 0 && x < a * d
    ensures x / d < a && x / d * d <= x
  {
    var q := x / d;
    assert q >= a ==> q * d >= a * d;
  }

  /** The number made of the whole bytes before the one in which a prefix ends, and of its high bits. */
  function Head(s: Address, p: nat): nat
    requires p < ADDRESS_BITS
  {
    Number(s[..p / 8]) * Pow2(p % 8) + High(s[p / 8], p % 8)
  }

  lemma FirstBytes(s: Address, w: nat)
    requires w < ADDRESS_BYTES
    ensures Number(s[..w + 1]) == Number(s[..w]) * 256 + s[w]
  {
    assert s[..w + 1][..w] == s[..w];
  }

  lemma BlockSize(p: nat)
    requires p < ADDRESS_BITS
    ensures Pow2(8 * (15 - p / 8)) * Pow2(8 - p % 8) == Pow2(ADDRESS_BITS - p)
  {
    PowAdd(8 * (15 - p / 8), 8 - p % 8);
  }

  lemma HeadOfBytes(n: nat, pr: nat, d: nat, x: nat)
    requires d > 0 && pr * d == 256
    ensures (n * 256 + x) / d == n * pr + x / d
  {
    Associated(n, pr, d);
    DivShift(n * pr, d, x);
  }

  /** The first bits are those of the whole bytes, and the high bits of the next one. */
  lemma TopSplits(s: Address, p: nat)
    requires p < ADDRESS_BITS
    ensures Top(s, p) == Head(s, p)
  {
    var (w, r) := (p / 8, p % 8);
    NumberSplit(s, w + 1);
    BlockSize(p);
    DivDiv(Number(s), Pow2(8 * (15 - w)), Pow2(8 - r));
    FirstBytes(s, w);
    HighBelow(s[w], r);
    HeadOfBytes(Number(s[..w]), Pow2(r), Pow2(8 - r), s[w]);
  }

  lemma Associated(a: nat, b: nat, c: nat)
    ensures a * (b * c) == a * b * c
  {}

  lemma DivShift(q: nat, d: nat, x: nat)
    requires d > 0
    ensures (q * d + x) / d == q + x / d
  {
    DivUnique(q * d + x, d, q + x / d, x % d);
  }

  lemma PairUnique(a: nat, x: nat, b: nat, y: nat, d: nat)
    requires x < d && y < d && a * d + x == b * d + y
    ensures a == b && x == y
  {
    DivUnique(a * d + x, d, a, x);
    DivUnique(b * d + y, d, b, y);
  }

  /** Equal first bits are equal whole bytes and equal high bits of the next one. */
  lemma TopsEqual(s: Address, t: Address, p: nat)
    requires p < ADDRESS_BITS
    ensures Top(s, p) == Top(t, p) <==> s[..p / 8] == t[..p / 8] && High(s[p / 8], p % 8) == High(t[p / 8], p % 8)
  {
    var (w, r) := (p / 8, p % 8);
    TopSplits(s, p);
    TopSplits(t, p);
    if Top(s, p) == Top(t, p) {
      HighBelow(s[w], r);
      HighBelow(t[w], r);
      PairUnique(Number(s[..w]), High(s[w], r), Number(t[..w]), High(t[w], r), Pow2(r));
      NumberIsInjective(s[..w], t[..w]);
    }
  }

  lemma WholeTop(s: Address, t: Address)
    ensures Top(s, ADDRESS_BITS) == Top(t, ADDRESS_BITS) <==> s == t
  {
    if Number(s) == Number(t) { NumberIsInjective(s, t); }
  }

  // --------------------------------------------------------------------- rules

  datatype Rule = Rule(network: Address, prefixBits: nat, isV4: bool)

  /** What a rule means: the address starts with the prefix. */
  predicate Covers(network: Address, prefixBits: nat, address: Address)
    requires prefixBits <= ADDRESS_BITS
  {
    Top(address, prefixBits) == Top(network, prefixBits)
  }

  const ALL_BITS_SET := 0xFF

  /** The mask for the byte in which a prefix ends, as `clear_host_bits` and `matches` shift it. */
  function Mask(remainingBits: nat): nat
    requires remainingBits < 8
  {
    ShiftLeft(ALL_BITS_SET, 8 - remainingBits)
  }

  /** The byte with all but its `r` high bits cleared. */
  function Kept(x: Byte, r: nat): (k: Byte)
    requires r < 8
  {
    HighBelow(x, r);
    High(x, r) * Pow2(8 - r)
  }

  lemma MaskKeepsHighBits(x: Byte, r: nat)
    requires r < 8
    ensures BitAnd(x, Mask(r)) == Kept(x, r)
  {
    AndShifted(x, ALL_BITS_SET, 8 - r);
    HighBelow(x, r);
    assert Pow2(8) == 256;
    AndAllOnes(High(x, r), 8);
  }

  lemma EqualKept(x: Byte, y: Byte, r: nat)
    requires r < 8
    ensures Kept(x, r) == Kept(y, r) <==> High(x, r) == High(y, r)
  {
    DivUnique(Kept(x, r), Pow2(8 - r), High(x, r), 0);
    DivUnique(Kept(y, r), Pow2(8 - r), High(y, r), 0);
  }

  method MatchesRule(rule: Rule, address: Address) returns (yes: bool)
    ensures yes <==> rule.prefixBits <= ADDRESS_BITS && Covers(rule.network, rule.prefixBits, address)
  {
    var p := rule.prefixBits;
    if p > ADDRESS_BITS { return false; }
    var wholeBytes := p / 8;
    if p < ADDRESS_BITS { TopsEqual(address, rule.network, p); } else { WholeTop(address, rule.network); }
    for index := 0 to wholeBytes
      invariant forall k :: 0 <= k < index ==> address[k] == rule.network[k]
    {
      if address[index] != rule.network[index] {
        assert address[..wholeBytes][index] != rule.network[..wholeBytes][index];
        return false;
      }
    }
    assert address[..wholeBytes] == rule.network[..wholeBytes];
    var remainingBits := p % 8;
    if remainingBits == 0 {
      if p == ADDRESS_BITS { assert address[..wholeBytes] == address && rule.network[..wholeBytes] == rule.network; }
      if p < ADDRESS_BITS { WholeByteTail(address[wholeBytes], rule.network[wholeBytes]); }
      return true;
    }
    MaskKeepsHighBits(address[wholeBytes], remainingBits);
    MaskKeepsHighBits(rule.network[wholeBytes], remainingBits);
    EqualKept(address[wholeBytes], rule.network[wholeBytes], remainingBits);
    return BitAnd(address[wholeBytes], Mask(remainingBits)) == BitAnd(rule.network[wholeBytes], Mask(remainingBits));
  }

  lemma WholeByteTail(x: Byte, y: Byte)
    ensures High(x, 0) == High(y, 0) == 0 && Kept(x, 0) == 0
  {
    assert Pow2(8) == 256;
  }

  /** The address with the bits behind the prefix cleared: whole bytes kept, one byte cut, zeros. */
  function Cleared(s: Address, p: nat): (r: Address)
    requires p <= ADDRESS_BITS
  {
    var (w, r) := (p / 8, p % 8);
    if w == ADDRESS_BYTES then s
    else s[..w] + [Kept(s[w], r)] + seq(ADDRESS_BYTES - 1 - w, _ => 0)
  }

  lemma ClearedAt(s: Address, p: nat, k: nat)
    requires p <= ADDRESS_BITS && k < ADDRESS_BYTES
    ensures Cleared(s, p)[k] == if k < p / 8 then s[k] else if k == p / 8 then Kept(s[k], p % 8) else 0
    ensures k == p / 8 && p % 8 == 0 ==> Cleared(s, p)[k] == 0
  {
    if k == p / 8 { WholeByteTail(s[k], s[k]); }
  }

  method MaskByte(x: Byte, remainingBits: nat) returns (r: Byte)
    requires remainingBits < 8
    ensures r == Kept(x, remainingBits)
  {
    MaskKeepsHighBits(x, remainingBits);
    r := BitAnd(x, Mask(remainingBits));
  }

  method ClearHostBits(bytes: array<Byte>, prefixBits: nat)
    requires bytes.Length == ADDRESS_BYTES && prefixBits <= ADDRESS_BITS
    modifies bytes
    ensures bytes[..] == Cleared(old(bytes[..]), prefixBits)
  {
    var wholeBytes, remainingBits := prefixBits / 8, prefixBits % 8;
    ghost var cleared: Address := Cleared(bytes[..], prefixBits);
    forall k | 0 <= k < ADDRESS_BYTES
      ensures k < wholeBytes ==> cleared[k] == bytes[k]
      ensures k > wholeBytes || (k == wholeBytes && remainingBits == 0) ==> cleared[k] == 0
      ensures k == wholeBytes ==> cleared[k] == Kept(bytes[k], remainingBits)
    {
      ClearedAt(bytes[..], prefixBits, k);
    }
    if remainingBits != 0 && wholeBytes < bytes.Length {
      var masked := MaskByte(bytes[wholeBytes], remainingBits);
      bytes[wholeBytes] := masked;
    }
    for index := wholeBytes + if remainingBits != 0 then 1 else 0 to bytes.Length
      invariant forall k :: 0 <= k < index ==> bytes[k] == cleared[k]
    {
      bytes[index] := 0;
    }
    assert bytes[..] == cleared;
  }

  lemma {:induction false} ZerosNumber(n: nat)
    ensures Number(seq(n, _ => 0)) == 0
  {
    if n > 0 {
      ZerosNumber(n - 1);
      assert seq(n, _ => 0 as Byte)[..n - 1] == seq(n - 1, _ => 0 as Byte);
    }
  }

  lemma ClearedBytes(s: Address, p: nat)
    requires p < ADDRESS_BITS
    ensures var (w, c) := (p / 8, Cleared(s, p));
            c[..w] == s[..w] && c[w] == Kept(s[w], p % 8) && Number(c[w + 1..]) == 0
  {
    var (w, c) := (p / 8, Cleared(s, p));
    assert c[w + 1..] == seq(15 - w, _ => 0 as Byte);
    ZerosNumber(15 - w);
  }

  /** Clearing the host bits rounds the number down to a multiple of the block size. */
  lemma ClearedRoundsDown(s: Address, p: nat)
    requires p <= ADDRESS_BITS
    ensures Number(Cleared(s, p)) == Top(s, p) * Pow2(ADDRESS_BITS - p) <= Number(s)
  {
    if p < ADDRESS_BITS {
      var (w, r, c) := (p / 8, p % 8, Cleared(s, p));
      TopSplits(s, p);
      ClearedBytes(s, p);
      NumberSplit(c, w + 1);
      FirstBytes(c, w);
      HighBelow(s[w], r);
      BlockSize(p);
      Rounded(Number(s[..w]), Pow2(r), High(s[w], r), Pow2(8 - r), Pow2(8 * (15 - w)));
    }
    FloorBelow(Number(s), Pow2(ADDRESS_BITS - p));
  }

  lemma FloorBelow(n: nat, d: nat)
    requires d > 0
    ensures n / d * d <= n
  {}

  lemma Rounded(high: nat, pr: nat, low: nat, d: nat, a: nat)
    ensures (high * (pr * d) + low * d) * a == (high * pr + low) * (a * d)
  {
    assert (high * (pr * d) + low * d) == (high * pr + low) * d;
    Associated(high * pr + low, d, a);
  }

  /** Clearing does not change which addresses a rule covers. */
  lemma ClearedCoversTheSame(s: Address, p: nat, address: Address)
    requires p <= ADDRESS_BITS
    ensures Covers(Cleared(s, p), p, address) <==> Covers(s, p, address)
    ensures Covers(s, p, Cleared(s, p))
  {
    ClearedRoundsDown(s, p);
    DivUnique(Number(Cleared(s, p)), Pow2(ADDRESS_BITS - p), Top(s, p), 0);
  }

  /** A longer prefix inside a shorter one covers a subset. */
  lemma LongerPrefixCoversLess(short: Address, p: nat, long: Address, q: nat, address: Address)
    requires p <= q <= ADDRESS_BITS && Covers(short, p, long) && Covers(long, q, address)
    ensures Covers(short, p, address)
  {
    PowAdd(ADDRESS_BITS - q, q - p);
    DivDiv(Number(long), Pow2(ADDRESS_BITS - q), Pow2(q - p));
    DivDiv(Number(address), Pow2(ADDRESS_BITS - q), Pow2(q - p));
  }

  // ------------------------------------------------------------------- IPv4

  /** An address of the form `::ffff:a.b.c.d`. */
  predicate IsIpv4Mapped(s: Address) {
    (forall i :: 0 <= i < 10 ==> s[i] == 0) && s[10] == 0xFF && s[11] == 0xFF
  }

  lemma {:induction false} ZerosIffNumberZero(s: seq<Byte>)
    ensures Number(s) == 0 <==> forall i :: 0 <= i < |s| ==> s[i] == 0
  {
    if s != [] { ZerosIffNumberZero(s[..|s| - 1]); }
  }

  lemma MarkerNumber(s: Address)
    ensures IsIpv4Mapped(s) <==> Top(s, MAPPED_BITS) == MAPPED_VALUE
  {
    NumberSplit(s, 12);
    assert s[..12][..11] == s[..11] && s[..11][..10] == s[..10];
    assert Number(s[..12]) == (Number(s[..10]) * 256 + s[10]) * 256 + s[11];
    ZerosIffNumberZero(s[..10]);
    assert Top(s, MAPPED_BITS) == Number(s[..12]);
  }

  /** The IPv4 number of a mapped address. */
  function Ipv4Number(s: Address): nat { Number(s[12..]) }

  lemma MappedNumber(s: Address)
    requires IsIpv4Mapped(s)
    ensures Number(s) == MAPPED_VALUE * Pow2(IPV4_BITS) + Ipv4Number(s) && Ipv4Number(s) < Pow2(IPV4_BITS)
  {
    MarkerNumber(s);
    NumberSplit(s, 12);
    NumberBelow(s[12..]);
  }

  lemma TopOfSum(high: nat, d: nat, k: nat, low: nat)
    requires d > 0
    ensures (high * (k * d) + low) / d == high * k + low / d
  {
    Associated(high, k, d);
    DivShift(high * k, d, low);
  }

  lemma MappedTop(s: Address, p: nat)
    requires IsIpv4Mapped(s) && p <= IPV4_BITS
    ensures Top(s, p + MAPPED_BITS) == MAPPED_VALUE * Pow2(p) + Ipv4Number(s) / Pow2(IPV4_BITS - p)
  {
    MappedNumber(s);
    PowAdd(p, IPV4_BITS - p);
    TopOfSum(MAPPED_VALUE, Pow2(IPV4_BITS - p), Pow2(p), Ipv4Number(s));
  }

  /** A dotted-quad entry `/p` is the mapped rule `/(96+p)`: it covers the IPv4 peers with that prefix and nobody else. */
  lemma Ipv4EntryIsMappedRule(network: Address, p: nat, address: Address)
    requires IsIpv4Mapped(network) && p <= IPV4_BITS
    ensures Covers(network, p + MAPPED_BITS, address) <==>
            IsIpv4Mapped(address) && Ipv4Number(address) / Pow2(IPV4_BITS - p) == Ipv4Number(network) / Pow2(IPV4_BITS - p)
  {
    MappedTop(network, p);
    if IsIpv4Mapped(address) {
      MappedTop(address, p);
    } else {
      MarkerNumber(address);
      MarkerNumber(network);
      PowAdd(IPV4_BITS - p, p);
      DivDiv(Number(network), Pow2(IPV4_BITS - p), Pow2(p));
      DivDiv(Number(address), Pow2(IPV4_BITS - p), Pow2(p));
    }
  }

  // ------------------------------------------------------------------- parsing

  datatype CidrError = MalformedEntry | BadAddress | BadPrefixLength

  datatype Result<+T> = Ok(value: T) | Err(error: CidrError)

  /** What the platform's address parser answers: nothing, or bytes and whether the text was a dotted quad. */
  datatype Parsed = Parsed(bytes: Address, fromDottedQuad: bool)

  type AddressParser = f: string -> Option<Parsed> | forall t :: f(t).Some? && f(t).value.fromDottedQuad ==> IsIpv4Mapped(f(t).value.bytes)
    witness (t: string) => None

  const SEPARATOR := '/'

  function ParsePrefix(text: string, fromDottedQuad: bool): (r: Result<nat>)
    ensures r.Ok? ==> r.value <= ADDRESS_BITS && (fromDottedQuad ==> r.value >= MAPPED_BITS)
  {
    if text == "" || !(forall i :: 0 <= i < |text| ==> IsDigit(text[i])) then Err(BadPrefixLength)
    else
      var bits := NumeralValue(text);
      if bits > (if fromDottedQuad then IPV4_BITS else ADDRESS_BITS) then Err(BadPrefixLength)
      else Ok(if fromDottedQuad then bits + MAPPED_BITS else bits)
  }

  /** The prefix length an entry asks for, and its address; the errors in the order the code finds them. */
  function EntryMeaning(entry: string, addressOf: AddressParser): (r: Result<(Parsed, nat)>)
    ensures r.Ok? ==> r.value.1 <= ADDRESS_BITS && (r.value.0.fromDottedQuad ==> r.value.1 >= MAPPED_BITS)
    ensures r.Ok? && r.value.0.fromDottedQuad ==> IsIpv4Mapped(r.value.0.bytes)
  {
    var pieces := Split(entry, SEPARATOR);
    if pieces[0] == "" || |pieces| > 2 then Err(MalformedEntry)
    else
      match addressOf(pieces[0])
      case None => Err(BadAddress)
      case Some(parsed) =>
        if |pieces| == 1 then Ok((parsed, ADDRESS_BITS))
        else
          match ParsePrefix(pieces[1], parsed.fromDottedQuad)
          case Err(e) => Err(e)
          case Ok(bits) => Ok((parsed, bits))
  }

  /** A rule stands for an entry: it covers the same addresses, its host bits are zero, and it is an IPv4 rule exactly
      when everything it covers is an IPv4 address. */
  ghost predicate Represents(rule: Rule, parsed: Parsed, bits: nat)
    requires bits <= ADDRESS_BITS
  {
    && rule.prefixBits == bits
    && rule.network == Cleared(parsed.bytes, bits)
    && (rule.isV4 <==> forall a: Address :: Covers(rule.network, bits, a) ==> IsIpv4Mapped(a))
  }

  lemma EntryPieces(entry: string, at: nat, pieces: seq<string>)
    requires at == Find(entry, SEPARATOR) && pieces == Split(entry, SEPARATOR)
    ensures pieces[0] == entry[..at]
    ensures at == |entry| ==> |pieces| == 1
    ensures at < |entry| ==>
              var rest := entry[at + 1..];
              if Find(rest, SEPARATOR) < |rest| then |pieces| > 2 else pieces == [entry[..at], rest]
  {
    SplitOnce(entry, SEPARATOR);
    if at < |entry| {
      SplitOnce(entry[at + 1..], SEPARATOR);
    }
  }

  /** The IPv4 flag says what it should. */
  lemma FlagIsExact(network: Address, bits: nat)
    requires bits <= ADDRESS_BITS && network == Cleared(network, bits)
    ensures (IsIpv4Mapped(network) && bits >= MAPPED_BITS) <==> forall a: Address :: Covers(network, bits, a) ==> IsIpv4Mapped(a)
  {
    assert Covers(network, bits, network);
    if IsIpv4Mapped(network) && bits >= MAPPED_BITS {
      forall a: Address | Covers(network, bits, a) ensures IsIpv4Mapped(a) {
        Ipv4EntryIsMappedRule(network, bits - MAPPED_BITS, a);
      }
    } else if bits < MAPPED_BITS {
      ShortPrefixIsNotMapped(network, bits);
    }
  }

  lemma ShortPrefixIsNotMapped(network: Address, bits: nat)
    requires bits < MAPPED_BITS && network == Cleared(network, bits)
    ensures !IsIpv4Mapped(network)
  {
    var w := bits / 8;
    ClearedBytes(network, bits);
    if w < 11 {
      assert network[11] == Cleared(network, bits)[11] == 0;
    } else {
      KeptIsEven(network[11], bits % 8);
    }
  }

  lemma KeptIsEven(x: Byte, r: nat)
    requires r < 8
    ensures Kept(x, r) % 2 == 0
  {
    var (h, d) := (High(x, r), Pow2(7 - r));
    assert Pow2(8 - r) == 2 * d;
    assert h * (2 * d) == 2 * (h * d);
  }

  lemma {:induction false} ClearedTwice(s: Address, p: nat)
    requires p <= ADDRESS_BITS
    ensures Cleared(Cleared(s, p), p) == Cleared(s, p)
  {
    ClearedRoundsDown(s, p);
    ClearedCoversTheSame(s, p, s);
    ClearedRoundsDown(Cleared(s, p), p);
    NumberIsInjective(Cleared(Cleared(s, p), p), Cleared(s, p));
  }

  lemma ClearedStaysMapped(s: Address, p: nat)
    requires IsIpv4Mapped(s) && MAPPED_BITS <= p <= ADDRESS_BITS
    ensures IsIpv4Mapped(Cleared(s, p))
  {
    ClearedCoversTheSame(s, p, s);
    Ipv4EntryIsMappedRule(s, p - MAPPED_BITS, Cleared(s, p));
  }

  method ParseEntry(entry: string, addressOf: AddressParser) returns (r: Result<Rule>)
    ensures match EntryMeaning(entry, addressOf)
            case Err(e) => r == Err(e)
            case Ok((parsed, bits)) => r.Ok? && Represents(r.value, parsed, bits)
  {
    if entry == "" { return Err(MalformedEntry); }
    var at := Find(entry, SEPARATOR);
    EntryPieces(entry, at, Split(entry, SEPARATOR));
    var addressText := entry[..at];
    var prefixText := if at < |entry| then entry[at + 1..] else "";
    if addressText == "" || Find(prefixText, SEPARATOR) < |prefixText| { return Err(MalformedEntry); }
    var address := addressOf(addressText);
    if address.None? { return Err(BadAddress); }
    var prefixBits: nat := ADDRESS_BITS;
    if at < |entry| {
      var parsedPrefix := ParsePrefix(prefixText, address.value.fromDottedQuad);
      if parsedPrefix.Err? { return Err(parsedPrefix.error); }
      prefixBits := parsedPrefix.value;
    }
    var rule := MakeRule(address.value, prefixBits);
    return Ok(rule);
  }

  method MakeRule(parsed: Parsed, prefixBits: nat) returns (rule: Rule)
    requires prefixBits <= ADDRESS_BITS
    requires parsed.fromDottedQuad ==> IsIpv4Mapped(parsed.bytes) && prefixBits >= MAPPED_BITS
    ensures Represents(rule, parsed, prefixBits)
  {
    var bytes := new Byte[ADDRESS_BYTES](i requires 0 <= i < ADDRESS_BYTES => parsed.bytes[i]);
    assert bytes[..] == parsed.bytes;
    ClearHostBits(bytes, prefixBits);
    var network: Address := bytes[..];
    ClearedTwice(parsed.bytes, prefixBits);
    FlagIsExact(network, prefixBits);
    if parsed.fromDottedQuad { ClearedStaysMapped(parsed.bytes, prefixBits); }
    rule := Rule(network, prefixBits, parsed.fromDottedQuad || (IsIpv4Mapped(network) && prefixBits >= MAPPED_BITS));
  }

  // ---------------------------------------------------------------- allow list

  /** The list admits everyone when it is empty, local peers always, and otherwise the covered addresses. */
  method Allows(rules: seq<Rule>, isUnix: bool, address: Address) returns (yes: bool)
    requires forall i :: 0 <= i < |rules| ==> rules[i].prefixBits <= ADDRESS_BITS
    ensures yes <==> rules == [] || isUnix || exists i :: 0 <= i < |rules| && Covers(rules[i].network, rules[i].prefixBits, address)
  {
    if rules == [] { return true; }
    if isUnix { return true; }
    for k := 0 to |rules|
      invariant forall i :: 0 <= i < k ==> !Covers(rules[i].network, rules[i].prefixBits, address)
    {
      var matched := MatchesRule(rules[k], address);
      if matched { return true; }
    }
    return false;
  }
}
