/** The multicast addresses of the three topics: the carry loop that derives
    neighbouring addresses, and which arguments are accepted. */
module MulticastAddress {
  import opened Bytes
  import opened Machine

  /** A transport address in network order; an IPv4 address fills the last four bytes. */
  type Address = a: seq<Byte> | |a| == 16 witness seq(16, _ => 0)

  const PREFIX: nat := 12

  predicate IsIPv4(a: Address) {
    forall i :: 0 <= i < PREFIX ==> a[i] == 0
  }

  /** Section 4 of RFC 1112 and section 2.7 of RFC 4291. */
  predicate IsMulticast(a: Address) {
    if IsIPv4(a) then 224 <= a[12] <= 239 else a[0] == 255
  }

  /** The address that remains after printing in its protocol family and reading back:
      IPv4 text carries the last four bytes only. */
  function Reread(a: Address, ipv4: bool): (b: Address)
    ensures ipv4 ==> IsIPv4(b)
  {
    if ipv4 then seq(PREFIX, _ => 0) + a[PREFIX..] else a
  }

  const ZERO: Byte := 0

  /** The carry loop over the sixteen bytes, in place on a copy of the address. For IPv4
      it may run down to byte 9, three bytes past the address. */
  method IncreaseAddressByOne(addr: Address) returns (next: Option<Address>)
    ensures next == Next(addr)
  {
    var bytes := new Byte[16](i requires 0 <= i < 16 => addr[i]);
    var isIPv4, success, i := IsIPv4(addr), false, 15;
    CarryStart(addr);
    while i >= 0 && !success
      invariant -1 <= i <= 15
      invariant bytes[..i + 1] == addr[..i + 1] || success
      invariant isIPv4 && !success ==> i >= 11
      invariant !success ==> bytes[i + 1..] == seq(15 - i, _ => ZERO)
      invariant !success ==> CarriedFrom(addr, i + 1)
      invariant success ==> Successor(addr) == Some(bytes[..])
    {
      if isIPv4 && i < 9 {
        break;
      }
      CarryStep(addr, i);
      if bytes[i] == 255 {
        bytes[i] := 0;
        assert bytes[i..] == [ZERO] + bytes[i + 1..];
      } else {
        bytes[i] := bytes[i] + 1;
        success := true;
        assert bytes[..i] == addr[..i + 1][..i] == addr[..i];
        assert bytes[..] == bytes[..i] + [bytes[i]] + bytes[i + 1..];
        assert bytes[..] == addr[..i] + [addr[i] + 1] + seq(15 - i, _ => ZERO);
      }
      i := i - 1;
    }
    if !success {
      return None;
    }
    next := Some(Reread(bytes[..], isIPv4));
  }

  /** The bytes from `n` on are all 255, so the carry goes past them. */
  predicate CarriedFrom(addr: Address, n: nat)
    requires n <= 16
  {
    var up := Successor(addr[..n]);
    Successor(addr) == if up.Some? then Some(up.value + seq(16 - n, _ => ZERO)) else None
  }

  lemma CarryStart(addr: Address)
    ensures CarriedFrom(addr, 16)
  {
    assert addr[..16] == addr;
    var up := Successor(addr);
    assert up.Some? ==> up.value + seq(0, _ => ZERO) == up.value;
  }

  lemma CarryStep(addr: Address, i: nat)
    requires i < 16 && CarriedFrom(addr, i + 1)
    ensures addr[i] == 255 ==> CarriedFrom(addr, i)
    ensures addr[i] < 255 ==> Successor(addr) == Some(addr[..i] + [addr[i] + 1] + seq(15 - i, _ => ZERO))
  {
    assert addr[..i + 1][..i] == addr[..i];
    assert [ZERO] + seq(15 - i, _ => ZERO) == seq(16 - i, _ => ZERO);
    var up := Successor(addr[..i]);
    if addr[i] == 255 && up.Some? {
      assert up.value + [0] + seq(15 - i, _ => ZERO) == up.value + seq(16 - i, _ => ZERO);
    }
  }

  /** What the loop computes. */
  function Next(addr: Address): (next: Option<Address>) {
    var up := Successor(addr);
    if up.Some? then Some(Reread(up.value, IsIPv4(addr))) else None
  }

  function Quad(a: Byte, b: Byte, c: Byte, d: Byte): (v: nat) {
    a * 0x100_0000 + b * 0x1_0000 + c * 0x100 + d
  }

  /** The last four bytes are the address modulo 2^32. */
  lemma LowWord(a: Address)
    ensures Value(a) == Value(a[..PREFIX]) * TWO32 + Quad(a[12], a[13], a[14], a[15])
  {
    ValueSnoc(a[..12], a[12]);
    ValueSnoc(a[..13], a[13]);
    ValueSnoc(a[..14], a[14]);
    ValueSnoc(a[..15], a[15]);
    assert a[..12] + [a[12]] == a[..13] && a[..13] + [a[13]] == a[..14];
    assert a[..14] + [a[14]] == a[..15] && a[..15] + [a[15]] == a;
  }

  /** An IPv4 address is the number of its last four bytes. */
  lemma IPv4Value(a: Address)
    ensures IsIPv4(a) <==> Value(a) < TWO32
    ensures IsIPv4(a) ==> Value(a) == Quad(a[12], a[13], a[14], a[15])
  {
    LowWord(a);
    NoValueNoBytes(a[..PREFIX]);
    if IsIPv4(a) {
      assert forall i :: 0 <= i < PREFIX ==> a[..PREFIX][i] == 0;
    } else {
      var i :| 0 <= i < PREFIX && a[i] != 0;
      assert a[..PREFIX][i] != 0;
    }
  }

  lemma {:induction false} NoValueNoBytes(s: seq<Byte>)
    ensures Value(s) == 0 <==> forall i :: 0 <= i < |s| ==> s[i] == 0
  {
    if s != [] {
      NoValueNoBytes(s[..|s| - 1]);
      assert forall i :: 0 <= i < |s| - 1 ==> s[..|s| - 1][i] == s[i];
    }
  }

  /** The address one higher: for IPv6 unless there is none; for IPv4 always, since the
      carry past 255.255.255.255 lands in a byte that the text does not show. */
  lemma NextAddsOne(addr: Address)
    ensures IsIPv4(addr) ==>
              && Next(addr).Some? && IsIPv4(Next(addr).value)
              && Value(Next(addr).value) == (Value(addr) + 1) % TWO32
    ensures !IsIPv4(addr) ==>
              && (Next(addr).None? <==> Value(addr) == Pow256(16) - 1)
              && (Next(addr).Some? ==> Value(Next(addr).value) == Value(addr) + 1 && Next(addr).value[0] >= addr[0])
  {
    if IsIPv4(addr) {
      NextIPv4(addr);
    } else {
      SuccessorAddsOne(addr);
    }
  }

  lemma NextIPv4(addr: Address)
    requires IsIPv4(addr)
    ensures Next(addr).Some? && IsIPv4(Next(addr).value)
    ensures Value(Next(addr).value) == (Value(addr) + 1) % TWO32
  {
    hide Value, Successor, Pow256, Quad;
    SuccessorAddsOne(addr);
    ValueBound(addr);
    assert addr[0] == 0;
    IPv4Value(addr);
    var up: Address, next := Successor(addr).value, Next(addr).value;
    LowWord(up);
    IPv4Value(next);
    assert next[12] == up[12] && next[13] == up[13] && next[14] == up[14] && next[15] == up[15];
    LowWordRemains(Value(up[..PREFIX]), Value(next));
  }

  lemma LowWordRemains(high: nat, low: nat)
    requires low < TWO32
    ensures (high * TWO32 + low) % TWO32 == low
  {
  }

  // ----- The argument of -multicastAddr -----

  datatype Topics = Topics(throughput: Address, latency: Address, announcement: Address)

  /** `given` are the addresses that the library finds in the argument. */
  method ParseMulticastAddresses(given: seq<Address>) returns (accepted: Option<Topics>)
    ensures |given| == 3 ==>
              accepted == if IsMulticast(given[0]) && IsMulticast(given[1]) && IsMulticast(given[2])
                          then Some(Topics(given[0], given[1], given[2])) else None
    ensures |given| == 1 ==> accepted == Consecutive(given[0])
    ensures |given| != 1 && |given| != 3 ==> accepted.None?
  {
    var t;
    if |given| == 3 {
      t := Topics(given[0], given[1], given[2]);
    } else if |given| == 1 {
      var latency := IncreaseAddressByOne(given[0]);
      if latency.None? {
        return None;
      }
      var announcement := IncreaseAddressByOne(latency.value);
      if announcement.None? {
        return None;
      }
      t := Topics(given[0], latency.value, announcement.value);
    } else {
      return None;
    }
    if !IsMulticast(t.throughput) || !IsMulticast(t.latency) || !IsMulticast(t.announcement) {
      return None;
    }
    accepted := Some(t);
  }

  /** What a single address is turned into. */
  function Consecutive(a: Address): (topics: Option<Topics>) {
    var b := Next(a);
    if b.None? then None else
      var c := Next(b.value);
      if c.None? then None
      else if IsMulticast(a) && IsMulticast(b.value) && IsMulticast(c.value) then Some(Topics(a, b.value, c.value))
      else None
  }

  /** 224.0.0.0 and 239.255.255.253. */
  const LOWEST: nat := 0xE000_0000
  const HIGHEST: nat := 0xEFFF_FFFD

  /** A single address is accepted exactly when it, the next and the one after are all
      multicast, and then those are the three topics' addresses. */
  lemma SingleAddressRule(a: Address)
    ensures Consecutive(a).Some? <==>
              if IsIPv4(a) then LOWEST <= Value(a) <= HIGHEST
              else IsMulticast(a) && Value(a) + 2 < Pow256(16)
    ensures Consecutive(a).Some? ==>
              var t := Consecutive(a).value;
              && t.throughput == a
              && Value(t.latency) == Value(a) + 1 && Value(t.announcement) == Value(a) + 2
              && IsMulticast(t.throughput) && IsMulticast(t.latency) && IsMulticast(t.announcement)
  {
    if IsIPv4(a) {
      IPv4Rule(a);
    } else {
      IPv6Rule(a);
    }
  }

  lemma WrapAtTop(v: nat)
    requires v < TWO32
    ensures (v + 1) % TWO32 == if v + 1 == TWO32 then 0 else v + 1
  {
  }

  lemma IPv4Rule(a: Address)
    requires IsIPv4(a)
    ensures Next(a).Some? && Next(Next(a).value).Some?
    ensures var b := Next(a).value;
            var c := Next(b).value;
            && (IsMulticast(a) && IsMulticast(b) && IsMulticast(c) <==> LOWEST <= Value(a) <= HIGHEST)
            && (Value(a) <= HIGHEST ==> Value(b) == Value(a) + 1 && Value(c) == Value(a) + 2)
  {
    hide Next, Value, Successor, IsMulticast, IsIPv4, Quad;
    NextAddsOne(a);
    var b := Next(a).value;
    NextAddsOne(b);
    IPv4Value(a);
    IPv4Value(b);
    IPv4Multicast(a);
    IPv4Multicast(b);
    IPv4Multicast(Next(b).value);
    WrapAtTop(Value(a));
    WrapAtTop(Value(b));
  }

  lemma IPv6Rule(a: Address)
    requires !IsIPv4(a)
    ensures Consecutive(a).Some? <==> a[0] == 255 && Value(a) + 2 < Pow256(16)
    ensures Consecutive(a).Some? ==>
              var t := Consecutive(a).value;
              t.throughput == a && Value(t.latency) == Value(a) + 1 && Value(t.announcement) == Value(a) + 2
  {
    hide Next, Value, Successor, Pow256;
    NextAddsOne(a);
    IPv4Value(a);
    ValueBound(a);
    if Next(a).Some? {
      var b := Next(a).value;
      IPv4Value(b);
      NextAddsOne(b);
      ValueBound(b);
      if Next(b).Some? {
        IPv4Value(Next(b).value);
        ValueBound(Next(b).value);
      }
    }
  }

  lemma IPv4Multicast(a: Address)
    requires IsIPv4(a)
    ensures IsMulticast(a) <==> LOWEST <= Value(a) <= HIGHEST + 2
  {
    IPv4Value(a);
  }
}
