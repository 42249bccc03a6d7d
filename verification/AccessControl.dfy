/**
 CIDR matching and the client access list (RFC 4632, section 3.1).

 An IPv4 address is its 32 bits, most significant first, so the masks of the program are the
 bitwise operations below.
 */
module AccessControl {
  import opened NtpTime

  type Address = bits: seq<bool> | |bits| == 32 witness seq(32, _ => false)

  const ALL_ONES: Address := seq(32, _ => true)

  function And(a: Address, b: Address): Address { seq(32, i requires 0 <= i < 32 => a[i] && b[i]) }

  function ShiftLeft(a: Address, n: nat): Address
    requires n < 32
  {
    a[n..] + seq(n, _ => false)
  }

  /** An entry of the list: an address in canonical text, a block, or text that is neither. */
  datatype AclEntry = Exact(address: Address) | Block(base: Address, prefix: int) | Malformed

  /** The program special-cases prefix 0 because shifting a 32-bit word by 32 is undefined. */
  function Mask(prefix: int): Address
    requires 0 <= prefix <= 32
  {
    if prefix == 0 then seq(32, _ => false) else ShiftLeft(ALL_ONES, 32 - prefix)
  }

  predicate IsIpInCidr(ip: Address, entry: AclEntry) {
    match entry
    case Exact(address) => ip == address
    case Malformed => false
    case Block(base, prefix) =>
      if prefix < 0 || prefix > 32 then false
      else And(ip, Mask(prefix)) == And(base, Mask(prefix))
  }

  // ---------------------------------------------------------------- values of addresses

  function Pow2(n: nat): (p: nat)
    ensures p > 0
  {
    if n == 0 then 1 else 2 * Pow2(n - 1)
  }

  function Value(bits: seq<bool>): nat {
    if bits == [] then 0 else 2 * Value(bits[..|bits| - 1]) + (if bits[|bits| - 1] then 1 else 0)
  }

  lemma {:induction false} ValueBound(bits: seq<bool>)
    ensures Value(bits) < Pow2(|bits|)
  {
    if bits != [] {
      ValueBound(bits[..|bits| - 1]);
    }
  }

  /** Sequences of one length are determined by their values. */
  lemma {:induction false} ValueInjective(a: seq<bool>, b: seq<bool>)
    requires |a| == |b| && Value(a) == Value(b)
    ensures a == b
  {
    if a != [] {
      ValueInjective(a[..|a| - 1], b[..|b| - 1]);
      assert a == a[..|a| - 1] + [a[|a| - 1]];
      assert b == b[..|b| - 1] + [b[|b| - 1]];
    }
  }

  /** Dropping the last n bits is dividing by 2^n. */
  lemma {:induction false} PrefixIsQuotient(bits: seq<bool>, n: nat)
    requires n <= |bits|
    ensures Value(bits[..|bits| - n]) == Value(bits) / Pow2(n)
  {
    if n == 0 {
      assert bits[..|bits|] == bits;
    } else {
      var shorter := bits[..|bits| - 1];
      PrefixIsQuotient(shorter, n - 1);
      assert shorter[..|shorter| - (n - 1)] == bits[..|bits| - n];
      assert Value(shorter) == Value(bits) / 2;
      DivTwice(Value(bits), n - 1);
    }
  }

  lemma DivTwice(v: nat, n: nat)
    ensures v / Pow2(n + 1) == v / 2 / Pow2(n)
  {
    var p := Pow2(n);
    var q := v / 2 / p;
    var r := v / 2 - q * p;
    assert 0 <= r < p;
    assert q * (2 * p) == 2 * (q * p);
    DivUnique(v, 2 * p, q);
  }

  // ---------------------------------------------------------------- blocks

  lemma MaskKeepsPrefix(a: Address, b: Address, prefix: nat)
    requires prefix <= 32
    ensures And(a, Mask(prefix)) == And(b, Mask(prefix)) <==> a[..prefix] == b[..prefix]
  {
    var mask := Mask(prefix);
    assert forall i :: 0 <= i < 32 ==> mask[i] == (i < prefix);
    if a[..prefix] == b[..prefix] {
      forall i | 0 <= i < 32 ensures And(a, mask)[i] == And(b, mask)[i] {
        if i < prefix {
          assert a[i] == a[..prefix][i] == b[..prefix][i] == b[i];
        }
      }
      assert And(a, mask) == And(b, mask);
    }
    if And(a, mask) == And(b, mask) {
      forall i | 0 <= i < prefix ensures a[i] == b[i] {
        assert And(a, mask)[i] == And(b, mask)[i];
      }
    }
  }

  /** A block holds exactly the addresses with the same quotient by 2^(32 - prefix); no other prefix matches. */
  lemma CidrIsQuotient(ip: Address, base: Address, prefix: int)
    ensures IsIpInCidr(ip, Block(base, prefix)) <==>
            0 <= prefix <= 32 && Value(ip) / Pow2(32 - prefix) == Value(base) / Pow2(32 - prefix)
  {
    if 0 <= prefix <= 32 {
      MaskKeepsPrefix(ip, base, prefix);
      PrefixIsQuotient(ip, 32 - prefix);
      PrefixIsQuotient(base, 32 - prefix);
      if Value(ip[..prefix]) == Value(base[..prefix]) {
        ValueInjective(ip[..prefix], base[..prefix]);
      }
    }
  }

  /** For one prefix length, being in each other's block is an equivalence. */
  lemma CidrEquivalence(a: Address, b: Address, c: Address, prefix: int)
    requires 0 <= prefix <= 32
    ensures IsIpInCidr(a, Block(a, prefix))
    ensures IsIpInCidr(a, Block(b, prefix)) <==> IsIpInCidr(b, Block(a, prefix))
    ensures IsIpInCidr(a, Block(b, prefix)) && IsIpInCidr(b, Block(c, prefix)) ==> IsIpInCidr(a, Block(c, prefix))
  {
  }

  /** A /32 block is a single address. */
  lemma HostBlock(ip: Address, base: Address)
    ensures IsIpInCidr(ip, Block(base, 32)) <==> IsIpInCidr(ip, Exact(base))
  {
    MaskKeepsPrefix(ip, base, 32);
  }

  ghost predicate Disjoint(x: AclEntry, y: AclEntry) {
    forall ip: Address :: !(IsIpInCidr(ip, x) && IsIpInCidr(ip, y))
  }

  ghost predicate Within(x: AclEntry, y: AclEntry) {
    forall ip: Address :: IsIpInCidr(ip, x) ==> IsIpInCidr(ip, y)
  }

  /** Two blocks are nested or disjoint; the longer prefix is the inner one. */
  lemma NestedOrDisjoint(a: Address, p: int, b: Address, q: int)
    requires p <= q
    ensures Within(Block(b, q), Block(a, p)) || Disjoint(Block(a, p), Block(b, q))
  {
    if 0 <= p && q <= 32 && !Disjoint(Block(a, p), Block(b, q)) {
      var common: Address :| IsIpInCidr(common, Block(a, p)) && IsIpInCidr(common, Block(b, q));
      MaskKeepsPrefix(common, a, p);
      MaskKeepsPrefix(common, b, q);
      forall ip: Address | IsIpInCidr(ip, Block(b, q)) ensures IsIpInCidr(ip, Block(a, p)) {
        MaskKeepsPrefix(ip, b, q);
        MaskKeepsPrefix(ip, a, p);
        assert ip[..p] == ip[..q][..p] == common[..q][..p] == common[..p];
      }
    }
  }

  // ---------------------------------------------------------------- the access list

  datatype Acl = Acl(enabled: bool, restrictQueries: bool, allowed: seq<AclEntry>, denied: seq<AclEntry>)

  predicate InAny(ip: Address, entries: seq<AclEntry>) {
    exists i :: 0 <= i < |entries| && IsIpInCidr(ip, entries[i])
  }

  /** The decision as set algebra: the union of the allows minus the union of the denies. */
  predicate Admits(acl: Acl, ip: Address) {
    (acl.enabled || acl.restrictQueries) ==>
      && !InAny(ip, acl.denied)
      && (if acl.allowed == [] then !acl.restrictQueries else InAny(ip, acl.allowed))
  }

  method IsClientAllowed(acl: Acl, ip: Address) returns (ok: bool)
    ensures ok == Admits(acl, ip)
    ensures !acl.enabled && !acl.restrictQueries ==> ok
  {
    if !acl.enabled && !acl.restrictQueries {
      return true;
    }
    for i := 0 to |acl.denied|
      invariant forall j :: 0 <= j < i ==> !IsIpInCidr(ip, acl.denied[j])
    {
      if IsIpInCidr(ip, acl.denied[i]) {
        return false;
      }
    }
    if |acl.allowed| == 0 {
      return !acl.restrictQueries;
    }
    for i := 0 to |acl.allowed|
      invariant forall j :: 0 <= j < i ==> !IsIpInCidr(ip, acl.allowed[j])
    {
      if IsIpInCidr(ip, acl.allowed[i]) {
        return true;
      }
    }
    return false;
  }

  predicate Matches(ip: Address, entries: seq<AclEntry>, i: nat)
    requires i < |entries|
  {
    IsIpInCidr(ip, entries[i])
  }

  /**
   Who is admitted, case by case. With both switches off everyone is. Otherwise nobody whom a
   deny matches; of the others, without any allow, everyone unless queries are restricted, and
   with allows exactly those whom one matches.
   */
  lemma AdmittedIff(acl: Acl, ip: Address)
    ensures !acl.enabled && !acl.restrictQueries ==> Admits(acl, ip)
    ensures (acl.enabled || acl.restrictQueries) && acl.allowed == [] ==>
              (Admits(acl, ip) <==> !acl.restrictQueries && forall i: nat :: i < |acl.denied| ==> !Matches(ip, acl.denied, i))
    ensures (acl.enabled || acl.restrictQueries) && acl.allowed != [] ==>
              (Admits(acl, ip) <==> && (forall i: nat :: i < |acl.denied| ==> !Matches(ip, acl.denied, i))
                                    && exists i: nat :: i < |acl.allowed| && Matches(ip, acl.allowed, i))
  {
    if i :| 0 <= i < |acl.denied| && IsIpInCidr(ip, acl.denied[i]) {
      assert Matches(ip, acl.denied, i);
    }
    if i :| 0 <= i < |acl.allowed| && IsIpInCidr(ip, acl.allowed[i]) {
      assert Matches(ip, acl.allowed, i);
    }
  }

  /** An entry that is neither an address nor a block matches nobody, so it admits and refuses nobody. */
  lemma MalformedMatchesNobody(ip: Address, entries: seq<AclEntry>)
    ensures InAny(ip, entries + [Malformed]) <==> InAny(ip, entries)
  {
    InAnyAppend(ip, entries, Malformed);
  }

  /** Adding a deny removes exactly its block; it never admits anyone. */
  lemma AddDeny(acl: Acl, entry: AclEntry, ip: Address)
    requires acl.enabled || acl.restrictQueries
    ensures Admits(acl.(denied := acl.denied + [entry]), ip) <==> Admits(acl, ip) && !IsIpInCidr(ip, entry)
  {
    InAnyAppend(ip, acl.denied, entry);
  }

  /** Adding an allow admits its block, less the denies; only as the first allow can it shut others out. */
  lemma AddAllow(acl: Acl, entry: AclEntry, ip: Address)
    requires acl.enabled || acl.restrictQueries
    ensures Admits(acl.(allowed := acl.allowed + [entry]), ip) <==>
            !InAny(ip, acl.denied) && (IsIpInCidr(ip, entry) || (acl.allowed != [] && Admits(acl, ip)))
  {
    InAnyAppend(ip, acl.allowed, entry);
  }

  lemma InAnyAppend(ip: Address, entries: seq<AclEntry>, entry: AclEntry)
    ensures InAny(ip, entries + [entry]) <==> InAny(ip, entries) || IsIpInCidr(ip, entry)
  {
    var more := entries + [entry];
    assert more[|entries|] == entry;
    if InAny(ip, entries) {
      var i :| 0 <= i < |entries| && IsIpInCidr(ip, entries[i]);
      assert more[i] == entries[i];
    }
  }
}
