/** The behavior registry, the name resolver over it and the start-up check
    for duplicate behavior names. */
module Behaviors {
  import opened CTypes

  /** A registered behavior device: its own address (its identity), the
      address of its name and whether the device framework reports it ready. */
  datatype Device = Device(addr: nat, name: nat, ready: bool)

  /** The link-time section of behavior references, in section order.
      It is never modified at run time. */
  type Registry = seq<Device>

  /** Pass one's test: a ready device whose name pointer IS the query pointer. */
  predicate IdentityHit(d: Device, addr: nat) {
    d.ready && d.name == addr
  }

  /** Pass two's test: a ready device whose name text equals the query text. */
  predicate TextHit(d: Device, mem: Memory, text: string) {
    d.ready && mem(d.name) == text
  }

  /** The index of the first element satisfying `p`, or `|s|` when none does. */
  function FirstIndex<T>(s: seq<T>, p: T -> bool): (k: nat)
    ensures k <= |s|
    ensures k < |s| ==> p(s[k])
    ensures forall j :: 0 <= j < k ==> !p(s[j])
  {
    if |s| == 0 then 0
    else if p(s[0]) then 0
    else 1 + FirstIndex(s[1..], p)
  }

  /** What resolving `name` yields: nothing for NULL or "", else the first
      identity hit, else the first text hit, else nothing. */
  function Resolve(reg: Registry, mem: Memory, name: CStr): Option<Device> {
    if name.NullPtr? || mem(name.addr) == [] then None
    else
      var i := FirstIndex(reg, d => IdentityHit(d, name.addr));
      if i < |reg| then Some(reg[i])
      else
        var t := FirstIndex(reg, d => TextHit(d, mem, mem(name.addr)));
        if t < |reg| then Some(reg[t]) else None
  }

  /** The two-pass scan of the registry. */
  method GetBinding(reg: Registry, mem: Memory, name: CStr) returns (r: Option<Device>)
    ensures r == Resolve(reg, mem, name)
  {
    if name.NullPtr? || mem(name.addr) == [] {
      return None;
    }
    var i := 0;
    while i < |reg|
      invariant 0 <= i <= |reg|
      invariant forall j :: 0 <= j < i ==> !IdentityHit(reg[j], name.addr)
    {
      if reg[i].ready && reg[i].name == name.addr {
        return Some(reg[i]);
      }
      i := i + 1;
    }
    i := 0;
    while i < |reg|
      invariant 0 <= i <= |reg|
      invariant forall j :: 0 <= j < i ==> !TextHit(reg[j], mem, mem(name.addr))
    {
      if reg[i].ready && mem(reg[i].name) == mem(name.addr) {
        return Some(reg[i]);
      }
      i := i + 1;
    }
    return None;
  }

  /** A NULL or empty name resolves to nothing, whatever the registry holds:
      no entry is consulted. */
  lemma ResolveEmptyName(reg1: Registry, reg2: Registry, mem: Memory, name: CStr)
    requires name.NullPtr? || mem(name.addr) == []
    ensures Resolve(reg1, mem, name) == None
    ensures Resolve(reg1, mem, name) == Resolve(reg2, mem, name)
  {
  }

  /** A resolved device is a ready registry entry whose name text equals the
      query's text (an identity hit is sound because one address holds one text). */
  lemma ResolveSound(reg: Registry, mem: Memory, name: CStr)
    requires Resolve(reg, mem, name).Some?
    ensures name.At? && mem(name.addr) != []
    ensures exists k :: 0 <= k < |reg| && reg[k] == Resolve(reg, mem, name).value
    ensures Resolve(reg, mem, name).value.ready
    ensures mem(Resolve(reg, mem, name).value.name) == mem(name.addr)
  {
  }

  /** If some ready entry carries the query's (non-empty) name text, the
      resolver finds a device. */
  lemma ResolveComplete(reg: Registry, mem: Memory, name: CStr, k: nat)
    requires name.At? && mem(name.addr) != []
    requires k < |reg| && TextHit(reg[k], mem, mem(name.addr))
    ensures Resolve(reg, mem, name).Some?
  {
  }

  /** Pass one takes precedence: when a ready entry holds the query pointer
      itself, the result is the first such entry, even if an earlier ready
      entry has an equal name at another address. */
  lemma ResolveIdentityFirst(reg: Registry, mem: Memory, name: CStr, k: nat)
    requires name.At? && mem(name.addr) != []
    requires k < |reg| && IdentityHit(reg[k], name.addr)
    requires forall j :: 0 <= j < k ==> !IdentityHit(reg[j], name.addr)
    ensures Resolve(reg, mem, name) == Some(reg[k])
  {
  }

  /** Without an identity hit, the first ready entry with an equal name text
      in registry order is returned. */
  lemma ResolveFirstTextMatch(reg: Registry, mem: Memory, name: CStr, k: nat)
    requires name.At? && mem(name.addr) != []
    requires forall j :: 0 <= j < |reg| ==> !IdentityHit(reg[j], name.addr)
    requires k < |reg| && TextHit(reg[k], mem, mem(name.addr))
    requires forall j :: 0 <= j < k ==> !TextHit(reg[j], mem, mem(name.addr))
    ensures Resolve(reg, mem, name) == Some(reg[k])
  {
  }

  /** A name held by exactly one ready entry resolves to that entry. */
  lemma ResolveUniqueName(reg: Registry, mem: Memory, name: CStr, k: nat)
    requires name.At? && mem(name.addr) != []
    requires k < |reg| && TextHit(reg[k], mem, mem(name.addr))
    requires forall j :: 0 <= j < |reg| && j != k ==> !TextHit(reg[j], mem, mem(name.addr))
    ensures Resolve(reg, mem, name) == Some(reg[k])
  {
  }

  /** Lexicographic order on reported index pairs. */
  predicate PairBefore(p: (nat, nat), q: (nat, nat)) {
    p.0 < q.0 || (p.0 == q.0 && p.1 < q.1)
  }

  /** Registry entries `i` and `j` have names that `strcmp` reports equal. */
  predicate SameName(reg: Registry, mem: Memory, i: nat, j: nat)
    requires i < |reg| && j < |reg|
  {
    mem(reg[i].name) == mem(reg[j].name)
  }

  /** The start-up diagnostic: every pair `i < j` of registry entries with equal
      names is reported once, in scan order; the result code is always 0.
      Each reported pair stands for one error line naming `mem(reg[i].name)`. */
  method CheckBehaviorNames(reg: Registry, mem: Memory) returns (reports: seq<(nat, nat)>, r: int)
    ensures r == 0
    ensures forall p :: p in reports ==> p.0 < p.1 < |reg| && SameName(reg, mem, p.0, p.1)
    ensures forall i, j :: 0 <= i < j < |reg| && SameName(reg, mem, i, j) ==> (i, j) in reports
    ensures forall a, b :: 0 <= a < b < |reports| ==> PairBefore(reports[a], reports[b])
  {
    reports := [];
    var count := |reg|;
    for i := 0 to count
      invariant forall p :: p in reports ==> p.0 < p.1 < |reg| && p.0 < i && SameName(reg, mem, p.0, p.1)
      invariant forall i', j :: 0 <= i' < i && i' < j < |reg| && SameName(reg, mem, i', j) ==> (i', j) in reports
      invariant forall a, b :: 0 <= a < b < |reports| ==> PairBefore(reports[a], reports[b])
    {
      for j := i + 1 to count
        invariant forall p :: p in reports ==> p.0 < p.1 < |reg| && (p.0 < i || (p.0 == i && p.1 < j)) && SameName(reg, mem, p.0, p.1)
        invariant forall i', j' :: 0 <= i' < i && i' < j' < |reg| && SameName(reg, mem, i', j') ==> (i', j') in reports
        invariant forall j' :: i < j' < j && SameName(reg, mem, i, j') ==> (i, j') in reports
        invariant forall a, b :: 0 <= a < b < |reports| ==> PairBefore(reports[a], reports[b])
      {
        if mem(reg[i].name) == mem(reg[j].name) {
          reports := reports + [(i, j)];
        }
      }
    }
    r := 0;
  }
}
