/**
 Copies between kernel and user memory: range checks, a page walk, probes and a byte loop, with page
 faults that jump out of the probes or of the loop to the label recorded before.
 */
module CopyUser {
  import opened ByteStrings
  import opened Critical
  import opened Cpus

  const PAGE_SIZE: nat := 4096
  const USER_SPACE_END: nat := 0xBFFF_FFFF
  const WORD: nat := 0x1_0000_0000
  const MAX_COPY_SIZE: nat := 16 * 1024 * 1024
  const EFAULT: int := 14
  const EINVAL: int := 22
  const ENAMETOOLONG: int := 36

  /** The flags of a directory or table entry. */
  datatype Flags = Flags(present: bool, user: bool, writable: bool)

  /** A page: whether its directory is present, its directory entry, whether that maps a large page, its table
      entry otherwise, and whether an access by the kernel finds memory behind it. */
  datatype Page = Page(top: bool, dir: Flags, large: bool, table: Flags, backed: bool)

  /** The mapping: the page at each moment. A moment is the number of user accesses made before it. */
  type Mapping = (nat, nat) -> Page

  // ---------------------------------------------------------------- which pages are probed

  /** The addresses that the probe loop reads. */
  function LoopProbes(addr: nat, end: nat): seq<nat>
    decreases end - addr
  {
    if addr < end then [addr] + LoopProbes(addr + PAGE_SIZE, end) else []
  }

  /** The test after the loop, in 32-bit arithmetic. */
  predicate ProbesLast(end: nat)
    requires 0 < end < WORD
  {
    (end - 1) / PAGE_SIZE != (end + WORD - PAGE_SIZE) % WORD / PAGE_SIZE
  }

  function Probes(addr: nat, end: nat): seq<nat>
    requires 0 < end < WORD
  {
    LoopProbes(addr, end) + if ProbesLast(end) then [end - 1] else []
  }

  /** The test asks for the last byte exactly when the range does not end on a page boundary, also when
      the subtraction wraps. */
  lemma LastTest(end: nat)
    requires 0 < end < WORD
    ensures ProbesLast(end) <==> end % PAGE_SIZE != 0
  {
    if end < PAGE_SIZE {
      assert (end + WORD - PAGE_SIZE) % WORD == end + WORD - PAGE_SIZE;
    } else {
      assert (end + WORD - PAGE_SIZE) % WORD == end - PAGE_SIZE;
    }
  }

  /** The loop has a probe less than a page below any address of the range. */
  lemma {:induction false} LoopReaches(addr: nat, end: nat, x: nat)
    requires addr <= x < end
    ensures exists q :: q in LoopProbes(addr, end) && q <= x < q + PAGE_SIZE
    decreases end - addr
  {
    var rest := LoopProbes(addr + PAGE_SIZE, end);
    assert LoopProbes(addr, end) == [addr] + rest;
    if x < addr + PAGE_SIZE {
      assert addr in LoopProbes(addr, end);
    } else {
      LoopReaches(addr + PAGE_SIZE, end, x);
      var q :| q in rest && q <= x < q + PAGE_SIZE;
      assert q in LoopProbes(addr, end);
    }
  }

  lemma {:induction false} LoopSteps(addr: nat, end: nat)
    ensures forall q :: q in LoopProbes(addr, end) && q + PAGE_SIZE < end ==> q + PAGE_SIZE in LoopProbes(addr, end)
    decreases end - addr
  {
    if addr < end {
      LoopSteps(addr + PAGE_SIZE, end);
      assert LoopProbes(addr, end) == [addr] + LoopProbes(addr + PAGE_SIZE, end);
    }
  }

  /** Every page that meets the range holds a probed address, for every start offset and length. */
  lemma ProbesCover(addr: nat, end: nat, x: nat)
    requires addr <= x < end < WORD
    ensures exists q :: q in Probes(addr, end) && q / PAGE_SIZE == x / PAGE_SIZE
  {
    LastTest(end);
    LoopReaches(addr, end, x);
    LoopSteps(addr, end);
    var q :| q in LoopProbes(addr, end) && q <= x < q + PAGE_SIZE;
    if q / PAGE_SIZE == x / PAGE_SIZE {
      assert q in Probes(addr, end);
    } else if q + PAGE_SIZE < end {
      assert q + PAGE_SIZE in Probes(addr, end);
      assert (q + PAGE_SIZE) / PAGE_SIZE == x / PAGE_SIZE;
    } else {
      assert end % PAGE_SIZE != 0;
      assert end - 1 in Probes(addr, end);
      assert (end - 1) / PAGE_SIZE == x / PAGE_SIZE;
    }
  }

  /** No probe leaves the range. */
  lemma {:induction false} ProbesInside(addr: nat, end: nat)
    requires end < WORD
    ensures forall q :: q in LoopProbes(addr, end) ==> addr <= q < end
    decreases end - addr
  {
    if addr < end {
      ProbesInside(addr + PAGE_SIZE, end);
    }
  }

  // ---------------------------------------------------------------- what is allowed

  /** The tests on the arguments alone. */
  predicate Sized(nonNull: bool, user: nat, len: nat) {
    nonNull && len <= MAX_COPY_SIZE && user < USER_SPACE_END && user + len <= USER_SPACE_END
  }

  predicate Allows(f: Flags, write: bool) {
    f.present && f.user && (write ==> f.writable)
  }

  /** What the tables grant to user code, at every level. */
  predicate Grants(p: Page, write: bool) {
    p.top && Allows(p.dir, write) && (p.large || Allows(p.table, write))
  }

  predicate Writable(p: Page) {
    p.dir.writable && (p.large || p.table.writable)
  }

  /** What the page walk decides, at moment t. */
  ghost predicate Walked(m: Mapping, t: nat, user: nat, len: nat, write: bool)
    requires len > 0
  {
    && PAGE_SIZE <= user && user + len <= USER_SPACE_END
    && (forall p :: user / PAGE_SIZE <= p <= (user + len - 1) / PAGE_SIZE ==> Grants(m(t, p), write))
  }

  /** Some page of the range is the kernel's own at one of its levels. */
  ghost predicate MeetsSupervisor(m: Mapping, t: nat, user: nat, len: nat)
    requires len > 0
  {
    exists p :: user / PAGE_SIZE <= p <= (user + len - 1) / PAGE_SIZE
      && (!m(t, p).dir.user || (!m(t, p).large && !m(t, p).table.user))
  }

  /** What a range has that passed the walk: no page of it is the kernel's own. */
  lemma WalkedPages(m: Mapping, t: nat, user: nat, len: nat, write: bool)
    requires len > 0 && Walked(m, t, user, len, write)
    ensures PAGE_SIZE <= user && user + len <= USER_SPACE_END && !MeetsSupervisor(m, t, user, len)
    ensures forall p :: user / PAGE_SIZE <= p <= (user + len - 1) / PAGE_SIZE ==>
      var g := m(t, p);
      && g.top && g.dir.present && g.dir.user && (g.large || (g.table.present && g.table.user))
      && (write ==> g.dir.writable && (g.large || g.table.writable))
  {
  }

  ghost predicate Backed(m: Mapping, t: nat, user: nat, len: nat)
    requires len > 0
  {
    forall p :: user / PAGE_SIZE <= p <= (user + len - 1) / PAGE_SIZE ==> m(t, p).backed
  }

  /** The range is fully accessible at moment t. */
  ghost predicate Accessible(m: Mapping, t: nat, user: nat, len: nat, write: bool)
    requires len > 0
  {
    Walked(m, t, user, len, write) && Backed(m, t, user, len)
  }

  /** The mapping stays as it is from moment t on. */
  ghost predicate FixedFrom(m: Mapping, t: nat) {
    forall u, p :: t <= u ==> m(u, p) == m(t, p)
  }

  /** The probes that found their page, from moment t on. */
  ghost predicate ProbesHit(m: Mapping, t: nat, probes: seq<nat>) {
    forall i :: 0 <= i < |probes| ==> m(t + i, probes[i] / PAGE_SIZE).backed
  }

  /** Under a fixed mapping, probing decides whether the whole range is backed. */
  lemma ProbesDecide(m: Mapping, t: nat, user: nat, len: nat)
    requires FixedFrom(m, t) && len > 0 && user + len < WORD
    ensures ProbesHit(m, t, Probes(user, user + len)) <==> Backed(m, t, user, len)
  {
    hide FixedFrom, Probes;
    var end, probes := user + len, Probes(user, user + len);
    if ProbesHit(m, t, probes) {
      forall p | user / PAGE_SIZE <= p <= (end - 1) / PAGE_SIZE ensures m(t, p).backed {
        HitBacks(m, t, user, end, p);
      }
    }
    if Backed(m, t, user, len) {
      forall i | 0 <= i < |probes| ensures m(t + i, probes[i] / PAGE_SIZE).backed {
        ProbeBetween(user, end, i);
        StaysSo(m, t, t + i, probes[i] / PAGE_SIZE);
      }
    }
  }

  lemma HitBacks(m: Mapping, t: nat, user: nat, end: nat, p: nat)
    requires FixedFrom(m, t) && user < end < WORD && ProbesHit(m, t, Probes(user, end))
    requires user / PAGE_SIZE <= p <= (end - 1) / PAGE_SIZE
    ensures m(t, p).backed
  {
    hide FixedFrom, Probes;
    var probes := Probes(user, end);
    var x := AddressIn(user, end, p);
    ProbesCover(user, end, x);
    var q :| q in probes && q / PAGE_SIZE == x / PAGE_SIZE;
    var i :| 0 <= i < |probes| && probes[i] == q;
    StaysSo(m, t, t + i, p);
  }

  function AddressIn(user: nat, end: nat, p: nat): (x: nat)
    requires user < end && user / PAGE_SIZE <= p <= (end - 1) / PAGE_SIZE
    ensures user <= x < end && x / PAGE_SIZE == p
  {
    if p * PAGE_SIZE < user then user else p * PAGE_SIZE
  }

  lemma StaysSo(m: Mapping, t: nat, u: nat, p: nat)
    requires FixedFrom(m, t) && t <= u
    ensures m(u, p) == m(t, p)
  {
  }

  lemma ProbeBetween(user: nat, end: nat, i: nat)
    requires user < end < WORD && i < |Probes(user, end)|
    ensures user <= Probes(user, end)[i] < end
    ensures user / PAGE_SIZE <= Probes(user, end)[i] / PAGE_SIZE <= (end - 1) / PAGE_SIZE
  {
    hide ProbesLast;
    ProbesInside(user, end);
    var q := Probes(user, end)[i];
    assert i < |LoopProbes(user, end)| ==> q in LoopProbes(user, end);
    PageBetween(user, q, end);
  }

  lemma PageBetween(user: nat, x: nat, end: nat)
    requires user <= x < end
    ensures user / PAGE_SIZE <= x / PAGE_SIZE <= (end - 1) / PAGE_SIZE
  {
  }

  lemma OneMore(m: Mapping, t: nat, seen: seq<nat>, addr: nat)
    ensures ProbesHit(m, t, seen + [addr]) <==> ProbesHit(m, t, seen) && m(t + |seen|, addr / PAGE_SIZE).backed
  {
    var all := seen + [addr];
    if ProbesHit(m, t, all) {
      forall i | 0 <= i < |seen| ensures m(t + i, seen[i] / PAGE_SIZE).backed {
        assert all[i] == seen[i];
      }
      assert all[|seen|] == addr;
    }
  }

  lemma HitPrefix(m: Mapping, t: nat, a: seq<nat>, b: seq<nat>)
    requires ProbesHit(m, t, a + b)
    ensures ProbesHit(m, t, a)
  {
    forall i | 0 <= i < |a| ensures m(t + i, a[i] / PAGE_SIZE).backed {
      assert (a + b)[i] == a[i];
    }
  }

  /** A call left the critical section as it found it. */
  predicate Settled(before: Globals, after: Globals) {
    after == before || Balanced(before, after)
  }

  // ---------------------------------------------------------------- the copies

  class Copier {
    const cpu: Cpu
    const paeActive: bool
    const mapping: Mapping
    const ram: array<bv8>       // user memory by virtual address
    var active: bool
    var errorCode: int
    var accesses: seq<nat>      // the user addresses touched so far, in order

    constructor (cpu: Cpu, paeActive: bool, mapping: Mapping)
      ensures fresh(ram) && ram.Length == USER_SPACE_END && !active && accesses == []
      ensures this.cpu == cpu && this.paeActive == paeActive && this.mapping == mapping
    {
      this.cpu, this.paeActive, this.mapping := cpu, paeActive, mapping;
      ram := new bv8[USER_SPACE_END];
      active, errorCode, accesses := false, 0, [];
    }

    ghost predicate Fixed()
      reads this
    {
      FixedFrom(mapping, |accesses|)
    }

    /** Everything a copy asks for, at this moment. */
    ghost predicate Permitted(nonNull: bool, user: nat, len: nat, write: bool)
      requires len > 0
      reads this
    {
      Sized(nonNull, user, len) && !active && paeActive && Accessible(mapping, |accesses|, user, len, write)
    }

    /** One access by the kernel to user memory; a fault sets the error code and jumps (false). */
    method Touch(addr: nat, write: bool) returns (ok: bool)
      modifies `errorCode, `accesses
      ensures accesses == old(accesses) + [addr]
      ensures ok == var p := mapping(|old(accesses)|, addr / PAGE_SIZE); p.backed && (write ==> Writable(p))
      ensures errorCode == if ok then old(errorCode) else -EFAULT
    {
      var p := mapping(|accesses|, addr / PAGE_SIZE);
      ok := p.backed && (write ==> Writable(p));
      accesses := accesses + [addr];
      if !ok {
        errorCode := -EFAULT;
      }
    }

    /** `pae_user_range_accessible`. */
    method WalkRange(user: nat, len: nat, write: bool) returns (ok: bool)
      requires 0 < len && Consistent(cpu.State()) && cpu.depth < UINT32_MAX
      modifies cpu
      ensures ok == (paeActive && Walked(mapping, |accesses|, user, len, write))
      ensures ok <==>
        && paeActive && PAGE_SIZE <= user && user + len <= USER_SPACE_END
        && forall p :: user / PAGE_SIZE <= p <= (user + len - 1) / PAGE_SIZE ==>
             var g := mapping(|accesses|, p);
             && g.top && g.dir.present && g.dir.user && (g.large || (g.table.present && g.table.user))
             && (write ==> g.dir.writable && (g.large || g.table.writable))
      ensures ok ==> Balanced(old(cpu.State()), cpu.State())
      ensures cpu.State() == old(cpu.State()) || Balanced(old(cpu.State()), cpu.State())
    {
      if !paeActive || user < PAGE_SIZE || user >= USER_SPACE_END || user + len - 1 >= USER_SPACE_END {
        return false;
      }
      EnterExitBalances(cpu.State());
      cpu.CriticalSectionEnter();
      var page, final := user / PAGE_SIZE, (user + len - 1) / PAGE_SIZE;
      ok := true;
      while ok && page <= final
        invariant user / PAGE_SIZE <= page <= final + 1
        invariant ok ==> forall p :: user / PAGE_SIZE <= p < page ==> Grants(mapping(|accesses|, p), write)
        invariant !ok ==> page <= final && !Grants(mapping(|accesses|, page), write)
      {
        var p := mapping(|accesses|, page);
        if !p.top {
          ok := false;
        } else if !Allows(p.dir, write) {
          ok := false;
        } else if !p.large && !Allows(p.table, write) {
          ok := false;
        } else {
          page := page + 1;
        }
      }
      cpu.CriticalSectionExit();
    }

    /** The probe loop; a fault leaves it at once. */
    method ProbeLoop(user: nat, end: nat) returns (ok: bool)
      requires errorCode == 0
      modifies `errorCode, `accesses
      ensures ok == ProbesHit(mapping, |old(accesses)|, LoopProbes(user, end))
      ensures errorCode == if ok then 0 else -EFAULT
      ensures if ok then accesses == old(accesses) + LoopProbes(user, end)
              else old(accesses) <= accesses <= old(accesses) + LoopProbes(user, end)
    {
      hide ProbesHit, LoopProbes;
      ghost var t, seen: seq<nat> := |accesses|, [];
      assert ProbesHit(mapping, t, []) by { NothingMissed(mapping, t); }
      var addr := user;
      while addr < end
        invariant LoopProbes(user, end) == seen + LoopProbes(addr, end)
        invariant accesses == old(accesses) + seen && errorCode == 0 && ProbesHit(mapping, t, seen)
        decreases end - addr
      {
        OneMore(mapping, t, seen, addr);
        LoopUnroll(seen, addr, end);
        ok := Touch(addr, false);
        seen := seen + [addr];
        if !ok {
          if ProbesHit(mapping, t, LoopProbes(user, end)) {
            HitPrefix(mapping, t, seen, LoopProbes(addr + PAGE_SIZE, end));
          }
          return;
        }
        addr := addr + PAGE_SIZE;
      }
      LoopOver(seen, addr, end);
      ok := true;
    }

    /** The probe loop and the probe of the last byte, up to the label behind them. */
    method ProbeRange(user: nat, end: nat)
      requires user < end <= USER_SPACE_END && errorCode == 0
      modifies `errorCode, `accesses
      ensures errorCode == if ProbesHit(mapping, |old(accesses)|, Probes(user, end)) then 0 else -EFAULT
      ensures old(accesses) <= accesses <= old(accesses) + Probes(user, end)
    {
      hide ProbesHit, LoopProbes;
      ghost var t, first := |accesses|, LoopProbes(user, end);
      var ok := ProbeLoop(user, end);
      if !ok {
        if ProbesHit(mapping, t, Probes(user, end)) {
          HitPrefix(mapping, t, first, if ProbesLast(end) then [end - 1] else []);
        }
        return;
      }
      if (end - 1) / PAGE_SIZE != (end + WORD - PAGE_SIZE) % WORD / PAGE_SIZE {
        OneMore(mapping, t, first, end - 1);
        assert ProbesLast(end) && Probes(user, end) == first + [end - 1];
        var last := Touch(end - 1, false);
      } else {
        assert Probes(user, end) == first + [] == first;
      }
    }

    /** What both copies do before they copy: after 0 the caller is inside the critical section with the
        context active; after an error everything is as before. */
    method Prepare(nonNull: bool, user: nat, len: nat, write: bool) returns (ret: int)
      requires 0 < len < WORD && user < WORD && Consistent(cpu.State()) && cpu.depth < UINT32_MAX - 1
      modifies this, cpu
      ensures ret == 0 || ret == -EFAULT || ret == -EINVAL
      ensures ret == -EINVAL <==> nonNull && len > MAX_COPY_SIZE
      ensures ret == 0 ==>
        && Sized(nonNull, user, len) && active && errorCode == 0 && cpu.State() == Entered(old(cpu.State()))
        && Walked(mapping, |old(accesses)|, user, len, write) && paeActive && !old(active)
      ensures ret != 0 ==> active == old(active) && Settled(old(cpu.State()), cpu.State())
      ensures old(Fixed()) ==> (ret == 0 <==> old(Permitted(nonNull, user, len, write)))
      ensures AccessedWithin(old(accesses), accesses, user, user + len)
    {
      hide Walked, Backed, FixedFrom, ProbesHit, Probes;
      if !nonNull {
        return -EFAULT;
      }
      if len > MAX_COPY_SIZE {
        return -EINVAL;
      }
      var end := (user + len) % WORD;
      if end < user {
        return -EFAULT;
      }
      if user >= USER_SPACE_END || end > USER_SPACE_END {
        return -EFAULT;
      }
      assert end == user + len;
      EnterExitBalances(cpu.State());
      cpu.CriticalSectionEnter();
      if active {
        cpu.CriticalSectionExit();
        return -EFAULT;
      }
      var walked := WalkRange(user, len, write);
      if !walked {
        cpu.CriticalSectionExit();
        return -EFAULT;
      }
      active, errorCode := true, 0;
      ProbeRange(user, end);
      ProbesWithin(old(accesses), accesses, user, end);
      if old(Fixed()) {
        ProbesDecide(mapping, |old(accesses)|, user, len);
      }
      if errorCode != 0 {
        ret := errorCode;
        active := false;
        cpu.CriticalSectionExit();
        return;
      }
      ret := 0;
    }

    /** The byte loop of `copy_from_user`, up to the label behind it. */
    method CopyBytesIn(dst: array<bv8>, user: nat, len: nat)
      requires ram.Length == USER_SPACE_END && dst != ram && len <= dst.Length && user + len <= USER_SPACE_END
      requires errorCode == 0
      modifies dst, `errorCode, `accesses
      ensures errorCode == 0 || errorCode == -EFAULT
      ensures errorCode == 0 ==> dst[..len] == ram[user..user + len]
      ensures dst[len..] == old(dst[len..])
      ensures len > 0 && old(Fixed()) && Backed(mapping, |old(accesses)|, user, len) ==> errorCode == 0
      ensures AccessedWithin(old(accesses), accesses, user, user + len)
    {
      hide Backed, FixedFrom;
      var i := 0;
      while i < len
        invariant i <= len && errorCode == 0
        invariant dst[..i] == ram[user..user + i]
        invariant forall j :: len <= j < dst.Length ==> dst[j] == old(dst[j])
        invariant AccessedWithin(old(accesses), accesses, user, user + len)
      {
        if old(Fixed()) && Backed(mapping, |old(accesses)|, user, len) {
          BackedAt(mapping, |old(accesses)|, |accesses|, user, len, user + i);
        }
        var ok := Touch(user + i, false);
        if !ok {
          return;
        }
        dst[i] := ram[user + i];
        assert ram[user..user + i + 1] == ram[user..user + i] + [ram[user + i]];
        assert dst[..i + 1] == dst[..i] + [ram[user + i]];
        i := i + 1;
      }
    }

    /** `copy_from_user`. */
    method CopyFromUser(dst: array?<bv8>, user: nat, len: nat) returns (ret: int)
      requires user < WORD && len < WORD && ram.Length == USER_SPACE_END && dst != ram
      requires dst != null && len <= MAX_COPY_SIZE ==> len <= dst.Length
      requires Consistent(cpu.State()) && cpu.depth < UINT32_MAX - 1
      modifies this, cpu, dst
      ensures active == old(active) && Settled(old(cpu.State()), cpu.State())
      ensures ret == 0 || ret == -EFAULT || ret == -EINVAL
      ensures ret == -EINVAL <==> len > MAX_COPY_SIZE && dst != null && user != 0
      ensures ret == 0 && len > 0 ==>
        dst != null && len <= dst.Length && user + len <= ram.Length && dst[..len] == ram[user..user + len]
      ensures dst != null && len <= dst.Length ==> dst[len..] == old(dst[len..])
      ensures AccessedWithin(old(accesses), accesses, user, user + len)
      ensures old(Fixed()) ==> (ret == 0 <==> len == 0 || old(Permitted(dst != null && user != 0, user, len, false)))
      ensures ret == 0 && len > 0 ==> paeActive && !old(active) && PAGE_SIZE <= user && user + len <= USER_SPACE_END
      ensures ret == 0 && len > 0 ==> forall p :: user / PAGE_SIZE <= p <= (user + len - 1) / PAGE_SIZE ==>
        var g := mapping(|old(accesses)|, p);
        && g.top && g.dir.present && g.dir.user && (g.large || (g.table.present && g.table.user))
      ensures 0 < len <= MAX_COPY_SIZE && MeetsSupervisor(mapping, |old(accesses)|, user, len) ==> ret == -EFAULT
      ensures old(Fixed()) && ret != 0 && dst != null ==> dst[..] == old(dst[..])
    {
      hide Walked, Backed, FixedFrom, MeetsSupervisor;
      if len == 0 {
        return 0;
      }
      EnterExitBalances(cpu.State());
      ret := Prepare(dst != null && user != 0, user, len, false);
      if ret != 0 {
        return;
      }
      WalkedPages(mapping, |old(accesses)|, user, len, false);
      if old(Fixed()) {
        FixedOn(mapping, |old(accesses)|, |accesses|, user, len);
      }
      CopyBytesIn(dst, user, len);
      ret := errorCode;
      active := false;
      cpu.CriticalSectionExit();
    }

    /** The byte loop of `copy_to_user`, up to the label behind it. */
    method CopyBytesOut(user: nat, src: array<bv8>, len: nat)
      requires ram.Length == USER_SPACE_END && src != ram && len <= src.Length && user + len <= USER_SPACE_END
      requires errorCode == 0
      modifies ram, `errorCode, `accesses
      ensures errorCode == 0 || errorCode == -EFAULT
      ensures errorCode == 0 ==> ram[user..user + len] == src[..len]
      ensures ram[..user] == old(ram[..user]) && ram[user + len..] == old(ram[user + len..])
      ensures len > 0 && old(Fixed()) && Accessible(mapping, |old(accesses)|, user, len, true) ==> errorCode == 0
      ensures AccessedWithin(old(accesses), accesses, user, user + len)
    {
      hide Accessible, FixedFrom;
      var i := 0;
      while i < len
        invariant i <= len && errorCode == 0
        invariant ram[user..user + i] == src[..i]
        invariant forall j :: 0 <= j < user || user + len <= j < ram.Length ==> ram[j] == old(ram[j])
        invariant AccessedWithin(old(accesses), accesses, user, user + len)
      {
        if old(Fixed()) && Accessible(mapping, |old(accesses)|, user, len, true) {
          WritableAt(mapping, |old(accesses)|, |accesses|, user, len, user + i);
        }
        var ok := Touch(user + i, true);
        if !ok {
          return;
        }
        ram[user + i] := src[i];
        assert src[..i + 1] == src[..i] + [src[i]];
        assert ram[user..user + i + 1] == ram[user..user + i] + [src[i]];
        i := i + 1;
      }
    }

    /** `copy_to_user`. */
    method CopyToUser(user: nat, src: array?<bv8>, len: nat) returns (ret: int)
      requires user < WORD && len < WORD && ram.Length == USER_SPACE_END && src != ram
      requires src != null && len <= MAX_COPY_SIZE ==> len <= src.Length
      requires Consistent(cpu.State()) && cpu.depth < UINT32_MAX - 1
      modifies this, cpu, ram
      ensures active == old(active) && Settled(old(cpu.State()), cpu.State())
      ensures ret == 0 || ret == -EFAULT || ret == -EINVAL
      ensures ret == -EINVAL <==> len > MAX_COPY_SIZE && src != null && user != 0
      ensures ret == 0 && len > 0 ==>
        src != null && len <= src.Length && user + len <= ram.Length && ram[user..user + len] == src[..len]
      ensures forall j :: 0 <= j < ram.Length && !(user <= j < user + len) ==> ram[j] == old(ram[j])
      ensures AccessedWithin(old(accesses), accesses, user, user + len)
      ensures old(Fixed()) ==> (ret == 0 <==> len == 0 || old(Permitted(src != null && user != 0, user, len, true)))
      ensures ret == 0 && len > 0 ==> paeActive && !old(active) && PAGE_SIZE <= user && user + len <= USER_SPACE_END
      ensures ret == 0 && len > 0 ==> forall p :: user / PAGE_SIZE <= p <= (user + len - 1) / PAGE_SIZE ==>
        var g := mapping(|old(accesses)|, p);
        && g.top && g.dir.present && g.dir.user && (g.large || (g.table.present && g.table.user))
          && g.dir.writable && (g.large || g.table.writable)
      ensures 0 < len <= MAX_COPY_SIZE && MeetsSupervisor(mapping, |old(accesses)|, user, len) ==> ret == -EFAULT
      ensures old(Fixed()) && ret != 0 ==> ram[..] == old(ram[..])
    {
      hide Accessible, FixedFrom, Walked, MeetsSupervisor;
      if len == 0 {
        return 0;
      }
      EnterExitBalances(cpu.State());
      ret := Prepare(src != null && user != 0, user, len, true);
      if ret != 0 {
        return;
      }
      WalkedPages(mapping, |old(accesses)|, user, len, true);
      if old(Fixed()) {
        FixedAccess(mapping, |old(accesses)|, |accesses|, user, len);
      }
      CopyBytesOut(user, src, len);
      OutsideKept(old(ram[..]), ram[..], user, len);
      ret := errorCode;
      active := false;
      cpu.CriticalSectionExit();
    }

    // ---------------------------------------------------------------- strings

    /** One byte through `copy_from_user`, judged by the mapping of an earlier moment t. */
    method FetchByte(c: array<bv8>, addr: nat, ghost t: nat) returns (ret: int)
      requires c.Length == 1 && c != ram && addr < WORD && ram.Length == USER_SPACE_END
      requires Consistent(cpu.State()) && cpu.depth < UINT32_MAX - 1 && t <= |accesses|
      modifies this, cpu, c
      ensures active == old(active) && Settled(old(cpu.State()), cpu.State())
      ensures ret == 0 || ret == -EFAULT
      ensures ret == 0 ==> addr < ram.Length && c[0] == ram[addr]
      ensures FixedFrom(mapping, t) ==> (ret == 0 <==> Readable(mapping, t, paeActive && !active, addr))
      ensures AccessedWithin(old(accesses), accesses, addr, addr + 1)
    {
      hide FixedFrom, Accessible;
      if FixedFrom(mapping, t) {
        FixedAccess(mapping, t, |accesses|, addr, 1);
      }
      NotNull(mapping, t, addr);
      ret := CopyFromUser(c, addr, 1);
      assert ret == 0 ==> c[..1][0] == ram[addr..addr + 1][0];
    }

    /** `copy_string_from_user`; n is where it stops. */
    method CopyStringFromUser(dst: array?<bv8>, user: nat, max: nat) returns (ret: int, ghost n: nat)
      requires user < WORD && max < WORD && ram.Length == USER_SPACE_END && dst != ram
      requires dst != null ==> max <= dst.Length
      requires Consistent(cpu.State()) && cpu.depth < UINT32_MAX - 1
      modifies this, cpu, dst
      ensures active == old(active) && Settled(old(cpu.State()), cpu.State())
      ensures dst == null || user == 0 ==> ret == -EFAULT && accesses == old(accesses)
      ensures dst != null && user != 0 && max == 0 ==> ret == -EINVAL && accesses == old(accesses)
      ensures old(Fixed()) && dst != null && user != 0 && max > 0 ==>
        && StringDone(mapping, |old(accesses)|, paeActive && !active, ram[..], user, max, n, ret, dst[..])
        && AccessedWithin(old(accesses), accesses, user, user + n + 1)
    {
      n := 0;
      if dst == null || user == 0 {
        return -EFAULT, 0;
      }
      if max == 0 {
        return -EINVAL, 0;
      }
      ret, n := CopyString(dst, user, max);
    }

    /** The loop of the string copy. */
    method CopyString(dst: array<bv8>, user: nat, max: nat) returns (ret: int, ghost n: nat)
      requires 0 < user < WORD && 0 < max < WORD && ram.Length == USER_SPACE_END && dst != ram && max <= dst.Length
      requires Consistent(cpu.State()) && cpu.depth < UINT32_MAX - 1
      modifies this, cpu, dst
      ensures active == old(active) && Settled(old(cpu.State()), cpu.State())
      ensures old(Fixed()) ==>
        && StringDone(mapping, |old(accesses)|, paeActive && !active, ram[..], user, max, n, ret, dst[..])
        && AccessedWithin(old(accesses), accesses, user, user + n + 1)
    {
      hide FixedFrom, Readable, RunsTo, Copied, AccessedWithin;
      ghost var t, usable, mem, fixed := |accesses|, paeActive && !active, ram[..], Fixed();
      var c := new bv8[1];
      var i := 0;
      n := 0;
      StringStart(mapping, t, usable, mem, user, accesses);
      assert dst[..0] == [];
      while i < max
        invariant n == i <= max && mem == ram[..] && t <= |accesses|
        invariant active == old(active) && Settled(old(cpu.State()), cpu.State())
        invariant Copied(mem, user, dst[..i]) || !fixed
        invariant fixed ==> RunsTo(mapping, t, usable, mem, user, i)
        invariant fixed ==> AccessedWithin(old(accesses), accesses, user, user + i)
        invariant old(accesses) <= accesses
      {
        SettledKeeps(old(cpu.State()), cpu.State());
        ghost var was, state := accesses, cpu.State();
        ret := FetchByte(c, (user + i) % WORD, t);
        SettledTwice(old(cpu.State()), state, cpu.State());
        if fixed {
          NoWrap(mapping, t, usable, mem, user, i);
          StepWithin(old(accesses), was, accesses, user, i);
        }
        Grown(old(accesses), was, accesses, (user + i) % WORD);
        if ret < 0 {
          return;
        }
        ghost var before := dst[..i];
        dst[i] := c[0];
        assert dst[..i + 1] == before + [c[0]];
        if fixed {
          StringStep(mapping, t, usable, mem, user, before, c[0]);
        }
        if c[0] == 0 {
          return Int32(i), i;
        }
        i := i + 1;
        n := i;
      }
      if fixed {
        NoWrap(mapping, t, usable, mem, user, max);
        Widen(old(accesses), accesses, user, user + max);
      }
      dst[0] := 0;
      ret := -ENAMETOOLONG;
    }
  }

  /** The conversion of a size to a C int. */
  function Int32(n: nat): int
    requires n < WORD
  {
    if n < 0x8000_0000 then n else n - WORD
  }

  /** A byte that a one-byte copy brings in. */
  ghost predicate Readable(m: Mapping, t: nat, usable: bool, addr: nat) {
    usable && addr < USER_SPACE_END && Accessible(m, t, addr, 1, false)
  }

  /** The i bytes from `user` on are readable and none of them is NUL. */
  ghost predicate RunsTo(m: Mapping, t: nat, usable: bool, mem: Bytes, user: nat, i: nat) {
    forall k :: user <= k < user + i ==> Readable(m, t, usable, k) && k < |mem| && mem[k] != 0
  }

  /** The bytes are those of memory from `user` on. */
  ghost predicate Copied(mem: Bytes, user: nat, bytes: Bytes) {
    forall k :: 0 <= k < |bytes| ==> user + k < |mem| && bytes[k] == mem[user + k]
  }

  /** How a string copy ends that stops after n bytes: without room, at an unreadable byte, or at the NUL. */
  ghost predicate StringDone(m: Mapping, t: nat, usable: bool, mem: Bytes, user: nat, max: nat, n: nat, ret: int,
      dst: Bytes)
  {
    && 0 < max <= |dst| && max < WORD && n <= max && RunsTo(m, t, usable, mem, user, n)
    && (n == max ==> ret == -ENAMETOOLONG && dst[0] == 0 && user + max <= |mem|)
    && (n < max && !Readable(m, t, usable, user + n) ==> ret == -EFAULT && Copied(mem, user, dst[..n]))
    && (n < max && Readable(m, t, usable, user + n) ==>
          ret == Int32(n) && Copied(mem, user, dst[..n + 1]) && dst[n] == 0)
  }

  /** A buffer of the kernel's own: below 2^32, and on no page that user code may read. */
  ghost predicate KernelBuffer(m: Mapping, t: nat, at: nat, size: nat) {
    at + size <= WORD && forall k :: at <= k < at + size ==> !Grants(m(t, k / PAGE_SIZE), false)
  }

  /** A string and the buffer that takes it do not overlap, so together they fit into 2^32 bytes and the
      length of the string is representable as a C int. */
  lemma LengthFits(m: Mapping, t: nat, usable: bool, mem: Bytes, user: nat, n: nat, at: nat, max: nat)
    requires RunsTo(m, t, usable, mem, user, n) && Readable(m, t, usable, user + n)
    requires n < max && KernelBuffer(m, t, at, max)
    ensures n < 0x8000_0000 && Int32(n) == n
  {
    hide Grants, Accessible;
    StringGranted(m, t, usable, mem, user, n, at);
    StringGranted(m, t, usable, mem, user, n, user);
    assert !(user <= at <= user + n) && !(at <= user <= at + n);
  }

  lemma StringGranted(m: Mapping, t: nat, usable: bool, mem: Bytes, user: nat, n: nat, k: nat)
    requires RunsTo(m, t, usable, mem, user, n) && Readable(m, t, usable, user + n)
    ensures user <= k <= user + n ==> Grants(m(t, k / PAGE_SIZE), false)
  {
    if user <= k <= user + n {
      assert Readable(m, t, usable, k);
    }
  }

  /** A string that is readable through its end lies on no page of the kernel's own. */
  lemma StringPages(m: Mapping, t: nat, usable: bool, mem: Bytes, user: nat, n: nat)
    requires RunsTo(m, t, usable, mem, user, n) && Readable(m, t, usable, user + n)
    ensures !MeetsSupervisor(m, t, user, n + 1)
  {
    forall p | user / PAGE_SIZE <= p <= (user + n) / PAGE_SIZE
      ensures m(t, p).dir.user && (m(t, p).large || m(t, p).table.user)
    {
      var k := AddressIn(user, user + n + 1, p);
      assert Readable(m, t, usable, k);
      WalkedPages(m, t, k, 1, false);
    }
  }

  /** Where a string copy stops is determined. */
  lemma StopsOnce(m: Mapping, t: nat, usable: bool, mem: Bytes, user: nat, i: nat, j: nat, max: nat)
    requires |mem| == USER_SPACE_END && i <= max && j <= max
    requires RunsTo(m, t, usable, mem, user, i) && RunsTo(m, t, usable, mem, user, j)
    requires i == max || !Readable(m, t, usable, user + i) || mem[user + i] == 0
    requires j == max || !Readable(m, t, usable, user + j) || mem[user + j] == 0
    ensures i == j
  {
    hide Accessible;
  }

  /** The first NUL is i bytes in, and everything through it is readable. */
  ghost predicate Terminates(m: Mapping, t: nat, usable: bool, mem: Bytes, user: nat, i: nat) {
    RunsTo(m, t, usable, mem, user, i) && Readable(m, t, usable, user + i) && user + i < |mem| && mem[user + i] == 0
  }

  /** Into a buffer of the kernel, a string copy succeeds if and only if the first NUL comes within max_len with
      everything through it readable, and then returns its place. Into any buffer it is too long if and only if
      max_len readable bytes are not NUL. */
  lemma StringSucceedsIff(m: Mapping, t: nat, usable: bool, mem: Bytes, user: nat, max: nat, n: nat, ret: int,
      dst: Bytes, at: nat)
    requires |mem| == USER_SPACE_END && StringDone(m, t, usable, mem, user, max, n, ret, dst)
    ensures KernelBuffer(m, t, at, max) ==>
      (ret >= 0 <==> exists i: nat :: i < max && Terminates(m, t, usable, mem, user, i))
    ensures KernelBuffer(m, t, at, max) && ret >= 0 ==>
      Terminates(m, t, usable, mem, user, ret) && !MeetsSupervisor(m, t, user, ret + 1)
    ensures KernelBuffer(m, t, at, max) && ret >= 0 ==> ret < |dst| && dst[..ret + 1] == mem[user..user + ret + 1]
    ensures ret == -ENAMETOOLONG <==> RunsTo(m, t, usable, mem, user, max)
    ensures ret == -ENAMETOOLONG ==> |dst| > 0 && dst[0] == 0
  {
    hide Accessible, KernelBuffer, MeetsSupervisor;
    if n < max && Readable(m, t, usable, user + n) {
      StringPages(m, t, usable, mem, user, n);
      assert dst[..n + 1][n] == mem[user + n];
      assert Terminates(m, t, usable, mem, user, n);
      if KernelBuffer(m, t, at, max) {
        LengthFits(m, t, usable, mem, user, n, at, max);
      }
    }
    if exists i: nat :: i < max && Terminates(m, t, usable, mem, user, i) {
      var i: nat :| i < max && Terminates(m, t, usable, mem, user, i);
      StopsOnce(m, t, usable, mem, user, n, i, max);
    }
  }

  lemma StringStart(m: Mapping, t: nat, usable: bool, mem: Bytes, user: nat, accesses: seq<nat>)
    ensures RunsTo(m, t, usable, mem, user, 0) && Copied(mem, user, [])
    ensures AccessedWithin(accesses, accesses, user, user)
  {
  }

  lemma StringStep(m: Mapping, t: nat, usable: bool, mem: Bytes, user: nat, before: Bytes, c: bv8)
    requires RunsTo(m, t, usable, mem, user, |before|) && Copied(mem, user, before)
    requires Readable(m, t, usable, user + |before|) && user + |before| < |mem| && mem[user + |before|] == c
    ensures Copied(mem, user, before + [c])
    ensures c != 0 ==> RunsTo(m, t, usable, mem, user, |before| + 1)
  {
    hide Readable;
  }

  lemma NoWrap(m: Mapping, t: nat, usable: bool, mem: Bytes, user: nat, i: nat)
    requires RunsTo(m, t, usable, mem, user, i) && user < WORD && |mem| == USER_SPACE_END
    ensures (user + i) % WORD == user + i && (i > 0 ==> user + i <= USER_SPACE_END)
  {
    if i > 0 {
      assert Readable(m, t, usable, user + i - 1);
    }
  }

  lemma NotNull(m: Mapping, t: nat, addr: nat)
    ensures Accessible(m, t, addr, 1, false) ==> addr != 0
  {
  }

  lemma Widen(first: seq<nat>, after: seq<nat>, low: nat, high: nat)
    requires AccessedWithin(first, after, low, high)
    ensures AccessedWithin(first, after, low, high + 1)
  {
  }

  lemma StepWithin(first: seq<nat>, before: seq<nat>, after: seq<nat>, user: nat, i: nat)
    requires AccessedWithin(first, before, user, user + i)
    ensures AccessedWithin(before, after, user + i, user + i + 1) ==> AccessedWithin(first, after, user, user + i + 1)
  {
  }

  lemma Grown(first: seq<nat>, before: seq<nat>, after: seq<nat>, addr: nat)
    requires first <= before && AccessedWithin(before, after, addr, addr + 1)
    ensures first <= after && |before| <= |after|
  {
  }

  lemma SettledKeeps(before: Globals, after: Globals)
    requires Settled(before, after) && Consistent(before)
    ensures Consistent(after) && after.depth == before.depth
  {
  }

  lemma SettledTwice(before: Globals, mid: Globals, after: Globals)
    requires Settled(before, mid) && Settled(mid, after)
    ensures Settled(before, after)
  {
  }

  lemma WritableAt(m: Mapping, t: nat, u: nat, user: nat, len: nat, x: nat)
    requires FixedFrom(m, t) && t <= u && len > 0 && Accessible(m, t, user, len, true) && user <= x < user + len
    ensures m(u, x / PAGE_SIZE).backed && Writable(m(u, x / PAGE_SIZE))
  {
    StaysSo(m, t, u, x / PAGE_SIZE);
    PageBetween(user, x, user + len);
    assert Grants(m(t, x / PAGE_SIZE), true);
  }

  lemma FixedAccess(m: Mapping, t: nat, u: nat, user: nat, len: nat)
    requires FixedFrom(m, t) && t <= u && len > 0
    ensures FixedFrom(m, u) && forall w :: Accessible(m, u, user, len, w) <==> Accessible(m, t, user, len, w)
  {
    FixedOn(m, t, u, user, len);
    forall p: nat ensures m(u, p) == m(t, p) {
      StaysSo(m, t, u, p);
    }
  }

  lemma OutsideKept(before: Bytes, after: Bytes, user: nat, len: nat)
    requires |before| == |after| && user + len <= |before|
    requires before[..user] == after[..user] && before[user + len..] == after[user + len..]
    ensures forall j :: 0 <= j < |before| && !(user <= j < user + len) ==> after[j] == before[j]
  {
    forall j | 0 <= j < |before| && !(user <= j < user + len) ensures after[j] == before[j] {
      if j < user {
        assert after[j] == after[..user][j];
      } else {
        assert after[j] == after[user + len..][j - user - len];
      }
    }
  }

  /** All accesses made in between lie in the given range. */
  ghost predicate AccessedWithin(before: seq<nat>, after: seq<nat>, low: nat, high: nat) {
    before <= after && forall i :: |before| <= i < |after| ==> low <= after[i] < high
  }

  lemma ProbesWithin(before: seq<nat>, after: seq<nat>, user: nat, end: nat)
    requires user < end < WORD && before <= after <= before + Probes(user, end)
    ensures AccessedWithin(before, after, user, end)
  {
    hide Probes;
    forall i | |before| <= i < |after| ensures user <= after[i] < end {
      assert after[i] == Probes(user, end)[i - |before|];
      ProbeBetween(user, end, i - |before|);
    }
  }

  lemma BackedAt(m: Mapping, t: nat, u: nat, user: nat, len: nat, x: nat)
    requires FixedFrom(m, t) && t <= u && len > 0 && Backed(m, t, user, len) && user <= x < user + len
    ensures m(u, x / PAGE_SIZE).backed
  {
    StaysSo(m, t, u, x / PAGE_SIZE);
    PageBetween(user, x, user + len);
  }

  lemma FixedOn(m: Mapping, t: nat, u: nat, user: nat, len: nat)
    requires FixedFrom(m, t) && t <= u && len > 0
    ensures FixedFrom(m, u) && (Backed(m, u, user, len) <==> Backed(m, t, user, len))
  {
    forall v, p | u <= v ensures m(v, p) == m(u, p) {
      StaysSo(m, t, v, p);
      StaysSo(m, t, u, p);
    }
    forall p: nat ensures m(u, p) == m(t, p) {
      StaysSo(m, t, u, p);
    }
  }

  lemma LoopUnroll(seen: seq<nat>, addr: nat, end: nat)
    requires addr < end
    ensures seen + LoopProbes(addr, end) == (seen + [addr]) + LoopProbes(addr + PAGE_SIZE, end)
  {
    assert LoopProbes(addr, end) == [addr] + LoopProbes(addr + PAGE_SIZE, end);
  }

  lemma LoopOver(seen: seq<nat>, addr: nat, end: nat)
    requires addr >= end
    ensures seen + LoopProbes(addr, end) == seen
  {
  }

  lemma NothingMissed(m: Mapping, t: nat)
    ensures ProbesHit(m, t, [])
  {
  }
}
