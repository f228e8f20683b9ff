/** The core-local interruptor: the machine timer and the software-interrupt doorbell. */
module Clint {
  import opened Words

  type u64 = x: int | 0 <= x < 0x1_0000_0000_0000_0000

  const MAX_NR_HARTS: nat := 64
  const UNARMED: u64 := 0xffff_ffff_ffff_ffff
  const REG_MSIP: nat := 0x0000
  const REG_MTIMECMP: nat := 0x4000
  const REG_MTIME: nat := 0xbff8

  datatype Registers = Registers(mtime: u64, mtimecmp: seq<u64>, msip: seq<u32>, nrHarts: nat) {
    predicate Valid() {
      |mtimecmp| == MAX_NR_HARTS && |msip| == MAX_NR_HARTS && nrHarts <= MAX_NR_HARTS
    }
  }

  // ----- halves of a 64-bit register -----

  function Lo(v: u64): u32 { v % TWO32 }
  function Hi(v: u64): u32 { v / TWO32 }

  // A 32-bit store keeps the other half; the value is shifted in 64 bits, which drops its own upper half.
  function WithLo(current: u64, v: u64): u64 { current - Lo(current) + Lo(v) }
  function WithHi(current: u64, v: u64): u64 { Lo(current) + Lo(v) * TWO32 }

  lemma HalvesOf(current: u64, v: u64)
    ensures Lo(WithLo(current, v)) == Lo(v) && Hi(WithLo(current, v)) == Hi(current)
    ensures Lo(WithHi(current, v)) == Lo(current) && Hi(WithHi(current, v)) == Lo(v)
  {
    ModUnique(WithLo(current, v), TWO32, Hi(current), Lo(v));
    ModUnique(WithHi(current, v), TWO32, Lo(v), Lo(current));
  }

  // ----- registers -----

  function Write(c: Registers, offset: u32, accessSize: nat, value: u64): (r: Registers)
    requires c.Valid()
    ensures r.Valid()
  {
    if offset < REG_MSIP + 4 * MAX_NR_HARTS then
      var id := offset / 4;
      if id < c.nrHarts then c.(msip := c.msip[id := value % 2]) else c
    else if REG_MTIMECMP <= offset < REG_MTIMECMP + 8 * MAX_NR_HARTS then
      var id := (offset - REG_MTIMECMP) / 8;
      if id >= c.nrHarts then c
      else if accessSize == 8 then c.(mtimecmp := c.mtimecmp[id := value])
      else if offset / 4 % 2 == 1 then c.(mtimecmp := c.mtimecmp[id := WithHi(c.mtimecmp[id], value)])
      else c.(mtimecmp := c.mtimecmp[id := WithLo(c.mtimecmp[id], value)])
    else if offset == REG_MTIME then c.(mtime := if accessSize == 8 then value else WithLo(c.mtime, value))
    else if offset == REG_MTIME + 4 then c.(mtime := WithHi(c.mtime, value))
    else c
  }

  function Read(c: Registers, offset: u32, accessSize: nat): u64
    requires c.Valid()
  {
    if offset < REG_MSIP + 4 * MAX_NR_HARTS then
      var id := offset / 4;
      if id < c.nrHarts then c.msip[id] else 0
    else if REG_MTIMECMP <= offset < REG_MTIMECMP + 8 * MAX_NR_HARTS then
      var id := (offset - REG_MTIMECMP) / 8;
      var cmp := if id < c.nrHarts then c.mtimecmp[id] else 0;
      if accessSize == 8 then cmp else if offset / 4 % 2 == 1 then Hi(cmp) else Lo(cmp)
    else if offset == REG_MTIME then if accessSize == 8 then c.mtime else Lo(c.mtime)
    else if offset == REG_MTIME + 4 then Hi(c.mtime)
    else 0
  }

  /** Two word stores, in either order, make the same deadline as one doubleword store, and word loads read it back. */
  lemma HalvesMakeTheWhole(c: Registers, id: nat, next: u64)
    requires c.Valid() && id < c.nrHarts
    ensures var lo, hi := REG_MTIMECMP + 8 * id, REG_MTIMECMP + 8 * id + 4;
      var whole := Write(c, lo, 8, next);
      && Write(Write(c, hi, 4, Hi(next)), lo, 4, Lo(next)) == whole
      && Write(Write(c, lo, 4, Lo(next)), hi, 4, Hi(next)) == whole
      && Read(whole, hi, 4) == Hi(next) && Read(whole, lo, 4) == Lo(next) && Read(whole, lo, 8) == next
  {
    hide WithLo, WithHi, Lo, Hi;
    var lo: u32, hi: u32 := REG_MTIMECMP + 8 * id, REG_MTIMECMP + 8 * id + 4;
    CompareAddress(id);
    HalvesJoin(c.mtimecmp[id], next);
    var whole := c.mtimecmp[id := next];
    assert c.mtimecmp[id := WithHi(c.mtimecmp[id], Hi(next))][id := next] == whole;
    assert c.mtimecmp[id := WithLo(c.mtimecmp[id], Lo(next))][id := next] == whole;
  }

  lemma CompareAddress(id: nat)
    requires id < MAX_NR_HARTS
    ensures var lo, hi := REG_MTIMECMP + 8 * id, REG_MTIMECMP + 8 * id + 4;
      (lo - REG_MTIMECMP) / 8 == id && (hi - REG_MTIMECMP) / 8 == id && lo / 4 % 2 == 0 && hi / 4 % 2 == 1
  {
  }

  lemma HalvesJoin(current: u64, next: u64)
    ensures WithLo(WithHi(current, Hi(next)), Lo(next)) == next
    ensures WithHi(WithLo(current, Lo(next)), Hi(next)) == next
  {
    HalvesOf(current, Hi(next));
    HalvesOf(current, Lo(next));
    SmallHalves(next);
    hide Lo, Hi;
  }

  lemma SmallHalves(v: u64)
    ensures Lo(Hi(v)) == Hi(v) && Lo(Lo(v)) == Lo(v) && v == Hi(v) * TWO32 + Lo(v)
  {
  }

  /** A doorbell holds bit 0 of the last word written to it, and the clock reads as itself and as its two halves. */
  lemma RegistersReadBack(c: Registers, id: nat, size: nat, v: u64)
    requires c.Valid() && id < c.nrHarts
    ensures var rung := Write(c, 4 * id, size, v); rung == c.(msip := c.msip[id := v % 2]) && Read(rung, 4 * id, size) == v % 2
    ensures Read(c, 0x4000 + 8 * id, 8) == c.mtimecmp[id] && Read(Write(c, 0x4000 + 8 * id, 8, v), 0x4000 + 8 * id, 8) == v
    ensures Read(c, 0xbff8, 8) == c.mtime && Read(c, 0xbffc, 4) * 0x1_0000_0000 + Read(c, 0xbff8, 4) == c.mtime
    ensures Write(c, 0xbff8, 8, v) == c.(mtime := v)
    ensures var low, high := Write(c, 0xbff8, 4, v % 0x1_0000_0000), Write(c, 0xbffc, 4, v / 0x1_0000_0000);
      && low.mtime == c.mtime / 0x1_0000_0000 * 0x1_0000_0000 + v % 0x1_0000_0000
      && high.mtime == v / 0x1_0000_0000 * 0x1_0000_0000 + c.mtime % 0x1_0000_0000
  {
    CompareAddress(id);
  }

  // ----- the clock -----

  function Tick(c: Registers, ticks: u64): Registers {
    c.(mtime := (c.mtime + ticks) % TWO64)
  }

  // The least deadline of the first `n` harts.
  function Earliest(cmps: seq<u64>, n: nat): u64
    requires n <= |cmps|
  {
    if n == 0 then UNARMED
    else if cmps[n - 1] < Earliest(cmps, n - 1) then cmps[n - 1] else Earliest(cmps, n - 1)
  }

  lemma {:induction false} EarliestIsLeast(cmps: seq<u64>, n: nat)
    requires n <= |cmps|
    ensures forall i :: 0 <= i < n ==> Earliest(cmps, n) <= cmps[i]
    ensures Earliest(cmps, n) == UNARMED || exists i :: 0 <= i < n && cmps[i] == Earliest(cmps, n)
  {
    if n > 0 {
      EarliestIsLeast(cmps, n - 1);
    }
  }

  function Skip(c: Registers): (Registers, bool)
    requires c.Valid()
  {
    var earliest := Earliest(c.mtimecmp, c.nrHarts);
    if earliest == UNARMED then (c, false)
    else (if earliest > c.mtime then c.(mtime := earliest) else c, true)
  }

  predicate TimerDue(c: Registers, id: nat)
    requires c.Valid() && id < MAX_NR_HARTS
  {
    c.mtime >= c.mtimecmp[id]
  }

  /**
   Skipping fails exactly when no timer is armed. Otherwise some timer is due afterwards, time has not gone
   back, and no deadline still ahead has been jumped over.
   */
  lemma SkipStopsAtADeadline(c: Registers)
    requires c.Valid()
    ensures var (c', skipped) := Skip(c);
      && (!skipped <==> forall i :: 0 <= i < c.nrHarts ==> c.mtimecmp[i] == UNARMED)
      && (!skipped ==> c' == c)
      && (skipped ==> exists i :: 0 <= i < c.nrHarts && TimerDue(c', i))
      && c'.mtime >= c.mtime
      && forall i :: 0 <= i < c.nrHarts && c.mtime <= c.mtimecmp[i] ==> c'.mtime <= c.mtimecmp[i]
  {
    EarliestIsLeast(c.mtimecmp, c.nrHarts);
    if Skip(c).1 {
      var i :| 0 <= i < c.nrHarts && c.mtimecmp[i] == Earliest(c.mtimecmp, c.nrHarts);
      assert TimerDue(Skip(c).0, i);
    }
  }

  // ----- the device -----

  class ClintDevice {
    var mtime: u64
    const mtimecmp: array<u64>
    const msip: array<u32>
    const nrHarts: nat

    ghost predicate Valid()
      reads this
    {
      mtimecmp.Length == MAX_NR_HARTS && msip.Length == MAX_NR_HARTS && nrHarts <= MAX_NR_HARTS
    }

    ghost function View(): (c: Registers)
      requires Valid()
      reads this, mtimecmp, msip
      ensures c.Valid()
    {
      Registers(mtime, mtimecmp[..], msip[..], nrHarts)
    }

    // Every comparator starts at the value no clock reaches.
    constructor (harts: nat)
      requires harts <= MAX_NR_HARTS
      ensures Valid() && fresh(mtimecmp) && fresh(msip)
      ensures View() == Registers(0, seq(MAX_NR_HARTS, _ => UNARMED), seq(MAX_NR_HARTS, _ => 0), harts)
    {
      mtime := 0;
      mtimecmp := new u64[MAX_NR_HARTS](_ => UNARMED);
      msip := new u32[MAX_NR_HARTS](_ => 0);
      nrHarts := harts;
      new;
      assert mtimecmp[..] == seq(MAX_NR_HARTS, _ => UNARMED);
      assert msip[..] == seq(MAX_NR_HARTS, _ => 0);
    }

    method AdvanceTime(ticks: u64)
      requires Valid()
      modifies this
      ensures View() == Tick(old(View()), ticks)
    {
      mtime := (mtime + ticks) % TWO64;
    }

    method SkipToNextDeadline() returns (skipped: bool)
      requires Valid()
      modifies this
      ensures (View(), skipped) == Skip(old(View()))
    {
      var earliest := UNARMED;
      for i := 0 to nrHarts
        invariant earliest == Earliest(mtimecmp[..], i)
      {
        if mtimecmp[i] < earliest {
          earliest := mtimecmp[i];
        }
      }
      if earliest == UNARMED {
        return false;
      }
      if earliest > mtime {
        mtime := earliest;
      }
      return true;
    }

    method RefreshPending(hartId: nat) returns (mti: bool, msi: bool)
      requires Valid() && hartId < MAX_NR_HARTS
      ensures mti == TimerDue(View(), hartId) && (msi <==> View().msip[hartId] != 0)
    {
      mti := mtime >= mtimecmp[hartId];
      msi := msip[hartId] != 0;
    }

    method MmioRead(offset: u32, accessSize: nat) returns (value: u64)
      requires Valid()
      ensures value == Read(View(), offset, accessSize)
    {
      value := 0;
      if offset < REG_MSIP + 4 * MAX_NR_HARTS {
        var id := offset / 4;
        value := if id < nrHarts then msip[id] else 0;
      } else if REG_MTIMECMP <= offset < REG_MTIMECMP + 8 * MAX_NR_HARTS {
        var id := (offset - REG_MTIMECMP) / 8;
        var cmp := if id < nrHarts then mtimecmp[id] else 0;
        value := if accessSize == 8 then cmp else if offset / 4 % 2 == 1 then Hi(cmp) else Lo(cmp);
      } else if offset == REG_MTIME {
        value := if accessSize == 8 then mtime else Lo(mtime);
      } else if offset == REG_MTIME + 4 {
        value := Hi(mtime);
      }
    }

    method MmioWrite(offset: u32, accessSize: nat, value: u64)
      requires Valid()
      modifies this, mtimecmp, msip
      ensures View() == Write(old(View()), offset, accessSize, value)
    {
      hide WithLo, WithHi;
      if offset < REG_MSIP + 4 * MAX_NR_HARTS {
        var id := offset / 4;
        if id < nrHarts {
          msip[id] := value % 2;
        }
      } else if REG_MTIMECMP <= offset < REG_MTIMECMP + 8 * MAX_NR_HARTS {
        var id := (offset - REG_MTIMECMP) / 8;
        if id < nrHarts {
          if accessSize == 8 {
            mtimecmp[id] := value;
          } else if offset / 4 % 2 == 1 {
            mtimecmp[id] := WithHi(mtimecmp[id], value);
          } else {
            mtimecmp[id] := WithLo(mtimecmp[id], value);
          }
        }
      } else if offset == REG_MTIME {
        mtime := if accessSize == 8 then value else WithLo(mtime, value);
      } else if offset == REG_MTIME + 4 {
        mtime := WithHi(mtime, value);
      }
    }
  }
}
