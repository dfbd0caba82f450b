/** The mutable guest state and guest memory that translated code works on
    (src/runtime/state.rs, src/runtime/memory.rs). */
module Runtime {
  import opened Words
  import Ir
  import opened Arm

  class GuestState {
    const gpr: array<u64>
    var sp: u64
    var nzcv: u32
    var pad: u32
    var pc: u64

    ghost predicate Valid() {
      gpr.Length == 31
    }

    function Value(): (g: Regs)
      requires Valid()
      reads this, gpr
    {
      RegFile(gpr[..], sp, nzcv, pad, pc)
    }

    constructor ()
      ensures Valid() && fresh(gpr)
      ensures Value() == RegFile(seq(31, _ => 0), 0, 0, 0, 0)
    {
      gpr := new u64[31](_ => 0);
      sp, nzcv, pad, pc := 0, 0, 0, 0;
    }

    /** X31 reads as zero. */
    method ReadX(reg: u8) returns (v: u64)
      requires Valid() && reg <= 31
      ensures v == Read(Value(), Ir.XReg(reg))
    {
      v := if reg < 31 then gpr[reg] else 0;
    }

    /** Writes to X31 and beyond are dropped. */
    method WriteX(reg: u8, v: u64)
      requires Valid()
      modifies gpr
      ensures Value() == if reg <= 31 then Write(old(Value()), Ir.XReg(reg), v) else old(Value())
    {
      if reg < 31 {
        gpr[reg] := v;
      }
    }

    /** Whatever the native code left in the struct. */
    method Assign(g: Regs)
      requires Valid()
      modifies this, gpr
      ensures Value() == g
    {
      forall n | 0 <= n < 31 { gpr[n] := g.gpr[n]; }
      sp, nzcv, pad, pc := g.sp, g.nzcv, g.pad, g.pc;
      assert gpr[..] == g.gpr;
    }
  }

  /** The mapped guest bytes; how the host maps them is not part of this model. */
  class GuestMemory {
    var contents: Memory

    constructor (contents: Memory)
      ensures this.contents == contents
    {
      this.contents := contents;
    }
  }
}
