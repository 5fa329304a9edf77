/** Reference counts that keep the DDR powered, one for each bus master (drivers/rda/pm_ddr.c). */
module PmDdr {
  const MASTERS: nat := 27
  const IFC0: nat := 2
  const CAMERA: nat := 24

  /** Counts, and the bit map of masters that hold the DDR as the set of its one bits. */
  datatype Ddr = Ddr(refs: seq<nat>, bits: set<int>)

  /** A master's bit is set exactly while its count is positive. */
  ghost predicate DdrOk(d: Ddr) {
    && |d.refs| == MASTERS
    && (forall m :: m in d.bits ==> 0 <= m < MASTERS)
    && (forall m :: 0 <= m < MASTERS ==> (m in d.bits <==> d.refs[m] > 0))
  }

  function Got(d: Ddr, m: nat): Ddr
    requires m < |d.refs|
  {
    Ddr(d.refs[m := d.refs[m] + 1], if d.refs[m] == 0 then d.bits + {m} else d.bits)
  }

  function Given(d: Ddr, m: nat): Ddr
    requires m < |d.refs|
  {
    if d.refs[m] == 0 then d
    else Ddr(d.refs[m := d.refs[m] - 1], if d.refs[m] == 1 then d.bits - {m} else d.bits)
  }

  lemma GetAndPutKeepOk(d: Ddr, m: nat)
    requires DdrOk(d) && m < MASTERS
    ensures DdrOk(Got(d, m)) && DdrOk(Given(d, m))
    ensures Given(Got(d, m), m) == d
  {
    assert d.refs[m := d.refs[m] + 1][m := d.refs[m]] == d.refs;
    if d.refs[m] == 0 {
      assert d.bits + {m} - {m} == d.bits;
    }
  }

  lemma {:induction false} SumIsZero(refs: seq<nat>)
    ensures Sum(refs) == 0 <==> forall m :: 0 <= m < |refs| ==> refs[m] == 0
  {
    if refs == [] {
    } else {
      SumIsZero(refs[..|refs| - 1]);
    }
  }

  function Sum(refs: seq<nat>): nat {
    if refs == [] then 0 else Sum(refs[..|refs| - 1]) + refs[|refs| - 1]
  }

  /** The DDR may idle exactly when nobody holds a reference. */
  lemma IdleMeansUnheld(d: Ddr)
    requires DdrOk(d)
    ensures d.bits == {} <==> Sum(d.refs) == 0
  {
    SumIsZero(d.refs);
    if Sum(d.refs) == 0 {
      assert forall m :: m !in d.bits;
    } else {
      var m :| 0 <= m < |d.refs| && d.refs[m] != 0;
      assert m in d.bits;
    }
  }

  class DdrManager {
    var refs: seq<nat>
    var bits: set<int>

    ghost function View(): Ddr
      reads this
    {
      Ddr(refs, bits)
    }

    constructor ()
      ensures DdrOk(View()) && forall m :: 0 <= m < MASTERS ==> refs[m] == 0
    {
      refs := seq(MASTERS, _ => 0);
      bits := {};
    }

    /** `pm_ddr_get`. */
    method Get(master: int) returns (ret: int)
      requires DdrOk(View())
      modifies this
      ensures DdrOk(View())
      ensures if 0 <= master < MASTERS then ret == 0 && View() == Got(old(View()), master)
              else ret == -1 && View() == old(View())
    {
      if !(0 <= master < MASTERS) {
        return -1;
      }
      GetAndPutKeepOk(View(), master);
      if refs[master] == 0 {
        bits := bits + {master};
      }
      refs := refs[master := refs[master] + 1];
      return 0;
    }

    /** `pm_ddr_put`; 0 only when the last reference went away. */
    method Put(master: int) returns (ret: int)
      requires DdrOk(View())
      modifies this
      ensures DdrOk(View())
      ensures if 0 <= master < MASTERS then View() == Given(old(View()), master) else View() == old(View())
      ensures ret == 0 <==> 0 <= master < MASTERS && old(refs)[master] == 1
    {
      if !(0 <= master < MASTERS) {
        return -1;
      }
      GetAndPutKeepOk(View(), master);
      if refs[master] == 0 {
        return -1;
      }
      refs := refs[master := refs[master] - 1];
      if refs[master] > 0 {
        return -1;
      }
      bits := bits - {master};
      return 0;
    }

    /** `pm_ddr_idle_status`. */
    method IdleStatus() returns (idle: bool)
      requires DdrOk(View())
      ensures idle <==> Sum(refs) == 0
    {
      IdleMeansUnheld(View());
      idle := bits == {};
    }
  }
}
