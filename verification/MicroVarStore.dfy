/** The table of variable slots that all executors share. */
module MicroVarStore {
  import opened Bytes
  import opened MicroOps

  class VarStore {
    const vars: array<int64>

    constructor (slots: nat)
      ensures fresh(vars) && vars.Length == slots
      ensures vars[..] == seq(slots, _ => 0)
    {
      vars := new int64[slots](_ => 0);
    }

    /** Reading past the table gives 0. */
    method Read(index: nat) returns (value: int64)
      ensures value == Get(vars[..], index)
    {
      if index >= vars.Length {
        return 0;
      }
      value := vars[index];
    }

    /** Writing past the table changes nothing. */
    method Set(index: nat, value: int64)
      modifies vars
      ensures vars[..] == Put(old(vars[..]), Write(index, value))
    {
      if index >= vars.Length {
        return;
      }
      vars[index] := value;
    }

    method ClearAll()
      modifies vars
      ensures forall i :: 0 <= i < vars.Length ==> vars[i] == 0
    {
      for i := 0 to vars.Length
        invariant forall j :: 0 <= j < i ==> vars[j] == 0
      {
        vars[i] := 0;
      }
    }
  }
}
