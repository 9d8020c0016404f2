/** The coordinator's check-and-set admission of session epochs, in memory and in the shared database. */
module Admission {
  import opened Wrappers
  import opened Framing

  const I64_MAX := 0x7fff_ffff_ffff_ffff

  /** A host id, as the text it is written as. */
  type Host = string

  predicate Above(mark: Option<U64Value>, epoch: U64Value) {
    mark.None? || epoch > mark.value
  }

  /** Admit exactly what exceeds the mark. */
  predicate Exceeds(marks: map<Host, U64Value>, host: Host, epoch: U64Value) {
    Above(if host in marks then Some(marks[host]) else None, epoch)
  }

  /** `EpochRegistry`: in memory, lost on restart. */
  class EpochRegistry {
    var marks: map<Host, U64Value>

    constructor ()
      ensures marks == map[]
    {
      marks := map[];
    }

    method Admit(host: Host, epoch: U64Value) returns (ok: bool)
      modifies this
      ensures ok <==> Exceeds(old(marks), host, epoch)
      ensures marks == if ok then old(marks)[host := epoch] else old(marks)
    {
      if host in marks && epoch <= marks[host] {
        return false;
      }
      marks := marks[host := epoch];
      ok := true;
    }
  }

  datatype StoreError = OutOfRange | Unreachable

  /** Whether the database is lost, and if so before or after it carried the statement out. */
  datatype Fault = NoFault | Before | After

  /** What the statement answers, and what it leaves in the table. */
  function Verdict(rows: map<Host, U64Value>, host: Host, epoch: U64Value, fault: Fault): Result<bool, StoreError> {
    if epoch > I64_MAX then Err(OutOfRange) else if fault != NoFault then Err(Unreachable)
    else Ok(Exceeds(rows, host, epoch))
  }

  function Marked(rows: map<Host, U64Value>, host: Host, epoch: U64Value, fault: Fault): map<Host, U64Value> {
    if epoch <= I64_MAX && fault != Before && Exceeds(rows, host, epoch) then rows[host := epoch] else rows
  }

  /** `PgEpochs`: one conditional UPSERT on a row shared by all replicas. */
  class PgEpochs {
    var rows: map<Host, U64Value>

    constructor ()
      ensures rows == map[]
    {
      rows := map[];
    }

    /** A statement that fails may have been carried out or not. */
    method Admit(host: Host, epoch: U64Value, fault: Fault) returns (r: Result<bool, StoreError>)
      modifies this
      ensures rows == Marked(old(rows), host, epoch, fault) && r == Verdict(old(rows), host, epoch, fault)
    {
      if epoch > I64_MAX {
        return Err(OutOfRange);
      }
      if fault == Before {
        return Err(Unreachable);
      }
      var affected := 0;
      if host !in rows {
        rows := rows[host := epoch];
        affected := 1;
      } else if epoch > rows[host] {
        rows := rows[host := epoch];
        affected := 1;
      }
      if fault == After {
        return Err(Unreachable);
      }
      r := Ok(affected == 1);
    }
  }

  /** The in-memory registry forgets on restart, so an admitted hello is admitted again. */
  method RestartForgets(host: Host, epoch: U64Value) returns (first: bool, replay: bool, afterRestart: bool)
    ensures first && !replay && afterRestart
  {
    var registry := new EpochRegistry();
    first := registry.Admit(host, epoch);
    replay := registry.Admit(host, epoch);
    registry := new EpochRegistry();
    afterRestart := registry.Admit(host, epoch);
  }
}
