/** The guard in front of every command that touches a VM (agent/src/cs_guard.py). */
module SimGuard {
  import opened Options

  const SIM_VMIN := 90000
  const DEFAULT_PROTECTED: set<int> := {1001}

  datatype GuardError = NotANumber | Protected | OutsideRange

  datatype Checked = Ok(vm: int) | Err(error: GuardError)

  /** A VM id as the hub sent it; `None` when it does not read as a whole number. */
  type RawVmid = Option<int>

  /** The protected ids of a host: the configured list when there is one and all of it reads as numbers. */
  function ResolveProtected(configured: Option<seq<RawVmid>>): set<int> {
    if configured.None? || exists v :: v in configured.value && v.None? then DEFAULT_PROTECTED
    else set v | v in configured.value :: v.value
  }

  function AssertSimVm(raw: RawVmid, protected: set<int>): Checked {
    if raw.None? then Err(NotANumber)
    else if raw.value in protected then Err(Protected)
    else if raw.value < SIM_VMIN then Err(OutsideRange)
    else Ok(raw.value)
  }

  predicate IsSimVm(raw: RawVmid, protected: set<int>) {
    AssertSimVm(raw, protected).Ok?
  }

  /** The operator's list is there and reads as numbers. */
  predicate Readable(configured: Option<seq<RawVmid>>) {
    configured.Some? && forall v | v in configured.value :: v.Some?
  }

  /** With the ids a host resolves, a VM passes exactly when it is a number from the floor on that a readable list
      does not name: without a readable list nothing above the floor is protected, and the hub's own container
      is refused as protected rather than as out of range. */
  lemma GuardedIff(raw: RawVmid, configured: Option<seq<RawVmid>>)
    ensures IsSimVm(raw, ResolveProtected(configured)) <==>
            raw.Some? && raw.value >= 90000 && !(Readable(configured) && raw in configured.value)
    ensures !Readable(configured) ==> AssertSimVm(Some(1001), ResolveProtected(configured)) == Err(Protected)
  {
    if Readable(configured) && raw.Some? {
      assert raw.value in ResolveProtected(configured) <==> raw in configured.value by {
        if raw.value in ResolveProtected(configured) {
          var v :| v in configured.value && v.value == raw.value;
          assert v == raw;
        }
      }
    }
  }
}
