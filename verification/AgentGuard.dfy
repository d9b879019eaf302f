/** The guard against a model that repeats itself. */
module AgentGuard {
  import opened AgentTrace

  const DOOM_SAME_TOOL: nat := 4

  /** The repeat guard's counter after `n` rounds: `same + 1` is the length of the run of equal
      signatures at the end. */
  ghost predicate GuardState(sigs: seq<string>, last: string, same: nat) {
    && (forall i :: !FiveInARow(sigs, i))
    && (sigs == [] ==> last == "" && same == 0)
    && (sigs != [] ==> same < DOOM_SAME_TOOL && EndsWithRun(sigs, last, same + 1))
  }

  lemma FifthEnds(sigs: seq<string>, sig: string, i: int)
    requires FiveInARow(sigs + [sig], i)
    ensures FiveInARow(sigs, i) || (i == |sigs| - 4 && forall j :: i <= j < |sigs| ==> sigs[j] == sig)
  {
    var t := sigs + [sig];
    assert forall j :: 0 <= j < |sigs| ==> t[j] == sigs[j];
    if i + 5 == |t| {
      assert t[i + 4] == sig;
    }
  }

  lemma GuardAdvances(sigs: seq<string>, last: string, same: nat, sig: string)
    requires GuardState(sigs, last, same) && sig != ""
    ensures sig == last && same + 1 >= DOOM_SAME_TOOL ==> FiveInARow(sigs + [sig], |sigs| - 4)
    ensures sig == last && same + 1 < DOOM_SAME_TOOL ==> GuardState(sigs + [sig], last, same + 1)
    ensures sig != last ==> GuardState(sigs + [sig], sig, 0)
  {
    var t, n := sigs + [sig], |sigs|;
    assert forall j :: 0 <= j < n ==> t[j] == sigs[j];
    forall i | FiveInARow(t, i) ensures sig == last && same + 1 >= DOOM_SAME_TOOL {
      FifthEnds(sigs, sig, i);
      assert sigs[n - 1] == last;
    }
  }

  /** The repeat guard: it stops the run exactly when `sig` would be the fifth equal signature in a
      row. */
  method RepeatGuard(ghost sigs: seq<string>, last0: string, same0: nat, sig: string)
    returns (stop: bool, last: string, same: nat)
    requires GuardState(sigs, last0, same0) && sig != ""
    ensures stop <==> FiveInARow(sigs + [sig], |sigs| - 4)
    ensures !stop ==> GuardState(sigs + [sig], last, same)
  {
    GuardAdvances(sigs, last0, same0, sig);
    last, same, stop := last0, same0, false;
    if sig == last {
      same := same + 1;
      if same >= DOOM_SAME_TOOL {
        stop := true;
      }
    } else {
      same := 0;
      last := sig;
    }
  }
}
