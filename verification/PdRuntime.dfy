/** The objects behind the state machine: a request's stage and records, and the tables the coordinator
    guards with its lock. Each method is one locked section, proved against the step functions of PdSystem. */
module PdRuntime {
  import opened Options
  import opened PdLedger
  import opened PdCoordinator
  import opened PdSystem

  class PDRequestState {
    const requestId: string
    const generation: int
    var stage: Stage
    var terminal: Option<Stage>
    var trace: Trace

    ghost predicate Valid()
      reads this
    {
      IsPath(trace, stage) && terminal == (if Terminal(stage) then Some(stage) else None)
    }

    constructor (requestId: string, generation: int)
      ensures Valid() && this.requestId == requestId && this.generation == generation && stage == Prepare && trace == []
    {
      this.requestId, this.generation := requestId, generation;
      stage, terminal, trace := Prepare, None, [];
    }

    /** Refused transitions change nothing; the records stay one path through the table. */
    method Transition(target: Stage) returns (ok: bool)
      requires Valid()
      modifies this
      ensures Valid()
      ensures ok <==> Allowed(old(stage), target)
      ensures ok ==> stage == target && trace == old(trace) + [(old(stage), target)]
      ensures !ok ==> stage == old(stage) && trace == old(trace)
    {
      if terminal.Some? || !Allowed(stage, target) { return false; }
      assert (trace + [(stage, target)])[..|trace|] == trace;
      trace := trace + [(stage, target)];
      stage := target;
      if Terminal(target) { terminal := Some(target); }
      return true;
    }
  }

  datatype Verdict = StillActive | RequestCancelled | RequestDeadline

  class ProductionPDCoordinator {
    var latest: map<string, nat>
    var active: map<Key, PDRequestState>
    var cancelled: set<Key>

    ghost function Tables(): Gate
      reads this
    {
      Gate(latest, active.Keys, cancelled)
    }

    /** Only active keys are marked cancelled, and no active key is newer than the latest of its id. */
    ghost predicate Valid()
      reads this
    {
      && cancelled <= active.Keys
      && forall k :: k in active ==> 0 < k.generation <= LatestOf(latest, k.requestId)
    }

    constructor ()
      ensures Valid() && Tables() == Gate(map[], {}, {})
    {
      latest, active, cancelled := map[], map[], {};
    }

    /** The head of submit: a generation that is not newer than every admitted one is rejected, with the
        tables untouched; any other becomes active, under a key that was not. */
    method Begin(requestId: string, generation: int) returns (state: PDRequestState, admitted: bool)
      requires Valid()
      modifies this
      ensures Valid()
      ensures admitted <==> generation > LatestOf(old(latest), requestId)
      ensures !admitted ==> Tables() == old(Tables()) && active == old(active)
      ensures fresh(state) && state.Valid() && state.requestId == requestId && state.generation == generation
      ensures !admitted ==> state.stage == Rejected && state.trace == [(Prepare, Rejected)]
      ensures admitted ==>
                var k := Key(requestId, generation);
                k !in old(active) && Tables() == Admit(old(Tables()), k)
                && state.stage == Prepare && active == old(active)[k := state]
    {
      state := new PDRequestState(requestId, generation);
      if generation <= LatestOf(latest, requestId) {
        var _ := state.Transition(Rejected);
        return state, false;
      }
      var k := Key(requestId, generation);
      latest := latest[requestId := generation];
      active := active[k := state];
      return state, true;
    }

    /** The activity check sees a cancel before it looks at the clock. */
    method CheckActive(key: Key, now: int, deadline: int) returns (verdict: Verdict)
      ensures verdict == RequestCancelled <==> key in cancelled
      ensures verdict == RequestDeadline <==> key !in cancelled && now >= deadline
    {
      var isCancelled := key in cancelled;
      if isCancelled { return RequestCancelled; }
      if now >= deadline { return RequestDeadline; }
      return StillActive;
    }

    /** A cancel is accepted exactly for an active key. */
    method Cancel(key: Key) returns (accepted: bool)
      requires Valid()
      modifies `cancelled
      ensures Valid() && accepted == (key in active)
      ensures Tables() == Mark(old(Tables()), key)
      ensures accepted ==> key in cancelled
    {
      if key !in active { return false; }
      cancelled := cancelled + {key};
      return true;
    }

    /** The end of submit: the key is withdrawn from both tables; a later cancel finds nothing. */
    method End(key: Key)
      requires Valid()
      modifies `active, `cancelled
      ensures Valid() && Tables() == Withdraw(old(Tables()), key)
      ensures active == old(active) - {key}
    {
      active := active - {key};
      cancelled := cancelled - {key};
    }
  }
}
