/** The replicated state machine as an object (crates/vyrm-cluster/src/openraft_adapter.rs). */
module RaftMachine {
  import opened Common
  import opened Batch
  import opened Versions
  import opened RaftState
  import Q = Quorum

  /** `apply` as a fold: the entries before the first storage error are applied and stay durable. */
  function ApplyAll(m: Machine, d: Durable, log: seq<Entry>): (Durable, Result<seq<Response>, Error>) {
    if log == [] then (d, Ok([]))
    else
      var (before, responses) := ApplyAll(m, d, log[..|log| - 1]);
      if responses.Err? then (before, responses)
      else
        match ApplyEntry(m, before, log[|log| - 1])
        case Err(error) => (before, Err(error))
        case Ok((after, response)) => (after, Ok(responses.value + [response]))
  }

  /** How a log is cut into calls makes no difference. */
  lemma {:induction false} ApplyAllSplits(m: Machine, d: Durable, a: seq<Entry>, b: seq<Entry>)
    requires ApplyAll(m, d, a).1.Ok?
    ensures ApplyAll(m, d, a + b).0 == ApplyAll(m, ApplyAll(m, d, a).0, b).0
    ensures var first, second, whole := ApplyAll(m, d, a).1, ApplyAll(m, ApplyAll(m, d, a).0, b).1,
            ApplyAll(m, d, a + b).1;
            whole == if second.Err? then second else Ok(first.value + second.value)
    decreases |b|
  {
    hide ApplyEntry;
    if b == [] {
      assert a + b == a;
      assert ApplyAll(m, d, a).1.value + [] == ApplyAll(m, d, a).1.value;
    } else {
      var n := |b| - 1;
      assert (a + b)[..|a + b| - 1] == a + b[..n];
      ApplyAllSplits(m, d, a, b[..n]);
      var first, front, second := ApplyAll(m, d, a), ApplyAll(m, ApplyAll(m, d, a).0, b[..n]),
          ApplyAll(m, ApplyAll(m, d, a).0, b);
      if second.1.Ok? {
        var last := second.1.value[|second.1.value| - 1];
        AppendAssoc(first.1.value, front.1.value, [last]);
      }
    }
  }

  /** An uninterrupted application is a trace of single durable steps. */
  lemma {:induction false} ApplyAllTraces(m: Machine, d: Durable, log: seq<Entry>) returns (states: seq<Durable>)
    requires ApplyAll(m, d, log).1.Ok?
    ensures Trace(m, states, log, ApplyAll(m, d, log).1.value)
    ensures states[0] == d && states[|log|] == ApplyAll(m, d, log).0
    decreases |log|
  {
    hide ApplyEntry;
    if log == [] {
      states := [d];
    } else {
      var front := ApplyAllTraces(m, d, log[..|log| - 1]);
      states := front + [ApplyAll(m, d, log).0];
    }
  }

  /** `prune_request_history`: walks the table and keeps what is recent enough. */
  method PruneRequestHistory(requests: Requests, through: nat) returns (retained: Requests)
    ensures retained == Pruned(requests, through)
  {
    var oldest := if through < REQUEST_RETENTION_LOGS - 1 then 0 else through - (REQUEST_RETENTION_LOGS - 1);
    retained := requests;
    var remaining := requests.Keys;
    while remaining != {}
      invariant remaining <= requests.Keys
      invariant forall r :: r in retained <==> r in requests && (r in remaining || requests[r].firstIndex >= oldest)
      invariant forall r :: r in retained ==> retained[r] == requests[r]
      decreases remaining
    {
      var r :| r in remaining;
      if requests[r].firstIndex < oldest {
        retained := retained - {r};
      }
      remaining := remaining - {r};
    }
  }

  /** `apply_command`, its state updated in place branch by branch. */
  method ApplyOne(m: Machine, store: Store, s: State, id: LogId, c: Command) returns (r: Result<Application, Error>)
    ensures r == ApplyCommand(m, store, s, id, c)
  {
    hide Q.ValidPlacement;
    hide MembershipBinding;
    if !ValidCommand(c) { return Err(InvalidCommand); }
    if c.shard != m.shard { return Err(WrongShard); }
    if c.requestId in s.requests {
      var previous := s.requests[c.requestId];
      if previous.identity != IdentityOf(c) {
        return Ok(Application(s, Response(false, false, id.term, id.index, s.digest, None), []));
      }
      return Ok(Application(s, previous.response.(duplicate := true, term := id.term, index := id.index), []));
    }
    var state := s;
    var accepted := EpochMatches(s, c) && MembershipMatches(s, c) &&
        (c.expectedIndex.None? || c.expectedIndex.value == CurrentIndex(s));
    var operations: WriteBatch := [];
    var outcome: Option<Bytes> := None;
    if accepted {
      match c.operation {
        case PlacementTransition(placement) =>
          var binding := PlacementBinding(placement, state.membership);
          if binding.Some? {
            state := state.(placementEpoch := Some(placement.epoch));
            state := state.(placement := Some(placement));
            state := state.(placementBinding := Some(binding.value));
            state := state.(placementGeneration := Some(state.generation));
          } else {
            accepted := false;
          }
        case Probe(_) =>
        case RuntimeCommit(commit) =>
          var prepared := m.prepare(store, commit);
          match prepared {
            case AlreadyCommitted(known) => outcome := Some(known);
            case Plan(planned, writes) =>
              state := state.(commitCount := state.commitCount + 1);
              outcome := Some(planned);
              operations := writes;
            case RejectedCommit => accepted := false;
            case StorageFailure => return Err(StorageError);
          }
      }
    }
    if accepted {
      state := state.(digest := Transition(state.digest, id.term, id.index, c.operation));
    }
    var response := Response(accepted, false, id.term, id.index, state.digest, outcome);
    state := state.(requests := state.requests[c.requestId := Applied(id.index, IdentityOf(c), response)]);
    return Ok(Application(state, response, operations));
  }

  /** One turn of the loop of `apply`: decide, prune, and build the batch that makes the entry durable. */
  method ApplyNext(m: Machine, database: Durable, entry: Entry) returns (r: Result<(Durable, Response), Error>)
    ensures r == ApplyEntry(m, database, entry)
  {
    hide ApplyCommand;
    hide Pruned;
    hide Encodable;
    hide ApplyToStore;
    hide MembershipBinding;
    var state := database.state;
    var operations: WriteBatch := [];
    var response := BlankResponse(state, entry.id);
    match entry.payload {
      case Blank =>
      case Members(membership) =>
        var prior := MembershipBinding(state.membership);
        state := state.(membership := membership);
        var next := MembershipBinding(state.membership);
        if prior != next {
          state := state.(generation := state.generation + 1);
        }
        response := BlankResponse(state, entry.id);
      case Normal(command) =>
        var application := ApplyOne(m, database.store, state, entry.id, command);
        if application.Err? { return Err(application.error); }
        state, operations, response := application.value.state, application.value.operations,
            application.value.response;
    }
    state := state.(lastApplied := Some(entry.id));
    var retained := PruneRequestHistory(state.requests, entry.id.index);
    state := state.(requests := retained);
    var batch := operations + [Put(KEY_STATE, m.record(state))];
    if !Encodable(batch) { return Err(StorageError); }
    return Ok((Durable(state, ApplyToStore(database.store, operations)), response));
  }

  class RaftStateMachine {
    const machine: Machine
    var database: Durable

    constructor (machine: Machine, database: Durable)
      ensures this.machine == machine && this.database == database
    {
      this.machine, this.database := machine, database;
    }

    /** Applies entries in order, one durable write each; an error keeps the entries before it. */
    method Apply(entries: seq<Entry>) returns (r: Result<seq<Response>, Error>)
      modifies `database
      ensures (database, r) == ApplyAll(machine, old(database), entries)
    {
      hide ApplyEntry;
      var responses: seq<Response> := [];
      for i := 0 to |entries|
        invariant (database, Ok(responses)) == ApplyAll(machine, old(database), entries[..i])
      {
        assert entries[..i + 1][..i] == entries[..i];
        var applied := ApplyNext(machine, database, entries[i]);
        if applied.Err? {
          ErrorStops(machine, old(database), entries, i);
          return Err(applied.error);
        }
        database := applied.value.0;
        responses := responses + [applied.value.1];
      }
      assert entries[..|entries|] == entries;
      return Ok(responses);
    }
  }

  lemma {:induction false} ErrorStops(m: Machine, d: Durable, log: seq<Entry>, i: nat)
    requires i < |log| && ApplyAll(m, d, log[..i + 1]).1.Err?
    ensures ApplyAll(m, d, log) == ApplyAll(m, d, log[..i + 1])
    decreases |log|
  {
    if i + 1 < |log| {
      var front := log[..|log| - 1];
      assert front[..i + 1] == log[..i + 1];
      ErrorStops(m, d, front, i);
    } else {
      assert log[..i + 1] == log;
    }
  }
}
