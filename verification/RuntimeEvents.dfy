/** runtime_event: the event log comes first, the command table second. */
module RuntimeEvents {
  import opened Basics
  import E = EventStore
  import C = Commands

  const TURN_TRIGGERED_KIND: E.Kind := E.Unlisted("TURN_TRIGGERED")

  /** A producer's event: the draft, and the command key and turn its payload
      or request id may name. */
  datatype Report = Report(draft: E.Draft, key: Option<C.RequestId>, turn: Option<C.TurnId>)

  datatype Outcome = UnknownRuntime | GenerationStale | Rejected | Appended(event: E.Event)

  /** The two tables runtime_event works on. */
  datatype Tables = Tables(log: E.Db, commands: C.Table)

  type Generations = map<E.RuntimeId, int>

  /** Whether the event passes the checks before the append. */
  predicate Registered(runtimes: Generations, d: E.Draft) {
    d.runtime.Some? && d.runtime.value in runtimes && d.generation == runtimes[d.runtime.value]
  }

  function Reported(t: Tables, host: E.Host, runtimes: Generations, r: Report): Tables {
    if !Registered(runtimes, r.draft) || !E.Listed(r.draft.kind) || r.draft.session.None? then t
    else
      Tables(E.Appended(t.log, host, r.draft),
             if r.draft.kind == TURN_TRIGGERED_KIND then C.EventEffect(t.commands, r.key, r.turn) else t.commands)
  }

  class Gateway {
    const events: E.EventStore
    const table: C.CommandTable
    var runtimes: Generations

    constructor (events: E.EventStore, table: C.CommandTable)
      ensures this.events == events && this.table == table && runtimes == map[]
    {
      this.events, this.table := events, table;
      runtimes := map[];
    }

    function Contents(): Tables
      reads this, events, table
    {
      Tables(events.Contents(), table.commands)
    }

    method RuntimeEvent(r: Report) returns (out: Outcome)
      modifies events, table
      ensures Contents() == Reported(old(Contents()), events.sourceHost, runtimes, r)
      ensures out == UnknownRuntime <==> r.draft.runtime.None? || r.draft.runtime.value !in runtimes
      ensures out == GenerationStale <==> out != UnknownRuntime && r.draft.generation != runtimes[r.draft.runtime.value]
      ensures out == Rejected <==>
        out != UnknownRuntime && out != GenerationStale && (r.draft.session.None? || r.draft.kind.Unlisted?)
      ensures !out.Appended? ==> Contents() == old(Contents())
      ensures out.Appended? ==> events.rows == old(events.rows) + [out.event]
      ensures r.draft.kind == TURN_TRIGGERED_KIND ==> !out.Appended? && Contents() == old(Contents())
    {
      if r.draft.runtime.None? || r.draft.runtime.value !in runtimes {
        return UnknownRuntime;
      }
      if r.draft.generation != runtimes[r.draft.runtime.value] {
        return GenerationStale;
      }
      var e := events.AppendLocal(r.draft);
      if e.None? {
        return Rejected;
      }
      table.ConsumeEvent(r.draft.kind == TURN_TRIGGERED_KIND, r.key, r.turn);
      return Appended(e.value);
    }
  }

  // ---- runs ----

  /** An event, with the runtimes registered at the time, or an acknowledgement. */
  datatype Input = Event(report: Report, runtimes: Generations) | Ack(ack: C.Ack)

  function Step(t: Tables, host: E.Host, i: Input): Tables {
    match i
    case Event(r, runtimes) => Reported(t, host, runtimes, r)
    case Ack(a) => t.(commands := C.Effect(t.commands, a))
  }

  function Run(t: Tables, host: E.Host, inputs: seq<Input>): Tables
    decreases |inputs|
  {
    if inputs == [] then t else Run(Step(t, host, inputs[0]), host, inputs[1..])
  }

  function Acks(inputs: seq<Input>): seq<C.Ack> {
    if inputs == [] then [] else (if inputs[0].Ack? then [inputs[0].ack] else []) + Acks(inputs[1..])
  }

  function Drafts(inputs: seq<Input>): seq<E.Draft> {
    if inputs == [] then []
    else
      (if inputs[0].Event? && Registered(inputs[0].runtimes, inputs[0].report.draft) then [inputs[0].report.draft] else [])
      + Drafts(inputs[1..])
  }

  function AppendedAll(log: E.Db, host: E.Host, drafts: seq<E.Draft>): E.Db
    decreases |drafts|
  {
    if drafts == [] then log else AppendedAll(E.Appended(log, host, drafts[0]), host, drafts[1..])
  }

  /** No event moves a command: over any events and acknowledgements, in any
      order, the command table is what the acknowledgements alone make of it,
      and the log is what the appends of the registered runtimes' events make
      of it. */
  lemma {:induction false} EventsNeverMoveCommands(t: Tables, host: E.Host, inputs: seq<Input>)
    ensures var t' := Run(t, host, inputs);
      && t'.commands == C.After(t.commands, Acks(inputs))
      && t'.log == AppendedAll(t.log, host, Drafts(inputs))
    decreases |inputs|
  {
    if inputs != [] {
      var t1 := Step(t, host, inputs[0]);
      EventsNeverMoveCommands(t1, host, inputs[1..]);
      var acks, drafts := Acks(inputs[1..]), Drafts(inputs[1..]);
      assert [] + acks == acks && [] + drafts == drafts;
      match inputs[0]
      case Ack(a) =>
        assert Acks(inputs) == [a] + acks && ([a] + acks)[1..] == acks;
      case Event(r, runtimes) =>
        assert t1.commands == t.commands;
        var d := r.draft;
        if Registered(runtimes, d) {
          assert Drafts(inputs) == [d] + drafts && ([d] + drafts)[1..] == drafts;
        }
    }
  }
}
