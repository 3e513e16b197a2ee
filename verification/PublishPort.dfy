/** An emission from its gear to the lane and the bus: pkg/runtime/runtime.go, publishPort. */
module PublishPort {
  import opened OutboxState
  import opened OutboxLone
  import OutboxDrain
  import Lane = LaneMachine
  import LaneLoops

  /** The lane leg failed, or the lane was all there is, or the bus leg settled it. */
  datatype PortResult = LaneFailed | LaneOnly | BusLeg(emitted: Emitted)

  class Rack {
    const lane: LaneLoops.LocalLane
    const outbox: OutboxDrain.Outbox
    var busSubjects: set<string>

    constructor (queueSize: int, maxMessages: int, drainRetries: int, busSubjects: set<string>)
      ensures this.busSubjects == busSubjects && fresh(lane) && fresh(outbox)
      ensures lane.View() == Lane.New(queueSize) && outbox.View() == NewBox(maxMessages, drainRetries)
    {
      lane := new LaneLoops.LocalLane(queueSize);
      outbox := new OutboxDrain.Outbox(maxMessages, drainRetries);
      this.busSubjects := busSubjects;
    }

    /** The lane comes first. When one of its targets missed the message the emission fails
        there, and the bus and the outbox never see it; otherwise the bus leg runs exactly
        when the subject is published to the bus. */
    method Emit(it: Item, encodes: bool, verdict: Verdict) returns (result: PortResult, kick: bool,
                ghost acts: seq<Lane.Action>)
      requires lane.nextSend !in lane.sends && 0 < outbox.max && !it.isEvent
      modifies lane, outbox
      ensures Lane.Exec(old(lane.View()), acts) == lane.View()
      ensures |lane.results| == |old(lane.results)| + 1
      ensures var d := lane.results[|old(lane.results)|];
              && Lane.ResultInv(d) && d.targets == Lane.ListOf(old(lane.lists), it.subject) && d.item == it.id
              && (result.LaneFailed? <==> d.failed)
              && (result.BusLeg? <==> !d.failed && it.subject in busSubjects)
      ensures if result.BusLeg? then (outbox.View(), result.emitted, kick) == Live(old(outbox.View()), it, verdict)
              else outbox.View() == old(outbox.View()) && !kick
    {
      var delivered, failed;
      delivered, failed, acts := lane.Publish(it.subject, it.id, encodes);
      if failed {
        return LaneFailed, false, acts;
      }
      if it.subject !in busSubjects {
        return LaneOnly, false, acts;
      }
      var emitted;
      emitted, kick := outbox.PublishMessage(it, verdict);
      return BusLeg(emitted), kick, acts;
    }
  }
}
