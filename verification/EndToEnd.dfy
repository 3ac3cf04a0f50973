/** From orders.commands to the verifier's verdict. */
module EndToEnd {
  import opened Json
  import opened Messages
  import Executor
  import Pipeline
  import PipelineGap
  import PipelineLoss
  import PipelineResults
  import Publisher
  import Verifier

  /** The record values on the events topic. */
  function Values(topic: seq<Publisher.Record>): (values: seq<Json>)
    ensures |values| == |topic|
  {
    seq(|topic|, i requires 0 <= i < |topic| => EncodeOrderEvent(topic[i].event))
  }

  lemma ValuesAppend(front: seq<Publisher.Record>, last: Publisher.Record)
    ensures Verifier.DecodeAll(Values(front + [last]))
         == Verifier.DecodeAll(Values(front)) + [Decoded(last.event, true)]
  {
    OrderEventRoundTrip(last.event);
    assert Values(front + [last]) == Values(front) + [EncodeOrderEvent(last.event)];
  }

  lemma {:induction false} OrdersOfTopic(topic: seq<Publisher.Record>)
    ensures var ids := Verifier.Orders(Verifier.DecodeAll(Values(topic)));
            |ids| == |topic| && forall i | 0 <= i < |topic| :: ids[i] == topic[i].event.orderId
  {
    if topic != [] {
      var front, last := topic[..|topic| - 1], topic[|topic| - 1];
      assert topic == front + [last];
      OrdersOfTopic(front);
      ValuesAppend(front, last);
      Verifier.OrdersAppend(Verifier.DecodeAll(Values(front)), Decoded(last.event, true));
    }
  }

  /** What a verifier that reads the whole events topic sees. */
  function Seen(executors: nat, nodes: nat, actions: seq<Pipeline.Action>): seq<string> {
    Verifier.Orders(Verifier.DecodeAll(Values(Pipeline.RunAll(Pipeline.Init(executors, nodes), actions).drain.topic)))
  }

  /** Every row has been published. */
  predicate Drained(executors: nat, nodes: nat, actions: seq<Pipeline.Action>) {
    PipelineResults.AllPublished(Pipeline.RunAll(Pipeline.Init(executors, nodes), actions).drain.dbs)
  }

  /** Whatever happens between the command and the outbox (lost requests and acknowledgements, leader
      changes, stale reads, restarts, crashes, redeliveries, several executors), a verifier that reads
      the whole events topic passes, as long as no produce was uncertain or repeated and no mark failed.
      Once every row has been published, it passes in no other case. */
  lemma VerifierPasses(executors: nat, nodes: nat, actions: seq<Pipeline.Action>)
    ensures PipelineResults.CleanPublishes(executors, nodes, actions) ==>
              Verifier.NoRepeats(Seen(executors, nodes, actions))
    ensures Drained(executors, nodes, actions) && Verifier.NoRepeats(Seen(executors, nodes, actions)) ==>
              PipelineResults.CleanPublishes(executors, nodes, actions)
  {
    var d := Pipeline.RunAll(Pipeline.Init(executors, nodes), actions).drain;
    var ids := Seen(executors, nodes, actions);
    OrdersOfTopic(d.topic);
    if PipelineResults.CleanPublishes(executors, nodes, actions) {
      PipelineResults.ExtraExactly(executors, nodes, actions);
      forall i, j | 0 <= i < j < |ids| ensures ids[i] != ids[j] {
        PipelineResults.NoDuplicateEvents(executors, nodes, actions, i, j);
      }
    } else if Drained(executors, nodes, actions) {
      PipelineResults.DuplicatesExactly(executors, nodes, actions);
      var i, j :| 0 <= i < j < |d.topic| && d.topic[i].event.orderId == d.topic[j].event.orderId;
      assert ids[i] == ids[j];
    }
  }

  /** After a run in which one mark failed, the verifier does fail. */
  lemma VerifierFails(value: Json, ts: int64, now: int64)
    requires Executor.ParseOrder(value).Ok?
    ensures !Verifier.NoRepeats(Seen(1, 1, PipelineGap.FreshRun(value, ts) + PipelineGap.Twice(0, 0, now)))
  {
    var actions := PipelineGap.FreshRun(value, ts) + PipelineGap.Twice(0, 0, now);
    var topic := Pipeline.RunAll(Pipeline.Init(1, 1), actions).drain.topic;
    PipelineGap.TwoEventsReachable(value, ts, now);
    OrdersOfTopic(topic);
    var i, j := PipelineResults.TwoPlaces(PipelineLoss.TopicOrders(topic), Executor.ParseOrder(value).value.orderId);
    assert Seen(1, 1, actions)[i] == Seen(1, 1, actions)[j];
  }
}
