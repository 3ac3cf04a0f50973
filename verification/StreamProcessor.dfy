/** Turning ticks into order commands (cmd/stream-processor/main.go:100-144). */
module StreamProcessor {
  import opened Wrappers
  import opened Json
  import opened Messages

  datatype Tick = Tick(eventId: string, symbol: string, price: real, ts: int64)

  /** Go's conversion of a float to an int. */
  function Truncate(x: real): int {
    if x >= 0.0 then x.Floor else -((-x).Floor)
  }

  function DecodeTick(j: Json): Decoded<Tick> {
    match j
    case Null => Decoded(Tick("", "", 0.0, 0), true)
    case Obj(fs) =>
      var e, y := StringField(fs, "event_id"), StringField(fs, "symbol");
      var p, t := RealField(fs, "price"), IntField(fs, "ts_unix_millis");
      Decoded(Tick(e.value, y.value, p.value, t.value), e.ok && y.ok && p.ok && t.ok)
    case _ => Decoded(Tick("", "", 0.0, 0), false)
  }

  /** The order for a tick. Its ids depend on the tick's id alone, so a redelivered tick makes the same
      order again. */
  function OrderFor(t: Tick, now: int64): OrderCmd {
    var side := if Truncate(t.price * 100.0) % 2 == 0 then "SELL" else "BUY";
    OrderCmd(t.eventId, "ord-" + t.eventId, t.symbol, side, 10, t.price, now)
  }

  /** A tick as the ingestor prints it. */
  function EncodeTick(t: Tick): Json {
    Obj([("event_id", Str(t.eventId)), ("symbol", Str(t.symbol)), ("price", EncodeReal(t.price)),
      ("ts_unix_millis", Int(t.ts))])
  }

  lemma TickRoundTrip(t: Tick)
    ensures DecodeTick(EncodeTick(t)) == Decoded(t, true)
  {
    var fs := EncodeTick(t).fields;
    assert fs[0].0 == "event_id" && fs[1].0 == "symbol" && fs[2].0 == "price" && fs[3].0 == "ts_unix_millis";
    AllFields(fs);
  }

  /** A tick is refused exactly when a field has a value that does not fit. */
  lemma TickRefused(t: Tick, i: nat, j: Json)
    requires i < 4
    ensures var fs := EncodeTick(t).fields; |fs| == 4
    ensures var fs := EncodeTick(t).fields;
            DecodeTick(Obj(fs[i := (fs[i].0, j)])).ok <==>
              if i < 2 then FitsString(j) else if i == 2 then FitsReal(j) else FitsInt(j)
    ensures !j.Null? && !j.Obj? ==> !DecodeTick(j).ok
  {
    var fs := EncodeTick(t).fields;
    assert fs[0].0 == "event_id" && fs[1].0 == "symbol" && fs[2].0 == "price" && fs[3].0 == "ts_unix_millis";
    var gs := fs[i := (fs[i].0, j)];
    assert gs[0].0 == "event_id" && gs[1].0 == "symbol" && gs[2].0 == "price" && gs[3].0 == "ts_unix_millis";
    AllFields(gs);
  }

  /** The order is a sale exactly when the price in hundredths, its fraction dropped, is even, and a purchase
      otherwise; always of ten, at the tick's price and for its symbol. */
  lemma SideExactly(t: Tick, now: int64, cents: int)
    requires var x := t.price * 100.0;
             if x >= 0.0 then cents as real <= x < (cents + 1) as real else (cents - 1) as real < x <= cents as real
    ensures var cmd := OrderFor(t, now);
            && (cents % 2 == 0 ==> cmd.side == "SELL") && (cents % 2 == 1 ==> cmd.side == "BUY")
            && cmd.qty == 10 && cmd.price == t.price && cmd.symbol == t.symbol && cmd.ts == now
            && cmd.orderId == "ord-" + t.eventId && cmd.eventId == t.eventId
  {
    var x := t.price * 100.0;
    if x >= 0.0 {
      assert x.Floor == cents;
    } else {
      assert (-x).Floor == -cents;
    }
  }

  datatype Produced = Produced(topic: string, key: string, value: Json)

  const COMMANDS_TOPIC := "orders.commands"

  class CommandsTopic {
    var records: seq<Produced>

    constructor ()
      ensures records == []
    {
      records := [];
    }
  }

  datatype HandlerError = BadTick | ProduceError

  /** `copies` records land, whatever the producer reports. */
  method HandleTick(value: Json, now: int64, topic: CommandsTopic, copies: nat, acked: bool)
    returns (r: Result<(), HandlerError>)
    modifies topic
    ensures !DecodeTick(value).ok ==> r == Err(BadTick) && topic.records == old(topic.records)
    ensures DecodeTick(value).ok ==>
              && r == (if acked then Ok(()) else Err(ProduceError))
              && |topic.records| == |old(topic.records)| + copies && old(topic.records) <= topic.records
              && forall i | |old(topic.records)| <= i < |topic.records| ::
                   && topic.records[i].topic == "orders.commands"
                      && topic.records[i].key == "ord-" + DecodeTick(value).value.eventId
                   && DecodeOrderCmd(topic.records[i].value) == Decoded(OrderFor(DecodeTick(value).value, now), true)
  {
    var tick := DecodeTick(value);
    if !tick.ok {
      return Err(BadTick);
    }
    var side := "BUY";
    if Truncate(tick.value.price * 100.0) % 2 == 0 {
      side := "SELL";
    }
    var cmd := OrderCmd(tick.value.eventId, "ord-" + tick.value.eventId, tick.value.symbol, side, 10,
      tick.value.price, now);
    OrderCmdRoundTrip(cmd);
    topic.records := topic.records + seq(copies, _ => Produced(COMMANDS_TOPIC, cmd.orderId, EncodeOrderCmd(cmd)));
    r := if acked then Ok(()) else Err(ProduceError);
  }

  /** Two ticks make the same order exactly when they have the same id. */
  lemma SameOrderExactly(a: Tick, b: Tick, now: int64, later: int64)
    ensures OrderFor(a, now).orderId == OrderFor(b, later).orderId <==> a.eventId == b.eventId
  {
    assert ("ord-" + a.eventId)[4..] == a.eventId && ("ord-" + b.eventId)[4..] == b.eventId;
  }
}
