/** The Kafka messages (internal/msg/schema.go) and the Raft commands (internal/raft/types.go),
    with their JSON encodings. */
module Messages {
  import opened Wrappers
  import opened Json

  datatype OrderCmd = OrderCmd(
    eventId: string, orderId: string, symbol: string, side: string, qty: int64, price: real, ts: int64)

  datatype OrderEvent = OrderEvent(eventId: string, orderId: string, status: string, reason: string, ts: int64)

  datatype UpsertCommand = UpsertCommand(
    orderId: string, commandEventId: string, status: string, reason: string, ts: int64)

  datatype ProcessedOrder = ProcessedOrder(
    orderId: string, commandEventId: string, status: string, reason: string, firstSeenTs: int64)

  /** `payload` is raw: an absent payload is an empty byte string, which does not parse. */
  datatype Envelope = Envelope(kind: string, payload: Json)

  const UPSERT_KIND := "UPSERT_PROCESSED_ORDER"

  function EncodeOrderCmd(c: OrderCmd): Json {
    Obj([("event_id", Str(c.eventId)), ("order_id", Str(c.orderId)), ("symbol", Str(c.symbol)),
         ("side", Str(c.side)), ("qty", Int(c.qty)), ("price", EncodeReal(c.price)),
         ("ts_unix_millis", Int(c.ts))])
  }

  function DecodeOrderCmd(j: Json): Decoded<OrderCmd> {
    match j
    case Null => Decoded(OrderCmd("", "", "", "", 0, 0.0, 0), true)
    case Obj(fs) =>
      var e, o, y, d := StringField(fs, "event_id"), StringField(fs, "order_id"), StringField(fs, "symbol"),
        StringField(fs, "side");
      var q, p, t := IntField(fs, "qty"), RealField(fs, "price"), IntField(fs, "ts_unix_millis");
      Decoded(OrderCmd(e.value, o.value, y.value, d.value, q.value, p.value, t.value),
              e.ok && o.ok && y.ok && d.ok && q.ok && p.ok && t.ok)
    case _ => Decoded(OrderCmd("", "", "", "", 0, 0.0, 0), false)
  }

  function EncodeOrderEvent(e: OrderEvent): Json {
    Obj([("event_id", Str(e.eventId)), ("order_id", Str(e.orderId)), ("status", Str(e.status)),
         ("reason", Str(e.reason)), ("ts_unix_millis", Int(e.ts))])
  }

  function DecodeOrderEvent(j: Json): Decoded<OrderEvent> {
    match j
    case Null => Decoded(OrderEvent("", "", "", "", 0), true)
    case Obj(fs) =>
      var e, o, s, r := StringField(fs, "event_id"), StringField(fs, "order_id"), StringField(fs, "status"),
        StringField(fs, "reason");
      var t := IntField(fs, "ts_unix_millis");
      Decoded(OrderEvent(e.value, o.value, s.value, r.value, t.value), e.ok && o.ok && s.ok && r.ok && t.ok)
    case _ => Decoded(OrderEvent("", "", "", "", 0), false)
  }

  function EncodeUpsert(u: UpsertCommand): Json {
    Obj([("order_id", Str(u.orderId)), ("command_event_id", Str(u.commandEventId)), ("status", Str(u.status)),
         ("reason", Str(u.reason)), ("ts_unix_millis", Int(u.ts))])
  }

  function DecodeUpsert(j: Json): Decoded<UpsertCommand> {
    match j
    case Null => Decoded(UpsertCommand("", "", "", "", 0), true)
    case Obj(fs) =>
      var o, c, s, r := StringField(fs, "order_id"), StringField(fs, "command_event_id"),
        StringField(fs, "status"), StringField(fs, "reason");
      var t := IntField(fs, "ts_unix_millis");
      Decoded(UpsertCommand(o.value, c.value, s.value, r.value, t.value), o.ok && c.ok && s.ok && r.ok && t.ok)
    case _ => Decoded(UpsertCommand("", "", "", "", 0), false)
  }

  function EncodeProcessed(p: ProcessedOrder): Json {
    Obj([("order_id", Str(p.orderId)), ("command_event_id", Str(p.commandEventId)), ("status", Str(p.status)),
         ("reason", Str(p.reason)), ("first_seen_ts", Int(p.firstSeenTs))])
  }

  function DecodeProcessed(j: Json): Decoded<ProcessedOrder> {
    match j
    case Null => Decoded(ProcessedOrder("", "", "", "", 0), true)
    case Obj(fs) =>
      var o, c, s, r := StringField(fs, "order_id"), StringField(fs, "command_event_id"),
        StringField(fs, "status"), StringField(fs, "reason");
      var t := IntField(fs, "first_seen_ts");
      Decoded(ProcessedOrder(o.value, c.value, s.value, r.value, t.value), o.ok && c.ok && s.ok && r.ok && t.ok)
    case _ => Decoded(ProcessedOrder("", "", "", "", 0), false)
  }

  function EncodeCommand(kind: string, payload: Json): Json {
    Obj([("kind", Str(kind)), ("payload", payload)])
  }

  function DecodeCommand(j: Json): Decoded<Envelope> {
    match j
    case Null => Decoded(Envelope("", Malformed), true)
    case Obj(fs) =>
      var k := StringField(fs, "kind");
      var p := Field(fs, "payload");
      Decoded(Envelope(k.value, if p.None? then Malformed else p.value), k.ok)
    case _ => Decoded(Envelope("", Malformed), false)
  }

  // ----- round trips -----

  lemma OrderCmdRoundTrip(c: OrderCmd)
    ensures DecodeOrderCmd(EncodeOrderCmd(c)) == Decoded(c, true)
  {
    var fs := EncodeOrderCmd(c).fields;
    AllFields(fs);
    assert fs[0].0 == "event_id" && fs[1].0 == "order_id" && fs[2].0 == "symbol" && fs[3].0 == "side";
    assert fs[4].0 == "qty" && fs[5].0 == "price" && fs[6].0 == "ts_unix_millis";
  }

  lemma OrderEventRoundTrip(e: OrderEvent)
    ensures DecodeOrderEvent(EncodeOrderEvent(e)) == Decoded(e, true)
  {
    var fs := EncodeOrderEvent(e).fields;
    AllFields(fs);
    assert fs[0].0 == "event_id" && fs[1].0 == "order_id" && fs[2].0 == "status";
    assert fs[3].0 == "reason" && fs[4].0 == "ts_unix_millis";
  }

  lemma ProcessedRoundTrip(p: ProcessedOrder)
    ensures DecodeProcessed(EncodeProcessed(p)) == Decoded(p, true)
  {
    var fs := EncodeProcessed(p).fields;
    AllFields(fs);
    assert fs[0].0 == "order_id" && fs[1].0 == "command_event_id" && fs[2].0 == "status";
    assert fs[3].0 == "reason" && fs[4].0 == "first_seen_ts";
  }

  lemma EnvelopeRoundTrip(kind: string, payload: Json)
    ensures DecodeCommand(EncodeCommand(kind, payload)) == Decoded(Envelope(kind, payload), true)
  {
    var es := EncodeCommand(kind, payload).fields;
    AllFields(es);
    assert es[0].0 == "kind" && es[1].0 == "payload";
  }

  /** An encoded upsert command comes back whole through both decoding layers. */
  lemma UpsertRoundTrip(u: UpsertCommand)
    ensures DecodeCommand(EncodeCommand(UPSERT_KIND, EncodeUpsert(u)))
              == Decoded(Envelope(UPSERT_KIND, EncodeUpsert(u)), true)
    ensures DecodeUpsert(EncodeUpsert(u)) == Decoded(u, true)
  {
    var fs := EncodeUpsert(u).fields;
    AllFields(fs);
    assert fs[0].0 == "order_id" && fs[1].0 == "command_event_id" && fs[2].0 == "status";
    assert fs[3].0 == "reason" && fs[4].0 == "ts_unix_millis";
    EnvelopeRoundTrip(UPSERT_KIND, EncodeUpsert(u));
  }

  // ----- names on the wire -----

  predicate Has(j: Json, name: string, value: Json) {
    j.Obj? && Field(j.fields, name) == Some(value)
  }

  /** Which field of a message goes under which name. */
  lemma OrderNames(c: OrderCmd, e: OrderEvent)
    ensures Has(EncodeOrderCmd(c), "event_id", Str(c.eventId)) && Has(EncodeOrderCmd(c), "order_id", Str(c.orderId))
    ensures Has(EncodeOrderCmd(c), "symbol", Str(c.symbol)) && Has(EncodeOrderCmd(c), "side", Str(c.side))
    ensures Has(EncodeOrderCmd(c), "qty", Int(c.qty)) && Has(EncodeOrderCmd(c), "price", EncodeReal(c.price))
    ensures Has(EncodeOrderCmd(c), "ts_unix_millis", Int(c.ts))
    ensures Has(EncodeOrderEvent(e), "event_id", Str(e.eventId)) && Has(EncodeOrderEvent(e), "order_id", Str(e.orderId))
    ensures Has(EncodeOrderEvent(e), "status", Str(e.status)) && Has(EncodeOrderEvent(e), "reason", Str(e.reason))
    ensures Has(EncodeOrderEvent(e), "ts_unix_millis", Int(e.ts))
  {
    var fs, es := EncodeOrderCmd(c).fields, EncodeOrderEvent(e).fields;
    assert fs[0].0 == "event_id" && fs[1].0 == "order_id" && fs[2].0 == "symbol" && fs[3].0 == "side";
    assert fs[4].0 == "qty" && fs[5].0 == "price" && fs[6].0 == "ts_unix_millis";
    assert es[0].0 == "event_id" && es[1].0 == "order_id" && es[2].0 == "status";
    assert es[3].0 == "reason" && es[4].0 == "ts_unix_millis";
    AllFields(fs);
    AllFields(es);
  }

  /** The same for the commands and records of the state machine. */
  lemma RecordNames(u: UpsertCommand, p: ProcessedOrder)
    ensures Has(EncodeUpsert(u), "order_id", Str(u.orderId)) && Has(EncodeUpsert(u), "status", Str(u.status))
    ensures Has(EncodeUpsert(u), "command_event_id", Str(u.commandEventId))
            && Has(EncodeUpsert(u), "reason", Str(u.reason))
    ensures Has(EncodeUpsert(u), "ts_unix_millis", Int(u.ts))
    ensures Has(EncodeProcessed(p), "order_id", Str(p.orderId)) && Has(EncodeProcessed(p), "status", Str(p.status))
    ensures Has(EncodeProcessed(p), "command_event_id", Str(p.commandEventId))
    ensures Has(EncodeProcessed(p), "reason", Str(p.reason))
            && Has(EncodeProcessed(p), "first_seen_ts", Int(p.firstSeenTs))
  {
    var us, ps := EncodeUpsert(u).fields, EncodeProcessed(p).fields;
    assert us[0].0 == "order_id" && us[1].0 == "command_event_id" && us[2].0 == "status";
    assert us[3].0 == "reason" && us[4].0 == "ts_unix_millis";
    assert ps[0].0 == "order_id" && ps[1].0 == "command_event_id" && ps[2].0 == "status";
    assert ps[3].0 == "reason" && ps[4].0 == "first_seen_ts";
    AllFields(us);
    AllFields(ps);
  }

  /** What Go accepts for a string, an int64 and a float64 field; null leaves the field as it is. */
  predicate FitsString(j: Json) { j.Str? || j.Null? }

  predicate FitsInt(j: Json) { (j.Int? && -0x8000_0000_0000_0000 <= j.n <= 0x7fff_ffff_ffff_ffff) || j.Null? }

  predicate FitsReal(j: Json) { j.Int? || j.Dec? || j.Null? }

  predicate OrderCmdLayout(fs: seq<(string, Json)>) {
    && |fs| == 7 && fs[0].0 == "event_id" && fs[1].0 == "order_id" && fs[2].0 == "symbol" && fs[3].0 == "side"
    && fs[4].0 == "qty" && fs[5].0 == "price" && fs[6].0 == "ts_unix_millis"
  }

  lemma OrderCmdFits(fs: seq<(string, Json)>)
    requires OrderCmdLayout(fs)
    ensures DecodeOrderCmd(Obj(fs)).ok <==>
              && FitsString(fs[0].1) && FitsString(fs[1].1) && FitsString(fs[2].1) && FitsString(fs[3].1)
              && FitsInt(fs[4].1) && FitsReal(fs[5].1) && FitsInt(fs[6].1)
  {
    AllFields(fs);
  }

  /** An order command is refused exactly when a field has a value that does not fit; a missing or null one does. */
  lemma OrderCmdRefused(c: OrderCmd, i: nat, j: Json)
    requires i < 7
    ensures var fs := EncodeOrderCmd(c).fields; |fs| == 7
    ensures var fs := EncodeOrderCmd(c).fields;
            DecodeOrderCmd(Obj(fs[i := (fs[i].0, j)])).ok <==>
              if i < 4 then FitsString(j) else if i == 5 then FitsReal(j) else FitsInt(j)
    ensures DecodeOrderCmd(Null) == DecodeOrderCmd(Obj([])) == Decoded(OrderCmd("", "", "", "", 0, 0.0, 0), true)
    ensures !j.Null? && !j.Obj? ==> !DecodeOrderCmd(j).ok
  {
    var fs := EncodeOrderCmd(c).fields;
    assert OrderCmdLayout(fs) && OrderCmdLayout(fs[i := (fs[i].0, j)]);
    OrderCmdFits(fs[i := (fs[i].0, j)]);
  }

  /** The same for an order event. */
  lemma OrderEventRefused(e: OrderEvent, i: nat, j: Json)
    requires i < 5
    ensures var fs := EncodeOrderEvent(e).fields; |fs| == 5
    ensures var fs := EncodeOrderEvent(e).fields;
            DecodeOrderEvent(Obj(fs[i := (fs[i].0, j)])).ok <==> if i < 4 then FitsString(j) else FitsInt(j)
    ensures !j.Null? && !j.Obj? ==> !DecodeOrderEvent(j).ok
  {
    var fs := EncodeOrderEvent(e).fields;
    assert fs[0].0 == "event_id" && fs[1].0 == "order_id" && fs[2].0 == "status";
    assert fs[3].0 == "reason" && fs[4].0 == "ts_unix_millis";
    var gs := fs[i := (fs[i].0, j)];
    assert gs[0].0 == "event_id" && gs[1].0 == "order_id" && gs[2].0 == "status";
    assert gs[3].0 == "reason" && gs[4].0 == "ts_unix_millis";
    AllFields(gs);
  }

  /** The same for an upsert. */
  lemma UpsertRefused(u: UpsertCommand, i: nat, j: Json)
    requires i < 5
    ensures var fs := EncodeUpsert(u).fields; |fs| == 5
    ensures var fs := EncodeUpsert(u).fields;
            DecodeUpsert(Obj(fs[i := (fs[i].0, j)])).ok <==> if i < 4 then FitsString(j) else FitsInt(j)
    ensures !j.Null? && !j.Obj? ==> !DecodeUpsert(j).ok
  {
    var fs := EncodeUpsert(u).fields;
    assert fs[0].0 == "order_id" && fs[1].0 == "command_event_id" && fs[2].0 == "status";
    assert fs[3].0 == "reason" && fs[4].0 == "ts_unix_millis";
    var gs := fs[i := (fs[i].0, j)];
    assert gs[0].0 == "order_id" && gs[1].0 == "command_event_id" && gs[2].0 == "status";
    assert gs[3].0 == "reason" && gs[4].0 == "ts_unix_millis";
    AllFields(gs);
  }

  /** The same for a record. */
  lemma ProcessedRefused(p: ProcessedOrder, i: nat, j: Json)
    requires i < 5
    ensures var fs := EncodeProcessed(p).fields; |fs| == 5
    ensures var fs := EncodeProcessed(p).fields;
            DecodeProcessed(Obj(fs[i := (fs[i].0, j)])).ok <==> if i < 4 then FitsString(j) else FitsInt(j)
    ensures !j.Null? && !j.Obj? ==> !DecodeProcessed(j).ok
  {
    var fs := EncodeProcessed(p).fields;
    assert fs[0].0 == "order_id" && fs[1].0 == "command_event_id" && fs[2].0 == "status";
    assert fs[3].0 == "reason" && fs[4].0 == "first_seen_ts";
    var gs := fs[i := (fs[i].0, j)];
    assert gs[0].0 == "order_id" && gs[1].0 == "command_event_id" && gs[2].0 == "status";
    assert gs[3].0 == "reason" && gs[4].0 == "first_seen_ts";
    AllFields(gs);
  }

  predicate DistinctNames(fs: seq<(string, Json)>) {
    forall i, j :: 0 <= i < j < |fs| ==> fs[i].0 != fs[j].0
  }

  lemma {:induction false} FieldAt(fs: seq<(string, Json)>, i: nat)
    requires i < |fs| && DistinctNames(fs)
    ensures Field(fs, fs[i].0) == Some(fs[i].1)
  {
    if i < |fs| - 1 {
      FieldAt(fs[..|fs| - 1], i);
    }
  }

  lemma AllFields(fs: seq<(string, Json)>)
    requires DistinctNames(fs)
    ensures forall i | 0 <= i < |fs| :: Field(fs, fs[i].0) == Some(fs[i].1)
  {
    forall i | 0 <= i < |fs| ensures Field(fs, fs[i].0) == Some(fs[i].1) { FieldAt(fs, i); }
  }
}
