/**
  Bus events, their JSON wire shape and its encoder
  (crates/oxidhome-core/src/api/server.rs, WireEvent and its parts).
 */
module WireEvents {
  import opened Prelude

  datatype Float = Finite(value: real) | NonFinite

  datatype Value =
    | BoolVal(flag: bool) | IntVal(number: int) | FloatVal(float: Float)
    | StringVal(text: string) | BytesVal(bytes: seq<int>) | JsonVal(json: string)

  datatype KeyValue = KeyValue(key: string, value: Value)

  datatype ButtonEvent = Pressed | Released | SinglePress | DoublePress | LongPress | Rotated(delta: Float)

  datatype Payload =
    | StateChanged(capability: string, fields: seq<KeyValue>)
    | Button(button: ButtonEvent)
    | Inference(model: string, output: string, frameTimestamp: Option<nat>)
    | Custom(topic: string, body: string)

  datatype BusEvent = BusEvent(
    rowId: Option<nat>, device: Option<string>, timestamp: nat,
    originPlugin: string, originInstance: string, payload: Payload)

  // ---- The serializer's data model and the JSON it is written as ----

  /** What a derived serializer hands to the JSON writer. */
  datatype Ser =
    | SNull | SBool(flag: bool) | SInt(number: int) | SFloat(float: Float) | SText(text: string)
    | SSeq(items: seq<Ser>) | SMap(entries: seq<SerEntry>)

  datatype SerEntry = SerEntry(key: Ser, value: Ser)

  datatype Json =
    | JNull | JBool(flag: bool) | JInt(number: int) | JReal(value: real) | JText(text: string)
    | JArray(items: seq<Json>) | JObject(members: seq<Member>)

  datatype Member = Member(name: string, value: Json)

  /** The writer: a float that is not finite becomes null.  It refuses a map whose keys
      cannot be written as text; here, every key that is not text. */
  function Encode(s: Ser): Option<Json> {
    match s
    case SNull => Some(JNull)
    case SBool(b) => Some(JBool(b))
    case SInt(n) => Some(JInt(n))
    case SFloat(f) => Some(if f.Finite? then JReal(f.value) else JNull)
    case SText(t) => Some(JText(t))
    case SSeq(items) => var all := EncodeItems(items); if all.None? then None else Some(JArray(all.value))
    case SMap(entries) => var all := EncodeEntries(entries); if all.None? then None else Some(JObject(all.value))
  }

  function EncodeItems(items: seq<Ser>): Option<seq<Json>> {
    if items == [] then Some([])
    else
      var first, rest := Encode(items[0]), EncodeItems(items[1..]);
      if first.None? || rest.None? then None else Some([first.value] + rest.value)
  }

  function EncodeEntries(entries: seq<SerEntry>): Option<seq<Member>> {
    if entries == [] then Some([])
    else
      var first, rest := EncodeEntry(entries[0]), EncodeEntries(entries[1..]);
      if first.None? || rest.None? then None else Some([first.value] + rest.value)
  }

  function EncodeEntry(entry: SerEntry): Option<Member> {
    var value := Encode(entry.value);
    if !entry.key.SText? || value.None? then None else Some(Member(entry.key.text, value.value))
  }

  // ---- The derived serializers ----

  function Tagged(tag: string, content: Ser): Ser {
    SMap([SerEntry(SText("t"), SText(tag)), SerEntry(SText("v"), content)])
  }

  function Numbers(bytes: seq<int>): seq<Ser> {
    if bytes == [] then [] else [SInt(bytes[0])] + Numbers(bytes[1..])
  }

  function SerValue(v: Value): Ser {
    match v
    case BoolVal(b) => Tagged("Bool", SBool(b))
    case IntVal(n) => Tagged("Int", SInt(n))
    case FloatVal(f) => Tagged("Float", SFloat(f))
    case StringVal(t) => Tagged("String", SText(t))
    case BytesVal(bytes) => Tagged("Bytes", SSeq(Numbers(bytes)))
    case JsonVal(j) => Tagged("Json", SText(j))
  }

  function SerField(f: KeyValue): Ser {
    SMap([SerEntry(SText("key"), SText(f.key)), SerEntry(SText("value"), SerValue(f.value))])
  }

  function SerFields(fields: seq<KeyValue>): seq<Ser> {
    if fields == [] then [] else [SerField(fields[0])] + SerFields(fields[1..])
  }

  function VariantName(b: ButtonEvent): string {
    match b
    case Pressed => "pressed"
    case Released => "released"
    case SinglePress => "single_press"
    case DoublePress => "double_press"
    case LongPress => "long_press"
    case Rotated(_) => "rotated"
  }

  /** The payload, tagged by its kind; absent optional parts are left out. */
  function SerPayload(p: Payload): Ser {
    match p
    case StateChanged(capability, fields) =>
      SMap([SerEntry(SText("kind"), SText("state_changed")), SerEntry(SText("capability"), SText(capability)),
            SerEntry(SText("fields"), SSeq(SerFields(fields)))])
    case Button(b) =>
      SMap([SerEntry(SText("kind"), SText("button")), SerEntry(SText("variant"), SText(VariantName(b)))]
           + (if b.Rotated? then [SerEntry(SText("delta"), SFloat(b.delta))] else []))
    case Inference(model, output, timestamp) =>
      SMap([SerEntry(SText("kind"), SText("inference")), SerEntry(SText("model"), SText(model)),
            SerEntry(SText("payload"), SText(output))]
           + (if timestamp.Some? then [SerEntry(SText("frame_timestamp_ms"), SInt(timestamp.value))] else []))
    case Custom(topic, body) =>
      SMap([SerEntry(SText("kind"), SText("custom")), SerEntry(SText("topic"), SText(topic)),
            SerEntry(SText("payload"), SText(body))])
  }

  function Topic(p: Payload): string {
    match p
    case StateChanged(capability, _) => capability
    case Button(_) => "button"
    case Inference(_, _, _) => "inference"
    case Custom(topic, _) => topic
  }

  function SerEvent(e: BusEvent): Ser {
    SMap((if e.rowId.Some? then [SerEntry(SText("id"), SInt(e.rowId.value))] else [])
         + [SerEntry(SText("device_id"), if e.device.Some? then SText(e.device.value) else SNull),
            SerEntry(SText("timestamp_ms"), SInt(e.timestamp)),
            SerEntry(SText("topic"), SText(Topic(e.payload))),
            SerEntry(SText("origin_plugin_id"), SText(e.originPlugin)),
            SerEntry(SText("origin_instance_id"), SText(e.originInstance)),
            SerEntry(SText("payload"), SerPayload(e.payload))])
  }

  // ---- No event is refused ----

  /** Every map below has text keys. */
  predicate TextKeyed(s: Ser) {
    match s
    case SSeq(items) => forall k :: 0 <= k < |items| ==> TextKeyed(items[k])
    case SMap(entries) => forall k :: 0 <= k < |entries| ==> entries[k].key.SText? && TextKeyed(entries[k].value)
    case _ => true
  }

  /** The writer refuses exactly the values with a map key that is not text. */
  lemma {:induction false} EncodesExactly(s: Ser)
    ensures Encode(s).Some? <==> TextKeyed(s)
  {
    match s
    case SSeq(items) => ItemsEncodeExactly(items);
    case SMap(entries) => EntriesEncodeExactly(entries);
    case _ =>
  }

  lemma {:induction false} ItemsEncodeExactly(items: seq<Ser>)
    ensures EncodeItems(items).Some? <==> forall k :: 0 <= k < |items| ==> TextKeyed(items[k])
  {
    if items == [] {
    } else {
      EncodesExactly(items[0]);
      ItemsEncodeExactly(items[1..]);
      assert forall k :: 0 < k < |items| ==> items[k] == items[1..][k - 1];
    }
  }

  lemma {:induction false} EntriesEncodeExactly(entries: seq<SerEntry>)
    ensures EncodeEntries(entries).Some? <==>
            forall k :: 0 <= k < |entries| ==> entries[k].key.SText? && TextKeyed(entries[k].value)
  {
    if entries == [] {
    } else {
      EntryEncodesExactly(entries[0]);
      EntriesEncodeExactly(entries[1..]);
      assert forall k :: 0 < k < |entries| ==> entries[k] == entries[1..][k - 1];
    }
  }

  lemma {:induction false} EntryEncodesExactly(entry: SerEntry)
    ensures EncodeEntry(entry).Some? <==> entry.key.SText? && TextKeyed(entry.value)
  {
    EncodesExactly(entry.value);
  }

  lemma {:induction false} NumbersKeyed(bytes: seq<int>)
    ensures forall k :: 0 <= k < |Numbers(bytes)| ==> TextKeyed(Numbers(bytes)[k])
  {
    if bytes == [] {
    } else {
      NumbersKeyed(bytes[1..]);
    }
  }

  lemma ValueKeyed(v: Value)
    ensures TextKeyed(SerValue(v))
  {
    if v.BytesVal? {
      NumbersKeyed(v.bytes);
    }
  }

  lemma {:induction false} FieldsKeyed(fields: seq<KeyValue>)
    ensures forall k :: 0 <= k < |SerFields(fields)| ==> TextKeyed(SerFields(fields)[k])
  {
    if fields == [] {
    } else {
      ValueKeyed(fields[0].value);
      FieldsKeyed(fields[1..]);
    }
  }

  lemma PayloadKeyed(p: Payload)
    ensures TextKeyed(SerPayload(p))
  {
    if p.StateChanged? {
      FieldsKeyed(p.fields);
    }
  }

  /** Every bus event can be encoded. */
  lemma EveryEventEncodes(e: BusEvent)
    ensures Encode(SerEvent(e)).Some?
  {
    PayloadKeyed(e.payload);
    hide SerPayload;
    assert TextKeyed(SerEvent(e));
    EncodesExactly(SerEvent(e));
  }

  function Encoded(e: BusEvent): Json {
    EveryEventEncodes(e);
    Encode(SerEvent(e)).value
  }

  // ---- What a client reads ----

  function Find(members: seq<Member>, name: string): Option<Json> {
    if members == [] then None
    else if members[0].name == name then Some(members[0].value) else Find(members[1..], name)
  }

  /** The value a client finds under a name. */
  function Get(j: Json, name: string): Option<Json> {
    if j.JObject? then Find(j.members, name) else None
  }

  predicate Keyed(entries: seq<SerEntry>, k: nat, name: string) {
    && k < |entries| && entries[k].key == SText(name)
    && forall j :: 0 <= j < k ==> entries[j].key != SText(name)
  }

  lemma {:induction false} FindsKeyed(entries: seq<SerEntry>, k: nat, name: string)
    requires EncodeEntries(entries).Some? && Keyed(entries, k, name)
    ensures Encode(entries[k].value).Some?
    ensures Find(EncodeEntries(entries).value, name) == Encode(entries[k].value)
    decreases k
  {
    if k > 0 {
      assert entries[0].key != SText(name);
      FindsKeyed(entries[1..], k - 1, name);
    }
  }

  lemma {:induction false} FindsNone(entries: seq<SerEntry>, name: string)
    requires EncodeEntries(entries).Some? && forall j :: 0 <= j < |entries| ==> entries[j].key != SText(name)
    ensures Find(EncodeEntries(entries).value, name) == None
    decreases |entries|
  {
    if entries == [] {
    } else {
      assert entries[0].key != SText(name);
      FindsNone(entries[1..], name);
    }
  }

  /** The first entry with a key is what is found under it... */
  lemma FindsFirst(entries: seq<SerEntry>, k: nat, name: string)
    requires Encode(SMap(entries)).Some? && Keyed(entries, k, name)
    ensures Encode(entries[k].value).Some?
    ensures Get(Encode(SMap(entries)).value, name) == Encode(entries[k].value)
  {
    hide Find, Keyed;
    FindsKeyed(entries, k, name);
  }

  /** ...and without one nothing is. */
  lemma FindsNothing(entries: seq<SerEntry>, name: string)
    requires Encode(SMap(entries)).Some? && forall j :: 0 <= j < |entries| ==> entries[j].key != SText(name)
    ensures Get(Encode(SMap(entries)).value, name) == None
  {
    hide Find;
    FindsNone(entries, name);
  }

  ghost predicate FloatWritten(f: Float, j: Json) {
    match f
    case Finite(x) => j == JReal(x)
    case NonFinite => j == JNull
  }

  ghost predicate ValueWritten(v: Value, j: Json) {
    match v
    case BoolVal(b) => Get(j, "t") == Some(JText("Bool")) && Get(j, "v") == Some(JBool(b))
    case IntVal(n) => Get(j, "t") == Some(JText("Int")) && Get(j, "v") == Some(JInt(n))
    case FloatVal(f) =>
      Get(j, "t") == Some(JText("Float")) && Get(j, "v").Some? && FloatWritten(f, Get(j, "v").value)
    case StringVal(t) => Get(j, "t") == Some(JText("String")) && Get(j, "v") == Some(JText(t))
    case BytesVal(bytes) =>
      && Get(j, "t") == Some(JText("Bytes")) && Get(j, "v").Some? && Get(j, "v").value.JArray?
      && var items := Get(j, "v").value.items;
         |items| == |bytes| && forall k :: 0 <= k < |bytes| ==> items[k] == JInt(bytes[k])
    case JsonVal(t) => Get(j, "t") == Some(JText("Json")) && Get(j, "v") == Some(JText(t))
  }

  ghost predicate FieldWritten(f: KeyValue, j: Json) {
    Get(j, "key") == Some(JText(f.key)) && Get(j, "value").Some? && ValueWritten(f.value, Get(j, "value").value)
  }

  ghost predicate FieldsWritten(fields: seq<KeyValue>, j: Json) {
    j.JArray? && |j.items| == |fields| && forall k :: 0 <= k < |fields| ==> FieldWritten(fields[k], j.items[k])
  }

  ghost predicate ButtonWritten(b: ButtonEvent, j: Json) {
    && (b.Pressed? ==> Get(j, "variant") == Some(JText("pressed")))
    && (b.Released? ==> Get(j, "variant") == Some(JText("released")))
    && (b.SinglePress? ==> Get(j, "variant") == Some(JText("single_press")))
    && (b.DoublePress? ==> Get(j, "variant") == Some(JText("double_press")))
    && (b.LongPress? ==> Get(j, "variant") == Some(JText("long_press")))
    && (b.Rotated? ==>
          Get(j, "variant") == Some(JText("rotated"))
          && Get(j, "delta").Some? && FloatWritten(b.delta, Get(j, "delta").value))
    && (!b.Rotated? ==> Get(j, "delta") == None)
  }

  ghost predicate PayloadWritten(p: Payload, j: Json) {
    match p
    case StateChanged(capability, fields) =>
      && Get(j, "kind") == Some(JText("state_changed")) && Get(j, "capability") == Some(JText(capability))
      && Get(j, "fields").Some? && FieldsWritten(fields, Get(j, "fields").value)
    case Button(b) => Get(j, "kind") == Some(JText("button")) && ButtonWritten(b, j)
    case Inference(model, output, timestamp) =>
      && Get(j, "kind") == Some(JText("inference")) && Get(j, "model") == Some(JText(model))
      && Get(j, "payload") == Some(JText(output))
      && Get(j, "frame_timestamp_ms") == (if timestamp.Some? then Some(JInt(timestamp.value)) else None)
    case Custom(topic, body) =>
      && Get(j, "kind") == Some(JText("custom")) && Get(j, "topic") == Some(JText(topic))
      && Get(j, "payload") == Some(JText(body))
  }

  lemma TwoKeys(a: string, x: Ser, b: string, y: Ser)
    requires a != b && Encode(SMap([SerEntry(SText(a), x), SerEntry(SText(b), y)])).Some?
    ensures var j := Encode(SMap([SerEntry(SText(a), x), SerEntry(SText(b), y)])).value;
      Get(j, a) == Encode(x) && Get(j, b) == Encode(y) && Encode(x).Some? && Encode(y).Some?
  {
    var entries := [SerEntry(SText(a), x), SerEntry(SText(b), y)];
    FindsFirst(entries, 0, a);
    FindsFirst(entries, 1, b);
  }

  lemma {:induction false} NumbersWritten(bytes: seq<int>)
    ensures EncodeItems(Numbers(bytes)).Some?
    ensures var items := EncodeItems(Numbers(bytes)).value;
      |items| == |bytes| && forall k :: 0 <= k < |bytes| ==> items[k] == JInt(bytes[k])
  {
    if bytes == [] {
    } else {
      NumbersWritten(bytes[1..]);
      assert forall k :: 0 < k < |bytes| ==> bytes[k] == bytes[1..][k - 1];
    }
  }

  lemma ValueReads(v: Value)
    ensures Encode(SerValue(v)).Some? && ValueWritten(v, Encode(SerValue(v)).value)
  {
    ValueKeyed(v);
    EncodesExactly(SerValue(v));
    assert "t" != "v";
    match v
    case BoolVal(b) => TwoKeys("t", SText("Bool"), "v", SBool(b));
    case IntVal(n) => TwoKeys("t", SText("Int"), "v", SInt(n));
    case FloatVal(f) => TwoKeys("t", SText("Float"), "v", SFloat(f));
    case StringVal(t) => TwoKeys("t", SText("String"), "v", SText(t));
    case BytesVal(bytes) =>
      NumbersWritten(bytes);
      TwoKeys("t", SText("Bytes"), "v", SSeq(Numbers(bytes)));
    case JsonVal(t) => TwoKeys("t", SText("Json"), "v", SText(t));
  }

  lemma FieldReads(f: KeyValue)
    ensures Encode(SerField(f)).Some? && FieldWritten(f, Encode(SerField(f)).value)
  {
    ValueKeyed(f.value);
    assert TextKeyed(SerField(f));
    EncodesExactly(SerField(f));
    ValueReads(f.value);
    hide SerValue, ValueWritten;
    assert "key" != "value";
    TwoKeys("key", SText(f.key), "value", SerValue(f.value));
  }

  lemma {:induction false} FieldsRead(fields: seq<KeyValue>)
    ensures EncodeItems(SerFields(fields)).Some?
    ensures FieldsWritten(fields, JArray(EncodeItems(SerFields(fields)).value))
  {
    if fields == [] {
    } else {
      FieldReads(fields[0]);
      FieldsRead(fields[1..]);
      hide FieldWritten, SerField;
      assert forall k :: 0 < k < |fields| ==> fields[k] == fields[1..][k - 1];
    }
  }

  lemma ButtonReads(b: ButtonEvent)
    requires Encode(SerPayload(Button(b))).Some?
    ensures PayloadWritten(Button(b), Encode(SerPayload(Button(b))).value)
  {
    var entries := SerPayload(Button(b)).entries;
    FindsFirst(entries, 0, "kind");
    FindsFirst(entries, 1, "variant");
    if b.Rotated? {
      FindsFirst(entries, 2, "delta");
    } else {
      FindsNothing(entries, "delta");
    }
  }

  lemma InferenceReads(p: Payload)
    requires p.Inference? && Encode(SerPayload(p)).Some?
    ensures PayloadWritten(p, Encode(SerPayload(p)).value)
  {
    var entries := SerPayload(p).entries;
    FindsFirst(entries, 0, "kind");
    FindsFirst(entries, 1, "model");
    FindsFirst(entries, 2, "payload");
    if p.frameTimestamp.Some? {
      FindsFirst(entries, 3, "frame_timestamp_ms");
    } else {
      FindsNothing(entries, "frame_timestamp_ms");
    }
  }

  lemma StateReads(p: Payload)
    requires p.StateChanged? && Encode(SerPayload(p)).Some?
    ensures PayloadWritten(p, Encode(SerPayload(p)).value)
  {
    var entries := SerPayload(p).entries;
    FieldsRead(p.fields);
    hide FieldsWritten, SerFields;
    FindsFirst(entries, 0, "kind");
    FindsFirst(entries, 1, "capability");
    FindsFirst(entries, 2, "fields");
  }

  lemma CustomReads(p: Payload)
    requires p.Custom? && Encode(SerPayload(p)).Some?
    ensures PayloadWritten(p, Encode(SerPayload(p)).value)
  {
    var entries := SerPayload(p).entries;
    FindsFirst(entries, 0, "kind");
    FindsFirst(entries, 1, "topic");
    FindsFirst(entries, 2, "payload");
  }

  lemma PayloadReads(p: Payload)
    ensures Encode(SerPayload(p)).Some? && PayloadWritten(p, Encode(SerPayload(p)).value)
  {
    PayloadKeyed(p);
    EncodesExactly(SerPayload(p));
    hide SerPayload, PayloadWritten, Encode;
    match p
    case StateChanged(_, _) => StateReads(p);
    case Button(b) => ButtonReads(b);
    case Inference(_, _, _) => InferenceReads(p);
    case Custom(_, _) => CustomReads(p);
  }

  /** What the client reads under the event's names: its row id if it has one, the rest
      always, and the topic by the kind of payload. */
  ghost predicate EventWritten(e: BusEvent, j: Json) {
    && Get(j, "id") == (if e.rowId.Some? then Some(JInt(e.rowId.value)) else None)
    && Get(j, "device_id") == Some(if e.device.Some? then JText(e.device.value) else JNull)
    && Get(j, "timestamp_ms") == Some(JInt(e.timestamp))
    && Get(j, "origin_plugin_id") == Some(JText(e.originPlugin))
    && Get(j, "origin_instance_id") == Some(JText(e.originInstance))
    && Get(j, "payload").Some? && PayloadWritten(e.payload, Get(j, "payload").value)
    && Get(j, "topic") == Some(JText(match e.payload
                                     case StateChanged(capability, _) => capability
                                     case Button(_) => "button"
                                     case Inference(_, _, _) => "inference"
                                     case Custom(topic, _) => topic))
  }

  lemma OriginReads(e: BusEvent)
    requires Encode(SerEvent(e)).Some?
    ensures var j := Encode(SerEvent(e)).value;
      && Get(j, "id") == (if e.rowId.Some? then Some(JInt(e.rowId.value)) else None)
      && Get(j, "origin_plugin_id") == Some(JText(e.originPlugin))
      && Get(j, "origin_instance_id") == Some(JText(e.originInstance))
      && Get(j, "payload") == Encode(SerPayload(e.payload))
  {
    hide SerPayload;
    var entries := SerEvent(e).entries;
    var n := if e.rowId.Some? then 1 else 0;
    FindsFirst(entries, n + 3, "origin_plugin_id");
    FindsFirst(entries, n + 4, "origin_instance_id");
    FindsFirst(entries, n + 5, "payload");
    if e.rowId.Some? {
      FindsFirst(entries, 0, "id");
    } else {
      FindsNothing(entries, "id");
    }
  }

  lemma HeadReads(e: BusEvent)
    requires Encode(SerEvent(e)).Some?
    ensures var j := Encode(SerEvent(e)).value;
      && Get(j, "device_id") == Some(if e.device.Some? then JText(e.device.value) else JNull)
      && Get(j, "timestamp_ms") == Some(JInt(e.timestamp))
      && Get(j, "topic") == Some(JText(Topic(e.payload)))
  {
    hide SerPayload;
    var entries := SerEvent(e).entries;
    var n := if e.rowId.Some? then 1 else 0;
    FindsFirst(entries, n, "device_id");
    FindsFirst(entries, n + 1, "timestamp_ms");
    FindsFirst(entries, n + 2, "topic");
  }

  lemma EventReads(e: BusEvent)
    ensures EventWritten(e, Encoded(e))
  {
    EveryEventEncodes(e);
    PayloadReads(e.payload);
    hide SerPayload, PayloadWritten, SerEvent, Encode, Get;
    OriginReads(e);
    HeadReads(e);
  }

  // ---- The wire shape loses nothing ----

  lemma FloatsDiffer(f: Float, g: Float, j: Json)
    requires FloatWritten(f, j) && FloatWritten(g, j)
    ensures f == g
  {
  }

  lemma ValuesDiffer(v: Value, w: Value, j: Json)
    requires ValueWritten(v, j) && ValueWritten(w, j)
    ensures v == w
  {
    TagsDiffer(v, w, j);
    if v.BytesVal? {
      assert v.bytes == w.bytes;
    }
  }

  function Tag(v: Value): string {
    match v
    case BoolVal(_) => "Bool"
    case IntVal(_) => "Int"
    case FloatVal(_) => "Float"
    case StringVal(_) => "String"
    case BytesVal(_) => "Bytes"
    case JsonVal(_) => "Json"
  }

  lemma TagsDiffer(v: Value, w: Value, j: Json)
    requires ValueWritten(v, j) && ValueWritten(w, j)
    ensures Tag(v) == Tag(w)
    ensures v.BoolVal? == w.BoolVal? && v.IntVal? == w.IntVal? && v.FloatVal? == w.FloatVal?
    ensures v.StringVal? == w.StringVal? && v.BytesVal? == w.BytesVal?
  {
    assert Get(j, "t") == Some(JText(Tag(v))) && Get(j, "t") == Some(JText(Tag(w)));
    hide Get;
    assert "Bool"[0] == 'B' && "Bool"[1] == 'o' && "Bytes"[0] == 'B' && "Bytes"[1] == 'y';
    assert "Int"[0] == 'I' && "Float"[0] == 'F' && "String"[0] == 'S' && "Json"[0] == 'J';
  }

  lemma ButtonsDiffer(b: ButtonEvent, c: ButtonEvent, j: Json)
    requires ButtonWritten(b, j) && ButtonWritten(c, j)
    ensures b == c
  {
    hide Get;
    assert |"pressed"| == 7 && |"released"| == 8 && |"single_press"| == 12 && |"double_press"| == 12;
    assert |"long_press"| == 10 && |"rotated"| == 7 && "pressed"[0] == 'p' && "single_press"[0] == 's';
  }

  lemma PayloadsDiffer(p: Payload, q: Payload, j: Json)
    requires PayloadWritten(p, j) && PayloadWritten(q, j)
    ensures p == q
  {
    hide Get, ButtonWritten, FieldsWritten;
    assert |"state_changed"| == 13 && |"button"| == 6 && |"inference"| == 9 && |"custom"| == 6;
    assert "button"[0] == 'b' && "custom"[0] == 'c';
    if p.StateChanged? && q.StateChanged? {
      FieldsDiffer(p.fields, q.fields, Get(j, "fields").value);
    } else if p.Button? && q.Button? {
      ButtonsDiffer(p.button, q.button, j);
    }
  }

  /** Different events never look alike to a client. */
  lemma EncodingLosesNothing(e: BusEvent, f: BusEvent)
    ensures Encoded(e) == Encoded(f) <==> e == f
  {
    EventReads(e);
    EventReads(f);
    if Encoded(e) == Encoded(f) {
      var j := Encoded(e);
      hide Encoded, Get, PayloadWritten;
      PayloadsDiffer(e.payload, f.payload, Get(j, "payload").value);
    }
  }

  lemma FieldsDiffer(a: seq<KeyValue>, b: seq<KeyValue>, j: Json)
    requires FieldsWritten(a, j) && FieldsWritten(b, j)
    ensures a == b
  {
    hide ValueWritten;
    forall k | 0 <= k < |a|
      ensures a[k] == b[k]
    {
      assert FieldWritten(a[k], j.items[k]) && FieldWritten(b[k], j.items[k]);
      ValuesDiffer(a[k].value, b[k].value, Get(j.items[k], "value").value);
    }
  }
}

/**
  The two event tails: the WebSocket loop of crates/oxidhome-core/src/api/server.rs and
  the buffered Connect stream of crates/oxidhome-core/src/api/connect_rpc.rs.
 */
module Tail {
  import opened Prelude
  import opened WireEvents

  /** One bus delivery: an event, and how many were skipped before it. */
  datatype Message<E> = Message(event: E, skippedBefore: nat)

  datatype Frame<E> = Lagged(skipped: nat) | Event(event: E)

  /** What a client is owed for one delivery: the lag notice first, then the event. */
  function Owed<E>(m: Message<E>): seq<Frame<E>> {
    (if m.skippedBefore > 0 then [Lagged(m.skippedBefore)] else []) + [Event(m.event)]
  }

  function AllOwed<E>(messages: seq<Message<E>>): seq<Frame<E>> {
    if messages == [] then [] else AllOwed(messages[..|messages| - 1]) + Owed(messages[|messages| - 1])
  }

  /** One more delivery owes one more event, after its lag notice if it has one. */
  lemma OneMoreOwed<E>(messages: seq<Message<E>>, event: E, skipped: nat)
    ensures AllOwed<E>([]) == []
    ensures AllOwed(messages + [Message(event, skipped)]) ==
            AllOwed(messages) + if skipped > 0 then [Lagged(skipped), Event(event)] else [Event(event)]
  {
    assert (messages + [Message(event, skipped)])[..|messages|] == messages;
  }

  // ---- The WebSocket loop ----

  datatype WsFrame = Notice(lagged: nat) | Text(json: Json)

  /** What the loop sends for one delivery: the lag notice, then the event's text, or
      nothing more if it cannot be encoded. */
  function Sent(m: Message<BusEvent>): seq<WsFrame> {
    (if m.skippedBefore > 0 then [Notice(m.skippedBefore)] else [])
    + (if Encode(SerEvent(m.event)).Some? then [Text(Encode(SerEvent(m.event)).value)] else [])
  }

  function AllSent(messages: seq<Message<BusEvent>>): seq<WsFrame> {
    if messages == [] then [] else AllSent(messages[..|messages| - 1]) + Sent(messages[|messages| - 1])
  }

  /** The loop over the deliveries until the channel closes; `capacity` is how many
      frames the client takes before its connection fails. */
  method TailEventsLoop(messages: seq<Message<BusEvent>>, capacity: nat) returns (frames: seq<WsFrame>)
    ensures frames <= AllSent(messages) && |frames| <= capacity
    ensures |AllSent(messages)| <= capacity ==> frames == AllSent(messages)
    ensures |AllSent(messages)| > capacity ==> |frames| == capacity
  {
    hide Encode, SerEvent;
    frames := [];
    for i := 0 to |messages|
      invariant frames == AllSent(messages[..i]) && |frames| <= capacity
    {
      var m := messages[i];
      assert messages[..i + 1][..i] == messages[..i];
      assert AllSent(messages[..i + 1]) == frames + Sent(m);
      SentIsPrefix(messages, i + 1);
      if m.skippedBefore > 0 {
        if |frames| == capacity {
          return;
        }
        frames := frames + [Notice(m.skippedBefore)];
      }
      var text := Encode(SerEvent(m.event));
      if text.None? {
        continue;
      }
      if |frames| == capacity {
        return;
      }
      frames := frames + [Text(text.value)];
    }
    assert messages[..|messages|] == messages;
  }

  lemma {:induction false} SentIsPrefix(messages: seq<Message<BusEvent>>, i: nat)
    requires i <= |messages|
    ensures AllSent(messages[..i]) <= AllSent(messages)
  {
    hide Sent;
    if i < |messages| {
      var front := messages[..|messages| - 1];
      SentIsPrefix(front, i);
      assert front[..i] == messages[..i];
    } else {
      assert messages[..i] == messages;
    }
  }

  // ---- The Connect stream ----

  /** The stream carries at most one buffered event from one step to the next. */
  datatype Stream<E> = Stream(pending: seq<Message<E>>, buffered: Option<E>)

  datatype Yield<E> = Yield(frame: Frame<E>, next: Stream<E>)

  function Step<E>(s: Stream<E>): Option<Yield<E>> {
    if s.buffered.Some? then Some(Yield(Event(s.buffered.value), Stream(s.pending, None)))
    else if s.pending == [] then None
    else
      var m := s.pending[0];
      if m.skippedBefore == 0 then Some(Yield(Event(m.event), Stream(s.pending[1..], None)))
      else Some(Yield(Lagged(m.skippedBefore), Stream(s.pending[1..], Some(m.event))))
  }

  /** The frames of the first `n` steps, and the state after them. */
  function Run<E>(s: Stream<E>, n: nat): (seq<Frame<E>>, Stream<E>)
    decreases n
  {
    if n == 0 || Step(s).None? then ([], s)
    else
      var (frames, rest) := Run(Step(s).value.next, n - 1);
      ([Step(s).value.frame] + frames, rest)
  }

  /** What the stream still owes from a state. */
  function Remaining<E>(s: Stream<E>): seq<Frame<E>> {
    (if s.buffered.Some? then [Event(s.buffered.value)] else []) + AllOwed(s.pending)
  }

  lemma {:induction false} AllOwedSplits<E>(a: seq<Message<E>>, b: seq<Message<E>>)
    ensures AllOwed(a + b) == AllOwed(a) + AllOwed(b)
  {
    if b == [] {
      assert a + b == a;
    } else {
      AllOwedSplits(a, b[..|b| - 1]);
      hide Owed;
      assert (a + b)[..|a + b| - 1] == a + b[..|b| - 1];
    }
  }

  /** Each step pays the first frame owed; the stream ends when nothing is owed. */
  lemma StepPays<E>(s: Stream<E>)
    ensures Step(s).None? <==> Remaining(s) == []
    ensures Step(s).Some? ==> Remaining(s) == [Step(s).value.frame] + Remaining(Step(s).value.next)
  {
    if s.buffered.None? && s.pending != [] {
      AllOwedSplits([s.pending[0]], s.pending[1..]);
      assert s.pending == [s.pending[0]] + s.pending[1..];
      assert [s.pending[0]][..0] == [];
    }
  }

  lemma {:induction false} RunPays<E>(s: Stream<E>, n: nat)
    ensures Run(s, n).0 + Remaining(Run(s, n).1) == Remaining(s)
    ensures |Run(s, n).0| == if n < |Remaining(s)| then n else |Remaining(s)|
    decreases n
  {
    StepPays(s);
    if n > 0 && Step(s).Some? {
      RunPays(Step(s).value.next, n - 1);
    }
  }

  // ---- Both tails ----

  lemma {:induction false} RunTakesInOrder<E>(s: Stream<E>, n: nat)
    ensures |Run(s, n).1.pending| <= |s.pending|
    ensures Run(s, n).1.pending == s.pending[|s.pending| - |Run(s, n).1.pending|..]
    decreases n
  {
    if n > 0 && Step(s).Some? {
      RunTakesInOrder(Step(s).value.next, n - 1);
    }
  }

  /** How many deliveries the first `n` steps have taken from the bus. */
  function Taken<E>(messages: seq<Message<E>>, n: nat): nat {
    RunTakesInOrder(Stream(messages, None), n);
    |messages| - |Run(Stream(messages, None), n).1.pending|
  }

  /** At any cut the Connect output is exactly the frames owed for the deliveries taken
      so far, except for the buffered event, which is then the one frame missing. */
  lemma ConnectAtAnyCut<E>(messages: seq<Message<E>>, n: nat)
    ensures Taken(messages, n) <= |messages|
    ensures var (frames, rest) := Run(Stream(messages, None), n);
      AllOwed(messages[..Taken(messages, n)]) ==
      frames + (if rest.buffered.Some? then [Event(rest.buffered.value)] else [])
  {
    var s := Stream(messages, None);
    var (frames, rest) := Run(s, n);
    var k := Taken(messages, n);
    RunPays(s, n);
    RunTakesInOrder(s, n);
    AllOwedSplits(messages[..k], messages[k..]);
    assert messages == messages[..k] + messages[k..];
    var missing: seq<Frame<E>> := if rest.buffered.Some? then [Event(rest.buffered.value)] else [];
    assert AllOwed(messages[..k]) + AllOwed(messages[k..]) == frames + (missing + AllOwed(messages[k..]));
    hide AllOwed, Run;
    SameTail(AllOwed(messages[..k]), frames, missing, AllOwed(messages[k..]));
  }

  lemma SameTail<T>(a: seq<T>, f: seq<T>, m: seq<T>, c: seq<T>)
    requires a + c == f + (m + c)
    ensures a == f + m
  {
    assert f + (m + c) == (f + m) + c;
    assert |a| == |f + m|;
    assert a == (a + c)[..|a|] && f + m == ((f + m) + c)[..|f + m|];
  }

  /** A frame of the Connect stream as the WebSocket writes it. */
  function Written(f: Frame<BusEvent>): WsFrame {
    match f
    case Lagged(n) => Notice(n)
    case Event(e) => Text(Encoded(e))
  }

  function AllWritten(frames: seq<Frame<BusEvent>>): seq<WsFrame> {
    if frames == [] then [] else AllWritten(frames[..|frames| - 1]) + [Written(frames[|frames| - 1])]
  }

  lemma {:induction false} WrittenSplits(a: seq<Frame<BusEvent>>, b: seq<Frame<BusEvent>>)
    ensures AllWritten(a + b) == AllWritten(a) + AllWritten(b)
  {
    hide Written;
    if b == [] {
      assert a + b == a;
    } else {
      WrittenSplits(a, b[..|b| - 1]);
      assert (a + b)[..|a + b| - 1] == a + b[..|b| - 1];
    }
  }

  /** One delivery: nothing owed is ever skipped. */
  lemma SentIsOwed(m: Message<BusEvent>)
    ensures Sent(m) == AllWritten(Owed(m))
  {
    EveryEventEncodes(m.event);
    hide Encode, SerEvent;
    var lag: seq<Frame<BusEvent>> := if m.skippedBefore > 0 then [Lagged(m.skippedBefore)] else [];
    WrittenSplits(lag, [Event(m.event)]);
    WrittenOne(Event(m.event));
    if m.skippedBefore > 0 {
      WrittenOne(Lagged(m.skippedBefore));
    }
  }

  lemma WrittenOne(f: Frame<BusEvent>)
    ensures AllWritten([f]) == [Written(f)]
  {
    hide Written;
    assert [f][..0] == [];
  }

  lemma {:induction false} AllSentIsOwed(messages: seq<Message<BusEvent>>)
    ensures AllSent(messages) == AllWritten(AllOwed(messages))
  {
    if messages == [] {
    } else {
      var n := |messages| - 1;
      AllSentIsOwed(messages[..n]);
      SentIsOwed(messages[n]);
      WrittenSplits(AllOwed(messages[..n]), Owed(messages[n]));
    }
  }

  /** For every delivery sequence the two tails emit the same frames, each in its own
      encoding: a lag notice first when events were skipped, then the event, in order,
      and no event is dropped by either. */
  lemma TailsAgree(messages: seq<Message<BusEvent>>)
    ensures Run(Stream(messages, None), |AllOwed(messages)|).0 == AllOwed(messages)
    ensures AllSent(messages) == AllWritten(Run(Stream(messages, None), |AllOwed(messages)|).0)
  {
    hide Sent, Owed, AllSent, AllWritten, Run;
    RunPays(Stream(messages, None), |AllOwed(messages)|);
    var (frames, rest) := Run(Stream(messages, None), |AllOwed(messages)|);
    assert frames + Remaining(rest) == AllOwed(messages);
    assert Remaining(rest) == [] && frames + [] == frames;
    AllSentIsOwed(messages);
  }
}
