/** sync/envelope.py: the two kinds of message on the shared channel, on JSON that is already parsed.
    Serializing is a plain construction; parsing checks the fields in the order the source does. */
module Envelopes {
  import opened Text
  import opened Wrappers

  datatype Json =
    | JNull
    | JBool(b: bool)
    | JInt(i: int)
    | JFloat(x: real)
    | JNonFinite
    | JText(s: string)
    | JList(items: seq<Json>)
    | JDict(fields: map<string, Json>)

  const VALID_REGIONS := {"us", "eu", "asia"}
  const RECONCILE_VERSION := 1

  type Cell = (string, string)

  datatype Envelope =
    | CounterEnvelope(tier: string, user: string, window: int, region: string, value: int, tsMs: int)
    | ReconcileEnvelope(origin: string, window: int, tsMs: int, slots: map<Cell, int>, version: Json)

  // EscapedError is any exception other than EnvelopeError, which the relay does not catch.
  datatype Parsed<+T> = Parsed(value: T) | EnvelopeError | EscapedError

  /** What the JSON decoder makes of the bytes of a message: a value, the JSONDecodeError that `parse` turns
      into an EnvelopeError, or another exception, as for bytes that are no Unicode text. */
  datatype Decoded = Decoded(json: Json) | BadJson | DecodeRaises

  /** The library conversions the model does not define: `int` of a text, `str` of a non-text, and which
      integers can be converted to a float. */
  datatype Coercions = Coercions(intOfText: string -> Option<int>, strOf: Json -> string, fitsFloat: int -> bool) {
    // int(j), None where it raises.
    function Int(j: Json): Option<int> {
      match j
      case JInt(i) => Some(i)
      case JBool(b) => Some(if b then 1 else 0)
      case JFloat(x) => Some(if x >= 0.0 then x.Floor else -((-x).Floor))
      case JText(s) => intOfText(s)
      case _ => None
    }

    function Str(j: Json): string {
      if j.JText? then j.s else strOf(j)
    }
  }

  // `isinstance(value, int)`, which a Python bool also passes, and its value.
  function IntValue(j: Json): Option<int> {
    match j
    case JInt(i) => Some(i)
    case JBool(b) => Some(if b then 1 else 0)
    case _ => None
  }

  // `version == 1` in Python, where True and 1.0 equal 1.
  predicate IsVersionOne(j: Json) {
    j == JInt(RECONCILE_VERSION) || j == JBool(true) || j == JFloat(1.0)
  }

  function Field(obj: map<string, Json>, name: string): Json {
    if name in obj then obj[name] else JNull
  }

  // `name in VALID_REGIONS` raises TypeError on an unhashable value.
  predicate Unhashable(j: Json) {
    j.JList? || j.JDict?
  }

  predicate IsRegion(j: Json) {
    j.JText? && j.s in VALID_REGIONS
  }

  /** The keys and values the parser takes for slots. */
  ghost predicate SlotsWellFormed(raw: map<string, Json>) {
    forall k | k in raw :: ':' in k && IntValue(raw[k]).Some? && IntValue(raw[k]).value >= 0
  }

  // key.split(":", 1)
  function CutKey(key: string): Cell
    requires ':' in key
  {
    var i := FirstColon(key);
    assert i < |key|;
    (key[..i], key[i + 1..])
  }

  function JoinKey(c: Cell): string {
    c.0 + ":" + c.1
  }

  lemma JoinCut(key: string)
    requires ':' in key
    ensures JoinKey(CutKey(key)) == key && ColonFree(CutKey(key).0)
  {
  }

  lemma {:induction false} FirstColonOfJoin(a: string, b: string)
    requires ColonFree(a)
    ensures FirstColon(a + ":" + b) == |a|
  {
    var s := a + ":" + b;
    if a == "" {
    } else {
      assert s[1..] == a[1..] + ":" + b;
      FirstColonOfJoin(a[1..], b);
    }
  }

  /** Cutting a joined key gives the cell back exactly when its tier has no colon. */
  lemma CutJoin(c: Cell)
    ensures ':' in JoinKey(c)
    ensures CutKey(JoinKey(c)) == c <==> ColonFree(c.0)
  {
    var key := JoinKey(c);
    assert key[|c.0|] == ':';
    if ColonFree(c.0) {
      FirstColonOfJoin(c.0, c.1);
      assert key[..|c.0|] == c.0 && key[|c.0| + 1..] == c.1;
    } else {
      JoinCut(key);
    }
  }

  /** The slots a well-formed object stands for. */
  ghost function SlotsOf(raw: map<string, Json>): map<Cell, int>
    requires SlotsWellFormed(raw)
  {
    map c: Cell | c in (set k | k in raw :: CutKey(k)) && JoinKey(c) in raw :: IntValue(raw[JoinKey(c)]).value
  }

  lemma SlotsOfMembers(raw: map<string, Json>, c: Cell)
    requires SlotsWellFormed(raw)
    ensures c in SlotsOf(raw) <==> ColonFree(c.0) && JoinKey(c) in raw
    ensures c in SlotsOf(raw) ==> SlotsOf(raw)[c] == IntValue(raw[JoinKey(c)]).value
  {
    CutJoin(c);
    if c in SlotsOf(raw) {
      var k :| k in raw && CutKey(k) == c;
      JoinCut(k);
    }
  }

  // The loop visits the keys in an arbitrary order and stops at the first bad one.
  method ParseSlots(raw: map<string, Json>) returns (r: Parsed<map<Cell, int>>)
    ensures r == if SlotsWellFormed(raw) then Parsed(SlotsOf(raw)) else EnvelopeError
  {
    var slots: map<Cell, int> := map[];
    var rest := raw.Keys;
    while rest != {}
      invariant rest <= raw.Keys
      invariant forall k | k in raw && k !in rest ::
                  ':' in k && IntValue(raw[k]).Some? && IntValue(raw[k]).value >= 0
      invariant forall c: Cell :: c in slots <==> ColonFree(c.0) && JoinKey(c) in raw && JoinKey(c) !in rest
      invariant forall c | c in slots :: slots[c] == IntValue(raw[JoinKey(c)]).value
      decreases rest
    {
      var key :| key in rest;
      if ':' !in key {
        return EnvelopeError;
      }
      var value := IntValue(raw[key]);
      if value.None? || value.value < 0 {
        return EnvelopeError;
      }
      var cell := CutKey(key);
      JoinCut(key);
      forall c: Cell | ColonFree(c.0) && JoinKey(c) == key
        ensures c == cell
      {
        CutJoin(c);
      }
      slots := slots[cell := value.value];
      rest := rest - {key};
    }
    forall c: Cell
      ensures c in slots <==> c in SlotsOf(raw)
      ensures c in slots ==> slots[c] == SlotsOf(raw)[c]
    {
      SlotsOfMembers(raw, c);
    }
    assert slots == SlotsOf(raw);
    return Parsed(slots);
  }

  ghost function ParseReconcile(co: Coercions, obj: map<string, Json>): Parsed<Envelope> {
    var version := Field(obj, "v");
    if !IsVersionOne(version) then EnvelopeError
    else if !({"origin", "window_id", "ts_ms", "slots"} <= obj.Keys) then EnvelopeError
    else if Unhashable(obj["origin"]) then EscapedError
    else if !IsRegion(obj["origin"]) then EnvelopeError
    else if !obj["slots"].JDict? then EnvelopeError
    else if !SlotsWellFormed(obj["slots"].fields) then EnvelopeError
    else if co.Int(obj["window_id"]).None? || co.Int(obj["ts_ms"]).None? then EscapedError
    else Parsed(ReconcileEnvelope(obj["origin"].s, co.Int(obj["window_id"]).value, co.Int(obj["ts_ms"]).value,
                                  SlotsOf(obj["slots"].fields), version))
  }

  function ParseCounter(co: Coercions, obj: map<string, Json>): Parsed<Envelope> {
    if !({"tier", "user_id", "window_id", "region", "value", "ts_ms"} <= obj.Keys) then EnvelopeError
    else if Unhashable(obj["region"]) then EscapedError
    else if !IsRegion(obj["region"]) then EnvelopeError
    else
      var value := IntValue(obj["value"]);
      if value.None? || value.value < 0 then EnvelopeError
      else if co.Int(obj["window_id"]).None? || co.Int(obj["ts_ms"]).None? then EscapedError
      else Parsed(CounterEnvelope(co.Str(obj["tier"]), co.Str(obj["user_id"]), co.Int(obj["window_id"]).value,
                                  obj["region"].s, value.value, co.Int(obj["ts_ms"]).value))
  }

  /** `parse`, on what the decoder makes of the bytes. */
  ghost function ParseMessage(co: Coercions, message: Decoded): Parsed<Envelope> {
    match message
    case BadJson => EnvelopeError
    case DecodeRaises => EscapedError
    case Decoded(json) =>
      if !json.JDict? then EnvelopeError
      else if IsReconcile(json.fields) then ParseReconcile(co, json.fields)
      else ParseCounter(co, json.fields)
  }

  predicate IsReconcile(obj: map<string, Json>) {
    Field(obj, "kind") == JText("reconcile")
  }

  method Parse(co: Coercions, message: Decoded) returns (r: Parsed<Envelope>)
    ensures r == ParseMessage(co, message)
  {
    if message.BadJson? {
      return EnvelopeError;
    } else if message.DecodeRaises? {
      return EscapedError;
    }
    if !message.json.JDict? {
      return EnvelopeError;
    }
    var obj := message.json.fields;
    if Field(obj, "kind") != JText("reconcile") {
      return ParseCounter(co, obj);
    }
    var version := Field(obj, "v");
    if !IsVersionOne(version) {
      return EnvelopeError;
    }
    if "origin" !in obj || "window_id" !in obj || "ts_ms" !in obj || "slots" !in obj {
      return EnvelopeError;
    }
    if Unhashable(obj["origin"]) {
      return EscapedError;
    }
    if !IsRegion(obj["origin"]) || !obj["slots"].JDict? {
      return EnvelopeError;
    }
    var slots := ParseSlots(obj["slots"].fields);
    if !slots.Parsed? {
      return EnvelopeError;
    }
    var window, ts := co.Int(obj["window_id"]), co.Int(obj["ts_ms"]);
    if window.None? || ts.None? {
      return EscapedError;
    }
    return Parsed(ReconcileEnvelope(obj["origin"].s, window.value, ts.value, slots.value, version));
  }

  // ----- serializing

  // `order` is the insertion order of the dictionary: each key once.
  predicate Lists<T(==)>(order: seq<T>, keys: set<T>) {
    && (forall c | c in order :: c in keys)
    && (forall c | c in keys :: c in order)
    && (forall i, j | 0 <= i < j < |order| :: order[i] != order[j])
  }

  // {f"{tier}:{user_id}": value ...}: a later item replaces an earlier one with the same text.
  function SlotsJson(slots: map<Cell, int>, order: seq<Cell>): map<string, Json>
    requires forall c | c in order :: c in slots
  {
    if order == [] then map[]
    else
      var c := order[|order| - 1];
      SlotsJson(slots, order[..|order| - 1])[JoinKey(c) := JInt(slots[c])]
  }

  function SerializeReconcile(env: Envelope, order: seq<Cell>): Json
    requires env.ReconcileEnvelope?
    requires forall c | c in order :: c in env.slots
  {
    JDict(map["kind" := JText("reconcile"), "v" := env.version, "origin" := JText(env.origin),
              "window_id" := JInt(env.window), "ts_ms" := JInt(env.tsMs),
              "slots" := JDict(SlotsJson(env.slots, order))])
  }

  // The gateway's json.Marshal of a syncMessage.
  function SerializeCounter(env: Envelope): Json
    requires env.CounterEnvelope?
  {
    JDict(map["tier" := JText(env.tier), "user_id" := JText(env.user), "window_id" := JInt(env.window),
              "region" := JText(env.region), "value" := JInt(env.value), "ts_ms" := JInt(env.tsMs)])
  }

  lemma {:induction false} SlotsJsonKeys(slots: map<Cell, int>, order: seq<Cell>)
    requires forall c | c in order :: c in slots
    ensures forall k | k in SlotsJson(slots, order) ::
              exists c :: c in order && k == JoinKey(c) && SlotsJson(slots, order)[k] == JInt(slots[c])
    ensures forall c | c in order :: JoinKey(c) in SlotsJson(slots, order)
  {
    if order == [] {
    } else {
      var n := |order| - 1;
      assert order == order[..n] + [order[n]];
      SlotsJsonKeys(slots, order[..n]);
      assert order[n] in order;
    }
  }

  lemma ColonFreeTiersJoinDistinctly(c: Cell, d: Cell)
    requires ColonFree(c.0) && ColonFree(d.0) && JoinKey(c) == JoinKey(d)
    ensures c == d
  {
    CutJoin(c);
    CutJoin(d);
  }

  ghost predicate Faithful(env: Envelope)
    requires env.ReconcileEnvelope?
  {
    && env.origin in {"us", "eu", "asia"}
    && (env.version == JInt(1) || env.version == JBool(true) || env.version == JFloat(1.0))
    && (forall c | c in env.slots :: env.slots[c] >= 0)
    && (forall c: Cell | c in env.slots :: ColonFree(c.0))
  }

  lemma {:induction false} SlotsJsonWellFormed(slots: map<Cell, int>, order: seq<Cell>)
    requires Lists(order, slots.Keys)
    requires forall c | c in slots :: slots[c] >= 0
    ensures SlotsWellFormed(SlotsJson(slots, order))
  {
    var raw := SlotsJson(slots, order);
    SlotsJsonKeys(slots, order);
    forall k | k in raw
      ensures ':' in k && raw[k].JInt? && raw[k].i >= 0
    {
      var c :| c in order && k == JoinKey(c) && raw[k] == JInt(slots[c]);
      CutJoin(c);
    }
  }

  lemma {:induction false} SlotsJsonCell(slots: map<Cell, int>, order: seq<Cell>, c: Cell)
    requires Lists(order, slots.Keys)
    requires forall d: Cell | d in slots :: ColonFree(d.0)
    requires ColonFree(c.0)
    ensures JoinKey(c) in SlotsJson(slots, order) <==> c in slots
    ensures c in slots ==> SlotsJson(slots, order)[JoinKey(c)] == JInt(slots[c])
  {
    var raw := SlotsJson(slots, order);
    SlotsJsonKeys(slots, order);
    if JoinKey(c) in raw {
      var d :| d in order && JoinKey(c) == JoinKey(d) && raw[JoinKey(c)] == JInt(slots[d]);
      ColonFreeTiersJoinDistinctly(c, d);
    }
  }

  lemma {:induction false} ColonFreeTiersLoseNothing(slots: map<Cell, int>, order: seq<Cell>)
    requires Lists(order, slots.Keys)
    requires forall c | c in slots :: slots[c] >= 0
    requires forall c: Cell | c in slots :: ColonFree(c.0)
    ensures SlotsWellFormed(SlotsJson(slots, order))
    ensures SlotsOf(SlotsJson(slots, order)) == slots
  {
    SlotsJsonWellFormed(slots, order);
    CellsSurvive(slots, order);
  }

  lemma {:induction false} CellsSurvive(slots: map<Cell, int>, order: seq<Cell>)
    requires Lists(order, slots.Keys) && SlotsWellFormed(SlotsJson(slots, order))
    requires forall c: Cell | c in slots :: ColonFree(c.0)
    ensures SlotsOf(SlotsJson(slots, order)) == slots
  {
    var read := SlotsOf(SlotsJson(slots, order));
    forall c: Cell
      ensures c in slots <==> c in read
      ensures c in slots ==> read[c] == slots[c]
    {
      CellSurvives(slots, order, c);
    }
  }

  lemma {:induction false} CellSurvives(slots: map<Cell, int>, order: seq<Cell>, c: Cell)
    requires Lists(order, slots.Keys) && SlotsWellFormed(SlotsJson(slots, order))
    requires forall d: Cell | d in slots :: ColonFree(d.0)
    ensures c in SlotsOf(SlotsJson(slots, order)) <==> c in slots
    ensures c in slots ==> SlotsOf(SlotsJson(slots, order))[c] == slots[c]
  {
    SlotsOfMembers(SlotsJson(slots, order), c);
    if ColonFree(c.0) {
      SlotsJsonCell(slots, order, c);
    }
  }

  /** A reconcile envelope survives the wire unchanged exactly when its origin is valid, its version is 1,
      no value is negative and no tier holds a colon. User ids may hold colons. */
  lemma {:induction false} ReconcileRoundTrip(co: Coercions, env: Envelope, order: seq<Cell>)
    requires env.ReconcileEnvelope? && Lists(order, env.slots.Keys)
    ensures ParseMessage(co, Decoded(SerializeReconcile(env, order))) == Parsed(env) <==> Faithful(env)
  {
    if Faithful(env) {
      FaithfulSurvives(co, env, order);
    }
    if ParseMessage(co, Decoded(SerializeReconcile(env, order))) == Parsed(env) {
      SurvivorIsFaithful(co, env, order);
    }
  }

  lemma {:induction false} FaithfulSurvives(co: Coercions, env: Envelope, order: seq<Cell>)
    requires env.ReconcileEnvelope? && Lists(order, env.slots.Keys) && Faithful(env)
    ensures ParseMessage(co, Decoded(SerializeReconcile(env, order))) == Parsed(env)
  {
    ColonFreeTiersLoseNothing(env.slots, order);
    ReconcileLookups(env, order);
    ParsedFrom(co, SerializeReconcile(env, order).fields, env);
  }

  lemma {:induction false} ReconcileLookups(env: Envelope, order: seq<Cell>)
    requires env.ReconcileEnvelope? && Lists(order, env.slots.Keys)
    ensures var obj := SerializeReconcile(env, order).fields;
            && IsReconcile(obj) && Field(obj, "v") == env.version
            && {"origin", "window_id", "ts_ms", "slots"} <= obj.Keys
            && obj["origin"] == JText(env.origin) && obj["slots"] == JDict(SlotsJson(env.slots, order))
            && obj["window_id"] == JInt(env.window) && obj["ts_ms"] == JInt(env.tsMs)
  {
  }

  // An object with the fields of the envelope is parsed as the envelope.
  lemma ParsedFrom(co: Coercions, obj: map<string, Json>, env: Envelope)
    requires env.ReconcileEnvelope? && env.origin in VALID_REGIONS && IsVersionOne(env.version)
    requires IsReconcile(obj) && Field(obj, "v") == env.version
    requires {"origin", "window_id", "ts_ms", "slots"} <= obj.Keys
    requires obj["origin"] == JText(env.origin) && obj["window_id"] == JInt(env.window) && obj["ts_ms"] == JInt(env.tsMs)
    requires obj["slots"].JDict? && SlotsWellFormed(obj["slots"].fields) && SlotsOf(obj["slots"].fields) == env.slots
    ensures ParseMessage(co, Decoded(JDict(obj))) == Parsed(env)
  {
  }

  lemma {:induction false} SurvivorIsFaithful(co: Coercions, env: Envelope, order: seq<Cell>)
    requires env.ReconcileEnvelope? && Lists(order, env.slots.Keys)
    requires ParseMessage(co, Decoded(SerializeReconcile(env, order))) == Parsed(env)
    ensures Faithful(env)
  {
    var raw := SerializeReconcile(env, order).fields["slots"].fields;
    forall c: Cell | c in env.slots
      ensures ColonFree(c.0) && env.slots[c] >= 0
    {
      SlotsOfMembers(raw, c);
    }
  }

  /** Every message a gateway publishes is read back as it was sent. */
  lemma CounterRoundTrip(co: Coercions, env: Envelope)
    requires env.CounterEnvelope?
    ensures ParseMessage(co, Decoded(SerializeCounter(env))) == Parsed(env)
       <==> env.region in {"us", "eu", "asia"} && env.value >= 0
  {
  }

  /** Whatever parsing accepts names a valid region, carries no negative value, and keys its slots by
      colon-free tiers. */
  lemma AcceptedIsWellFormed(co: Coercions, message: Decoded)
    requires ParseMessage(co, message).Parsed?
    ensures var env := ParseMessage(co, message).value;
            match env
            case CounterEnvelope(_, _, _, region, value, _) => region in VALID_REGIONS && value >= 0
            case ReconcileEnvelope(_, _, _, _, _) => Faithful(env)
  {
    var env := ParseMessage(co, message).value;
    if env.ReconcileEnvelope? {
      var raw := message.json.fields["slots"].fields;
      forall c: Cell | c in env.slots
        ensures ColonFree(c.0) && env.slots[c] >= 0
      {
        SlotsOfMembers(raw, c);
      }
    }
  }

  // ----- what an accepted message is read as

  // n is what `int` makes of the value: a number truncated towards zero, a bool as 0 or 1, a text converted.
  predicate IsIntOf(co: Coercions, j: Json, n: int) {
    match j
    case JInt(i) => n == i
    case JBool(b) => n == if b then 1 else 0
    case JFloat(x) => if x >= 0.0 then 0 <= n && n as real <= x < n as real + 1.0
                      else n <= 0 && n as real - 1.0 < x <= n as real
    case JText(s) => co.intOfText(s) == Some(n)
    case _ => false
  }

  // n is the value of an int, of which a bool is one.
  predicate IsCountOf(j: Json, n: int) {
    j == JInt(n) || (j == JBool(true) && n == 1) || (j == JBool(false) && n == 0)
  }

  predicate IsStrOf(co: Coercions, j: Json, s: string) {
    if j.JText? then j.s == s else co.strOf(j) == s
  }

  // The envelope has a slot for every key "tier:user", cut at its first colon, and no other.
  ghost predicate AreSlotsOf(raw: map<string, Json>, slots: map<Cell, int>) {
    && (forall k | k in raw :: ':' in k)
    && (forall c: Cell :: c in slots <==> ColonFree(c.0) && c.0 + ":" + c.1 in raw)
    && forall c: Cell | c in slots :: IsCountOf(raw[c.0 + ":" + c.1], slots[c])
  }

  /** Every field of an accepted message is read from the raw field of its own name. */
  lemma AcceptedReadsItsFields(co: Coercions, obj: map<string, Json>)
    requires ParseMessage(co, Decoded(JDict(obj))).Parsed?
    ensures var env := ParseMessage(co, Decoded(JDict(obj))).value;
            match env
            case CounterEnvelope(tier, user, window, region, value, tsMs) =>
              && ("kind" in obj ==> obj["kind"] != JText("reconcile"))
              && {"tier", "user_id", "window_id", "region", "value", "ts_ms"} <= obj.Keys
              && IsStrOf(co, obj["tier"], tier) && IsStrOf(co, obj["user_id"], user)
              && IsIntOf(co, obj["window_id"], window) && IsIntOf(co, obj["ts_ms"], tsMs)
              && obj["region"] == JText(region) && IsCountOf(obj["value"], value)
            case ReconcileEnvelope(origin, window, tsMs, slots, version) =>
              && {"kind", "v", "origin", "window_id", "ts_ms", "slots"} <= obj.Keys
              && obj["kind"] == JText("reconcile") && obj["v"] == version
              && (version == JInt(1) || version == JBool(true) || version == JFloat(1.0))
              && IsIntOf(co, obj["window_id"], window) && IsIntOf(co, obj["ts_ms"], tsMs)
              && obj["origin"] == JText(origin) && obj["slots"].JDict? && AreSlotsOf(obj["slots"].fields, slots)
  {
    IntIs(co, obj["window_id"]);
    IntIs(co, obj["ts_ms"]);
    if IsReconcile(obj) {
      SlotsAreRead(obj["slots"].fields);
    }
  }

  lemma IntIs(co: Coercions, j: Json)
    requires co.Int(j).Some?
    ensures IsIntOf(co, j, co.Int(j).value)
  {
  }

  lemma SlotsAreRead(raw: map<string, Json>)
    requires SlotsWellFormed(raw)
    ensures AreSlotsOf(raw, SlotsOf(raw))
  {
    forall c: Cell
      ensures c in SlotsOf(raw) <==> ColonFree(c.0) && c.0 + ":" + c.1 in raw
      ensures c in SlotsOf(raw) ==> IsCountOf(raw[c.0 + ":" + c.1], SlotsOf(raw)[c])
    {
      SlotsOfMembers(raw, c);
      assert JoinKey(c) == c.0 + ":" + c.1;
      if c in SlotsOf(raw) {
        CountIs(raw[JoinKey(c)]);
      }
    }
  }

  lemma CountIs(j: Json)
    requires IntValue(j).Some?
    ensures IsCountOf(j, IntValue(j).value)
  {
  }

  // ----- exactly which messages escape, and which are accepted

  // `int(j)` raises: TypeError, OverflowError or ValueError.
  predicate IntRaises(co: Coercions, j: Json) {
    j.JNull? || j.JNonFinite? || j.JList? || j.JDict? || (j.JText? && co.intOfText(j.s).None?)
  }

  // A non-negative integer; a Python bool is one.
  predicate IsCount(j: Json) {
    j.JBool? || (j.JInt? && j.i >= 0)
  }

  // An object with string keys that hold a colon and counts for values.
  predicate IsSlots(j: Json) {
    j.JDict? && forall k | k in j.fields :: ':' in k && IsCount(j.fields[k])
  }

  // Where the parser looks first, and what it finds there.
  ghost predicate CounterFields(obj: map<string, Json>) {
    {"tier", "user_id", "window_id", "region", "value", "ts_ms"} <= obj.Keys
  }

  ghost predicate ReconcileFields(obj: map<string, Json>) {
    IsVersionOne(Field(obj, "v")) && {"origin", "window_id", "ts_ms", "slots"} <= obj.Keys
  }

  predicate TimesRaise(co: Coercions, obj: map<string, Json>)
    requires "window_id" in obj && "ts_ms" in obj
  {
    IntRaises(co, obj["window_id"]) || IntRaises(co, obj["ts_ms"])
  }

  // The message gets as far as the integer conversions: nothing before them raises or rejects.
  ghost predicate ReachesTimes(obj: map<string, Json>) {
    if IsReconcile(obj) then ReconcileFields(obj) && IsRegion(obj["origin"]) && IsSlots(obj["slots"])
    else CounterFields(obj) && IsRegion(obj["region"]) && IsCount(obj["value"])
  }

  // The region is a value `in` cannot look up in a set, and nothing rejects the message before.
  ghost predicate RegionUnhashable(obj: map<string, Json>) {
    if IsReconcile(obj) then ReconcileFields(obj) && (obj["origin"].JList? || obj["origin"].JDict?)
    else CounterFields(obj) && (obj["region"].JList? || obj["region"].JDict?)
  }

  /** The messages that raise something other than EnvelopeError, read off the raw bytes and fields. */
  ghost predicate Escapes(co: Coercions, message: Decoded) {
    || message.DecodeRaises?
    || (message.Decoded? && message.json.JDict?
        && var obj := message.json.fields;
           RegionUnhashable(obj) || (ReachesTimes(obj) && TimesRaise(co, obj)))
  }

  ghost predicate Acceptable(co: Coercions, message: Decoded) {
    message.Decoded? && message.json.JDict?
    && ReachesTimes(message.json.fields) && !TimesRaise(co, message.json.fields)
  }

  lemma IntRaisesIff(co: Coercions, j: Json)
    ensures IntRaises(co, j) <==> co.Int(j).None?
  {
  }

  lemma SlotsIff(j: Json)
    ensures IsSlots(j) <==> j.JDict? && SlotsWellFormed(j.fields)
  {
    if j.JDict? {
      forall k | k in j.fields
        ensures IsCount(j.fields[k]) <==> IntValue(j.fields[k]).Some? && IntValue(j.fields[k]).value >= 0
      {
      }
    }
  }

  lemma CounterIff(co: Coercions, obj: map<string, Json>)
    requires !IsReconcile(obj)
    ensures ParseCounter(co, obj).EscapedError? <==> RegionUnhashable(obj) || (ReachesTimes(obj) && TimesRaise(co, obj))
    ensures ParseCounter(co, obj).Parsed? <==> ReachesTimes(obj) && !TimesRaise(co, obj)
  {
    if CounterFields(obj) {
      IntRaisesIff(co, obj["window_id"]);
      IntRaisesIff(co, obj["ts_ms"]);
    }
  }

  lemma ReconcileIff(co: Coercions, obj: map<string, Json>)
    requires IsReconcile(obj)
    ensures ParseReconcile(co, obj).EscapedError? <==> RegionUnhashable(obj) || (ReachesTimes(obj) && TimesRaise(co, obj))
    ensures ParseReconcile(co, obj).Parsed? <==> ReachesTimes(obj) && !TimesRaise(co, obj)
  {
    if ReconcileFields(obj) {
      IntRaisesIff(co, obj["window_id"]);
      IntRaisesIff(co, obj["ts_ms"]);
      SlotsIff(obj["slots"]);
    }
  }

  /** Exactly which messages end in which way. A message escapes, ending the relay, if and only if its bytes
      raise in the decoder, or its region is a list or an object where a rejection has not come first, or all
      else is in order and `int` of its window or timestamp raises; it is accepted if and only if all is in
      order; every other message, and only those, is rejected as the source intends. */
  lemma EscapesIff(co: Coercions, message: Decoded)
    ensures ParseMessage(co, message).EscapedError? <==> Escapes(co, message)
    ensures ParseMessage(co, message).Parsed? <==> Acceptable(co, message)
    ensures ParseMessage(co, message).EnvelopeError? <==> !Escapes(co, message) && !Acceptable(co, message)
  {
    if message.Decoded? && message.json.JDict? {
      if IsReconcile(message.json.fields) {
        ReconcileIff(co, message.json.fields);
      } else {
        CounterIff(co, message.json.fields);
      }
    }
  }

  /** So rejection is not total: an otherwise valid message escapes with a null timestamp, and so does one whose
      bytes are no text at all. */
  lemma NullTimestampEscapes(co: Coercions, env: Envelope)
    requires env.CounterEnvelope? && env.region in VALID_REGIONS && env.value >= 0
    ensures ParseMessage(co, Decoded(JDict(SerializeCounter(env).fields["ts_ms" := JNull]))) == EscapedError
    ensures ParseMessage(co, DecodeRaises) == EscapedError
  {
    EscapesIff(co, Decoded(JDict(SerializeCounter(env).fields["ts_ms" := JNull])));
  }
}
