/** The front-end auto-access view: the WebSocket message filter, the detection handler that
    updates the current detection, the bounded history and the counters, and the alert flag.
    React state setters are modelled as field updates; the alert timer and reconnects are not. */
module AutoAccessView {
  import opened Wrappers

  /** A JavaScript value two levels down a parsed message (a field of `msg.data`); what a deeper
      object or array holds is never read, so it is `JsNested`. */
  datatype JsLeaf =
    | JsNull | JsUndefined | JsBool(b: bool) | JsNumber(n: real) | JsString(s: string) | JsDate(ms: int) | JsNested

  /** A value one level down a parsed message, such as `msg.type` or `msg.data`. */
  datatype JsValue = Leaf(leaf: JsLeaf) | JsArray(items: seq<JsLeaf>) | JsObject(props: map<string, JsLeaf>)

  /** What `JSON.parse` returns: an object, or anything else (`null`, a number, a string, an array). */
  datatype JsMessage = Message(fields: map<string, JsValue>) | NotAnObject

  /** JavaScript truthiness (NaN and -0 aside). */
  predicate Truthy(v: JsLeaf) {
    match v
    case JsNull => false
    case JsUndefined => false
    case JsBool(b) => b
    case JsNumber(n) => n != 0.0
    case JsString(s) => s != ""
    case _ => true
  }

  /** `msg?.[key]`: undefined when the property is absent or `msg` is not an object. */
  function Member(msg: JsMessage, key: string): JsValue {
    if msg.Message? && key in msg.fields then msg.fields[key] else Leaf(JsUndefined)
  }

  /** `d[key]` on a stored detection. */
  function Prop(d: map<string, JsLeaf>, key: string): JsLeaf {
    if key in d then d[key] else JsUndefined
  }

  /** The decimal text of an index, as the keys of a spread string or array. */
  function IndexKey(n: nat): (s: string)
    ensures |s| >= 1
    decreases n
  {
    if n < 10 then [(('0' as int) + n) as char] else IndexKey(n / 10) + [(('0' as int) + n % 10) as char]
  }

  lemma {:induction false} IndexKeyInjective(a: nat, b: nat)
    ensures IndexKey(a) == IndexKey(b) ==> a == b
    decreases a
  {
    if IndexKey(a) == IndexKey(b) && a >= 10 && b >= 10 {
      var ka, kb := IndexKey(a), IndexKey(b);
      assert ka[..|ka| - 1] == IndexKey(a / 10);
      assert kb[..|kb| - 1] == IndexKey(b / 10);
      IndexKeyInjective(a / 10, b / 10);
    }
  }

  lemma IndexKeysDistinct()
    ensures forall a: nat, b: nat :: IndexKey(a) == IndexKey(b) ==> a == b
  {
    forall a: nat, b: nat
      ensures IndexKey(a) == IndexKey(b) ==> a == b
    {
      IndexKeyInjective(a, b);
    }
  }

  /** The elements of a sequence under their index keys. */
  function IndexedSpread(items: seq<JsLeaf>): (m: map<string, JsLeaf>)
    ensures forall i :: 0 <= i < |items| ==> IndexKey(i) in m && m[IndexKey(i)] == items[i]
  {
    IndexKeysDistinct();
    map i | 0 <= i < |items| :: IndexKey(i) := items[i]
  }

  /** The own enumerable properties `{...v}` copies: an object's properties, a string's or an
      array's elements under their index keys, nothing for anything else. */
  function SpreadOf(v: JsValue): map<string, JsLeaf> {
    match v
    case JsObject(p) => p
    case JsArray(items) => IndexedSpread(items)
    case Leaf(JsString(s)) => IndexedSpread(seq(|s|, i requires 0 <= i < |s| => JsString([s[i]])))
    case Leaf(_) => map[]
  }

  /** `{...data, id: Date.now(), timestamp: new Date()}` at client time `now` (milliseconds). */
  function DetectionOf(data: JsValue, now: int): map<string, JsLeaf> {
    SpreadOf(data)["id" := JsNumber(now as real)]["timestamp" := JsDate(now)]
  }

  /** The stored detection has the client's `id` and `timestamp`, and every other field the
      server sent, with its value. */
  lemma DetectionOfFields(data: JsValue, now: int)
    ensures var d := DetectionOf(data, now);
      Prop(d, "id") == JsNumber(now as real) && Prop(d, "timestamp") == JsDate(now) &&
      d.Keys == SpreadOf(data).Keys + {"id", "timestamp"} &&
      forall k :: k in SpreadOf(data) && k != "id" && k != "timestamp" ==> d[k] == SpreadOf(data)[k]
  {
  }

  /** An object sent by the server keeps every field but `id` and `timestamp`. */
  lemma ServerFieldsKept(props: map<string, JsLeaf>, now: int, k: string)
    requires k != "id" && k != "timestamp"
    ensures Prop(DetectionOf(JsObject(props), now), k) == Prop(props, k)
  {
  }

  const HistoryLimit: int := 100

  /** `[detection, ...prev].slice(0, 100)` */
  function NextHistory(prev: seq<map<string, JsLeaf>>, d: map<string, JsLeaf>): (h: seq<map<string, JsLeaf>>)
    ensures |h| == if |prev| + 1 <= HistoryLimit then |prev| + 1 else HistoryLimit
    ensures h[0] == d && h[1..] == prev[..|h| - 1]
  {
    var full := [d] + prev;
    if |full| <= HistoryLimit then full else full[..HistoryLimit]
  }

  /** `{ total, permitidos, denegados }` */
  datatype Stats = Stats(total: nat, permitidos: nat, denegados: nat)

  /** The counters after one detection with the given `acceso`. */
  function NextStats(s: Stats, acceso: JsLeaf): (t: Stats)
    ensures t.total == s.total + 1
    ensures Truthy(acceso) ==> t.permitidos == s.permitidos + 1 && t.denegados == s.denegados
    ensures !Truthy(acceso) ==> t.denegados == s.denegados + 1 && t.permitidos == s.permitidos
  {
    Stats(s.total + 1, s.permitidos + (if Truthy(acceso) then 1 else 0), s.denegados + (if Truthy(acceso) then 0 else 1))
  }

  predicate Balanced(s: Stats) { s.permitidos + s.denegados == s.total }

  /** The counters after a run of detections, folded from the left. */
  function StatsAfter(s: Stats, accesos: seq<JsLeaf>): Stats
    decreases |accesos|
  {
    if accesos == [] then s else StatsAfter(NextStats(s, accesos[0]), accesos[1..])
  }

  function CountTruthy(vs: seq<JsLeaf>): nat
    decreases |vs|
  {
    if vs == [] then 0 else (if Truthy(vs[0]) then 1 else 0) + CountTruthy(vs[1..])
  }

  /** Every detection adds one to the total and one to exactly one of the other two, so
      balanced counters stay balanced; `permitidos` counts the truthy `acceso` values. */
  lemma {:induction false} StatsAfterCounts(s: Stats, accesos: seq<JsLeaf>)
    ensures var t := StatsAfter(s, accesos);
      t.total == s.total + |accesos| && t.permitidos == s.permitidos + CountTruthy(accesos) &&
      (Balanced(s) ==> Balanced(t))
    decreases |accesos|
  {
    if accesos != [] {
      StatsAfterCounts(NextStats(s, accesos[0]), accesos[1..]);
    }
  }

  /** Whether a parsed message reaches the handler: `msg?.type === 'detection'`. `None` is a
      text `JSON.parse` rejects. */
  predicate IsDetectionMessage(msg: Option<JsMessage>) {
    msg.Some? && Member(msg.value, "type") == Leaf(JsString("detection"))
  }

  /** The component's state. */
  class AutoAccessView {
    var currentDetection: Option<map<string, JsLeaf>>
    var detectionHistory: seq<map<string, JsLeaf>>
    var stats: Stats
    var showAlert: bool

    /** The counters balance and the history holds at most 100 entries. */
    predicate Valid()
      reads this
    {
      Balanced(stats) && |detectionHistory| <= HistoryLimit
    }

    constructor()
      ensures currentDetection.None? && detectionHistory == [] && stats == Stats(0, 0, 0) && !showAlert
      ensures Valid()
    {
      currentDetection := None;
      detectionHistory := [];
      stats := Stats(0, 0, 0);
      showAlert := false;
    }

    /** `handleDetection(data)` at client time `now`. */
    method HandleDetection(data: JsValue, now: int)
      modifies this
      ensures currentDetection == Some(DetectionOf(data, now))
      ensures detectionHistory == NextHistory(old(detectionHistory), DetectionOf(data, now))
      ensures stats == NextStats(old(stats), Prop(DetectionOf(data, now), "acceso"))
      ensures showAlert
      ensures old(Valid()) ==> Valid()
    {
      var detection := DetectionOf(data, now);
      currentDetection := Some(detection);
      detectionHistory := NextHistory(detectionHistory, detection);
      stats := NextStats(stats, Prop(detection, "acceso"));
      showAlert := true;
    }

    /** `ws.onmessage`: `parse` stands for `JSON.parse`; anything but a detection message, and
        any text it rejects, leaves the state unchanged. */
    method OnMessage(text: string, parse: string -> Option<JsMessage>, now: int)
      modifies this
      ensures !IsDetectionMessage(parse(text)) ==> unchanged(this)
      ensures IsDetectionMessage(parse(text)) ==>
        var d := DetectionOf(Member(parse(text).value, "data"), now);
        currentDetection == Some(d) && detectionHistory == NextHistory(old(detectionHistory), d) &&
        stats == NextStats(old(stats), Prop(d, "acceso")) && showAlert
      ensures old(Valid()) ==> Valid()
    {
      var msg := parse(text);
      if IsDetectionMessage(msg) {
        HandleDetection(Member(msg.value, "data"), now);
      }
    }

    /** `closeAlert` */
    method CloseAlert()
      modifies this`showAlert
      ensures !showAlert
    {
      showAlert := false;
    }
  }

  /** Two detections, one permitted and one denied: the newest heads the history, the older one
      follows, and the counters read 2, 1, 1. */
  lemma TwoDetections()
    ensures var ok := DetectionOf(JsObject(map["matricula" := JsString("AB123CD"), "acceso" := JsBool(true)]), 1000);
      var no := DetectionOf(JsObject(map["matricula" := JsString("AC456DE"), "acceso" := JsBool(false)]), 2000);
      NextHistory(NextHistory([], ok), no) == [no, ok] &&
      StatsAfter(Stats(0, 0, 0), [Prop(ok, "acceso"), Prop(no, "acceso")]) == Stats(2, 1, 1) &&
      Prop(no, "matricula") == JsString("AC456DE")
  {
    var okData := map["matricula" := JsString("AB123CD"), "acceso" := JsBool(true)];
    var noData := map["matricula" := JsString("AC456DE"), "acceso" := JsBool(false)];
    ServerFieldsKept(okData, 1000, "acceso");
    ServerFieldsKept(noData, 2000, "acceso");
    ServerFieldsKept(noData, 2000, "matricula");
    var accesos := [JsBool(true), JsBool(false)];
    assert accesos[1..] == [JsBool(false)] && [JsBool(false)][1..] == [];
    assert StatsAfter(Stats(1, 1, 0), [JsBool(false)]) == Stats(2, 1, 1);
    assert StatsAfter(Stats(0, 0, 0), accesos) == Stats(2, 1, 1);
  }
}
