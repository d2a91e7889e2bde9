/** The auto-access router: the environment flags, the list of WebSocket subscribers and the
    broadcast that drops failing ones, the detection queue between the camera thread and the
    dispatcher, the multipart stream chunks and the status report. */
module AutoAccess {
  import opened Wrappers
  import opened PyStr
  import Detector
  import Camera

  // ---------------------------------------------------------------- environment flags

  /** The lowercased values that switch a flag on. */
  const TruthyWords: set<string> := {"1", "true", "yes", "on"}

  /** `os.getenv(name, default).lower() in ('1', 'true', 'yes', 'on')` */
  predicate EnvTruthy(value: Option<string>, default: string) {
    LowerStr(value.GetOr(default)) in TruthyWords
  }

  /** `ENABLE_CAMERA`, off when unset. */
  predicate CameraEnabled(value: Option<string>) { EnvTruthy(value, "0") }

  /** `DETECTIONS_LOG`, off when unset. */
  predicate DetectionsLogEnabled(value: Option<string>) { EnvTruthy(value, "") }

  /** Both flags are off when unset and ignore letter case. */
  lemma FlagsIgnoreCase(s: string)
    ensures !CameraEnabled(None) && !DetectionsLogEnabled(None)
    ensures CameraEnabled(Some(s)) == CameraEnabled(Some(UpperStr(s))) == CameraEnabled(Some(LowerStr(s)))
    ensures CameraEnabled(Some(s)) == DetectionsLogEnabled(Some(s))
  {
    LowerUpperStr(s);
    LowerLowerStr(s);
    assert LowerStr("0") == "0";
    assert LowerStr("") == "";
  }

  lemma FlagExamples()
    ensures CameraEnabled(Some("TRUE")) && CameraEnabled(Some("On")) && CameraEnabled(Some("1"))
    ensures !CameraEnabled(Some("0")) && !CameraEnabled(Some("")) && !CameraEnabled(Some("enabled"))
  {
    assert LowerStr("TRUE") == "true";
    assert LowerStr("On") == "on";
    assert LowerStr("1") == "1";
    assert LowerStr("0") == "0";
    assert LowerStr("") == "";
    assert LowerStr("enabled") == "enabled";
  }

  // ---------------------------------------------------------------- JSON payload

  /** The JSON-relevant shape of a Python value; `JDateTime` is a `datetime` object, which
      `json.dumps` rejects. */
  datatype Json =
    | JNull | JBool(b: bool) | JInt(i: int) | JReal(r: real) | JStr(s: string)
    | JObject(fields: seq<(string, Json)>) | JDateTime(t: real)

  /** `json.dumps` succeeds: no `datetime` anywhere in the value. */
  predicate Serializable(j: Json)
    decreases j
  {
    match j
    case JDateTime(_) => false
    case JObject(fields) => forall i :: 0 <= i < |fields| ==> Serializable(fields[i].1)
    case _ => true
  }

  /** `json.dumps(j)`: the text on the wire is represented by the value it encodes; a value that
      does not serialize raises `TypeError`. */
  function Dumps(j: Json): (r: Option<Json>)
    ensures r.Some? <==> Serializable(j)
    ensures r.Some? ==> r.value == j
  {
    if Serializable(j) then Some(j) else None
  }

  function OptStr(o: Option<string>): Json { if o.Some? then JStr(o.value) else JNull }
  function OptInt(o: Option<int>): Json { if o.Some? then JInt(o.value) else JNull }

  /** The remaining fields of the callback's dict, after `matricula` and `timestamp`. */
  function TailFields(d: Camera.VehicleData): seq<(string, Json)> {
    [("confianza", JReal(d.confianza)), ("propietario", OptStr(d.propietario)),
     ("telefono", OptStr(d.telefono)), ("email", OptStr(d.email)),
     ("departamento", OptInt(d.departamento)), ("dias_restantes", OptInt(d.diasRestantes)),
     ("fecha_vencimiento", OptStr(d.fechaVencimiento)), ("estado_cuota", OptInt(d.estadoCuota)),
     ("acceso", JBool(d.acceso)), ("motivo", OptStr(d.motivo))]
  }

  /** The callback's dict as built by `_get_vehicle_data`: `timestamp` is `datetime.now()`. */
  function VehicleJson(d: Camera.VehicleData): Json {
    JObject([("matricula", JStr(d.matricula)), ("timestamp", JDateTime(d.timestamp))] + TailFields(d))
  }

  /** The same dict with the timestamp as the POSIX seconds it stands for. */
  function VehicleJsonPortable(d: Camera.VehicleData): Json {
    JObject([("matricula", JStr(d.matricula)), ("timestamp", JReal(d.timestamp))] + TailFields(d))
  }

  /** `{"type": "detection", "data": vehicle_data}` */
  function DetectionMessage(data: Json): Json {
    JObject([("type", JStr("detection")), ("data", data)])
  }

  /** As written, the broadcast message never serializes: its `timestamp` is a `datetime`. */
  lemma DetectionMessageNeverSerializes(d: Camera.VehicleData)
    ensures Dumps(DetectionMessage(VehicleJson(d))).None?
  {
    var data := VehicleJson(d);
    assert data.fields[1].1 == JDateTime(d.timestamp);
    assert !Serializable(data);
    assert DetectionMessage(data).fields[1].1 == data;
  }

  /** With the timestamp given as a number, the message serializes for every record. */
  lemma PortableMessageSerializes(d: Camera.VehicleData)
    ensures Dumps(DetectionMessage(VehicleJsonPortable(d))) == Some(DetectionMessage(VehicleJsonPortable(d)))
  {
    var data := VehicleJsonPortable(d);
    var tail := TailFields(d);
    assert forall i :: 0 <= i < |tail| ==> Serializable(tail[i].1);
    assert forall i :: 0 <= i < |data.fields| ==> Serializable(data.fields[i].1);
    var m := DetectionMessage(data);
    assert m.fields[1].1 == data;
    assert forall i :: 0 <= i < |m.fields| ==> Serializable(m.fields[i].1);
  }

  // ---------------------------------------------------------------- subscribers

  /** A WebSocket connection; Python compares them by identity. */
  datatype Socket = Socket(id: nat)

  predicate NoDup(s: seq<Socket>) {
    forall i, j :: 0 <= i < j < |s| ==> s[i] != s[j]
  }

  /** `list.remove(x)`: drops the first occurrence; the list is unchanged when `x` is absent
      (where Python raises `ValueError`). */
  function RemoveFirst(s: seq<Socket>, x: Socket): (r: seq<Socket>)
    ensures |r| == if x in s then |s| - 1 else |s|
  {
    if s == [] then []
    else if s[0] == x then s[1..]
    else [s[0]] + RemoveFirst(s[1..], x)
  }

  /** `remove` adds nothing to the list. */
  lemma {:induction false} RemoveFirstShrinks(s: seq<Socket>, x: Socket)
    ensures forall y :: y in RemoveFirst(s, x) ==> y in s
  {
    if s != [] && s[0] != x {
      RemoveFirstShrinks(s[1..], x);
      assert s == [s[0]] + s[1..];
    }
  }

  /** The elements of `s` not in `gone`, in order. */
  function Drop(s: seq<Socket>, gone: set<Socket>): seq<Socket> {
    if s == [] then [] else (if s[0] in gone then [] else [s[0]]) + Drop(s[1..], gone)
  }

  lemma {:induction false} DropMembers(s: seq<Socket>, gone: set<Socket>)
    ensures forall y :: y in Drop(s, gone) <==> y in s && y !in gone
  {
    if s != [] {
      DropMembers(s[1..], gone);
      assert s == [s[0]] + s[1..];
    }
  }

  /** Dropping sockets keeps a duplicate-free list duplicate-free. */
  lemma {:induction false} DropNoDup(s: seq<Socket>, gone: set<Socket>)
    requires NoDup(s)
    ensures NoDup(Drop(s, gone))
  {
    if s != [] {
      DropNoDup(s[1..], gone);
      DropMembers(s[1..], gone);
      assert s[0] !in s[1..] by {
        forall j | 0 <= j < |s[1..]| ensures s[1..][j] != s[0] {
          assert s[1..][j] == s[j + 1];
        }
      }
    }
  }

  lemma {:induction false} RemoveFirstAt(s: seq<Socket>, i: nat)
    requires NoDup(s) && i < |s|
    ensures RemoveFirst(s, s[i]) == s[..i] + s[i + 1..]
  {
    if i > 0 {
      assert s[1..][i - 1] == s[i];
      RemoveFirstAt(s[1..], i - 1);
      assert s[1..][..i - 1] == s[1..i];
      assert s[1..][i..] == s[i + 1..];
    }
  }

  lemma {:induction false} RemoveFirstNoDup(s: seq<Socket>, x: Socket)
    requires NoDup(s)
    ensures NoDup(RemoveFirst(s, x))
  {
    if s != [] && s[0] != x {
      var rest := RemoveFirst(s[1..], x);
      RemoveFirstNoDup(s[1..], x);
      RemoveFirstShrinks(s[1..], x);
      assert s[0] !in s[1..];
      assert s[0] !in rest;
      assert RemoveFirst(s, x) == [s[0]] + rest;
    }
  }

  lemma {:induction false} DropSame(s: seq<Socket>, f: set<Socket>, g: set<Socket>)
    requires forall y :: y in s ==> (y in f <==> y in g)
    ensures Drop(s, f) == Drop(s, g)
  {
    if s != [] {
      DropSame(s[1..], f, g);
    }
  }

  lemma {:induction false} DropSnoc(s: seq<Socket>, x: Socket, f: set<Socket>)
    ensures Drop(s + [x], f) == Drop(s, f) + (if x in f then [] else [x])
  {
    if s != [] {
      assert (s + [x])[1..] == s[1..] + [x];
      DropSnoc(s[1..], x, f);
    }
  }

  /** Whether sending the message to `c` succeeds: `json.dumps` must succeed first, then the
      transport (`sendOk`, its `send_text` not raising). */
  predicate Delivered(text: Option<Json>, sendOk: (Socket, Json) -> bool, c: Socket) {
    text.Some? && sendOk(c, text.value)
  }

  /** The sockets of `tried` whose send failed. */
  function FailedAmong(tried: seq<Socket>, text: Option<Json>, sendOk: (Socket, Json) -> bool): set<Socket> {
    set c | c in tried && !Delivered(text, sendOk, c)
  }

  /** The subscriber list after a broadcast, and the sockets the broadcast tried, in order. */
  datatype Fanout = Fanout(remaining: seq<Socket>, tried: seq<Socket>)

  /** `for connection in active_connections` from iterator position `i`, removing a socket whose
      send fails from the list being iterated. Python's list iterator keeps its position, so
      after a removal the socket that moved into the freed slot is not visited. */
  function BroadcastFrom(conns: seq<Socket>, i: nat, text: Option<Json>, sendOk: (Socket, Json) -> bool): Fanout
    decreases |conns| - i
  {
    if i >= |conns| then Fanout(conns, [])
    else
      var c := conns[i];
      var next := if Delivered(text, sendOk, c) then conns else RemoveFirst(conns, c);
      var r := BroadcastFrom(next, i + 1, text, sendOk);
      Fanout(r.remaining, [c] + r.tried)
  }

  /** One iteration of the broadcast loop, seen from the function: visit `conns[i]`, then go on
      from the next position of the (possibly shortened) list. */
  lemma BroadcastLoopStep(conns: seq<Socket>, i: nat, tried: seq<Socket>, text: Option<Json>,
                          sendOk: (Socket, Json) -> bool)
    requires i < |conns|
    ensures var r := BroadcastFrom(conns, i, text, sendOk);
      var c := conns[i];
      var next := if Delivered(text, sendOk, c) then conns else RemoveFirst(conns, c);
      var r' := BroadcastFrom(next, i + 1, text, sendOk);
      Fanout(r.remaining, tried + r.tried) == Fanout(r'.remaining, (tried + [c]) + r'.tried)
  {
    var c := conns[i];
    var next := if Delivered(text, sendOk, c) then conns else RemoveFirst(conns, c);
    var r' := BroadcastFrom(next, i + 1, text, sendOk);
    assert tried + ([c] + r'.tried) == (tried + [c]) + r'.tried;
  }

  /** What the loop has yet to visit after position `i` was kept in place or removed. */
  lemma LaterSlotsKept(conns: seq<Socket>, next: seq<Socket>, i: nat, later: seq<Socket>, rest: seq<Socket>)
    requires i < |conns| && i + 1 <= |next|
    requires next == conns || next == conns[..i] + conns[i + 1..]
    requires later == next[i + 1..] && rest == conns[i + 1..]
    ensures forall x :: x in later ==> x in rest
  {
    if next != conns {
      assert next[i + 1..] == conns[i + 2..];
      assert conns[i + 1..] == [conns[i + 1]] + conns[i + 2..];
    }
  }

  /** The tried list of one step: the visited socket in front of what the rest of the loop tried. */
  lemma TriedCons(c: Socket, t: seq<Socket>, later: seq<Socket>, rest: seq<Socket>, all: seq<Socket>)
    requires NoDup(t) && (forall x :: x in t ==> x in later) && (forall x :: x in later ==> x in rest)
    requires c !in rest && all == [c] + rest
    ensures NoDup([c] + t) && forall x :: x in [c] + t ==> x in all
  {
  }

  /** The list the loop goes on with after visiting position `i`. */
  function AfterVisit(conns: seq<Socket>, i: nat, text: Option<Json>, sendOk: (Socket, Json) -> bool): seq<Socket>
    requires i < |conns|
  {
    if Delivered(text, sendOk, conns[i]) then conns else RemoveFirst(conns, conns[i])
  }

  lemma BroadcastUnfold(conns: seq<Socket>, i: nat, text: Option<Json>, sendOk: (Socket, Json) -> bool)
    requires i < |conns|
    ensures BroadcastFrom(conns, i, text, sendOk).tried
      == [conns[i]] + BroadcastFrom(AfterVisit(conns, i, text, sendOk), i + 1, text, sendOk).tried
  {
  }

  lemma AfterVisitKeeps(conns: seq<Socket>, i: nat, text: Option<Json>, sendOk: (Socket, Json) -> bool,
                        later: seq<Socket>, rest: seq<Socket>)
    requires NoDup(conns) && i < |conns|
    requires var next := AfterVisit(conns, i, text, sendOk);
      i + 1 <= |next| ==> later == next[i + 1..]
    requires rest == conns[i + 1..]
    ensures NoDup(AfterVisit(conns, i, text, sendOk))
    ensures i + 1 <= |AfterVisit(conns, i, text, sendOk)| ==> forall x :: x in later ==> x in rest
  {
    var next := AfterVisit(conns, i, text, sendOk);
    if !Delivered(text, sendOk, conns[i]) {
      RemoveFirstAt(conns, i);
      RemoveFirstNoDup(conns, conns[i]);
    }
    if i + 1 <= |next| {
      LaterSlotsKept(conns, next, i, later, rest);
    }
  }

  lemma NoDupLater(conns: seq<Socket>, i: nat)
    requires NoDup(conns) && i < |conns|
    ensures conns[i] !in conns[i + 1..]
  {
  }

  lemma {:induction false} BroadcastTried(conns: seq<Socket>, i: nat, text: Option<Json>, sendOk: (Socket, Json) -> bool)
    requires NoDup(conns) && i <= |conns|
    ensures var r := BroadcastFrom(conns, i, text, sendOk);
      NoDup(r.tried) && forall c :: c in r.tried ==> c in conns[i..]
    decreases |conns| - i
  {
    BroadcastTriedIn(conns, i, text, sendOk, conns[i..]);
  }

  lemma {:induction false} BroadcastTriedIn(conns: seq<Socket>, i: nat, text: Option<Json>, sendOk: (Socket, Json) -> bool, later: seq<Socket>)
    requires NoDup(conns) && i <= |conns| && later == conns[i..]
    ensures var r := BroadcastFrom(conns, i, text, sendOk);
      NoDup(r.tried) && forall c :: c in r.tried ==> c in later
    decreases |conns| - i
  {
    if i < |conns| {
      var c := conns[i];
      var next := AfterVisit(conns, i, text, sendOk);
      var later := if i + 1 <= |next| then next[i + 1..] else [];
      AfterVisitKeeps(conns, i, text, sendOk, later, conns[i + 1..]);
      BroadcastUnfold(conns, i, text, sendOk);
      NoDupLater(conns, i);
      assert conns[i..] == [c] + conns[i + 1..];
      var r' := BroadcastFrom(next, i + 1, text, sendOk);
      if i + 1 <= |next| {
        BroadcastTriedIn(next, i + 1, text, sendOk, later);
        TriedCons(c, r'.tried, later, conns[i + 1..], conns[i..]);
      } else {
        assert r'.tried == [];
      }
    }
  }

  /** The step of `BroadcastFromShape` for a socket whose send failed. */
  lemma BroadcastFailStep(conns: seq<Socket>, i: nat, f: set<Socket>, f': set<Socket>, rest: seq<Socket>)
    requires i + 1 < |conns| && conns[i] !in conns[i + 2..] && conns[i + 1] != conns[i]
    requires f == f' + {conns[i]} && conns[i + 1] !in f'
    requires rest == conns[..i] + [conns[i + 1]] + Drop(conns[i + 2..], f')
    ensures rest == conns[..i] + Drop(conns[i..], f)
  {
    var c, d, tail := conns[i], conns[i + 1], conns[i + 2..];
    assert conns[i..] == [c] + ([d] + tail);
    DropFailed(c, d, tail, f, f');
  }

  lemma DropFailed(c: Socket, d: Socket, tail: seq<Socket>, f: set<Socket>, f': set<Socket>)
    requires c !in tail && d != c && f == f' + {c} && d !in f'
    ensures Drop([c] + ([d] + tail), f) == [d] + Drop(tail, f')
  {
    DropSame(tail, f, f');
    assert ([c] + ([d] + tail))[1..] == [d] + tail;
    assert ([d] + tail)[1..] == tail;
  }

  lemma {:induction false} BroadcastFromShape(conns: seq<Socket>, i: nat, text: Option<Json>, sendOk: (Socket, Json) -> bool)
    requires NoDup(conns) && i <= |conns|
    ensures var r := BroadcastFrom(conns, i, text, sendOk);
      r.remaining == conns[..i] + Drop(conns[i..], FailedAmong(r.tried, text, sendOk))
    decreases |conns| - i, 1
  {
    if i < |conns| {
      if Delivered(text, sendOk, conns[i]) {
        BroadcastDeliveredStep(conns, i, text, sendOk);
      } else {
        BroadcastFailedStep(conns, i, text, sendOk);
      }
    }
  }

  lemma {:induction false} BroadcastDeliveredStep(conns: seq<Socket>, i: nat, text: Option<Json>, sendOk: (Socket, Json) -> bool)
    requires NoDup(conns) && i < |conns| && Delivered(text, sendOk, conns[i])
    ensures var r := BroadcastFrom(conns, i, text, sendOk);
      r.remaining == conns[..i] + Drop(conns[i..], FailedAmong(r.tried, text, sendOk))
    decreases |conns| - i, 0
  {
    var r := BroadcastFrom(conns, i, text, sendOk);
    BroadcastFromShape(conns, i + 1, text, sendOk);
    var r' := BroadcastFrom(conns, i + 1, text, sendOk);
    FailedAmongCons(conns[i], r'.tried, text, sendOk);
    assert r.tried == [conns[i]] + r'.tried && r.remaining == r'.remaining;
    assert FailedAmong(r.tried, text, sendOk) == FailedAmong(r'.tried, text, sendOk);
    assert conns[i] !in FailedAmong(r.tried, text, sendOk);
    DeliveredAlgebra(conns, i, FailedAmong(r.tried, text, sendOk), r.remaining);
  }

  lemma FailedAmongCons(c: Socket, t: seq<Socket>, text: Option<Json>, sendOk: (Socket, Json) -> bool)
    ensures FailedAmong([c] + t, text, sendOk) ==
      (if Delivered(text, sendOk, c) then {} else {c}) + FailedAmong(t, text, sendOk)
  {
  }

  lemma DeliveredAlgebra(conns: seq<Socket>, i: nat, f: set<Socket>, rest: seq<Socket>)
    requires i < |conns| && conns[i] !in f
    requires rest == conns[..i + 1] + Drop(conns[i + 1..], f)
    ensures rest == conns[..i] + Drop(conns[i..], f)
  {
    assert conns[i..] == [conns[i]] + conns[i + 1..];
    assert conns[..i + 1] == conns[..i] + [conns[i]];
  }

  lemma {:induction false} BroadcastFailedStep(conns: seq<Socket>, i: nat, text: Option<Json>, sendOk: (Socket, Json) -> bool)
    requires NoDup(conns) && i < |conns| && !Delivered(text, sendOk, conns[i])
    ensures var r := BroadcastFrom(conns, i, text, sendOk);
      r.remaining == conns[..i] + Drop(conns[i..], FailedAmong(r.tried, text, sendOk))
    decreases |conns| - i, 0
  {
    var c := conns[i];
    var r := BroadcastFrom(conns, i, text, sendOk);
    var next := RemoveFirst(conns, c);
    RemoveFirstAt(conns, i);
    RemoveFirstNoDup(conns, c);
    if i + 1 <= |next| {
      BroadcastFromShape(next, i + 1, text, sendOk);
      BroadcastTried(next, i + 1, text, sendOk);
      var r' := BroadcastFrom(next, i + 1, text, sendOk);
      FailedAmongCons(c, r'.tried, text, sendOk);
      FailedAlgebra(conns, i, next, FailedAmong(r.tried, text, sendOk), FailedAmong(r'.tried, text, sendOk), r'.tried, r.remaining);
    } else {
      assert BroadcastFrom(next, i + 1, text, sendOk) == Fanout(next, []);
      assert conns[i + 1..] == [];
      assert r.tried == [c];
      FailedLastAlgebra(conns, i, FailedAmong(r.tried, text, sendOk), r.remaining);
    }
  }

  lemma FailedAlgebra(conns: seq<Socket>, i: nat, next: seq<Socket>, f: set<Socket>, f': set<Socket>,
                      tried': seq<Socket>, rest: seq<Socket>)
    requires NoDup(conns) && i + 1 < |conns| && next == conns[..i] + conns[i + 1..]
    requires f == {conns[i]} + f' && (forall x :: x in f' ==> x in tried') && (forall x :: x in tried' ==> x in next[i + 1..])
    requires rest == next[..i + 1] + Drop(next[i + 1..], f')
    ensures rest == conns[..i] + Drop(conns[i..], f)
  {
    assert next[..i + 1] == conns[..i] + [conns[i + 1]];
    assert next[i + 1..] == conns[i + 2..];
    assert conns[i + 1] !in conns[i + 2..];
    assert conns[i] !in conns[i + 2..];
    BroadcastFailStep(conns, i, f, f', rest);
  }

  lemma FailedLastAlgebra(conns: seq<Socket>, i: nat, f: set<Socket>, rest: seq<Socket>)
    requires i + 1 == |conns| && conns[i] in f && rest == conns[..i]
    ensures rest == conns[..i] + Drop(conns[i..], f)
  {
    assert conns[i..] == [conns[i]];
    assert Drop([conns[i]], f) == [];
  }

  /** The list as written: a failing socket is removed, every other socket stays, in its
      original relative order, and every socket tried was tried once. */
  lemma BroadcastKeepsDeliveredInOrder(conns: seq<Socket>, text: Option<Json>, sendOk: (Socket, Json) -> bool)
    requires NoDup(conns)
    ensures var r := BroadcastFrom(conns, 0, text, sendOk);
      NoDup(r.tried) && (forall c :: c in r.tried ==> c in conns) &&
      r.remaining == Drop(conns, FailedAmong(r.tried, text, sendOk))
  {
    BroadcastFromShape(conns, 0, text, sendOk);
    BroadcastTried(conns, 0, text, sendOk);
    assert conns[0..] == conns;
  }

  /** The skip: with subscribers a, b, c and only a failing, b is never tried (nor sent the
      message) yet stays subscribed. */
  lemma BroadcastSkipsAfterRemoval(a: Socket, b: Socket, c: Socket, text: Json, sendOk: (Socket, Json) -> bool)
    requires a != b && b != c && a != c
    requires !sendOk(a, text) && sendOk(b, text) && sendOk(c, text)
    ensures BroadcastFrom([a, b, c], 0, Some(text), sendOk) == Fanout([b, c], [a, c])
  {
    assert RemoveFirst([a, b, c], a) == [b, c];
    assert BroadcastFrom([b, c], 2, Some(text), sendOk) == Fanout([b, c], []);
    assert BroadcastFrom([b, c], 1, Some(text), sendOk) == Fanout([b, c], [c]);
  }

  /** With a message that does not serialize, every tried socket is removed. Whatever the
      list, from position `i` on half of the remaining subscribers, rounded up, are tried, and
      each of them is removed. */
  lemma {:induction false} BroadcastOfUnserializable(conns: seq<Socket>, i: nat, sendOk: (Socket, Json) -> bool)
    requires i <= |conns|
    ensures var r := BroadcastFrom(conns, i, None, sendOk);
      |r.tried| == (|conns| - i + 1) / 2 && |r.remaining| == |conns| - |r.tried|
    decreases |conns| - i
  {
    if i < |conns| {
      var next := RemoveFirst(conns, conns[i]);
      if i + 1 <= |next| {
        BroadcastOfUnserializable(next, i + 1, sendOk);
      }
    }
  }

  /** The first, third, fifth, ... element of `s`. */
  function EveryOther(s: seq<Socket>): seq<Socket>
    decreases |s|
  {
    if |s| <= 1 then s else [s[0]] + EveryOther(s[2..])
  }

  /** The second, fourth, sixth, ... element of `s`. */
  function Odds(s: seq<Socket>): seq<Socket> {
    if s == [] then [] else EveryOther(s[1..])
  }

  /** `EveryOther` keeps half of the list, rounded up. */
  lemma {:induction false} EveryOtherLength(s: seq<Socket>)
    ensures |s| == 2 * |EveryOther(s)| || |s| == 2 * |EveryOther(s)| - 1
    decreases |s|
  {
    if |s| > 1 {
      EveryOtherLength(s[2..]);
    }
  }

  lemma {:induction false} EveryOtherAt(s: seq<Socket>)
    ensures |s| == 2 * |EveryOther(s)| || |s| == 2 * |EveryOther(s)| - 1
    ensures forall k :: 0 <= k < |EveryOther(s)| ==> EveryOther(s)[k] == s[2 * k]
    decreases |s|
  {
    EveryOtherLength(s);
    if |s| > 1 {
      var t := s[2..];
      var e := EveryOther(t);
      EveryOtherAt(t);
      var r := [s[0]] + e;
      assert EveryOther(s) == r;
      forall k | 0 <= k < |r| ensures r[k] == s[2 * k] {
        if k > 0 {
          assert r[k] == e[k - 1];
          assert e[k - 1] == t[2 * (k - 1)];
        }
      }
    }
  }

  lemma HalfOf(n: int, m: int)
    requires n == 2 * m || n == 2 * m - 1
    ensures m == (n + 1) / 2
  {
  }

  /** Removing `conns[i]` and stepping past slot `i` leaves the same halves to come. */
  lemma HalvesAfterRemoval(conns: seq<Socket>, i: nat, next: seq<Socket>)
    requires i + 1 < |conns| && next == conns[..i] + conns[i + 1..]
    ensures EveryOther(conns[i..]) == [conns[i]] + EveryOther(next[i + 1..])
    ensures conns[..i] + Odds(conns[i..]) == next[..i + 1] + Odds(next[i + 1..])
  {
    assert next[..i + 1] == conns[..i] + [conns[i + 1]];
    assert next[i + 1..] == conns[i + 2..];
    assert conns[i..][2..] == conns[i + 2..];
    assert conns[i..][1..] == conns[i + 1..];
    if i + 2 < |conns| {
      assert conns[i + 1..][2..] == conns[i + 2..][1..];
    }
  }

  /** On a list without duplicates, an unserializable message makes the loop try exactly
      the sockets at the even offsets from `i` (each is removed, so the next one slides into
      the slot the iterator skips) and keep the sockets before `i` and at the odd offsets. */
  lemma {:induction false} UnserializableShape(conns: seq<Socket>, i: nat, sendOk: (Socket, Json) -> bool)
    requires NoDup(conns) && i <= |conns|
    ensures BroadcastFrom(conns, i, None, sendOk) == Fanout(conns[..i] + Odds(conns[i..]), EveryOther(conns[i..]))
    decreases |conns| - i
  {
    if i < |conns| {
      var next := RemoveFirst(conns, conns[i]);
      RemoveFirstAt(conns, i);
      RemoveFirstNoDup(conns, conns[i]);
      var r' := BroadcastFrom(next, i + 1, None, sendOk);
      assert BroadcastFrom(conns, i, None, sendOk) == Fanout(r'.remaining, [conns[i]] + r'.tried);
      if i + 1 == |conns| {
        assert conns[i..] == [conns[i]];
        assert next == conns[..i];
      } else {
        UnserializableShape(next, i + 1, sendOk);
        HalvesAfterRemoval(conns, i, next);
      }
    }
  }

  /** Position by position: the `k`-th socket tried is `conns[i + 2k]`; the sockets before `i`
      stay in place and the `k`-th one kept after them is `conns[i + 2k + 1]`, never tried. */
  lemma UnserializableTriesEveryOther(conns: seq<Socket>, i: nat, sendOk: (Socket, Json) -> bool)
    requires NoDup(conns) && i <= |conns|
    ensures var r := BroadcastFrom(conns, i, None, sendOk);
      && |r.tried| == (|conns| - i + 1) / 2
      && (forall k :: 0 <= k < |r.tried| ==> r.tried[k] == conns[i + 2 * k])
      && |r.remaining| == i + (|conns| - i) / 2
      && r.remaining[..i] == conns[..i]
      && (forall k :: 0 <= k < (|conns| - i) / 2 ==> r.remaining[i + k] == conns[i + 2 * k + 1])
  {
    UnserializableShape(conns, i, sendOk);
    EveryOtherAt(conns[i..]);
    HalfOf(|conns| - i, |EveryOther(conns[i..])|);
    var r := BroadcastFrom(conns, i, None, sendOk);
    if i < |conns| {
      EveryOtherAt(conns[i + 1..]);
      HalfOf(|conns| - i - 1, |EveryOther(conns[i + 1..])|);
      assert Odds(conns[i..]) == EveryOther(conns[i + 1..]);
      forall k | 0 <= k < (|conns| - i) / 2 ensures r.remaining[i + k] == conns[i + 2 * k + 1] {
        assert r.remaining[i + k] == EveryOther(conns[i + 1..])[k];
        assert conns[i + 1..][2 * k] == conns[i + 2 * k + 1];
      }
    }
    assert r.remaining[..i] == conns[..i];
    forall k | 0 <= k < |r.tried| ensures r.tried[k] == conns[i + 2 * k] {
      assert conns[i..][2 * k] == conns[i + 2 * k];
    }
  }

  /** The corrected fan-out (iterating over a copy of the list): every subscriber is tried once,
      in order, and exactly the failing ones are removed. */
  function BroadcastAll(conns: seq<Socket>, text: Option<Json>, sendOk: (Socket, Json) -> bool): (r: Fanout)
    requires NoDup(conns)
    ensures r.tried == conns
    ensures forall c :: c in r.remaining <==> c in conns && Delivered(text, sendOk, c)
  {
    DropMembers(conns, FailedAmong(conns, text, sendOk));
    Fanout(Drop(conns, FailedAmong(conns, text, sendOk)), conns)
  }

  /** The set of WebSocket subscribers (`active_connections`). */
  class Subscribers {
    var active: seq<Socket>

    /** Each connection is listed once. */
    predicate Valid()
      reads this
    {
      NoDup(active)
    }

    constructor()
      ensures active == [] && Valid()
    {
      active := [];
    }

    /** `websocket_endpoint` after `accept()`: the socket goes to the end of the list. An
        accepted WebSocket is a new object, so it is not listed yet. */
    method Connect(s: Socket)
      requires Valid() && s !in active
      modifies this
      ensures active == old(active) + [s]
      ensures Valid()
    {
      active := active + [s];
    }

    /** `WebSocketDisconnect`: `active_connections.remove(websocket)`; `removed` is false when the
        socket was already gone (Python raises `ValueError` there). */
    method Disconnect(s: Socket) returns (removed: bool)
      requires Valid()
      modifies this
      ensures removed == (s in old(active))
      ensures active == RemoveFirst(old(active), s)
      ensures Valid() && s !in active
    {
      removed := s in active;
      RemoveFirstNoDup(active, s);
      RemoveFirstShrinks(active, s);
      if s in active {
        var i :| 0 <= i < |active| && active[i] == s;
        RemoveFirstAt(active, i);
        assert active == active[..i] + [s] + active[i + 1..];
      }
      active := RemoveFirst(active, s);
    }

    /** `broadcast_detection` as written: one message text for every socket, and the
        remove-while-iterating loop. */
    method Broadcast(data: Json, sendOk: (Socket, Json) -> bool) returns (tried: seq<Socket>)
      requires Valid()
      modifies this
      ensures Fanout(active, tried) == BroadcastFrom(old(active), 0, Dumps(DetectionMessage(data)), sendOk)
      ensures Valid()
    {
      BroadcastKeepsDeliveredInOrder(active, Dumps(DetectionMessage(data)), sendOk);
      DropNoDup(active, FailedAmong(BroadcastFrom(active, 0, Dumps(DetectionMessage(data)), sendOk).tried,
                                    Dumps(DetectionMessage(data)), sendOk));
      var text := Dumps(DetectionMessage(data));
      tried := [];
      var i := 0;
      while i < |active|
        invariant BroadcastFrom(old(active), 0, text, sendOk) ==
          var r := BroadcastFrom(active, i, text, sendOk); Fanout(r.remaining, tried + r.tried)
        decreases |active| - i
      {
        var connection := active[i];
        BroadcastLoopStep(active, i, tried, text, sendOk);
        i := i + 1;
        tried := tried + [connection];
        if !Delivered(text, sendOk, connection) {
          active := RemoveFirst(active, connection);
        }
      }
    }

    /** The corrected broadcast over a copy of the list. */
    method BroadcastSnapshot(data: Json, sendOk: (Socket, Json) -> bool) returns (tried: seq<Socket>)
      requires Valid()
      modifies this
      ensures Fanout(active, tried) == BroadcastAll(old(active), Dumps(DetectionMessage(data)), sendOk)
      ensures Valid()
    {
      var text := Dumps(DetectionMessage(data));
      var snapshot := active;
      var gone := FailedAmong(snapshot, text, sendOk);
      DropNoDup(snapshot, gone);
      tried := [];
      for k := 0 to |snapshot|
        invariant tried == snapshot[..k]
        invariant active == Drop(snapshot[..k], gone) + snapshot[k..]
      {
        var connection := snapshot[k];
        NoDupEarlier(snapshot, k);
        SnapshotStep(snapshot, k, gone, Delivered(text, sendOk, connection));
        tried := tried + [connection];
        if !Delivered(text, sendOk, connection) {
          active := RemoveFirst(active, connection);
        }
      }
      assert snapshot[..|snapshot|] == snapshot;
    }
  }

  /** One step of the corrected broadcast over the copy `snapshot`. */
  lemma SnapshotStep(snapshot: seq<Socket>, k: nat, gone: set<Socket>, delivered: bool)
    requires k < |snapshot| && snapshot[k] !in snapshot[..k] && (snapshot[k] in gone <==> !delivered)
    ensures snapshot[..k + 1] == snapshot[..k] + [snapshot[k]]
    ensures var before := Drop(snapshot[..k], gone) + snapshot[k..];
      var after := Drop(snapshot[..k + 1], gone) + snapshot[k + 1..];
      (delivered ==> before == after) && (!delivered ==> RemoveFirst(before, snapshot[k]) == after)
  {
    var x := snapshot[k];
    assert snapshot[..k + 1] == snapshot[..k] + [x];
    DropSnoc(snapshot[..k], x, gone);
    assert snapshot[k..] == [x] + snapshot[k + 1..];
    if !delivered {
      DropMembers(snapshot[..k], gone);
      RemoveFirstAfter(Drop(snapshot[..k], gone), snapshot[k..]);
    }
  }

  lemma NoDupEarlier(s: seq<Socket>, k: nat)
    requires NoDup(s) && k < |s|
    ensures s[k] !in s[..k]
  {
  }

  lemma {:induction false} RemoveFirstAfter(a: seq<Socket>, b: seq<Socket>)
    requires b != [] && b[0] !in a
    ensures RemoveFirst(a + b, b[0]) == a + b[1..]
  {
    if a != [] {
      assert (a + b)[1..] == a[1..] + b;
      RemoveFirstAfter(a[1..], b);
    }
  }

  // ---------------------------------------------------------------- detection queue

  /** `detection_queue`, taken one operation at a time. */
  class DetectionQueue {
    var items: seq<Camera.VehicleData>

    constructor()
      ensures items == []
    {
      items := [];
    }

    method Put(d: Camera.VehicleData)
      modifies this
      ensures items == old(items) + [d]
    {
      items := items + [d];
    }

    /** `get(timeout=1)`: the oldest item, or `None` where the empty queue times out. */
    method Get() returns (d: Option<Camera.VehicleData>)
      modifies this
      ensures old(items) == [] ==> d.None? && items == []
      ensures old(items) != [] ==> d == Some(old(items)[0]) && items == old(items)[1..]
    {
      if items == [] {
        d := None;
      } else {
        d := Some(items[0]);
        items := items[1..];
      }
    }
  }

  /** The log line printed for a detection when `DETECTIONS_LOG` is on. */
  function LogLine(d: Camera.VehicleData): (line: string)
    ensures StartsWith(line, "\U{1F697} DETECCIÓN: " + d.matricula + " - ")
    ensures var verdict := line[|"\U{1F697} DETECCIÓN: " + d.matricula + " - "|..];
      verdict == (if d.acceso then "PERMITIDO" else "DENEGADO") && (verdict == "PERMITIDO" <==> d.acceso)
  {
    "\U{1F697} DETECCIÓN: " + d.matricula + " - " + (if d.acceso then "PERMITIDO" else "DENEGADO")
  }

  /** `detection_callback`: optionally logs, then enqueues the record once. */
  method DetectionCallback(q: DetectionQueue, d: Camera.VehicleData, logFlag: Option<string>)
    returns (logged: Option<string>)
    modifies q
    ensures q.items == old(q.items) + [d]
    ensures logged == if DetectionsLogEnabled(logFlag) then Some(LogLine(d)) else None
  {
    logged := if DetectionsLogEnabled(logFlag) then Some(LogLine(d)) else None;
    q.Put(d);
  }

  /** One turn of `process_detection_queue`: a timeout on the empty queue continues, otherwise
      the oldest record is broadcast. */
  method DispatchOnce(q: DetectionQueue, subs: Subscribers, sendOk: (Socket, Json) -> bool)
    returns (dispatched: Option<Camera.VehicleData>, tried: seq<Socket>)
    requires subs.Valid()
    modifies q, subs
    ensures subs.Valid()
    ensures old(q.items) == [] ==> dispatched.None? && q.items == [] && subs.active == old(subs.active)
    ensures old(q.items) != [] ==>
      dispatched == Some(old(q.items)[0]) && q.items == old(q.items)[1..] &&
      Fanout(subs.active, tried) == BroadcastFrom(old(subs.active), 0, Dumps(DetectionMessage(VehicleJson(dispatched.value))), sendOk)
  {
    tried := [];
    dispatched := q.Get();
    if dispatched.Some? {
      tried := subs.Broadcast(VehicleJson(dispatched.value), sendOk);
    }
  }

  /** The dispatcher with both corrections: the timestamp is sent as a number and the broadcast
      iterates over a copy, so every subscriber is sent the message and exactly the failing
      ones are removed. */
  method DispatchCorrected(q: DetectionQueue, subs: Subscribers, sendOk: (Socket, Json) -> bool)
    returns (dispatched: Option<Camera.VehicleData>, tried: seq<Socket>)
    requires subs.Valid()
    modifies q, subs
    ensures subs.Valid()
    ensures old(q.items) == [] ==> dispatched.None? && q.items == [] && subs.active == old(subs.active)
    ensures old(q.items) != [] ==>
      var text := DetectionMessage(VehicleJsonPortable(old(q.items)[0]));
      dispatched == Some(old(q.items)[0]) && q.items == old(q.items)[1..] && tried == old(subs.active) &&
      forall c :: c in subs.active <==> c in old(subs.active) && sendOk(c, text)
  {
    tried := [];
    dispatched := q.Get();
    if dispatched.Some? {
      PortableMessageSerializes(dispatched.value);
      tried := subs.BroadcastSnapshot(VehicleJsonPortable(dispatched.value), sendOk);
    }
  }

  /** Two detections come out of the queue in the order they went in, then the queue is empty. */
  method QueueIsFifo(first: Camera.VehicleData, second: Camera.VehicleData)
    returns (a: Option<Camera.VehicleData>, b: Option<Camera.VehicleData>, c: Option<Camera.VehicleData>)
    ensures a == Some(first) && b == Some(second) && c.None?
  {
    var q := new DetectionQueue();
    var l1 := DetectionCallback(q, first, None);
    var l2 := DetectionCallback(q, second, None);
    a := q.Get();
    b := q.Get();
    c := q.Get();
  }

  // ---------------------------------------------------------------- stream chunks

  newtype byte = x: int | 0 <= x < 256

  function AsciiBytes(s: string): (b: seq<byte>)
    requires forall i :: 0 <= i < |s| ==> s[i] as int < 256
    ensures |b| == |s|
  {
    seq(|s|, i requires 0 <= i < |s| => s[i] as int as byte)
  }

  /** The multipart boundary (media type `multipart/x-mixed-replace; boundary=frame`). */
  const Boundary: string := "frame"
  const Crlf: seq<byte> := [13, 10]

  /** The part header: the delimiter line `--frame` of section 5.1.1 of RFC 2046, the part's
      Content-Type, and the blank line that ends the part headers. */
  function PartHeader(): seq<byte> {
    AsciiBytes("--" + Boundary) + Crlf + AsciiBytes("Content-Type: image/jpeg") + Crlf + Crlf
  }

  /** One chunk of the stream. */
  function Chunk(payload: seq<byte>): (c: seq<byte>)
    ensures |c| == |PartHeader()| + |payload| + 2
  {
    PartHeader() + payload + Crlf
  }

  /** Reads the payload back out of a chunk. */
  function ChunkPayload(c: seq<byte>): Option<seq<byte>> {
    var h := PartHeader();
    if |c| >= |h| + 2 && c[..|h|] == h && c[|c| - 2..] == Crlf then Some(c[|h|..|c| - 2]) else None
  }

  /** Framing and parsing are inverse: every payload is recovered, and whatever parses was
      framed from what it parses to. */
  lemma ChunkRoundTrip(payload: seq<byte>, c: seq<byte>)
    ensures ChunkPayload(Chunk(payload)) == Some(payload)
    ensures ChunkPayload(c).Some? ==> Chunk(ChunkPayload(c).value) == c
  {
    var h := PartHeader();
    var k := Chunk(payload);
    assert k[..|h|] == h;
    assert k[|k| - 2..] == Crlf;
    assert k[|h|..|k| - 2] == payload;
    if ChunkPayload(c).Some? {
      assert c == c[..|h|] + c[|h|..|c| - 2] + c[|c| - 2..];
    }
  }

  /** Every chunk starts with the delimiter line `--frame` CRLF. */
  lemma ChunkStartsWithDelimiter(payload: seq<byte>)
    ensures var d := AsciiBytes("--" + Boundary) + Crlf;
      |d| <= |Chunk(payload)| && Chunk(payload)[..|d|] == d
  {
  }

  /** What the stream draws on a frame: the rectangle, and the label and its anchor. */
  datatype Drawing = Drawing(rect: Detector.Box, caption: Option<(string, nat, nat)>)

  /** The overlay drawing of `generate_frames`: a missing bbox draws at [0,0,0,0]; the label is
      drawn at (x1, max(0, y1 - 10)) and only for non-empty text. */
  function DrawingOf(o: Camera.Overlay): (d: Drawing)
    ensures o.bbox.None? ==> d.rect == Detector.Box(0, 0, 0, 0)
    ensures o.bbox.Some? ==> d.rect == o.bbox.value
    ensures d.caption.Some? <==> o.text != ""
    ensures d.caption.Some? ==>
      d.caption.value.0 == o.text && d.caption.value.1 == d.rect.x1 &&
      d.caption.value.2 == (if d.rect.y1 >= 10 then d.rect.y1 - 10 else 0)
  {
    var r := o.bbox.GetOr(Detector.Box(0, 0, 0, 0));
    Drawing(r, if o.text != "" then Some((o.text, r.x1, Detector.Max(0, r.y1 - 10) as nat)) else None)
  }

  /** One chunk of `generate_frames` at time `now`. `encode` stands for drawing the overlay on
      a copy of the frame and `cv2.imencode('.jpg', ...)`. */
  function StreamChunk(svc: Camera.CameraService?, now: real, encode: (Camera.Frame, Option<Drawing>) -> seq<byte>): (c: seq<byte>)
    reads svc
    ensures (svc == null || svc.currentFrame.None?) ==> c == Chunk([])
    ensures svc != null && svc.currentFrame.Some? ==>
      var o := svc.LastPlateForOverlay(now, Camera.OverlayMaxAge);
      ChunkPayload(c) == Some(encode(svc.currentFrame.value, if o.Some? then Some(DrawingOf(o.value)) else None))
  {
    ChunkRoundTrip([], []);
    if svc != null && svc.currentFrame.Some? then
      var o := svc.LastPlateForOverlay(now, Camera.OverlayMaxAge);
      var payload := encode(svc.currentFrame.value, if o.Some? then Some(DrawingOf(o.value)) else None);
      ChunkRoundTrip(payload, []);
      Chunk(payload)
    else Chunk([])
  }

  // ---------------------------------------------------------------- status

  /** The `/status` response. */
  datatype CameraStatus =
    | NotInitialized
    | Status(status: string, cameraId: Camera.CameraId, lastDetection: Option<real>)

  /** `get_camera_status` */
  function GetCameraStatus(svc: Camera.CameraService?): (s: CameraStatus)
    reads svc
    ensures s.NotInitialized? <==> svc == null
    ensures s.Status? ==> (s.status == "running" <==> svc.isRunning) && (s.status == "running" || s.status == "stopped")
    ensures s.Status? ==> s.cameraId == svc.cameraId && s.lastDetection == svc.lastDetectionTime
  {
    if svc == null then NotInitialized
    else Status(if svc.isRunning then "running" else "stopped", svc.cameraId, svc.lastDetectionTime)
  }

  /** Starting then stopping a fresh service reports running, then stopped, with no detection. */
  method StatusFollowsStartStop() returns (before: CameraStatus, started: CameraStatus, stopped: CameraStatus)
    ensures before == Status("stopped", Camera.IntId(0), None)
    ensures started == Status("running", Camera.IntId(0), None)
    ensures stopped == Status("stopped", Camera.IntId(0), None)
  {
    var svc := new Camera.CameraService(Camera.IntId(0), None);
    before := GetCameraStatus(svc);
    svc.StartBackgroundCapture();
    started := GetCameraStatus(svc);
    svc.StopCapture();
    stopped := GetCameraStatus(svc);
  }
}
