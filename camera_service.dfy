/** The camera service: one capture step, the cooldown-gated frame processing, the single overlay
    slot with its time-to-live, the device probe order, the registry-record to access-decision
    mapping and the running flag. Threads, device I/O and the database query are left out; the
    detector's models and the registry are inputs. */
module Camera {
  import opened Wrappers
  import opened PyStr
  import Detector

  /** The `camera_id` given to the service: an int, a string, or anything else. */
  datatype CameraId = IntId(n: int) | TextId(s: string) | OtherId

  /** OpenCV capture backends: DirectShow, Media Foundation, and the default (`None`). */
  datatype Backend = Dshow | Msmf | AnyBackend

  /** How the capture was opened: by the URL override or by a device index and backend. */
  datatype CaptureSource = ByUrl(url: string) | ByDevice(index: int, backend: Backend)

  /** A captured frame; its pixels matter only to the models and the JPEG encoder. */
  datatype Frame = Frame(height: nat, width: nat, pixels: seq<int>)

  /** The inference models: vehicle and plate detector rows for a frame, and the OCR readings of
      the three preprocessing variants of a crop of a frame. */
  datatype Models = Models(
    vehicles: Frame -> seq<Detector.YoloBox>,
    plates: Frame -> seq<Detector.YoloBox>,
    ocr: Frame -> Detector.Crop -> seq<seq<Detector.OcrCandidate>>)

  /** `{'text', 'bbox', 'ts'}` */
  datatype Overlay = Overlay(text: string, bbox: Option<Detector.Box>, ts: real)

  /** The columns of a `vehiculos` row that the service reads. */
  datatype VehicleRecord = VehicleRecord(
    estado: Field<int>, propietario: Field<string>, nombre: Field<string>,
    telefono: Field<string>, email: Field<string>, idDepartamento: Field<int>)

  /** The dict handed to the detection callback. */
  datatype VehicleData = VehicleData(
    matricula: string, timestamp: real, confianza: real, propietario: Option<string>,
    telefono: Option<string>, email: Option<string>, departamento: Option<int>,
    diasRestantes: Option<int>, fechaVencimiento: Option<string>, estadoCuota: Option<int>,
    acceso: bool, motivo: Option<string>)

  const DetectionCooldown: real := 3.0
  const OverlayMaxAge: real := 3.0
  const Confianza: real := 0.95
  const DeniedReason: string := "Estado del vehículo denegado"

  /** A Python string is truthy when it is not empty. */
  predicate Truthy(f: Field<string>) { f.Present? && f.value != "" }

  /** `result.get('estado', 0)`: a missing column reads 0, a NULL reads None. */
  function EstadoOf(r: VehicleRecord): Option<int> {
    match r.estado
    case Missing => Some(0)
    case Null => None
    case Present(v) => Some(v)
  }

  /** `result.get('propietario') or result.get('nombre') or None` */
  function OwnerOf(r: VehicleRecord): Option<string> {
    if Truthy(r.propietario) then Some(r.propietario.value)
    else if Truthy(r.nombre) then Some(r.nombre.value)
    else None
  }

  /** `_get_vehicle_data` once the query has returned `record`. */
  function VehicleDataFor(plate: string, record: Option<VehicleRecord>, now: real): (r: Option<VehicleData>)
    ensures r.None? <==> record.None?
    ensures r.Some? ==>
      r.value.matricula == plate && r.value.timestamp == now && r.value.confianza == Confianza &&
      r.value.acceso == (EstadoOf(record.value) == Some(1)) &&
      (r.value.motivo.None? <==> r.value.acceso) &&
      r.value.diasRestantes.None? && r.value.fechaVencimiento.None?
  {
    match record
    case None => None
    case Some(rec) =>
      var estado := EstadoOf(rec);
      var acceso := estado == Some(1);
      Some(VehicleData(plate, now, Confianza, OwnerOf(rec), rec.telefono.ToOption(), rec.email.ToOption(),
                       rec.idDepartamento.ToOption(), None, None, estado, acceso,
                       if acceso then None else Some(DeniedReason)))
  }

  /** Only `estado == 1` grants access; a 0 or missing estado, which the doc-comment calls
      permitted, is denied with the fixed reason. */
  lemma EstadoOneIsTheOnlyGrant(plate: string, rec: VehicleRecord, now: real)
    ensures VehicleDataFor(plate, Some(rec), now).value.acceso <==> rec.estado == Present(1)
    ensures (rec.estado == Missing || rec.estado == Present(0)) ==>
      var d := VehicleDataFor(plate, Some(rec), now).value;
      !d.acceso && d.motivo == Some(DeniedReason) && d.estadoCuota == Some(0)
  {
  }

  /** The plate the detector reports for a frame. */
  function DetectionFor(m: Models, f: Frame): Option<Detector.Detection> {
    Detector.Accept(Detector.BestDetection(m.plates(f), Detector.VehicleBoxes(m.vehicles(f)), f.height, f.width, m.ocr(f)))
  }

  /** `int(s)` for an optional sign followed by ASCII digits. */
  function ParseInt(s: string): Option<int> {
    if |s| > 0 && (s[0] == '+' || s[0] == '-') then
      var v: int := DigitsValue(s[1..]);
      if AllDigits(s[1..]) then Some(if s[0] == '-' then -v else v) else None
    else if AllDigits(s) then Some(DigitsValue(s))
    else None
  }

  predicate AllDigits(s: string) {
    |s| > 0 && forall i :: 0 <= i < |s| ==> IsDigit(s[i])
  }

  function DigitsValue(s: string): nat
    decreases |s|
  {
    if s == [] then 0 else 10 * DigitsValue(s[..|s| - 1]) + ((s[|s| - 1] as int - '0' as int) % 10)
  }

  /** The index the caller asked for, if it is an int or parses as one. */
  function RequestedIndex(id: CameraId): Option<int> {
    match id
    case IntId(n) => Some(n)
    case TextId(s) => ParseInt(s)
    case OtherId => None
  }

  /** The indices 0..n-1, leaving out the requested one. */
  function Fallback(req: Option<int>, n: nat): seq<int>
    decreases n
  {
    if n == 0 then [] else Fallback(req, n - 1) + (if req == Some(n - 1) then [] else [n - 1])
  }

  /** The order in which device indices are tried. */
  function ProbeIndices(req: Option<int>): seq<int> {
    (if req.Some? then [req.value] else []) + Fallback(req, 4)
  }

  /** Backends in the order they are tried: DirectShow and Media Foundation when this OpenCV
      build has them, the default backend last. */
  function BackendOrder(hasDshow: bool, hasMsmf: bool): (bs: seq<Backend>)
    ensures |bs| == 1 + (if hasDshow then 1 else 0) + (if hasMsmf then 1 else 0)
    ensures bs[|bs| - 1] == AnyBackend
    ensures (Dshow in bs <==> hasDshow) && (Msmf in bs <==> hasMsmf)
    ensures hasDshow ==> bs[0] == Dshow
    ensures hasMsmf ==> bs[|bs| - 2] == Msmf
  {
    (if hasDshow then [Dshow] else []) + (if hasMsmf then [Msmf] else []) + [AnyBackend]
  }

  predicate NoDuplicates(s: seq<int>) {
    forall i, j :: 0 <= i < j < |s| ==> s[i] != s[j]
  }

  lemma {:induction false} FallbackMembers(req: Option<int>, n: nat)
    ensures forall x :: x in Fallback(req, n) <==> 0 <= x < n && req != Some(x)
  {
    if n > 0 {
      FallbackMembers(req, n - 1);
    }
  }

  lemma {:induction false} FallbackLength(req: Option<int>, n: nat)
    ensures |Fallback(req, n)| == if req.Some? && 0 <= req.value < n then n - 1 else n
  {
    if n > 0 {
      FallbackLength(req, n - 1);
    }
  }

  lemma {:induction false} FallbackSorted(req: Option<int>, n: nat)
    ensures forall i, j :: 0 <= i < j < |Fallback(req, n)| ==> Fallback(req, n)[i] < Fallback(req, n)[j]
  {
    if n > 0 {
      FallbackSorted(req, n - 1);
      FallbackMembers(req, n - 1);
      var prev := Fallback(req, n - 1);
      assert forall i :: 0 <= i < |prev| ==> prev[i] in prev;
    }
  }

  /** Index n is already in the probe list built so far exactly when it is the requested one. */
  lemma ProbeStep(req: Option<int>, head: seq<int>, n: nat)
    requires head == if req.Some? then [req.value] else []
    ensures n in head + Fallback(req, n) <==> req == Some(n)
    ensures Fallback(req, n + 1) == Fallback(req, n) + (if req == Some(n) then [] else [n])
  {
    FallbackMembers(req, n);
  }

  /** The fallback indices are 0..n-1 without the requested one, ascending, so free of repeats. */
  lemma FallbackShape(req: Option<int>, n: nat)
    ensures NoDuplicates(Fallback(req, n))
    ensures forall x :: x in Fallback(req, n) <==> 0 <= x < n && req != Some(x)
    ensures forall i, j :: 0 <= i < j < |Fallback(req, n)| ==> Fallback(req, n)[i] < Fallback(req, n)[j]
    ensures |Fallback(req, n)| == if req.Some? && 0 <= req.value < n then n - 1 else n
  {
    FallbackMembers(req, n);
    FallbackLength(req, n);
    FallbackSorted(req, n);
  }

  /** The probe list starts with the requested index, then lists 0..3 in order without it:
      no duplicates, four or five entries. */
  lemma ProbeIndicesShape(req: Option<int>)
    ensures var idx := ProbeIndices(req);
      NoDuplicates(idx) && (|idx| == 4 || |idx| == 5) &&
      (req.Some? ==> idx[0] == req.value) &&
      (req.None? ==> idx == [0, 1, 2, 3]) &&
      (forall x :: x in idx <==> (0 <= x < 4 || req == Some(x)))
  {
    var f := Fallback(req, 4);
    FallbackMembers(req, 4);
    FallbackLength(req, 4);
    FallbackSorted(req, 4);
    AscendingNoDuplicates(f);
    if req.None? {
      NothingRequested();
    } else {
      ConsNoDuplicates(req.value, f);
    }
  }

  lemma NothingRequested()
    ensures Fallback(None, 4) == [0, 1, 2, 3]
  {
    assert Fallback(None, 1) == [0];
    assert Fallback(None, 2) == [0, 1];
    assert Fallback(None, 3) == [0, 1, 2];
  }

  lemma AscendingNoDuplicates(s: seq<int>)
    requires forall i, j :: 0 <= i < j < |s| ==> s[i] < s[j]
    ensures NoDuplicates(s)
  {
  }

  lemma ConsNoDuplicates(x: int, s: seq<int>)
    requires x !in s && NoDuplicates(s)
    ensures NoDuplicates([x] + s)
  {
  }

  /** The camera service object. */
  class CameraService {
    const cameraId: CameraId
    const detector: Option<Models>
    const detectionCooldown: real
    var isRunning: bool
    var currentFrame: Option<Frame>
    var hasCallback: bool
    var lastDetectionTime: Option<real>
    var lastPlateOverlay: Option<Overlay>

    /** `CameraService(camera_id, db_config, models_dir)`; the detector exists exactly when
        model weights were given. */
    constructor(cameraId: CameraId, detector: Option<Models>)
      ensures this.cameraId == cameraId && this.detector == detector && detectionCooldown == DetectionCooldown
      ensures !isRunning && currentFrame.None? && !hasCallback
      ensures lastDetectionTime.None? && lastPlateOverlay.None?
    {
      this.cameraId := cameraId;
      this.detector := detector;
      detectionCooldown := DetectionCooldown;
      isRunning := false;
      currentFrame := None;
      hasCallback := false;
      lastDetectionTime := None;
      lastPlateOverlay := None;
    }

    method SetDetectionCallback()
      modifies this`hasCallback
      ensures hasCallback
    {
      hasCallback := true;
    }

    /** Sets the running flag; starting the capture thread is not modelled. */
    method StartBackgroundCapture()
      modifies this`isRunning
      ensures isRunning
    {
      isRunning := true;
    }

    /** Clears the running flag; joining the capture thread is not modelled. */
    method StopCapture()
      modifies this`isRunning
      ensures !isRunning
    {
      isRunning := false;
    }

    /** Less than the cooldown has passed since the last accepted detection (0 if none). */
    predicate CoolingDown(now: real)
      reads this
    {
      now - lastDetectionTime.GetOr(0.0) < detectionCooldown
    }

    /** `_process_frame` at time `now`. `ran` says whether the detector was invoked, `fired` is
        the record the detection callback was called with, if it was called. */
    method ProcessFrame(frame: Frame, now: real, registry: string -> Option<VehicleRecord>)
      returns (ran: bool, fired: Option<VehicleData>)
      modifies this`lastDetectionTime, this`lastPlateOverlay
      ensures ran == (detector.Some? && !old(CoolingDown(now)))
      ensures !ran ==> fired.None? && lastPlateOverlay == old(lastPlateOverlay)
      ensures ran ==>
        var d := DetectionFor(detector.value, frame);
        if d.Some? && d.value.text != "" then
          lastPlateOverlay == Some(Overlay(d.value.text, Some(d.value.bbox), now)) &&
          fired == (if hasCallback then VehicleDataFor(d.value.text, registry(d.value.text), now) else None)
        else
          lastPlateOverlay == old(lastPlateOverlay) && fired.None?
      ensures lastDetectionTime == if fired.Some? then Some(now) else old(lastDetectionTime)
    {
      ran, fired := false, None;
      if detector.None? {
        return;
      }
      if now - lastDetectionTime.GetOr(0.0) < detectionCooldown {
        return;
      }
      ran := true;
      var models := detector.value;
      var result := Detector.DetectPlateFromFrame(models.vehicles(frame), models.plates(frame),
                                                  frame.height, frame.width, models.ocr(frame));
      if result.Some? && result.value.text != "" {
        var plate := result.value.text;
        lastPlateOverlay := Some(Overlay(plate, Some(result.value.bbox), now));
        var vehicleData := VehicleDataFor(plate, registry(plate), now);
        if vehicleData.Some? && hasCallback {
          lastDetectionTime := Some(now);
          fired := vehicleData;
        }
      }
    }

    /** One iteration of the capture loop: a successful read replaces the current frame and is
        processed; a failed read (followed by a one-second sleep) changes nothing. */
    method CaptureStep(read: Option<Frame>, now: real, registry: string -> Option<VehicleRecord>)
      returns (fired: Option<VehicleData>)
      modifies this`currentFrame, this`lastDetectionTime, this`lastPlateOverlay
      ensures read.None? ==> fired.None? && unchanged(this)
      ensures read.Some? ==> currentFrame == read
      ensures read.Some? && (detector.None? || old(CoolingDown(now))) ==>
        fired.None? && lastPlateOverlay == old(lastPlateOverlay)
      ensures read.Some? && detector.Some? && !old(CoolingDown(now)) ==>
        var d := DetectionFor(detector.value, read.value);
        if d.Some? && d.value.text != "" then
          lastPlateOverlay == Some(Overlay(d.value.text, Some(d.value.bbox), now)) &&
          fired == (if hasCallback then VehicleDataFor(d.value.text, registry(d.value.text), now) else None)
        else
          lastPlateOverlay == old(lastPlateOverlay) && fired.None?
      ensures lastDetectionTime == if fired.Some? then Some(now) else old(lastDetectionTime)
    {
      fired := None;
      if read.Some? {
        currentFrame := read;
        var ran;
        ran, fired := ProcessFrame(read.value, now, registry);
      }
    }

    /** `get_last_plate_for_overlay(max_age_seconds)` */
    function LastPlateForOverlay(now: real, maxAge: real): (r: Option<Overlay>)
      reads this
      ensures r.Some? <==> lastPlateOverlay.Some? && now - lastPlateOverlay.value.ts <= maxAge
      ensures r.Some? ==> r == lastPlateOverlay
    {
      if lastPlateOverlay.None? then None
      else if now - lastPlateOverlay.value.ts <= maxAge then lastPlateOverlay
      else None
    }

    /** The first loop of `_open_capture`: the requested index, then 0..3 when not present. */
    method TryIndices() returns (tryIndices: seq<int>)
      ensures tryIndices == ProbeIndices(RequestedIndex(cameraId))
    {
      var req := RequestedIndex(cameraId);
      tryIndices := if req.Some? then [req.value] else [];
      ghost var head := tryIndices;
      for i := 0 to 4
        invariant tryIndices == head + Fallback(req, i)
      {
        ProbeStep(req, head, i);
        if i !in tryIndices {
          tryIndices := tryIndices + [i];
        }
      }
    }

    /** `_open_capture`: the URL override first, then every (index, backend) pair index by
        index; the first pair that opens wins. `urlOpens` and `opens` stand for
        `VideoCapture(...).isOpened()`, an exception counting as not opened. */
    method OpenCapture(cameraUrl: Option<string>, hasDshow: bool, hasMsmf: bool,
                       urlOpens: string -> bool, opens: (int, Backend) -> bool)
      returns (src: Option<CaptureSource>)
      ensures var urlOk := cameraUrl.Some? && cameraUrl.value != "" && urlOpens(cameraUrl.value);
        var idx := ProbeIndices(RequestedIndex(cameraId));
        var bs := BackendOrder(hasDshow, hasMsmf);
        (urlOk ==> src == Some(ByUrl(cameraUrl.value))) &&
        (!urlOk && src.Some? ==>
          exists i, j :: 0 <= i < |idx| && 0 <= j < |bs| && src == Some(ByDevice(idx[i], bs[j])) &&
            opens(idx[i], bs[j]) && NoneOpenBefore(idx, bs, opens, i, j)) &&
        (!urlOk && src.None? ==>
          forall i, j :: 0 <= i < |idx| && 0 <= j < |bs| ==> !opens(idx[i], bs[j]))
    {
      if cameraUrl.Some? && cameraUrl.value != "" {
        if urlOpens(cameraUrl.value) {
          return Some(ByUrl(cameraUrl.value));
        }
      }
      var tryIndices := TryIndices();
      var backends: seq<Backend> := [];
      if hasDshow {
        backends := backends + [Dshow];
      }
      if hasMsmf {
        backends := backends + [Msmf];
      }
      backends := backends + [AnyBackend];
      assert backends == BackendOrder(hasDshow, hasMsmf);
      for i := 0 to |tryIndices|
        invariant NoneOpenBefore(tryIndices, backends, opens, i, 0)
      {
        for j := 0 to |backends|
          invariant NoneOpenBefore(tryIndices, backends, opens, i, j)
        {
          if opens(tryIndices[i], backends[j]) {
            return Some(ByDevice(tryIndices[i], backends[j]));
          }
        }
        NextIndexClosed(tryIndices, backends, opens, i);
      }
      OnlyIndicesBefore(tryIndices, backends, opens);
      return None;
    }
  }

  /** No (index, backend) pair before (i, j) in the probe order opens. */
  ghost predicate NoneOpenBefore(idx: seq<int>, bs: seq<Backend>, opens: (int, Backend) -> bool, i: int, j: int) {
    forall i', j' :: 0 <= i' < |idx| && 0 <= j' < |bs| && (i' < i || (i' == i && j' < j)) ==>
      !opens(idx[i'], bs[j'])
  }

  lemma NextIndexClosed(idx: seq<int>, bs: seq<Backend>, opens: (int, Backend) -> bool, i: int)
    requires NoneOpenBefore(idx, bs, opens, i, |bs|)
    ensures NoneOpenBefore(idx, bs, opens, i + 1, 0)
  {
  }

  lemma OnlyIndicesBefore(idx: seq<int>, bs: seq<Backend>, opens: (int, Backend) -> bool)
    requires NoneOpenBefore(idx, bs, opens, |idx|, 0)
    ensures forall i, j :: 0 <= i < |idx| && 0 <= j < |bs| ==> !opens(idx[i], bs[j])
  {
  }

  /** Two frames showing the same registered plate one second apart with a three-second
      cooldown: the first fires the callback and writes the overlay, the second is suppressed
      before the detector runs and changes nothing. The overlay is still shown two seconds after
      the detection and no longer four seconds after it. */
  method CooldownScenario() returns (first: Option<VehicleData>, second: Option<VehicleData>,
                                     secondRan: bool, shownAt2: bool, shownAt4: bool)
    ensures first.Some? && first.value.matricula == "AB123CD"
    ensures !secondRan && second.None?
    ensures shownAt2 && !shownAt4
  {
    var models := Models(
      (f: Frame) => [Detector.YoloBox(10, 10, 200, 200, 0.8, 2)],
      (f: Frame) => [Detector.YoloBox(50, 50, 150, 90, 0.9, 0)],
      (f: Frame) => Detector.ScenarioOcr(0.6));
    var frame := Frame(480, 640, []);
    Detector.PipelineScenario(0.6);
    var rec := VehicleRecord(Present(1), Present("Ana"), Missing, Null, Null, Present(4));
    var svc := new CameraService(IntId(0), Some(models));
    svc.SetDetectionCallback();
    var ran;
    ran, first := svc.ProcessFrame(frame, 10.0, (p: string) => Some(rec));
    var overlay := svc.lastPlateOverlay;
    secondRan, second := svc.ProcessFrame(frame, 11.0, (p: string) => Some(rec));
    assert svc.lastPlateOverlay == overlay;
    shownAt2 := svc.LastPlateForOverlay(12.0, OverlayMaxAge).Some?;
    shownAt4 := svc.LastPlateForOverlay(14.0, OverlayMaxAge).Some?;
  }
}
