/** The parking access decision (`/cocheras/verificar-acceso`) and the payment history's
    no-department branch. Query results are inputs: each lookup is a function from its key to the
    rows or row the query returns. Dates are day numbers. */
module Cocheras {
  import opened Wrappers
  import opened PyStr

  /** `SELECT id_departamento FROM vehiculos WHERE matricula = ...` */
  datatype Vehiculo = Vehiculo(idDepartamento: Option<int>)

  /** A `pagos` row; `fechaPago` is NULL-able. */
  datatype Pago = Pago(idPago: int, fechaPago: Option<int>)

  /** `SELECT id_tarifa FROM inquilinos WHERE id_departamento = ...` */
  datatype Inquilino = Inquilino(idTarifa: Option<int>)

  /** A `tarifas` row. */
  datatype Tarifa = Tarifa(descripcion: Option<string>)

  /** The exceptions the outer `except` turns into `{"error": ...}`, and the failed UPDATE. */
  datatype ErrorKind = TarifaRowMissing | DescripcionNull | FechaPagoNull | UpdateFailed

  /** The response of `verificar_acceso_cochera`. */
  datatype Response =
    | Denied(motivo: string)
    | Expired(diasRestantes: int, vencimiento: int)
    | Granted(diasRestantes: int, vencimiento: int)
    | Failure(error: ErrorKind)
  {
    /** The `acceso` field; the error responses have none. */
    function Acceso(): Option<bool> {
      if Failure? then None else Some(Granted?)
    }
    function Mensaje(): Option<string> {
      if Failure? then None else if Granted? then Some("Acceso autorizado") else Some("Acceso denegado")
    }
    function Motivo(): Option<string> {
      match this
      case Denied(m) => Some(m)
      case Expired(_, _) => Some(MotivoVencida)
      case _ => None
    }
  }

  /** The decision, and whether the vehicle's `estado` was set to 1 by the UPDATE. */
  datatype Outcome = Outcome(response: Response, estadoSetToDenied: bool)

  const MotivoSinCochera: string := "Vehículo sin cochera/departamento asociado"
  const MotivoSinPagos: string := "No se encontraron pagos para este departamento"
  const MotivoSinTarifa: string := "No se encontró tarifa para el departamento"
  const MotivoVencida: string := "Mensualidad vencida"

  /** A Python int is truthy when it is not 0; `None` is falsy. */
  predicate TruthyId(id: Option<int>) { id.Some? && id.value != 0 }

  /** MySQL's `ORDER BY fecha_pago DESC` puts NULLs last: `p` sorts before `q`. */
  predicate Later(p: Pago, q: Pago) {
    p.fechaPago.Some? && (q.fechaPago.None? || p.fechaPago.value > q.fechaPago.value)
  }

  /** `ORDER BY fecha_pago DESC LIMIT 1`; among equal dates the first row is taken. */
  function LatestPayment(pagos: seq<Pago>): (r: Option<Pago>)
    decreases |pagos|
  {
    if pagos == [] then None
    else
      var rest := LatestPayment(pagos[1..]);
      if rest.Some? && Later(rest.value, pagos[0]) then rest else Some(pagos[0])
  }

  /** The row returned is one of the payments, and no payment sorts before it. */
  lemma {:induction false} LatestPaymentIsLatest(pagos: seq<Pago>)
    ensures LatestPayment(pagos).None? <==> pagos == []
    ensures LatestPayment(pagos).Some? ==>
      var p := LatestPayment(pagos).value;
      p in pagos && forall q :: q in pagos ==> !Later(q, p)
  {
    if pagos != [] {
      LatestPaymentIsLatest(pagos[1..]);
      assert forall q :: q in pagos ==> q == pagos[0] || q in pagos[1..];
    }
  }

  /** Days a tariff adds to the payment date. */
  function TermDays(descripcion: string): (d: nat)
    ensures d == 30 || d == 365 || d == 0
    ensures d == 30 <==> LowerStr(descripcion) == "mensual"
    ensures d == 365 <==> LowerStr(descripcion) == "anual"
  {
    if LowerStr(descripcion) == "mensual" then 30
    else if LowerStr(descripcion) == "anual" then 365
    else 0
  }

  /** The full decision chain. `updateOk` is whether the UPDATE of `estado` succeeds. */
  function VerificarAcceso(matricula: string, vehiculos: string -> Option<Vehiculo>,
                           pagosDe: int -> seq<Pago>, inquilinoDe: int -> Option<Inquilino>,
                           tarifaDe: int -> Option<Tarifa>, hoy: int, updateOk: bool): Outcome
  {
    var vehiculo := vehiculos(matricula);
    if vehiculo.None? || !TruthyId(vehiculo.value.idDepartamento) then Outcome(Denied(MotivoSinCochera), false)
    else
      var dep := vehiculo.value.idDepartamento.value;
      var pago := LatestPayment(pagosDe(dep));
      if pago.None? then Outcome(Denied(MotivoSinPagos), false)
      else
        var inquilino := inquilinoDe(dep);
        if inquilino.None? || !TruthyId(inquilino.value.idTarifa) then Outcome(Denied(MotivoSinTarifa), false)
        else
          var tarifa := tarifaDe(inquilino.value.idTarifa.value);
          if tarifa.None? then Outcome(Failure(TarifaRowMissing), false)
          else if tarifa.value.descripcion.None? then Outcome(Failure(DescripcionNull), false)
          else if pago.value.fechaPago.None? then Outcome(Failure(FechaPagoNull), false)
          else
            var vencimiento := pago.value.fechaPago.value + TermDays(tarifa.value.descripcion.value);
            var diasRestantes := vencimiento - hoy;
            if diasRestantes > 0 then Outcome(Granted(diasRestantes, vencimiento), false)
            else if updateOk then Outcome(Expired(diasRestantes, vencimiento), true)
            else Outcome(Failure(UpdateFailed), false)
  }

  /** The tariff in force for a department, when every lookup before the date arithmetic
      succeeds: the latest payment's date and the tariff's term. */
  function PaidUntil(matricula: string, vehiculos: string -> Option<Vehiculo>, pagosDe: int -> seq<Pago>,
                     inquilinoDe: int -> Option<Inquilino>, tarifaDe: int -> Option<Tarifa>): Option<int>
  {
    var vehiculo := vehiculos(matricula);
    if vehiculo.None? || !TruthyId(vehiculo.value.idDepartamento) then None
    else
      var dep := vehiculo.value.idDepartamento.value;
      var pago := LatestPayment(pagosDe(dep));
      var inquilino := inquilinoDe(dep);
      if pago.None? || pago.value.fechaPago.None? || inquilino.None? || !TruthyId(inquilino.value.idTarifa) then None
      else
        var tarifa := tarifaDe(inquilino.value.idTarifa.value);
        if tarifa.None? || tarifa.value.descripcion.None? then None
        else Some(pago.value.fechaPago.value + TermDays(tarifa.value.descripcion.value))
  }

  /** Access is granted exactly when the paid-until day is after today; an expiry today is a
      denial. Only a denial by expiry writes `estado`, and only when the UPDATE succeeds. */
  lemma AccessIffPaidAfterToday(matricula: string, vehiculos: string -> Option<Vehiculo>,
                                pagosDe: int -> seq<Pago>, inquilinoDe: int -> Option<Inquilino>,
                                tarifaDe: int -> Option<Tarifa>, hoy: int, updateOk: bool)
    ensures var o := VerificarAcceso(matricula, vehiculos, pagosDe, inquilinoDe, tarifaDe, hoy, updateOk);
      var until := PaidUntil(matricula, vehiculos, pagosDe, inquilinoDe, tarifaDe);
      (o.response.Granted? <==> until.Some? && until.value > hoy) &&
      (o.response.Granted? ==> o.response.vencimiento == until.value && o.response.diasRestantes == until.value - hoy) &&
      (o.estadoSetToDenied <==> o.response.Expired?) &&
      (o.response.Expired? <==> until.Some? && until.value <= hoy && updateOk) &&
      (o.response.Expired? ==> o.response.vencimiento == until.value && o.response.diasRestantes == until.value - hoy)
  {
  }

  /** The checks come in order: vehicle and department, then a payment, then the tenant's tariff. */
  lemma DenialsInOrder(matricula: string, vehiculos: string -> Option<Vehiculo>,
                       pagosDe: int -> seq<Pago>, inquilinoDe: int -> Option<Inquilino>,
                       tarifaDe: int -> Option<Tarifa>, hoy: int, updateOk: bool)
    ensures var o := VerificarAcceso(matricula, vehiculos, pagosDe, inquilinoDe, tarifaDe, hoy, updateOk);
      var v := vehiculos(matricula);
      (v.None? || !TruthyId(v.value.idDepartamento) <==> o.response == Denied(MotivoSinCochera)) &&
      (v.Some? && TruthyId(v.value.idDepartamento) && pagosDe(v.value.idDepartamento.value) == [] ==>
        o.response == Denied(MotivoSinPagos)) &&
      (v.Some? && TruthyId(v.value.idDepartamento) && pagosDe(v.value.idDepartamento.value) != [] &&
       (inquilinoDe(v.value.idDepartamento.value).None? || !TruthyId(inquilinoDe(v.value.idDepartamento.value).value.idTarifa)) ==>
        o.response == Denied(MotivoSinTarifa))
  {
    var v := vehiculos(matricula);
    if v.Some? && TruthyId(v.value.idDepartamento) {
      LatestPaymentIsLatest(pagosDe(v.value.idDepartamento.value));
    }
  }

  /** The term ignores the letter case of the tariff's description. */
  lemma TermDaysIgnoresCase(descripcion: string)
    ensures TermDays(descripcion) == TermDays(LowerStr(descripcion)) == TermDays(UpperStr(descripcion))
  {
    LowerLowerStr(descripcion);
    LowerUpperStr(descripcion);
  }

  /** The term by tariff: monthly adds 30 days, yearly 365, any other tariff none. */
  lemma TermDaysExamples()
    ensures TermDays("mensual") == 30 && TermDays("MENSUAL") == 30 && TermDays("Anual") == 365
    ensures TermDays("semanal") == 0 && TermDays("") == 0
  {
    assert LowerStr("MENSUAL") == "mensual";
    assert LowerStr("Anual") == "anual";
    assert LowerStr("mensual") == "mensual";
    assert LowerStr("semanal") == "semanal";
  }

  /** A grant today implies a grant on every earlier day, and a denial by expiry today implies one
      on every later day. */
  lemma AccessMonotoneInTime(matricula: string, vehiculos: string -> Option<Vehiculo>,
                             pagosDe: int -> seq<Pago>, inquilinoDe: int -> Option<Inquilino>,
                             tarifaDe: int -> Option<Tarifa>, hoy: int, otro: int, updateOk: bool)
    ensures var now := VerificarAcceso(matricula, vehiculos, pagosDe, inquilinoDe, tarifaDe, hoy, updateOk);
      var onOther := VerificarAcceso(matricula, vehiculos, pagosDe, inquilinoDe, tarifaDe, otro, updateOk);
      (otro <= hoy && now.response.Granted? ==> onOther.response.Granted?) &&
      (hoy <= otro && now.response.Expired? ==> onOther.response.Expired?)
  {
    AccessIffPaidAfterToday(matricula, vehiculos, pagosDe, inquilinoDe, tarifaDe, hoy, updateOk);
    AccessIffPaidAfterToday(matricula, vehiculos, pagosDe, inquilinoDe, tarifaDe, otro, updateOk);
  }

  /** The response of `historial_pagos`. */
  datatype Historial = Historial(pagos: seq<Pago>, mensaje: Option<string>)

  /** `historial_pagos`: without a department the list is empty and carries the reason; otherwise
      every payment of the department is listed. */
  function HistorialPagos(matricula: string, vehiculos: string -> Option<Vehiculo>, pagosDe: int -> seq<Pago>): (h: Historial)
    ensures var v := vehiculos(matricula);
      (v.None? || !TruthyId(v.value.idDepartamento) <==> h.mensaje.Some?) &&
      (h.mensaje.Some? ==> h.pagos == [] && h.mensaje.value == MotivoSinCochera) &&
      (h.mensaje.None? ==> h.pagos == pagosDe(v.value.idDepartamento.value))
  {
    var v := vehiculos(matricula);
    if v.None? || !TruthyId(v.value.idDepartamento) then Historial([], Some(MotivoSinCochera))
    else Historial(pagosDe(v.value.idDepartamento.value), None)
  }

  /** The history and the access check agree on which vehicles have no department. */
  lemma HistoryAgreesWithAccess(matricula: string, vehiculos: string -> Option<Vehiculo>,
                                pagosDe: int -> seq<Pago>, inquilinoDe: int -> Option<Inquilino>,
                                tarifaDe: int -> Option<Tarifa>, hoy: int, updateOk: bool)
    ensures HistorialPagos(matricula, vehiculos, pagosDe).mensaje.Some? <==>
      VerificarAcceso(matricula, vehiculos, pagosDe, inquilinoDe, tarifaDe, hoy, updateOk).response == Denied(MotivoSinCochera)
  {
    DenialsInOrder(matricula, vehiculos, pagosDe, inquilinoDe, tarifaDe, hoy, updateOk);
  }
}
