/**
 * The decisions the API views take themselves: the two object permissions,
 * the booking state change (`CitaViewSet.cambiar_estado`) and the
 * per-business statistics (`NegocioViewSet.estadisticas`). The slot scan of
 * `disponibilidad` lives in module Availability.
 */
module Views {
  import opened Wrappers
  import opened Calendar
  import opened Models

  /** The outcome of a refused request: 400 for an unknown state, 403 otherwise. */
  datatype VistaError = EstadoInvalido | NoAutorizado

  // ---------------------------------------------------------------- permissions

  datatype HttpMethod = Get | Head | Options | Post | Put | Patch | Delete

  /** `permissions.SAFE_METHODS`: the read-only methods. */
  predicate Safe(m: HttpMethod)
  {
    m == Get || m == Head || m == Options
  }

  /**
   * What `IsOwnerOrReadOnly` sees of an object: the user behind each of its
   * ownership attributes (`None` when the object has no such attribute) and,
   * when the object is itself a user, that user's id.
   */
  datatype OwnedObject = OwnedObject(
    propietario: Option<UserId>, usuario: Option<UserId>, cliente: Option<UserId>, asUser: Option<UserId>)

  /**
   * `IsOwnerOrReadOnly.has_object_permission`: reads are always allowed; a
   * write only to the user behind the first attribute the object has, in the
   * order `propietario`, `usuario`, `cliente`, and else to the object itself.
   */
  function OwnerOrReadOnly(m: HttpMethod, user: UserId, o: OwnedObject): (allowed: bool)
    ensures Safe(m) ==> allowed
    ensures !Safe(m) && allowed ==> Some(user) in {o.propietario, o.usuario, o.cliente, o.asUser}
    ensures !Safe(m) && o.propietario.Some? ==> (allowed <==> o.propietario.value == user)
    ensures !Safe(m) && o.propietario.None? && o.usuario.Some? ==> (allowed <==> o.usuario.value == user)
    ensures !Safe(m) && o.propietario.None? && o.usuario.None? && o.cliente.Some? ==>
              (allowed <==> o.cliente.value == user)
    ensures !Safe(m) && o.propietario.None? && o.usuario.None? && o.cliente.None? ==>
              (allowed <==> o.asUser == Some(user))
  {
    if Safe(m) then true
    else if o.propietario.Some? then o.propietario.value == user
    else if o.usuario.Some? then o.usuario.value == user
    else if o.cliente.Some? then o.cliente.value == user
    else o.asUser == Some(user)
  }

  /** The owner of the business, or a user with an active employee row there. */
  predicate OwnerOrActiveEmployee(n: Negocio, empleados: seq<EmpleadoNegocio>, user: UserId)
    reads n
  {
    n.propietario == user || exists e | e in empleados :: e.negocio == n.id && e.usuario == user && e.activo
  }

  /**
   * `IsBusinessOwnerOrEmployee.has_object_permission`: reads are always
   * allowed; a write needs an object that belongs to a business (`negocio`)
   * and a requester who owns it or is one of its active employees.
   */
  function BusinessOwnerOrEmployee(m: HttpMethod, user: UserId, negocio: Option<Negocio>,
                                   empleados: seq<EmpleadoNegocio>): (allowed: bool)
    reads if negocio.Some? then {negocio.value} else {}
    ensures Safe(m) ==> allowed
    ensures !Safe(m) && negocio.None? ==> !allowed
    ensures !Safe(m) && negocio.Some? ==> (allowed <==> OwnerOrActiveEmployee(negocio.value, empleados, user))
  {
    if Safe(m) then true
    else if negocio.Some? then
      if negocio.value.propietario == user then true
      else exists e | e in empleados :: e.negocio == negocio.value.id && e.usuario == user && e.activo
    else false
  }

  /**
   * A requester who does not own the business and whose employee rows there
   * are all inactive may not write to its objects.
   */
  lemma InactiveEmployeeRefused(m: HttpMethod, user: UserId, n: Negocio, empleados: seq<EmpleadoNegocio>)
    requires !Safe(m) && n.propietario != user
    requires forall e | e in empleados && e.negocio == n.id && e.usuario == user :: !e.activo
    ensures !BusinessOwnerOrEmployee(m, user, Some(n), empleados)
    ensures !OwnerOrActiveEmployee(n, empleados, user)
  {
  }

  // ---------------------------------------------------------------- cambiar_estado

  /** Who may move a booking into a state. */
  datatype Quien = Cualquiera | SoloCliente | Personal

  function QuienPuede(e: Estado): Quien
  {
    match e
    case CanceladaCliente => SoloCliente
    case Confirmada | CanceladaNegocio | Completada | NoAsistio => Personal
    case Pendiente | EnCurso => Cualquiera
  }

  predicate Cancelacion(e: Estado)
  {
    e == CanceladaCliente || e == CanceladaNegocio
  }

  /** Whether `user` passes the check `QuienPuede` names for a booking of `cliente` at `n`. */
  predicate Permitido(q: Quien, cliente: UserId, n: Negocio, empleados: seq<EmpleadoNegocio>, user: UserId)
    reads n
  {
    match q
    case Cualquiera => true
    case SoloCliente => user == cliente
    case Personal => OwnerOrActiveEmployee(n, empleados, user)
  }

  /**
   * The checks of `cambiar_estado`, in order: the requested key (`None` when
   * the request carries none) must be one of the state keys; the client's
   * cancellation only by the booking's client; confirming, the business's
   * cancellation, completing and no-show only by the owner or an active
   * employee. The result is the new state.
   */
  function DecidirCambio(code: Option<string>, cliente: UserId, n: Negocio,
                         empleados: seq<EmpleadoNegocio>, user: UserId): (r: Result<Estado, VistaError>)
    reads n
    ensures r == Err(EstadoInvalido) <==> code.None? || EstadoFromCode(code.value).None?
    ensures r.Ok? ==> code.Some? && EstadoCode(r.value) == code.value
    ensures code.Some? && EstadoFromCode(code.value).Some? ==>
              var e := EstadoFromCode(code.value).value;
              (r.Ok? <==> Permitido(QuienPuede(e), cliente, n, empleados, user))
  {
    if code.None? || EstadoFromCode(code.value).None? then Err(EstadoInvalido)
    else
      var nuevo := code.value;
      if nuevo in ["cancelada_cliente"] && cliente != user then Err(NoAutorizado)
      else if nuevo in ["confirmada", "cancelada_negocio", "completada", "no_asistio"]
              && !OwnerOrActiveEmployee(n, empleados, user) then Err(NoAutorizado)
      else Ok(EstadoFromCode(nuevo).value)
  }

  /** Only the booking's client may cancel it as a client, not even the owner. */
  lemma ClientCancellationOnlyByClient(cliente: UserId, n: Negocio, empleados: seq<EmpleadoNegocio>, user: UserId)
    requires user != cliente
    ensures DecidirCambio(Some("cancelada_cliente"), cliente, n, empleados, user) == Err(NoAutorizado)
  {
  }

  /** A client who is not staff cannot confirm or complete their own booking, but may mark it in progress. */
  lemma ClientCannotConfirm(cliente: UserId, n: Negocio, empleados: seq<EmpleadoNegocio>)
    requires !OwnerOrActiveEmployee(n, empleados, cliente)
    ensures DecidirCambio(Some("confirmada"), cliente, n, empleados, cliente) == Err(NoAutorizado)
    ensures DecidirCambio(Some("completada"), cliente, n, empleados, cliente) == Err(NoAutorizado)
    ensures DecidirCambio(Some("en_curso"), cliente, n, empleados, cliente) == Ok(EnCurso)
  {
  }

  /**
   * `cambiar_estado` on the booking `cita` of business `n`: a refused request
   * leaves the booking as it was; an accepted one sets the new state, stamps
   * `fecha_cancelacion` with `now` exactly for the two cancellations, and
   * saves (which only fills an unset end or a falsy price).
   */
  method CambiarEstado(cita: Cita, n: Negocio, empleados: seq<EmpleadoNegocio>, user: UserId,
                       code: Option<string>, now: Instant) returns (r: Result<Estado, VistaError>)
    requires cita.negocio == n.id
    modifies cita`estado, cita`fechaCancelacion, cita`fechaHoraFin, cita`precioFinal
    ensures r == DecidirCambio(code, cita.cliente, n, empleados, user)
    ensures r.Err? ==> unchanged(cita)
    ensures r.Ok? ==> cita.estado == r.value
    ensures r.Ok? && Cancelacion(r.value) ==> cita.fechaCancelacion == Some(now)
    ensures r.Ok? && !Cancelacion(r.value) ==> cita.fechaCancelacion == old(cita.fechaCancelacion)
    ensures old(cita.fechaHoraFin).Some? ==> cita.fechaHoraFin == old(cita.fechaHoraFin)
    ensures r.Ok? && old(cita.fechaHoraFin).None? ==>
              cita.fechaHoraFin == Some(cita.fechaHoraInicio + 60 * cita.servicio.duracionMinutos)
    ensures TruthyInt(old(cita.precioFinal)) ==> cita.precioFinal == old(cita.precioFinal)
    ensures r.Ok? && !TruthyInt(old(cita.precioFinal)) ==> cita.precioFinal == Some(cita.servicio.precio)
  {
    r := DecidirCambio(code, cita.cliente, n, empleados, user);
    if r.Err? {
      return;
    }
    cita.estado := r.value;
    if code.value in ["cancelada_cliente", "cancelada_negocio"] {
      cita.fechaCancelacion := Some(now);
    }
    cita.Save();
  }

  // ---------------------------------------------------------------- estadisticas

  /** How many of the bookings are in one of the states `estados`. */
  function ContarEstado(citas: seq<Cita>, estados: set<Estado>): (k: nat)
    reads citas
    ensures k <= |citas|
    ensures estados == {} ==> k == 0
  {
    if citas == [] then 0
    else ContarEstado(citas[..|citas| - 1], estados) + (if citas[|citas| - 1].estado in estados then 1 else 0)
  }

  /** No booking is counted exactly when none is in one of the states. */
  lemma {:induction false} ContarCero(citas: seq<Cita>, estados: set<Estado>)
    ensures ContarEstado(citas, estados) == 0 <==> forall c | c in citas :: c.estado !in estados
  {
    if citas != [] {
      var init, last := citas[..|citas| - 1], citas[|citas| - 1];
      ContarCero(init, estados);
      assert citas == init + [last];
      assert forall c :: c in citas <==> c in init || c == last;
    }
  }

  /** Counting two disjoint groups of states adds up. */
  lemma {:induction false} ContarUnion(citas: seq<Cita>, a: set<Estado>, b: set<Estado>)
    requires a !! b
    ensures ContarEstado(citas, a + b) == ContarEstado(citas, a) + ContarEstado(citas, b)
  {
    if citas != [] {
      ContarUnion(citas[..|citas| - 1], a, b);
    }
  }

  const TodosLosEstados: set<Estado> :=
    {Pendiente, Confirmada, EnCurso, Completada, CanceladaCliente, CanceladaNegocio, NoAsistio}

  /** Every booking is in some state. */
  lemma {:induction false} ContarTodos(citas: seq<Cita>)
    ensures ContarEstado(citas, TodosLosEstados) == |citas|
  {
    if citas != [] {
      ContarTodos(citas[..|citas| - 1]);
      var e := citas[|citas| - 1].estado;
      assert e in TodosLosEstados by {
        match e
        case Pendiente =>
        case Confirmada =>
        case EnCurso =>
        case Completada =>
        case CanceladaCliente =>
        case CanceladaNegocio =>
        case NoAsistio =>
      }
    }
  }

  /** The five status counts of the statistics, with the two states they omit, partition the bookings. */
  lemma EstadosPartition(citas: seq<Cita>)
    ensures ContarEstado(citas, {Pendiente}) + ContarEstado(citas, {Confirmada}) + ContarEstado(citas, {Completada})
            + ContarEstado(citas, {CanceladaCliente, CanceladaNegocio}) + ContarEstado(citas, {EnCurso, NoAsistio})
            == |citas|
  {
    ContarTodos(citas);
    ContarUnion(citas, {Pendiente}, {Confirmada});
    ContarUnion(citas, {Pendiente, Confirmada}, {Completada});
    ContarUnion(citas, {Pendiente, Confirmada, Completada}, {CanceladaCliente, CanceladaNegocio});
    ContarUnion(citas, {Pendiente, Confirmada, Completada, CanceladaCliente, CanceladaNegocio}, {EnCurso, NoAsistio});
    assert {Pendiente} + {Confirmada} == {Pendiente, Confirmada};
    assert {Pendiente, Confirmada} + {Completada} == {Pendiente, Confirmada, Completada};
    assert {Pendiente, Confirmada, Completada} + {CanceladaCliente, CanceladaNegocio}
        == {Pendiente, Confirmada, Completada, CanceladaCliente, CanceladaNegocio};
    assert {Pendiente, Confirmada, Completada, CanceladaCliente, CanceladaNegocio} + {EnCurso, NoAsistio}
        == TodosLosEstados;
  }

  /** `fecha_hora_inicio__date >= hoy.replace(day=1)`: the booking starts this month or later. */
  predicate DesdeInicioMes(c: Cita, hoy: Date)
    requires ValidDate(hoy)
    reads c
  {
    DayOf(c.fechaHoraInicio) >= Ordinal(Date(hoy.year, hoy.month, 1))
  }

  /** A booking whose price counts towards this month's revenue. */
  predicate CuentaIngreso(c: Cita, hoy: Date)
    requires ValidDate(hoy)
    reads c
  {
    c.estado == Completada && DesdeInicioMes(c, hoy)
  }

  /**
   * A booking that starts on `hoy` counts towards this month: the month's
   * revenue window contains the whole current day.
   */
  lemma CitaDeHoyEnElMes(c: Cita, hoy: Date, t: TimeOfDay)
    requires ValidDate(hoy) && c.fechaHoraInicio == At(hoy, t)
    ensures DesdeInicioMes(c, hoy)
  {
    DayOfAt(hoy, t);
    OrdinalOrder(Date(hoy.year, hoy.month, 1), hoy);
  }

  /**
   * `Sum('precio_final')` over the completed bookings from the first of the
   * month on, `or 0`: unset prices are skipped, and no row at all gives 0.
   */
  function IngresosMes(citas: seq<Cita>, hoy: Date): (total: Cents)
    requires ValidDate(hoy)
    reads citas
    ensures (forall c | c in citas :: !CuentaIngreso(c, hoy) || c.precioFinal.None?) ==> total == 0
    ensures (forall c | c in citas :: c.precioFinal.Some? ==> c.precioFinal.value >= 0) ==> total >= 0
  {
    if citas == [] then 0
    else
      var c := citas[|citas| - 1];
      IngresosMes(citas[..|citas| - 1], hoy) + (if CuentaIngreso(c, hoy) && c.precioFinal.Some? then c.precioFinal.value else 0)
  }

  /** A single booking contributes its price exactly when it counts and has one. */
  lemma IngresosUna(c: Cita, hoy: Date)
    requires ValidDate(hoy)
    ensures IngresosMes([c], hoy) == if CuentaIngreso(c, hoy) && c.precioFinal.Some? then c.precioFinal.value else 0
  {
    assert [c][..0] == [];
  }

  /** Revenue of two lists of bookings taken together is the sum of their revenues. */
  lemma {:induction false} IngresosAppend(a: seq<Cita>, b: seq<Cita>, hoy: Date)
    requires ValidDate(hoy)
    ensures IngresosMes(a + b, hoy) == IngresosMes(a, hoy) + IngresosMes(b, hoy)
  {
    if b == [] {
      assert a + b == a;
    } else {
      assert (a + b)[..|a + b| - 1] == a + b[..|b| - 1];
      assert (a + b)[|a + b| - 1] == b[|b| - 1];
      IngresosAppend(a, b[..|b| - 1], hoy);
    }
  }

  /** `citas.values('cliente').distinct()`: the clients the bookings belong to. */
  function Clientes(citas: seq<Cita>): (r: set<UserId>)
    reads citas
    ensures forall u :: u in r <==> exists c | c in citas :: c.cliente == u
    ensures |r| <= |citas|
    ensures |r| == 0 <==> |citas| == 0
  {
    if citas == [] then {}
    else
      var rest := Clientes(citas[..|citas| - 1]);
      assert citas == citas[..|citas| - 1] + [citas[|citas| - 1]];
      rest + {citas[|citas| - 1].cliente}
  }

  datatype Estadisticas = Estadisticas(
    totalCitas: nat, citasPendientes: nat, citasConfirmadas: nat, citasCompletadas: nat,
    citasCanceladas: nat, ingresosMesActual: Cents, calificacionPromedio: Cents, totalClientes: nat)

  /**
   * `estadisticas` for the business `n` and its bookings `citas`, asked by
   * `user` on the day `hoy`: refused unless `user` owns the business.
   */
  function EstadisticasDe(n: Negocio, user: UserId, citas: seq<Cita>, hoy: Date): (r: Result<Estadisticas, VistaError>)
    requires ValidDate(hoy)
    reads n, citas
    ensures r.Err? <==> n.propietario != user
    ensures r.Err? ==> r.error == NoAutorizado
    ensures r.Ok? ==> r.value.totalCitas == |citas|
    ensures r.Ok? ==> r.value.citasPendientes == ContarEstado(citas, {Pendiente})
    ensures r.Ok? ==> r.value.citasConfirmadas == ContarEstado(citas, {Confirmada})
    ensures r.Ok? ==> r.value.citasCompletadas == ContarEstado(citas, {Completada})
    ensures r.Ok? ==> r.value.citasCanceladas == ContarEstado(citas, {CanceladaCliente, CanceladaNegocio})
    ensures r.Ok? ==> r.value.ingresosMesActual == IngresosMes(citas, hoy)
    ensures r.Ok? ==> r.value.totalClientes == |Clientes(citas)|
    ensures r.Ok? ==> r.value.citasPendientes + r.value.citasConfirmadas + r.value.citasCompletadas
                      + r.value.citasCanceladas <= r.value.totalCitas
    ensures r.Ok? ==> r.value.totalClientes <= r.value.totalCitas
    ensures r.Ok? ==> (r.value.totalClientes == 0 <==> r.value.totalCitas == 0)
    ensures r.Ok? ==> r.value.calificacionPromedio == n.calificacionPromedio
  {
    if n.propietario != user then Err(NoAutorizado)
    else
      EstadosPartition(citas);
      Ok(Estadisticas(
        |citas|,
        ContarEstado(citas, {Pendiente}),
        ContarEstado(citas, {Confirmada}),
        ContarEstado(citas, {Completada}),
        ContarEstado(citas, {CanceladaCliente, CanceladaNegocio}),
        IngresosMes(citas, hoy),
        n.calificacionPromedio,
        |Clientes(citas)|))
  }
}
