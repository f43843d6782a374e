/**
 * The custom filter methods of the list endpoints. A queryset is a sequence
 * of rows; each filter keeps the rows a condition accepts, in their order.
 * A filter across a one-to-many relation first yields one row per matching
 * related row (`Expand`) and then `.distinct()` folds them back.
 */
module Filters {
  import opened Wrappers
  import opened Text
  import opened Calendar
  import opened Seqs
  import opened Models

  // ---------------------------------------------------------------- UsuarioFilter

  /** The text is a case-insensitive part of the first name, the last name or the username. */
  predicate NameMatches(u: Usuario, value: string)
    reads u
  {
    IContains(u.firstName, value) || IContains(u.lastName, value) || IContains(u.username, value)
  }

  function ByName(value: string): Usuario ~> bool
  {
    (u: Usuario) reads u => NameMatches(u, value)
  }

  /** `UsuarioFilter.filter_by_name`. */
  function FilterByName(us: seq<Usuario>, value: string): (r: seq<Usuario>)
    reads us
    ensures |r| <= |us|
    ensures forall u | u in r :: u in us && NameMatches(u, value)
    ensures forall u | u in us && NameMatches(u, value) :: u in r
  {
    Filter(us, ByName(value))
  }

  lemma FilterByNameTwice(us: seq<Usuario>, value: string)
    ensures FilterByName(FilterByName(us, value), value) == FilterByName(us, value)
  {
    FilterTwice(us, ByName(value));
  }

  /** The text is a case-insensitive part of the city or the province. */
  predicate LocationMatches(u: Usuario, value: string)
    reads u
  {
    IContains(u.ciudad, value) || IContains(u.provincia, value)
  }

  function ByLocation(value: string): Usuario ~> bool
  {
    (u: Usuario) reads u => LocationMatches(u, value)
  }

  /** `UsuarioFilter.filter_by_location`. */
  function FilterByLocation(us: seq<Usuario>, value: string): (r: seq<Usuario>)
    reads us
    ensures |r| <= |us|
    ensures forall u | u in r :: u in us && LocationMatches(u, value)
    ensures forall u | u in us && LocationMatches(u, value) :: u in r
  {
    Filter(us, ByLocation(value))
  }

  lemma FilterByLocationTwice(us: seq<Usuario>, value: string)
    ensures FilterByLocation(FilterByLocation(us, value), value) == FilterByLocation(us, value)
  {
    FilterTwice(us, ByLocation(value));
  }

  // ---------------------------------------------------------------- NegocioFilter

  /** The text is a case-insensitive part of the city, the province or the address. */
  predicate NearMatches(n: Negocio, value: string)
    reads n
  {
    IContains(n.ciudad, value) || IContains(n.provincia, value) || IContains(n.direccion, value)
  }

  function ByProximity(value: string): Negocio ~> bool
  {
    (n: Negocio) reads n => NearMatches(n, value)
  }

  /** `NegocioFilter.filter_by_proximity`. */
  function FilterByProximity(ns: seq<Negocio>, value: string): (r: seq<Negocio>)
    reads ns
    ensures |r| <= |ns|
    ensures forall n | n in r :: n in ns && NearMatches(n, value)
    ensures forall n | n in ns && NearMatches(n, value) :: n in r
  {
    Filter(ns, ByProximity(value))
  }

  lemma FilterByProximityTwice(ns: seq<Negocio>, value: string)
    ensures FilterByProximity(FilterByProximity(ns, value), value) == FilterByProximity(ns, value)
  {
    FilterTwice(ns, ByProximity(value));
  }

  /** Some service of the business (active or not) costs at least `value`. */
  predicate OffersFrom(n: Negocio, servicios: seq<ServicioNegocio>, value: Cents)
  {
    exists s | s in servicios :: s.negocio == n.id && s.precio >= value
  }

  /** Some service of the business (active or not) costs at most `value`. */
  predicate OffersUpTo(n: Negocio, servicios: seq<ServicioNegocio>, value: Cents)
  {
    exists s | s in servicios :: s.negocio == n.id && s.precio <= value
  }

  function PricedFrom(servicios: seq<ServicioNegocio>, value: Cents): Negocio -> bool
  {
    (n: Negocio) => OffersFrom(n, servicios, value)
  }

  function PricedUpTo(servicios: seq<ServicioNegocio>, value: Cents): Negocio -> bool
  {
    (n: Negocio) => OffersUpTo(n, servicios, value)
  }

  function PriceFrom(negocio: NegocioId, value: Cents): ServicioNegocio -> bool
  {
    (s: ServicioNegocio) => s.negocio == negocio && s.precio >= value
  }

  /** The rows of the join `servicios__precio__gte`: one per matching service. */
  function ServicesFrom(servicios: seq<ServicioNegocio>, value: Cents): Negocio -> nat
  {
    (n: Negocio) => Count(servicios, PriceFrom(n.id, value))
  }

  function PriceUpTo(negocio: NegocioId, value: Cents): ServicioNegocio -> bool
  {
    (s: ServicioNegocio) => s.negocio == negocio && s.precio <= value
  }

  /** The rows of the join `servicios__precio__lte`: one per matching service. */
  function ServicesUpTo(servicios: seq<ServicioNegocio>, value: Cents): Negocio -> nat
  {
    (n: Negocio) => Count(servicios, PriceUpTo(n.id, value))
  }

  lemma ServicesFromPositive(servicios: seq<ServicioNegocio>, value: Cents, n: Negocio)
    ensures (ServicesFrom(servicios, value)(n) > 0) == OffersFrom(n, servicios, value)
  {
    var m := PriceFrom(n.id, value);
    CountPositive(servicios, m);
    if OffersFrom(n, servicios, value) {
      var s :| s in servicios && m(s);
    }
  }

  /**
   * `NegocioFilter.filter_by_min_price`: every business with a service priced
   * at least `value`, each once; on a queryset without repeated rows, that is
   * exactly those businesses in their order.
   */
  function FilterByMinPrice(ns: seq<Negocio>, servicios: seq<ServicioNegocio>, value: Cents): (r: seq<Negocio>)
    ensures NoDuplicates(r)
    ensures forall n | n in r :: n in ns && OffersFrom(n, servicios, value)
    ensures forall n | n in ns && OffersFrom(n, servicios, value) :: n in r
    ensures NoDuplicates(ns) ==> r == Filter(ns, PricedFrom(servicios, value))
  {
    var mult := ServicesFrom(servicios, value);
    assert forall n | n in ns :: PricedFrom(servicios, value)(n) == (mult(n) > 0) by {
      forall n | n in ns
        ensures PricedFrom(servicios, value)(n) == (mult(n) > 0)
      {
        ServicesFromPositive(servicios, value, n);
      }
    }
    ExpandDistinctFilter(ns, mult, PricedFrom(servicios, value));
    Distinct(Expand(ns, mult))
  }

  lemma ServicesUpToPositive(servicios: seq<ServicioNegocio>, value: Cents, n: Negocio)
    ensures (ServicesUpTo(servicios, value)(n) > 0) == OffersUpTo(n, servicios, value)
  {
    var m := PriceUpTo(n.id, value);
    CountPositive(servicios, m);
    if OffersUpTo(n, servicios, value) {
      var s :| s in servicios && m(s);
    }
  }

  /**
   * `NegocioFilter.filter_by_max_price`: every business with a service priced
   * at most `value`, each once, in their order when the queryset has no repeats.
   */
  function FilterByMaxPrice(ns: seq<Negocio>, servicios: seq<ServicioNegocio>, value: Cents): (r: seq<Negocio>)
    ensures NoDuplicates(r)
    ensures forall n | n in r :: n in ns && OffersUpTo(n, servicios, value)
    ensures forall n | n in ns && OffersUpTo(n, servicios, value) :: n in r
    ensures NoDuplicates(ns) ==> r == Filter(ns, PricedUpTo(servicios, value))
  {
    var mult := ServicesUpTo(servicios, value);
    assert forall n | n in ns :: PricedUpTo(servicios, value)(n) == (mult(n) > 0) by {
      forall n | n in ns
        ensures PricedUpTo(servicios, value)(n) == (mult(n) > 0)
      {
        ServicesUpToPositive(servicios, value, n);
      }
    }
    ExpandDistinctFilter(ns, mult, PricedUpTo(servicios, value));
    Distinct(Expand(ns, mult))
  }

  /** Applying the minimum-price filter to its own result changes nothing. */
  lemma FilterByMinPriceTwice(ns: seq<Negocio>, servicios: seq<ServicioNegocio>, value: Cents)
    requires NoDuplicates(ns)
    ensures FilterByMinPrice(FilterByMinPrice(ns, servicios, value), servicios, value) ==
            FilterByMinPrice(ns, servicios, value)
  {
    FilterTwice(ns, PricedFrom(servicios, value));
  }

  /** Applying the maximum-price filter to its own result changes nothing. */
  lemma FilterByMaxPriceTwice(ns: seq<Negocio>, servicios: seq<ServicioNegocio>, value: Cents)
    requires NoDuplicates(ns)
    ensures FilterByMaxPrice(FilterByMaxPrice(ns, servicios, value), servicios, value) ==
            FilterByMaxPrice(ns, servicios, value)
  {
    FilterTwice(ns, PricedUpTo(servicios, value));
  }

  /** The business has an active opening window on weekday `dia`. */
  predicate OpensOn(n: Negocio, horarios: seq<HorarioNegocio>, dia: int)
  {
    exists h | h in horarios :: h.negocio == n.id && h.diaSemana == dia && h.activo
  }

  function OpenOn(horarios: seq<HorarioNegocio>, dia: int): Negocio -> bool
  {
    (n: Negocio) => OpensOn(n, horarios, dia)
  }

  function WindowOf(negocio: NegocioId, dia: int): HorarioNegocio -> bool
  {
    (h: HorarioNegocio) => h.negocio == negocio && h.diaSemana == dia && h.activo
  }

  /** The rows of the join on `horarios`: one per active window on that weekday. */
  function WindowsOn(horarios: seq<HorarioNegocio>, dia: int): Negocio -> nat
  {
    (n: Negocio) => Count(horarios, WindowOf(n.id, dia))
  }

  lemma WindowsOnPositive(horarios: seq<HorarioNegocio>, dia: int, n: Negocio)
    ensures (WindowsOn(horarios, dia)(n) > 0) == OpensOn(n, horarios, dia)
  {
    var m := WindowOf(n.id, dia);
    CountPositive(horarios, m);
    if OpensOn(n, horarios, dia) {
      var h :| h in horarios && m(h);
    }
  }

  /**
   * `NegocioFilter.filter_with_availability`: when asked, the businesses open
   * on today's weekday, each once; otherwise the queryset as it is.
   */
  function FilterWithAvailability(ns: seq<Negocio>, horarios: seq<HorarioNegocio>, value: bool, today: Date): (r: seq<Negocio>)
    requires ValidDate(today)
    ensures !value ==> r == ns
    ensures value ==> NoDuplicates(r)
    ensures value ==> forall n | n in r :: n in ns && OpensOn(n, horarios, Weekday(today))
    ensures value ==> forall n | n in ns && OpensOn(n, horarios, Weekday(today)) :: n in r
    ensures value && NoDuplicates(ns) ==> r == Filter(ns, OpenOn(horarios, Weekday(today)))
  {
    if value then
      var dia := Weekday(today);
      var mult := WindowsOn(horarios, dia);
      assert forall n | n in ns :: OpenOn(horarios, dia)(n) == (mult(n) > 0) by {
        forall n | n in ns
          ensures OpenOn(horarios, dia)(n) == (mult(n) > 0)
        {
          WindowsOnPositive(horarios, dia, n);
        }
      }
      ExpandDistinctFilter(ns, mult, OpenOn(horarios, dia));
      Distinct(Expand(ns, mult))
    else
      ns
  }

  lemma FilterWithAvailabilityTwice(ns: seq<Negocio>, horarios: seq<HorarioNegocio>, value: bool, today: Date)
    requires ValidDate(today) && NoDuplicates(ns)
    ensures FilterWithAvailability(FilterWithAvailability(ns, horarios, value, today), horarios, value, today) ==
            FilterWithAvailability(ns, horarios, value, today)
  {
    if value {
      FilterTwice(ns, OpenOn(horarios, Weekday(today)));
    }
  }

  // ---------------------------------------------------------------- ReseñaNegocioFilter

  /**
   * `filter_with_response` as written: `respuesta_negocio__isnull`. The column
   * is not nullable, so no review is null: asking for answered reviews keeps
   * every review and asking for unanswered ones keeps none.
   */
  function FilterWithResponseAsWritten(rs: seq<ResenaNegocio>, value: bool): (r: seq<ResenaNegocio>)
    ensures value ==> r == rs
    ensures !value ==> r == []
  {
    // `isnull=False` holds of every row, `isnull=True` of none
    var notNull := (x: ResenaNegocio) => true;
    var isNull := (x: ResenaNegocio) => false;
    FilterKeepsAll(rs, notNull);
    FilterKeepsNone(rs, isNull);
    if value then Filter(rs, notNull) else Filter(rs, isNull)
  }

  /** An unanswered review is still reported as answered. */
  lemma UnansweredReviewListedAsAnswered(negocio: NegocioId, cliente: UserId)
    ensures var review := ResenaNegocio(negocio, cliente, 5, "", true);
            review.respuestaNegocio == "" && review in FilterWithResponseAsWritten([review], true)
  {
  }

  /**
   * `filter_with_response` as evidently intended: answered reviews are those
   * with a non-blank response.
   */
  function FilterWithResponse(rs: seq<ResenaNegocio>, value: bool): (r: seq<ResenaNegocio>)
    ensures forall x | x in r :: x in rs && ((x.respuestaNegocio != "") == value)
    ensures forall x | x in rs && ((x.respuestaNegocio != "") == value) :: x in r
  {
    Filter(rs, Answered(value))
  }

  function Answered(value: bool): ResenaNegocio -> bool
  {
    (x: ResenaNegocio) => (x.respuestaNegocio != "") == value
  }

  /** Answered and unanswered reviews split the queryset: every review is in exactly one of them. */
  lemma {:induction false} FilterWithResponsePartition(rs: seq<ResenaNegocio>)
    ensures |FilterWithResponse(rs, true)| + |FilterWithResponse(rs, false)| == |rs|
  {
    if rs != [] {
      FilterWithResponsePartition(rs[1..]);
    }
  }

  // ---------------------------------------------------------------- FacturacionSuscripcionFilter

  const WeekSeconds: int := 7 * DaySeconds

  /** Pending and due no later than a week from now (overdue ones included). */
  predicate DueSoon(f: FacturacionSuscripcion, now: Instant)
  {
    f.fechaVencimiento <= now + WeekSeconds && f.estadoPago == PagoPendiente
  }

  /** `FacturacionSuscripcionFilter.filter_upcoming_due`. */
  function FilterUpcomingDue(fs: seq<FacturacionSuscripcion>, value: bool, now: Instant): (r: seq<FacturacionSuscripcion>)
    ensures !value ==> r == fs
    ensures value ==> forall f | f in r :: f in fs && DueSoon(f, now)
    ensures value ==> forall f | f in fs && DueSoon(f, now) :: f in r
  {
    if value then Filter(fs, DueBy(now)) else fs
  }

  function DueBy(now: Instant): FacturacionSuscripcion -> bool
  {
    (f: FacturacionSuscripcion) => DueSoon(f, now)
  }

  /** An invoice due soon now is still listed later, until it is paid. */
  lemma DueSoonPersists(f: FacturacionSuscripcion, now: Instant, later: Instant)
    requires now <= later && DueSoon(f, now)
    ensures DueSoon(f, later)
  {
  }

  lemma UpcomingDueIsFilter(fs: seq<FacturacionSuscripcion>, now: Instant)
    ensures FilterUpcomingDue(fs, true, now) == Filter(fs, DueBy(now))
  {
  }

  lemma FilterUpcomingDueTwice(fs: seq<FacturacionSuscripcion>, value: bool, now: Instant)
    ensures FilterUpcomingDue(FilterUpcomingDue(fs, value, now), value, now) == FilterUpcomingDue(fs, value, now)
  {
    if value {
      UpcomingDueIsFilter(fs, now);
      UpcomingDueIsFilter(FilterUpcomingDue(fs, value, now), now);
      FilterTwice(fs, DueBy(now));
    }
  }

  // ---------------------------------------------------------------- BloqueoHorarioFilter

  /** Active, starting no later than 23:59:59 of the day and ending no earlier than its midnight. */
  predicate ActiveOn(b: BloqueoHorario, day: Date)
    requires ValidDate(day)
  {
    b.fechaInicio <= At(day, 86399) && b.fechaFin >= At(day, 0) && b.activo
  }

  /** `BloqueoHorarioFilter.filter_active_on_date`. */
  function FilterActiveOnDate(bs: seq<BloqueoHorario>, day: Date): (r: seq<BloqueoHorario>)
    requires ValidDate(day)
    ensures forall b | b in r :: b in bs && ActiveOn(b, day)
    ensures forall b | b in bs && ActiveOn(b, day) :: b in r
  {
    Filter(bs, (b: BloqueoHorario) requires ValidDate(day) => ActiveOn(b, day))
  }

  /**
   * A block (that does not end before it starts) is kept exactly when it is
   * active and some second of the day lies within its closed interval
   * `[fecha_inicio, fecha_fin]`.
   */
  lemma ActiveOnOverlap(b: BloqueoHorario, day: Date)
    requires ValidDate(day) && b.fechaInicio <= b.fechaFin
    ensures ActiveOn(b, day) <==>
              b.activo && exists t: TimeOfDay :: b.fechaInicio <= At(day, t) <= b.fechaFin
  {
    if ActiveOn(b, day) {
      var t: TimeOfDay := if b.fechaInicio <= At(day, 0) then 0 else b.fechaInicio - At(day, 0);
      assert b.fechaInicio <= At(day, t) <= b.fechaFin;
    }
  }

  // ---------------------------------------------------------------- EmpleadoNegocioFilter

  /** The text is a case-insensitive part of the employee's user's names or username. */
  predicate EmployeeNameMatches(e: EmpleadoNegocio, usuarios: map<UserId, Usuario>, value: string)
    requires e.usuario in usuarios
    reads usuarios[e.usuario]
  {
    NameMatches(usuarios[e.usuario], value)
  }

  /**
   * `EmpleadoNegocioFilter.filter_by_employee_name`: the join with the
   * employee's user (`usuarios`, every referenced user present).
   */
  function FilterByEmployeeName(es: seq<EmpleadoNegocio>, usuarios: map<UserId, Usuario>, value: string): (r: seq<EmpleadoNegocio>)
    requires forall e | e in es :: e.usuario in usuarios
    reads usuarios.Values
    ensures forall e | e in r :: e in es && EmployeeNameMatches(e, usuarios, value)
    ensures forall e | e in es && EmployeeNameMatches(e, usuarios, value) :: e in r
  {
    Filter(es, (e: EmpleadoNegocio) requires e.usuario in usuarios reads usuarios.Values =>
                 EmployeeNameMatches(e, usuarios, value))
  }

  /** `EmpleadoNegocioFilter.filter_by_specialty`: a case-insensitive part of the specialties text. */
  function FilterBySpecialty(es: seq<EmpleadoNegocio>, value: string): (r: seq<EmpleadoNegocio>)
    ensures forall e | e in r :: e in es && IContains(e.especialidades, value)
    ensures forall e | e in es && IContains(e.especialidades, value) :: e in r
  {
    Filter(es, (e: EmpleadoNegocio) => IContains(e.especialidades, value))
  }

  /** A specialty of the employee, as listed, is found by the specialty filter. */
  lemma ListedSpecialtyFound(es: seq<EmpleadoNegocio>, e: EmpleadoNegocio, i: nat, j: nat)
    requires e in es && i <= j <= |e.especialidades|
    ensures IContains(e.especialidades, e.especialidades[i..j])
    ensures e in FilterBySpecialty(es, e.especialidades[i..j])
  {
    LowerSlice(e.especialidades, i, j);
    assert OccursAt(Lower(e.especialidades), Lower(e.especialidades[i..j]), i);
  }

  lemma LowerSlice(s: string, i: nat, j: nat)
    requires i <= j <= |s|
    ensures Lower(s)[i..j] == Lower(s[i..j])
  {
  }
}
