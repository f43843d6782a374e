/**
 * The records of the booking platform and the logic attached to them: user
 * names and initials, profile completeness, e-mail normalisation on save,
 * unique slugs for businesses, the subscription check, the booking's derived
 * end time and price, and typed platform settings.
 *
 * Rows the core mutates in place (users, businesses, bookings) are classes;
 * rows it only reads are datatypes. Foreign keys are the referenced row's id,
 * since Django compares model instances by primary key.
 */
module Models {
  import opened Wrappers
  import opened Text
  import opened Calendar

  type UserId = int
  type NegocioId = int
  type EmpleadoId = int
  type ServicioId = int

  /** A `DecimalField(decimal_places=2)` amount, in hundredths. */
  type Cents = int

  /** What `set_password` stores: the password itself is never kept, only its hash. */
  datatype PasswordHash = Unusable | Hashed(secret: string)

  // ---------------------------------------------------------------- Usuario

  class Usuario {
    const id: UserId
    var username: string
    var email: string
    var firstName: string
    var lastName: string
    var telefono: string
    var fechaNacimiento: Option<Date>
    var ciudad: string
    var provincia: string
    var isActive: bool
    var password: PasswordHash
    var lastLogin: Option<Instant>
    var ultimaActividad: Option<Instant>

    /** A new user as `create_user` starts it: every optional field blank, active, no usable password. */
    constructor (id: UserId, username: string)
      ensures this.id == id && this.username == username
      ensures email == "" && firstName == "" && lastName == "" && telefono == ""
      ensures fechaNacimiento == None && ciudad == "" && provincia == ""
      ensures isActive && password == Unusable && lastLogin == None && ultimaActividad == None
    {
      this.id := id;
      this.username := username;
      email, firstName, lastName, telefono := "", "", "", "";
      fechaNacimiento, ciudad, provincia := None, "", "";
      isActive, password, lastLogin, ultimaActividad := true, Unusable, None, None;
    }

    /**
     * `get_nombre_completo`: "first last" when both names are set (stripped of
     * surrounding whitespace), the one name when only one is set, "" otherwise.
     */
    function NombreCompleto(): (r: string)
      reads this
      ensures firstName == "" && lastName == "" ==> r == ""
      ensures firstName != "" && lastName == "" ==> r == firstName
      ensures firstName == "" && lastName != "" ==> r == lastName
      ensures firstName != "" && lastName != "" && Trimmed(firstName) && Trimmed(lastName) ==>
                r == firstName + " " + lastName
      ensures firstName != "" && lastName != "" ==> Trimmed(r)
    {
      if firstName != "" && lastName != "" then
        var full := firstName + " " + lastName;
        assert Trimmed(firstName) && Trimmed(lastName) ==> Strip(full) == full by {
          if Trimmed(firstName) && Trimmed(lastName) {
            StripTrimmed(full);
          }
        }
        Strip(full)
      else if firstName != "" then firstName
      else if lastName != "" then lastName
      else ""
    }

    /**
     * `get_iniciales`: the upper-cased first letters of the first and last
     * names; when both names are empty, the first two characters of the
     * username, upper-cased.
     */
    function Iniciales(): (r: string)
      reads this
      ensures |r| <= 2
      ensures firstName != "" || lastName != "" ==>
                |r| == (if firstName != "" then 1 else 0) + (if lastName != "" then 1 else 0)
      ensures firstName != "" ==> r[0] == UpperChar(firstName[0])
      ensures lastName != "" ==> r[|r| - 1] == UpperChar(lastName[0])
      ensures firstName != "" && lastName != "" ==> |r| == 2
      ensures firstName == "" && lastName == "" ==>
                r == Upper(username[..if |username| < 2 then |username| else 2])
    {
      var nombre := if firstName != "" then Upper(firstName[..1]) else "";
      var apellido := if lastName != "" then Upper(lastName[..1]) else "";
      var both := nombre + apellido;
      if both != "" then both else Upper(username[..if |username| < 2 then |username| else 2])
    }

    /** `tiene_perfil_completo`: names, e-mail, phone and birth date are all filled in. */
    predicate PerfilCompleto()
      reads this
    {
      firstName != "" && lastName != "" && email != "" && telefono != "" && fechaNacimiento.Some?
    }

    /**
     * `save`: the e-mail is stored in lower case (an empty one is left as is),
     * and the last activity is stamped with `now` when `last_login` differs
     * from the value stored for this user (`persisted`; `None` when there is
     * no stored row or its value is null).
     */
    method Save(persisted: Option<Instant>, now: Instant)
      modifies this`email, this`ultimaActividad
      ensures email == if old(email) == "" then "" else Lower(old(email))
      ensures ultimaActividad == if lastLogin != persisted then Some(now) else old(ultimaActividad)
    {
      if email != "" {
        email := Lower(email);
      }
      if lastLogin != persisted {
        ultimaActividad := Some(now);
      }
    }
  }

  /** A complete profile whose names are ASCII text always yields two initials. */
  lemma PerfilCompletoHasTwoInitials(u: Usuario)
    requires u.PerfilCompleto() && Ascii(u.firstName) && Ascii(u.lastName)
    ensures |u.Iniciales()| == 2
  {
  }

  /** Lower-casing is idempotent, so saving a user twice stores the same e-mail as saving once. */
  lemma LowerTwice(s: string)
    ensures Lower(Lower(s)) == Lower(s)
  {
  }

  // ---------------------------------------------------------------- Negocio

  datatype EstadoSuscripcion = Activa | PendientePago | Suspendida | Cancelada | Prueba

  class Negocio {
    const id: NegocioId
    var propietario: UserId
    var nombre: string
    var slug: string
    var ciudad: string
    var provincia: string
    var direccion: string
    var estadoSuscripcion: EstadoSuscripcion
    var fechaFinSuscripcion: Option<Instant>
    var calificacionPromedio: Cents
    var activo: bool

    /** `suscripcion_activa`: subscription state 'activa' with an end date not yet passed. */
    predicate SuscripcionActiva(now: Instant)
      reads this
    {
      estadoSuscripcion == Activa && fechaFinSuscripcion.Some? && now <= fechaFinSuscripcion.value
    }

    /**
     * `save`: a business without a slug gets the first free one among
     * `baseSlug`, `baseSlug-1`, `baseSlug-2`, ... where `baseSlug` is
     * `slugify(nombre)` and `taken` holds the slugs of every other business;
     * an existing slug is kept.
     */
    method Save(baseSlug: string, taken: set<string>)
      modifies this`slug
      ensures old(slug) != "" ==> slug == old(slug)
      ensures old(slug) == "" ==> FirstFreeSlug(slug, baseSlug, taken)
    {
      if slug == "" {
        slug := UniqueSlug(baseSlug, taken);
      }
    }
  }

  /** Once a subscription is no longer active by date, it stays inactive later on. */
  lemma SuscripcionExpires(n: Negocio, now: Instant, later: Instant)
    requires now <= later
    requires n.SuscripcionActiva(later)
    ensures n.SuscripcionActiva(now)
  {
  }

  /** The candidate `f"{base}-{n}"`. */
  function SlugCandidate(base: string, n: nat): string
  {
    base + "-" + NatToString(n)
  }

  /**
   * `slug` is free, and is `base` when that is free, otherwise `base-n` for
   * the smallest `n >= 1` whose candidate is free.
   */
  ghost predicate FirstFreeSlug(slug: string, base: string, taken: set<string>)
  {
    slug !in taken &&
    (base !in taken ==> slug == base) &&
    (base in taken ==> exists n :: n >= 1 && slug == SlugCandidate(base, n) &&
                                   forall k :: 1 <= k < n ==> SlugCandidate(base, k) in taken)
  }

  lemma CandidateInjective(base: string, m: nat, n: nat)
    requires SlugCandidate(base, m) == SlugCandidate(base, n)
    ensures m == n
  {
    assert SlugCandidate(base, m)[|base| + 1..] == NatToString(m);
    assert SlugCandidate(base, n)[|base| + 1..] == NatToString(n);
    NatToStringInjective(m, n);
  }

  /** The slugs tried before counter `c`: the base and candidates 1 to c-1. */
  ghost function Tried(base: string, c: nat): set<string>
  {
    if c <= 1 then {base} else Tried(base, c - 1) + {SlugCandidate(base, c - 1)}
  }

  lemma {:induction false} TriedHas(base: string, c: nat, k: nat)
    requires 1 <= k < c
    ensures SlugCandidate(base, k) in Tried(base, c) && base in Tried(base, c)
  {
    if k < c - 1 {
      TriedHas(base, c - 1, k);
    } else if c > 2 {
      TriedHas(base, c - 1, 1);
    }
  }

  /** Every tried slug is the base or a candidate numbered below `c`. */
  lemma {:induction false} TriedOnly(base: string, c: nat, x: string)
    requires x in Tried(base, c)
    ensures x == base || exists k :: 1 <= k < c && x == SlugCandidate(base, k)
  {
    if c > 1 && x != SlugCandidate(base, c - 1) {
      TriedOnly(base, c - 1, x);
    }
  }

  lemma {:induction false} TriedSize(base: string, c: nat)
    requires c >= 1
    ensures |Tried(base, c)| == c
  {
    if c > 1 {
      TriedSize(base, c - 1);
      var cand := SlugCandidate(base, c - 1);
      if cand in Tried(base, c - 1) {
        TriedOnly(base, c - 1, cand);
        if cand != base {
          var k :| 1 <= k < c - 1 && cand == SlugCandidate(base, k);
          CandidateInjective(base, k, c - 1);
        }
      }
    }
  }

  lemma {:induction false} SubsetSize(a: set<string>, b: set<string>)
    requires a <= b
    ensures |a| <= |b|
  {
    if a != {} {
      var x :| x in a;
      SubsetSize(a - {x}, b - {x});
    }
  }

  /** The slug loop of `Negocio.save`: try the base, then `base-1`, `base-2`, ... until one is free. */
  method UniqueSlug(base: string, taken: set<string>) returns (slug: string)
    ensures FirstFreeSlug(slug, base, taken)
  {
    slug := base;
    var counter: nat := 1;
    while slug in taken
      invariant 1 <= counter <= |taken| + 1
      invariant slug == if counter == 1 then base else SlugCandidate(base, counter - 1)
      invariant slug in Tried(base, counter) && base in Tried(base, counter)
      invariant counter > 1 ==> base in taken
      invariant Tried(base, counter) - {slug} <= taken
      decreases |taken| + 1 - counter
    {
      assert Tried(base, counter) <= taken;
      TriedSize(base, counter);
      SubsetSize(Tried(base, counter), taken);
      slug := SlugCandidate(base, counter);
      counter := counter + 1;
    }
    if base in taken {
      assert counter > 1;
      var n := counter - 1;
      forall k | 1 <= k < n
        ensures SlugCandidate(base, k) in taken
      {
        if SlugCandidate(base, k) == slug {
          CandidateInjective(base, k, n);
        }
        TriedHas(base, counter, k);
      }
    }
  }

  /** The slug rule picks exactly one slug: two slugs that both satisfy it are equal. */
  lemma FirstFreeSlugUnique(a: string, b: string, base: string, taken: set<string>)
    requires FirstFreeSlug(a, base, taken) && FirstFreeSlug(b, base, taken)
    ensures a == b
  {
    if base in taken {
      var m :| m >= 1 && a == SlugCandidate(base, m) && forall k :: 1 <= k < m ==> SlugCandidate(base, k) in taken;
      var n :| n >= 1 && b == SlugCandidate(base, n) && forall k :: 1 <= k < n ==> SlugCandidate(base, k) in taken;
    }
  }

  // ---------------------------------------------------------------- rows read by the core

  datatype EmpleadoNegocio = EmpleadoNegocio(
    id: EmpleadoId, usuario: UserId, negocio: NegocioId, especialidades: string, activo: bool)

  datatype ServicioNegocio = ServicioNegocio(
    id: ServicioId, negocio: NegocioId, nombre: string, duracionMinutos: nat, precio: Cents, activo: bool)

  /** A weekly opening window; the validity dates are stored but the core never reads them. */
  datatype HorarioNegocio = HorarioNegocio(
    negocio: NegocioId, diaSemana: int, horaInicio: TimeOfDay, horaFin: TimeOfDay, activo: bool,
    fechaInicioVigencia: Option<Date>, fechaFinVigencia: Option<Date>)

  datatype BloqueoHorario = BloqueoHorario(
    negocio: NegocioId, empleado: Option<EmpleadoId>, fechaInicio: Instant, fechaFin: Instant, activo: bool)

  /** A review; `respuesta_negocio` is a non-nullable text column (blank when unanswered). */
  datatype ResenaNegocio = ResenaNegocio(
    negocio: NegocioId, cliente: UserId, calificacion: int, respuestaNegocio: string, activa: bool)

  datatype EstadoPago = PagoPendiente | Pagado | Fallido | Reembolsado | PagoCancelado

  datatype FacturacionSuscripcion = FacturacionSuscripcion(
    negocio: NegocioId, monto: Cents, estadoPago: EstadoPago, fechaVencimiento: Instant)

  // ---------------------------------------------------------------- Cita

  /** `ESTADO_CITA_CHOICES`. */
  datatype Estado = Pendiente | Confirmada | EnCurso | Completada | CanceladaCliente | CanceladaNegocio | NoAsistio

  /** The stored key of each state. */
  function EstadoCode(e: Estado): string
  {
    match e
    case Pendiente => "pendiente"
    case Confirmada => "confirmada"
    case EnCurso => "en_curso"
    case Completada => "completada"
    case CanceladaCliente => "cancelada_cliente"
    case CanceladaNegocio => "cancelada_negocio"
    case NoAsistio => "no_asistio"
  }

  /** The state whose key is `code`, if any: membership in the choice keys. */
  function EstadoFromCode(code: string): (r: Option<Estado>)
    ensures r.Some? ==> EstadoCode(r.value) == code
  {
    if code == "pendiente" then Some(Pendiente)
    else if code == "confirmada" then Some(Confirmada)
    else if code == "en_curso" then Some(EnCurso)
    else if code == "completada" then Some(Completada)
    else if code == "cancelada_cliente" then Some(CanceladaCliente)
    else if code == "cancelada_negocio" then Some(CanceladaNegocio)
    else if code == "no_asistio" then Some(NoAsistio)
    else None
  }

  /** Every state's key is recognised as that state, so keys and states correspond one to one. */
  lemma EstadoCodeRoundTrip(e: Estado)
    ensures EstadoFromCode(EstadoCode(e)) == Some(e)
  {
  }

  class Cita {
    const id: int
    var negocio: NegocioId
    var cliente: UserId
    var empleado: Option<EmpleadoId>
    var servicio: ServicioNegocio
    var fechaHoraInicio: Instant
    var fechaHoraFin: Option<Instant>
    var estado: Estado
    var nombreCliente: string
    var telefonoCliente: string
    var emailCliente: string
    var notasCliente: string
    var precioFinal: Option<Cents>
    var fechaCancelacion: Option<Instant>

    /** A booking as `Cita.objects.create` builds it before saving: pending, no end, no price. */
    constructor (id: int, negocio: NegocioId, cliente: UserId, empleado: Option<EmpleadoId>,
                 servicio: ServicioNegocio, inicio: Instant,
                 nombre: string, telefono: string, email: string, notas: string)
      ensures this.id == id && this.negocio == negocio && this.cliente == cliente
      ensures this.empleado == empleado && this.servicio == servicio && fechaHoraInicio == inicio
      ensures nombreCliente == nombre && telefonoCliente == telefono
      ensures emailCliente == email && notasCliente == notas
      ensures estado == Pendiente && fechaHoraFin == None && precioFinal == None && fechaCancelacion == None
    {
      this.id, this.negocio, this.cliente, this.empleado := id, negocio, cliente, empleado;
      this.servicio, fechaHoraInicio := servicio, inicio;
      nombreCliente, telefonoCliente, emailCliente, notasCliente := nombre, telefono, email, notas;
      estado, fechaHoraFin, precioFinal, fechaCancelacion := Pendiente, None, None, None;
    }

    /**
     * `save`: an unset end becomes the start plus the service's duration, and
     * a falsy price (unset or zero) becomes the service's price; a set end
     * and a non-zero price are kept. Afterwards both are set.
     */
    method Save()
      modifies this`fechaHoraFin, this`precioFinal
      ensures old(fechaHoraFin).Some? ==> fechaHoraFin == old(fechaHoraFin)
      ensures old(fechaHoraFin).None? ==> fechaHoraFin == Some(fechaHoraInicio + 60 * servicio.duracionMinutos)
      ensures TruthyInt(old(precioFinal)) ==> precioFinal == old(precioFinal)
      ensures !TruthyInt(old(precioFinal)) ==> precioFinal == Some(servicio.precio)
      ensures fechaHoraFin.Some? && precioFinal.Some?
    {
      if fechaHoraFin.None? {
        fechaHoraFin := Some(fechaHoraInicio + 60 * servicio.duracionMinutos);
      }
      if !TruthyInt(precioFinal) {
        precioFinal := Some(servicio.precio);
      }
    }
  }

  // ---------------------------------------------------------------- ConfiguracionPlataforma

  datatype ConfiguracionPlataforma = ConfiguracionPlataforma(clave: string, valor: string, tipoDato: string, activa: bool)

  /** A decoded setting; float and JSON settings are kept as their undecoded text. */
  datatype ConfigValue = Str(s: string) | Integer(i: int) | Boolean(b: bool) | Undecoded(raw: string)

  /** The words `get_valor` reads as true, compared after lower-casing. */
  const TrueWords: set<string> := {"true", "1", "yes", "on"}

  /**
   * `get_valor`: 'integer' reads the text with `int()` (an error when it is
   * not an integer), 'boolean' is true exactly for the words above in any
   * letter case, and 'string' or an unknown type gives the text unchanged.
   */
  function GetValor(c: ConfiguracionPlataforma): (r: Result<ConfigValue, string>)
    ensures c.tipoDato == "integer" ==> (r.Ok? <==> ParseInt(c.valor).Some?)
    ensures c.tipoDato == "integer" && r.Ok? ==> r.value == Integer(ParseInt(c.valor).value)
    ensures c.tipoDato == "boolean" ==> r.Ok? && r.value.Boolean? && (r.value.b <==> Lower(c.valor) in TrueWords)
    ensures c.tipoDato !in {"integer", "float", "boolean", "json"} ==> r == Ok(Str(c.valor))
  {
    if c.tipoDato == "integer" then
      match ParseInt(c.valor)
      case Some(i) => Ok(Integer(i))
      case None => Err("invalid literal for int()")
    else if c.tipoDato == "float" || c.tipoDato == "json" then Ok(Undecoded(c.valor))
    else if c.tipoDato == "boolean" then Ok(Boolean(Lower(c.valor) in TrueWords))
    else Ok(Str(c.valor))
  }

  /** An integer setting written with `str(n)` is read back as `n`. */
  lemma GetValorIntegerRoundTrip(clave: string, n: int)
    ensures GetValor(ConfiguracionPlataforma(clave, IntToString(n), "integer", true)) == Ok(Integer(n))
  {
    ParseIntRoundTrip(n);
  }

  /** A boolean setting written in ASCII does not depend on the letter case of its text. */
  lemma GetValorBooleanIgnoresCase(c: ConfiguracionPlataforma)
    requires c.tipoDato == "boolean" && Ascii(c.valor)
    ensures GetValor(c) == GetValor(c.(valor := Upper(c.valor)))
  {
    assert Lower(Upper(c.valor)) == Lower(c.valor);
  }
}
