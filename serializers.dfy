/**
 * The validation and persistence rules of the REST serializers: password
 * confirmation, user creation and field-by-field update, login checks, the
 * specialty list, the formatted booking price and booking creation.
 *
 * A serializer's `validated_data` is a dictionary from field names to
 * values; here it is a map from `Key` to `Value` whose values have the type
 * the serializer's field declares (`WellTyped`).
 */
module Serializers {
  import opened Wrappers
  import opened Text
  import opened Calendar
  import opened Models

  // ---------------------------------------------------------------- user data

  /** The writable fields of `UsuarioSerializer` that the model keeps. */
  datatype Key =
    | KUsername | KEmail | KFirstName | KLastName | KTelefono | KFechaNacimiento
    | KCiudad | KProvincia | KIsActive | KPassword | KPasswordConfirm

  datatype Value = Str(s: string) | DateVal(d: Option<Date>) | Flag(b: bool)

  /** The value has the type that the serializer field for the key produces. */
  predicate Fits(k: Key, v: Value)
  {
    match k
    case KFechaNacimiento => v.DateVal?
    case KIsActive => v.Flag?
    case _ => v.Str?
  }

  predicate WellTyped(data: map<Key, Value>)
  {
    forall k | k in data :: Fits(k, data[k])
  }

  /** The profile fields of a user that the serializer can write. */
  datatype Profile = Profile(
    username: string, email: string, firstName: string, lastName: string, telefono: string,
    fechaNacimiento: Option<Date>, ciudad: string, provincia: string, isActive: bool)

  function ProfileOf(u: Usuario): Profile
    reads u
  {
    Profile(u.username, u.email, u.firstName, u.lastName, u.telefono,
            u.fechaNacimiento, u.ciudad, u.provincia, u.isActive)
  }

  /** The keys that name a profile field (the password keys do not). */
  predicate ProfileKey(k: Key)
  {
    k != KPassword && k != KPasswordConfirm
  }

  /** `getattr(profile, key)` for a profile key. */
  function Field(p: Profile, k: Key): (v: Value)
    requires ProfileKey(k)
    ensures Fits(k, v)
  {
    match k
    case KUsername => Value.Str(p.username)
    case KEmail => Value.Str(p.email)
    case KFirstName => Value.Str(p.firstName)
    case KLastName => Value.Str(p.lastName)
    case KTelefono => Value.Str(p.telefono)
    case KFechaNacimiento => DateVal(p.fechaNacimiento)
    case KCiudad => Value.Str(p.ciudad)
    case KProvincia => Value.Str(p.provincia)
    case KIsActive => Flag(p.isActive)
  }

  /** A profile is determined by its fields, so `Updated`'s contract pins its result down. */
  lemma FieldsDetermineProfile(a: Profile, b: Profile)
    requires forall k | ProfileKey(k) :: Field(a, k) == Field(b, k)
    ensures a == b
  {
    assert Field(a, KUsername) == Field(b, KUsername) && Field(a, KEmail) == Field(b, KEmail);
    assert Field(a, KFirstName) == Field(b, KFirstName) && Field(a, KLastName) == Field(b, KLastName);
    assert Field(a, KTelefono) == Field(b, KTelefono) && Field(a, KFechaNacimiento) == Field(b, KFechaNacimiento);
    assert Field(a, KCiudad) == Field(b, KCiudad) && Field(a, KProvincia) == Field(b, KProvincia);
    assert Field(a, KIsActive) == Field(b, KIsActive);
  }

  /** The profile after `setattr(instance, key, value)` for every profile key of `data`. */
  function Updated(p: Profile, data: map<Key, Value>): (r: Profile)
    requires WellTyped(data)
  {
    Profile(
      if KUsername in data then data[KUsername].s else p.username,
      if KEmail in data then data[KEmail].s else p.email,
      if KFirstName in data then data[KFirstName].s else p.firstName,
      if KLastName in data then data[KLastName].s else p.lastName,
      if KTelefono in data then data[KTelefono].s else p.telefono,
      if KFechaNacimiento in data then data[KFechaNacimiento].d else p.fechaNacimiento,
      if KCiudad in data then data[KCiudad].s else p.ciudad,
      if KProvincia in data then data[KProvincia].s else p.provincia,
      if KIsActive in data then data[KIsActive].b else p.isActive)
  }

  /**
   * `setattr` semantics of the update: every profile key given in `data`
   * reads back its value, and every other field keeps its old value.
   */
  lemma UpdatedFields(p: Profile, data: map<Key, Value>, k: Key)
    requires WellTyped(data) && ProfileKey(k)
    ensures Field(Updated(p, data), k) == if k in data then data[k] else Field(p, k)
  {
    if k in data {
      assert Fits(k, data[k]);
    }
  }

  /** An update with no data leaves the profile as it is. */
  lemma UpdatedNothing(p: Profile)
    ensures Updated(p, map[]) == p
  {
  }

  /** Two successive updates are one update with the merged dictionary, later values winning. */
  lemma UpdatedMerge(p: Profile, d1: map<Key, Value>, d2: map<Key, Value>)
    requires WellTyped(d1) && WellTyped(d2)
    ensures WellTyped(d1 + d2)
    ensures Updated(Updated(p, d1), d2) == Updated(p, d1 + d2)
  {
  }

  /** The stored form of a profile after `Usuario.save`: the e-mail in lower case. */
  function Saved(p: Profile): (r: Profile)
    ensures r == p.(email := r.email)
    ensures p.email == "" <==> r.email == ""
    ensures r.email == Lower(p.email)
  {
    p.(email := if p.email == "" then "" else Lower(p.email))
  }

  /** A user with nothing but a username, as `create_user` starts from. */
  function BlankProfile(username: string): Profile
  {
    Profile(username, "", "", "", "", None, "", "", true)
  }

  /** `setattr(instance, key, value)` for one profile key. */
  method SetAttr(u: Usuario, k: Key, v: Value)
    requires Fits(k, v) && k != KPassword && k != KPasswordConfirm
    modifies u
    ensures ProfileOf(u) == Updated(old(ProfileOf(u)), map[k := v])
    ensures u.password == old(u.password) && u.lastLogin == old(u.lastLogin)
    ensures u.ultimaActividad == old(u.ultimaActividad)
  {
    match k
    case KUsername => u.username := v.s;
    case KEmail => u.email := v.s;
    case KFirstName => u.firstName := v.s;
    case KLastName => u.lastName := v.s;
    case KTelefono => u.telefono := v.s;
    case KFechaNacimiento => u.fechaNacimiento := v.d;
    case KCiudad => u.ciudad := v.s;
    case KProvincia => u.provincia := v.s;
    case KIsActive => u.isActive := v.b;
  }

  /** The loop `for attr, value in validated_data.items(): setattr(instance, attr, value)`. */
  method SetAll(u: Usuario, fields: map<Key, Value>)
    requires WellTyped(fields) && KPassword !in fields && KPasswordConfirm !in fields
    modifies u
    ensures ProfileOf(u) == Updated(old(ProfileOf(u)), fields)
    ensures u.password == old(u.password) && u.lastLogin == old(u.lastLogin)
    ensures u.ultimaActividad == old(u.ultimaActividad)
  {
    var remaining := fields.Keys;
    ghost var start := ProfileOf(u);
    ghost var done: map<Key, Value> := map[];
    while remaining != {}
      invariant remaining <= fields.Keys
      invariant done == fields - remaining
      invariant ProfileOf(u) == Updated(start, done)
      invariant u.password == old(u.password) && u.lastLogin == old(u.lastLogin)
      invariant u.ultimaActividad == old(u.ultimaActividad)
      decreases remaining
    {
      var k :| k in remaining;
      var v := fields[k];
      SetAttr(u, k, v);
      UpdatedStep(start, done, k, v);
      assert done[k := v] == fields - (remaining - {k});
      done := done[k := v];
      remaining := remaining - {k};
    }
    assert done == fields;
  }

  lemma UpdatedStep(p: Profile, done: map<Key, Value>, k: Key, v: Value)
    requires WellTyped(done) && Fits(k, v)
    ensures Updated(Updated(p, done), map[k := v]) == Updated(p, done[k := v])
  {
    UpdatedMerge(p, done, map[k := v]);
    assert done + map[k := v] == done[k := v];
  }

  /** `validated_data` after `pop('password_confirm')` and `pop('password')`. */
  function WithoutPasswords(data: map<Key, Value>): (r: map<Key, Value>)
    requires WellTyped(data)
    ensures WellTyped(r) && KPassword !in r && KPasswordConfirm !in r
    ensures r.Keys == data.Keys - {KPassword, KPasswordConfirm}
    ensures forall k | k in data && k != KPassword && k != KPasswordConfirm :: k in r && r[k] == data[k]
  {
    data - {KPassword, KPasswordConfirm}
  }

  /** The password keys are not profile fields: dropping them does not change the update. */
  lemma UpdatedIgnoresPasswords(p: Profile, data: map<Key, Value>)
    requires WellTyped(data)
    ensures Updated(p, WithoutPasswords(data)) == Updated(p, data)
  {
  }

  // ---------------------------------------------------------------- UsuarioSerializer

  datatype UsuarioError = PasswordsDiffer | MissingPassword | MissingUsername

  /**
   * `UsuarioSerializer.validate`: rejects exactly when both passwords are
   * given and differ; otherwise the data passes through unchanged.
   */
  function ValidateUsuario(attrs: map<Key, Value>): (r: Result<map<Key, Value>, UsuarioError>)
    ensures r.Err? <==> KPassword in attrs && KPasswordConfirm in attrs && attrs[KPassword] != attrs[KPasswordConfirm]
    ensures r.Err? ==> r.error == PasswordsDiffer
    ensures r.Ok? ==> r.value == attrs
  {
    if KPassword in attrs && KPasswordConfirm in attrs && attrs[KPassword] != attrs[KPasswordConfirm] then
      Err(PasswordsDiffer)
    else
      Ok(attrs)
  }

  /**
   * `UsuarioSerializer.create`: drops the confirmation, takes out the password
   * (a missing one is a `KeyError`), builds the user from the remaining fields
   * (a missing username is a `TypeError` of `create_user`, an empty one its
   * `ValueError`), saves it, sets
   * the password and saves again.
   */
  method CreateUsuario(id: UserId, data: map<Key, Value>) returns (r: Result<Usuario, UsuarioError>)
    requires WellTyped(data)
    ensures KPassword !in data ==> r == Err(MissingPassword)
    ensures KPassword in data && (KUsername !in data || data[KUsername].s == "") ==> r == Err(MissingUsername)
    ensures KPassword in data && KUsername in data && data[KUsername].s != "" ==> r.Ok?
    ensures r.Ok? ==> fresh(r.value) && r.value.id == id
    ensures r.Ok? ==> ProfileOf(r.value) == Saved(Updated(BlankProfile(data[KUsername].s), data))
    ensures r.Ok? ==> r.value.password == Hashed(data[KPassword].s)
    ensures r.Ok? ==> r.value.lastLogin == None && r.value.ultimaActividad == None
  {
    if KPassword !in data {
      return Err(MissingPassword);
    }
    var password := data[KPassword].s;
    var fields := WithoutPasswords(data);
    if KUsername !in fields || fields[KUsername].s == "" {
      return Err(MissingUsername);
    }
    var u := new Usuario(id, fields[KUsername].s);
    ghost var blank := ProfileOf(u);
    assert blank == BlankProfile(data[KUsername].s);
    SetAll(u, fields);
    ghost var filled := ProfileOf(u);
    UpdatedIgnoresPasswords(blank, data);
    u.Save(None, 0);
    assert ProfileOf(u) == Saved(filled);
    u.password := Hashed(password);
    u.Save(None, 0);
    LowerTwice(filled.email);
    assert ProfileOf(u) == Saved(filled);
    return Ok(u);
  }

  /**
   * `UsuarioSerializer.update`: drops both password keys, writes every other
   * key onto the user, sets the password only when a non-empty one is given,
   * then saves (`persisted` and `now` as in `Usuario.Save`).
   */
  method UpdateUsuario(u: Usuario, data: map<Key, Value>, persisted: Option<Instant>, now: Instant)
    requires WellTyped(data)
    modifies u
    ensures ProfileOf(u) == Saved(Updated(old(ProfileOf(u)), data))
    ensures u.password == if KPassword in data && data[KPassword].s != "" then Hashed(data[KPassword].s)
                          else old(u.password)
    ensures u.lastLogin == old(u.lastLogin)
    ensures u.ultimaActividad == if u.lastLogin != persisted then Some(now) else old(u.ultimaActividad)
  {
    var password := if KPassword in data then data[KPassword].s else "";
    var fields := WithoutPasswords(data);
    UpdatedIgnoresPasswords(ProfileOf(u), data);
    SetAll(u, fields);
    if password != "" {
      u.password := Hashed(password);
    }
    u.Save(persisted, now);
  }

  // ---------------------------------------------------------------- LoginSerializer

  datatype LoginAttrs = LoginAttrs(username: Option<string>, password: Option<string>, user: Option<Usuario>)

  datatype LoginError = MissingCredentials | InvalidCredentials | InactiveUser

  /** `if username and password`: both credentials given and non-empty. */
  predicate CredencialesDadas(attrs: LoginAttrs)
  {
    attrs.username.Some? && attrs.username.value != "" && attrs.password.Some? && attrs.password.value != ""
  }

  /**
   * `LoginSerializer.validate`: both credentials must be given and non-empty,
   * `authenticate` must find a user, and that user must be active; the
   * accepted data gains that user.
   */
  method ValidateLogin(attrs: LoginAttrs, authenticate: (string, string) -> Option<Usuario>)
    returns (r: Result<LoginAttrs, LoginError>)
    ensures r == Err(MissingCredentials) <==> !CredencialesDadas(attrs)
    ensures CredencialesDadas(attrs) ==>
              var user := authenticate(attrs.username.value, attrs.password.value);
              (r == Err(InvalidCredentials) <==> user.None?) &&
              (r == Err(InactiveUser) <==> user.Some? && !user.value.isActive) &&
              (r.Ok? <==> user.Some? && user.value.isActive) &&
              (r.Ok? ==> r.value == attrs.(user := user))
  {
    if CredencialesDadas(attrs) {
      var user := authenticate(attrs.username.value, attrs.password.value);
      if user.None? {
        return Err(InvalidCredentials);
      }
      if !user.value.isActive {
        return Err(InactiveUser);
      }
      return Ok(attrs.(user := user));
    }
    return Err(MissingCredentials);
  }

  // ---------------------------------------------------------------- EmpleadoNegocioSerializer

  /**
   * `get_especialidades_list`: no entries for an empty text, otherwise one
   * entry per comma-separated piece, stripped of surrounding whitespace.
   */
  function EspecialidadesList(especialidades: string): (r: seq<string>)
    ensures especialidades == "" ==> r == []
    ensures especialidades != "" ==> |r| == CountChar(especialidades, ',') + 1
    ensures especialidades != "" ==>
              var pieces := Split(especialidades, ',');
              |r| == |pieces| && forall i | 0 <= i < |r| :: r[i] == Strip(pieces[i])
    ensures forall i | 0 <= i < |r| :: Trimmed(r[i]) && ',' !in r[i]
  {
    if especialidades == "" then []
    else
      var parts := Split(especialidades, ',');
      StripAllFree(parts, ',');
      StripAll(parts)
  }

  /** `[p.strip() for p in parts]`. */
  function StripAll(parts: seq<string>): (r: seq<string>)
    ensures |r| == |parts|
    ensures forall i | 0 <= i < |r| :: r[i] == Strip(parts[i])
  {
    seq(|parts|, i requires 0 <= i < |parts| => Strip(parts[i]))
  }

  lemma StripAllFree(parts: seq<string>, sep: char)
    requires forall p | p in parts :: sep !in p
    ensures forall i | 0 <= i < |parts| :: Trimmed(StripAll(parts)[i]) && sep !in StripAll(parts)[i]
  {
    forall i | 0 <= i < |parts|
      ensures sep !in StripAll(parts)[i]
    {
      assert parts[i] in parts;
      StripSubseq(parts[i]);
    }
  }

  /** Stripping keeps a subsequence of the text, so a character absent before is absent after. */
  lemma StripSubseq(s: string)
    ensures forall c | c in Strip(s) :: c in s
  {
    var i := LeadingSpaces(s);
    var r := Strip(s);
    forall c | c in r
      ensures c in s
    {
      var j :| 0 <= j < |r| && r[j] == c;
      assert s[i + j] == c;
    }
  }

  lemma {:induction false} IndexOfAfter(a: string, sep: char, b: string)
    requires sep !in a
    ensures IndexOf(a + [sep] + b, sep) == |a|
  {
    var s := a + [sep] + b;
    assert s[|a|] == sep;
    assert forall k | 0 <= k < |a| :: s[k] == a[k];
  }

  /** Splitting a joined list of separator-free pieces gives the pieces back. */
  lemma {:induction false} JoinSplit(parts: seq<string>, sep: char)
    requires |parts| >= 1
    requires forall p | p in parts :: sep !in p
    ensures Split(Join(parts, sep), sep) == parts
  {
    var s := Join(parts, sep);
    if |parts| == 1 {
      assert sep !in s;
      assert IndexOf(s, sep) == |s|;
    } else {
      var rest := Join(parts[1..], sep);
      assert s == parts[0] + [sep] + rest;
      IndexOfAfter(parts[0], sep, rest);
      assert s[..|parts[0]|] == parts[0];
      assert s[|parts[0]| + 1..] == rest;
      JoinSplit(parts[1..], sep);
      assert parts == [parts[0]] + parts[1..];
    }
  }

  /**
   * Specialties stored as a comma-joined list of trimmed, comma-free names
   * are listed back exactly.
   */
  lemma EspecialidadesRoundTrip(names: seq<string>)
    requires |names| >= 1 && Join(names, ',') != ""
    requires forall n | n in names :: Trimmed(n) && ',' !in n
    ensures EspecialidadesList(Join(names, ',')) == names
  {
    JoinSplit(names, ',');
    var r := EspecialidadesList(Join(names, ','));
    forall i | 0 <= i < |names|
      ensures r[i] == names[i]
    {
      assert names[i] in names;
      StripTrimmed(names[i]);
    }
  }

  // ---------------------------------------------------------------- CitaSerializer

  /** `str(Decimal)` of a two-place amount as the database returns it: sign, units, '.', two digits. */
  function FormatCents(c: Cents): (r: string)
    ensures |r| >= 4 && r[|r| - 3] == '.' && IsDigit(r[|r| - 2]) && IsDigit(r[|r| - 1]) && IsDigit(r[|r| - 4])
  {
    (if c < 0 then "-" else "") + Unsigned(if c < 0 then -c else c)
  }

  /** `get_precio_final_formateado`: "€" and the amount for a set, non-zero price; `None` otherwise. */
  function PrecioFinalFormateado(precioFinal: Option<Cents>): (r: Option<string>)
    ensures r.Some? <==> TruthyInt(precioFinal)
    ensures r.Some? ==> r.value == "\U{20ac}" + FormatCents(precioFinal.value)
  {
    if TruthyInt(precioFinal) then Some("\U{20ac}" + FormatCents(precioFinal.value)) else None
  }

  lemma Pad2Value(n: int)
    requires 0 <= n < 100
    ensures IsDigit(Pad2(n)[0]) && IsDigit(Pad2(n)[1])
    ensures 10 * DigitValue(Pad2(n)[0]) + DigitValue(Pad2(n)[1]) == n
  {
  }

  lemma SplitAtDot(u: string, p: string, v: string, q: string)
    requires '.' !in u && '.' !in v && |p| == |q|
    requires u + "." + p == v + "." + q
    ensures u == v && p == q
  {
    var s := u + "." + p;
    assert |u| == |v|;
    assert u == s[..|u|] && v == s[..|v|];
    assert p == s[|u| + 1..] && q == s[|v| + 1..];
  }

  lemma DigitsHaveNoDot(s: string)
    requires AllDigits(s)
    ensures '.' !in s && '-' !in s
  {
  }

  /** A rendering that starts with a digit tells its optional minus sign apart. */
  lemma SignPrefix(neg1: bool, t1: string, neg2: bool, t2: string)
    requires |t1| >= 1 && |t2| >= 1 && IsDigit(t1[0]) && IsDigit(t2[0])
    requires (if neg1 then "-" else "") + t1 == (if neg2 then "-" else "") + t2
    ensures neg1 == neg2 && t1 == t2
  {
    var s := (if neg1 then "-" else "") + t1;
    assert s[0] == '-' <==> neg1;
    assert s[0] == '-' <==> neg2;
    var off := if neg1 then 1 else 0;
    assert t1 == s[off..];
    assert t2 == s[off..];
  }

  /** The unsigned part of `FormatCents`: units, '.', two digits. */
  function Unsigned(a: nat): (r: string)
    ensures |r| >= 1 && IsDigit(r[0])
  {
    NatToString(a / 100) + "." + Pad2(a % 100)
  }

  lemma UnsignedInjective(a: nat, b: nat)
    requires Unsigned(a) == Unsigned(b)
    ensures a == b
  {
    var ua, ub := NatToString(a / 100), NatToString(b / 100);
    DigitsHaveNoDot(ua);
    DigitsHaveNoDot(ub);
    SplitAtDot(ua, Pad2(a % 100), ub, Pad2(b % 100));
    NatToStringInjective(a / 100, b / 100);
    Pad2Value(a % 100);
    Pad2Value(b % 100);
    assert a == 100 * (a / 100) + a % 100;
    assert b == 100 * (b / 100) + b % 100;
  }

  /** Different amounts are shown differently. */
  lemma FormatCentsInjective(c: Cents, d: Cents)
    requires FormatCents(c) == FormatCents(d)
    ensures c == d
  {
    var a: nat := if c < 0 then -c else c;
    var b: nat := if d < 0 then -d else d;
    SignPrefix(c < 0, Unsigned(a), d < 0, Unsigned(b));
    UnsignedInjective(a, b);
  }

  // ---------------------------------------------------------------- CitaCreateSerializer

  /** The input fields of `CitaCreateSerializer`; the employee is the row itself, as the field resolves it. */
  datatype CitaAttrs = CitaAttrs(
    negocio: NegocioId, empleado: Option<EmpleadoNegocio>, servicio: ServicioNegocio,
    fechaHoraInicio: Instant, nombreCliente: string, telefonoCliente: string,
    emailCliente: string, notasCliente: string)

  datatype CitaError = NotInFuture | EmployeeOfOtherBusiness

  /**
   * `CitaCreateSerializer.validate`: the start must lie strictly after `now`,
   * and a given employee must work for the booking's business; the data
   * passes through unchanged.
   */
  function ValidateCitaCreate(attrs: CitaAttrs, now: Instant): (r: Result<CitaAttrs, CitaError>)
    ensures r == Err(NotInFuture) <==> attrs.fechaHoraInicio <= now
    ensures r == Err(EmployeeOfOtherBusiness) <==>
              attrs.fechaHoraInicio > now && attrs.empleado.Some? && attrs.empleado.value.negocio != attrs.negocio
    ensures r.Ok? ==> r.value == attrs
  {
    if attrs.fechaHoraInicio <= now then Err(NotInFuture)
    else if attrs.empleado.Some? && attrs.empleado.value.negocio != attrs.negocio then Err(EmployeeOfOtherBusiness)
    else Ok(attrs)
  }

  /**
   * `CitaCreateSerializer.create`: the booking is created for the requesting
   * user and saved, which fills in its end and price.
   */
  method CreateCita(id: int, attrs: CitaAttrs, requester: Usuario) returns (c: Cita)
    ensures fresh(c) && c.id == id
    ensures c.cliente == requester.id && c.negocio == attrs.negocio && c.servicio == attrs.servicio
    ensures c.empleado == if attrs.empleado.Some? then Some(attrs.empleado.value.id) else None
    ensures c.fechaHoraInicio == attrs.fechaHoraInicio && c.estado == Pendiente && c.fechaCancelacion == None
    ensures c.nombreCliente == attrs.nombreCliente && c.telefonoCliente == attrs.telefonoCliente
    ensures c.emailCliente == attrs.emailCliente && c.notasCliente == attrs.notasCliente
    ensures c.fechaHoraFin == Some(attrs.fechaHoraInicio + 60 * attrs.servicio.duracionMinutos)
    ensures c.precioFinal == Some(attrs.servicio.precio)
  {
    var empleado := if attrs.empleado.Some? then Some(attrs.empleado.value.id) else None;
    c := new Cita(id, attrs.negocio, requester.id, empleado, attrs.servicio, attrs.fechaHoraInicio,
                  attrs.nombreCliente, attrs.telefonoCliente, attrs.emailCliente, attrs.notasCliente);
    c.Save();
  }
}
