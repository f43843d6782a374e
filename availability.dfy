/**
 * `NegocioViewSet.disponibilidad`: the free 30-minute start times of one
 * business on a future date. For every active opening window of the date's
 * weekday it walks a grid from the window's opening time while the time is
 * before its closing time, and keeps each grid point at which no pending or
 * confirmed booking of the business starts. Times of day are seconds since
 * midnight (`TimeOfDay`), so a step is 1800 seconds.
 */
module Availability {
  import opened Wrappers
  import opened Calendar
  import opened Seqs
  import opened Models
  import opened Filters

  /** `timedelta(minutes=30)`. */
  const Step: int := 1800

  /** The three 400 answers: no `fecha`, a `fecha` `strptime` refuses, a date not after today. */
  datatype DisponibilidadError = FechaRequerida | FormatoInvalido | FechaNoFutura

  /**
   * The booking query of the scan: some pending or confirmed booking of the
   * business starts exactly at `at`.
   */
  predicate Reservado(citas: seq<Cita>, negocio: NegocioId, at: Instant)
    reads citas
  {
    exists c | c in citas :: c.negocio == negocio && c.fechaHoraInicio == at && (c.estado == Pendiente || c.estado == Confirmada)
  }

  /** `s` is a point of the window's grid: at or after opening, before closing, a whole number of steps in. */
  predicate OnGrid(inicio: int, fin: int, s: int)
  {
    inicio <= s < fin && (s - inicio) % Step == 0
  }

  // ---------------------------------------------------------------- one window

  /**
   * The free grid points of one window on `fecha`, from the point `t` on:
   * `t`, `t + 30 min`, ... while before `fin`. Since `fin` is a time of day
   * the walk never passes midnight.
   */
  function RowSlots(fecha: Date, negocio: NegocioId, citas: seq<Cita>, t: int, fin: TimeOfDay): (r: seq<TimeOfDay>)
    requires ValidDate(fecha) && 0 <= t
    reads citas
    decreases fin - t
  {
    if t >= fin then []
    else (if Reservado(citas, negocio, At(fecha, t as TimeOfDay)) then [] else [t as TimeOfDay])
         + RowSlots(fecha, negocio, citas, t + Step, fin)
  }

  /** One step of the walk: the point `t`, if free, then the walk from the next point. */
  lemma RowSlotsStep(fecha: Date, negocio: NegocioId, citas: seq<Cita>, t: int, fin: TimeOfDay)
    requires ValidDate(fecha) && 0 <= t < fin
    ensures RowSlots(fecha, negocio, citas, t, fin)
            == (if Reservado(citas, negocio, At(fecha, t as TimeOfDay)) then [] else [t as TimeOfDay])
               + RowSlots(fecha, negocio, citas, t + Step, fin)
  {
  }

  lemma AppendAssoc(a: seq<TimeOfDay>, b: seq<TimeOfDay>, c: seq<TimeOfDay>)
    ensures (a + b) + c == a + (b + c)
  {
  }

  lemma ModStep(x: int)
    ensures (x + Step) % Step == x % Step
  {
  }

  lemma PositiveMultiple(x: int)
    requires 0 < x && x % Step == 0
    ensures Step <= x
  {
  }

  /** Every point the walk from `t` yields lies between `t` and `fin`. */
  lemma {:induction false} RowSlotsBounds(fecha: Date, negocio: NegocioId, citas: seq<Cita>, t: int, fin: TimeOfDay)
    requires ValidDate(fecha) && 0 <= t
    ensures forall s | s in RowSlots(fecha, negocio, citas, t, fin) :: t <= s < fin
    decreases fin - t
  {
    if t < fin {
      RowSlotsBounds(fecha, negocio, citas, t + Step, fin);
    }
  }

  /**
   * A time is among the free points of the window iff it is a grid point of
   * the window and no pending or confirmed booking starts then.
   */
  lemma {:induction false} RowSlotsMembership(fecha: Date, negocio: NegocioId, citas: seq<Cita>, t: int, fin: TimeOfDay, s: TimeOfDay)
    requires ValidDate(fecha) && 0 <= t
    ensures s in RowSlots(fecha, negocio, citas, t, fin) <==> OnGrid(t, fin, s) && !Reservado(citas, negocio, At(fecha, s))
    decreases fin - t
  {
    if t < fin {
      RowSlotsMembership(fecha, negocio, citas, t + Step, fin, s);
      ModStep(s - t - Step);
      if s > t && (s - t) % Step == 0 {
        PositiveMultiple(s - t);
      }
    }
  }

  predicate StrictlyIncreasing(s: seq<int>)
  {
    forall i, j | 0 <= i < j < |s| :: s[i] < s[j]
  }

  /** The free points of a window come out in strictly increasing order. */
  lemma {:induction false} RowSlotsIncreasing(fecha: Date, negocio: NegocioId, citas: seq<Cita>, t: int, fin: TimeOfDay)
    requires ValidDate(fecha) && 0 <= t
    ensures StrictlyIncreasing(RowSlots(fecha, negocio, citas, t, fin))
    decreases fin - t
  {
    if t < fin {
      RowSlotsIncreasing(fecha, negocio, citas, t + Step, fin);
      RowSlotsBounds(fecha, negocio, citas, t + Step, fin);
      var r := RowSlots(fecha, negocio, citas, t, fin);
      var rest := RowSlots(fecha, negocio, citas, t + Step, fin);
      if !Reservado(citas, negocio, At(fecha, t as TimeOfDay)) {
        assert r == [t as TimeOfDay] + rest;
        forall i, j | 0 <= i < j < |r|
          ensures r[i] < r[j]
        {
          assert r[j] == rest[j - 1] && rest[j - 1] in rest;
          if i > 0 {
            assert r[i] == rest[i - 1];
          } else {
            assert r[i] == t;
          }
        }
      } else {
        assert r == rest;
      }
    }
  }

  /** No pending or confirmed booking of the business at all. */
  predicate SinReservas(citas: seq<Cita>, negocio: NegocioId)
    reads citas
  {
    forall c | c in citas :: c.negocio == negocio ==> c.estado != Pendiente && c.estado != Confirmada
  }

  /**
   * Without bookings a window from `t` to `fin` yields every grid point:
   * `ceil((fin - t) / 30 min)` of them, the i-th at `t + i * 30 min`.
   */
  lemma {:induction false} RowSlotsAllFree(fecha: Date, negocio: NegocioId, citas: seq<Cita>, t: int, fin: TimeOfDay)
    requires ValidDate(fecha) && 0 <= t
    requires SinReservas(citas, negocio)
    ensures var r := RowSlots(fecha, negocio, citas, t, fin);
            |r| == (if t < fin then (fin - t + Step - 1) / Step else 0)
            && forall i | 0 <= i < |r| :: r[i] == t + Step * i
    decreases fin - t
  {
    if t < fin {
      RowSlotsAllFree(fecha, negocio, citas, t + Step, fin);
      assert !Reservado(citas, negocio, At(fecha, t as TimeOfDay));
      var r := RowSlots(fecha, negocio, citas, t, fin);
      var rest := RowSlots(fecha, negocio, citas, t + Step, fin);
      assert r == [t as TimeOfDay] + rest;
      forall i | 0 < i < |r|
        ensures r[i] == t + Step * i
      {
        assert r[i] == rest[i - 1];
      }
    }
  }

  /** A window from 09:00 to 18:00 with no bookings offers 18 starts, 09:00 to 17:30. */
  lemma NineToSix(fecha: Date, negocio: NegocioId)
    requires ValidDate(fecha)
    ensures var r := RowSlots(fecha, negocio, [], 9 * 3600, 18 * 3600);
            |r| == 18 && r[0] == 9 * 3600 && r[17] == 17 * 3600 + 30 * 60
  {
    RowSlotsAllFree(fecha, negocio, [], 9 * 3600, 18 * 3600);
  }

  // ---------------------------------------------------------------- the wrap past midnight

  /** `(datetime.combine(fecha, t) + timedelta(minutes=30)).time()`: the step as written, wrapping at midnight. */
  function NextAsWritten(t: TimeOfDay): (u: TimeOfDay)
    ensures u % Step == t % Step
    ensures t + Step < DaySeconds ==> u == t + Step
  {
    WrapKeepsGrid(t);
    (t + Step) % DaySeconds
  }

  lemma WrapKeepsGrid(t: TimeOfDay)
    ensures ((t + Step) % DaySeconds) % Step == t % Step
    ensures t + Step < DaySeconds ==> (t + Step) % DaySeconds == t + Step
  {
    if t + Step >= DaySeconds {
      var w := t + Step - DaySeconds;
      assert 0 <= w < Step;
      assert (t + Step) % DaySeconds == w;
      assert t == w + 47 * Step;
      assert t % Step == w;
    }
  }

  /** The time of the scan after `k` steps as written. */
  function WalkAsWritten(t: TimeOfDay, k: nat): (u: TimeOfDay)
    ensures u % Step == t % Step
  {
    if k == 0 then t else NextAsWritten(WalkAsWritten(t, k - 1))
  }

  /** The last point of the grid through `inicio` before midnight. */
  function LastGridPoint(inicio: TimeOfDay): (p: TimeOfDay)
    ensures p % Step == inicio % Step && inicio <= p && DaySeconds <= p + Step
  {
    inicio % Step + 47 * Step
  }

  lemma GridAtMostLast(u: TimeOfDay, inicio: TimeOfDay)
    requires u % Step == inicio % Step
    ensures u <= LastGridPoint(inicio)
  {
  }

  lemma GridGap(a: int, b: int)
    requires a < b && a % Step == b % Step
    ensures a + Step <= b
  {
    PositiveMultiple(b - a);
  }

  /**
   * When the closing time lies after the last grid point before midnight,
   * the scan's time is before the closing time after any number of steps:
   * the loop never ends.
   */
  lemma {:induction false} WalkNeverCloses(inicio: TimeOfDay, fin: TimeOfDay, k: nat)
    requires LastGridPoint(inicio) < fin
    ensures WalkAsWritten(inicio, k) < fin
  {
    GridAtMostLast(WalkAsWritten(inicio, k), inicio);
  }

  /** A window from 09:00 to 23:59: the scan as written cycles through the day forever. */
  lemma NineToMidnightNeverEnds(k: nat)
    ensures WalkAsWritten(9 * 3600, k) < 23 * 3600 + 59 * 60
  {
    WalkNeverCloses(9 * 3600, 23 * 3600 + 59 * 60, k);
  }

  /**
   * A window the scan as written finishes: it is empty, or its closing time
   * is reached on the grid before midnight.
   */
  predicate Termina(h: HorarioNegocio)
  {
    h.horaInicio >= h.horaFin || h.horaFin <= LastGridPoint(h.horaInicio)
  }

  /** Where the window finishes, the walk as written reaches the closing time, and without wrapping. */
  lemma {:induction false} WalkReachesClose(inicio: TimeOfDay, fin: TimeOfDay, k: nat)
    requires inicio < fin <= LastGridPoint(inicio)
    requires forall j | 0 <= j < k :: WalkAsWritten(inicio, j) < fin
    ensures WalkAsWritten(inicio, k) == inicio + Step * k
  {
    if k > 0 {
      WalkReachesClose(inicio, fin, k - 1);
      var u := WalkAsWritten(inicio, k - 1);
      assert u < fin;
      GridGap(u, LastGridPoint(inicio));
    }
  }

  // ---------------------------------------------------------------- the whole day

  /** The free points of the windows `rows`, window after window. */
  function DaySlots(fecha: Date, negocio: NegocioId, citas: seq<Cita>, rows: seq<HorarioNegocio>): (r: seq<TimeOfDay>)
    requires ValidDate(fecha)
    reads citas
  {
    if rows == [] then []
    else DaySlots(fecha, negocio, citas, rows[..|rows| - 1])
         + RowSlots(fecha, negocio, citas, rows[|rows| - 1].horaInicio, rows[|rows| - 1].horaFin)
  }

  /**
   * A time is offered for the day iff it is a grid point of one of the
   * windows and no pending or confirmed booking starts then.
   */
  lemma {:induction false} DaySlotsMembership(fecha: Date, negocio: NegocioId, citas: seq<Cita>, rows: seq<HorarioNegocio>, s: TimeOfDay)
    requires ValidDate(fecha)
    ensures s in DaySlots(fecha, negocio, citas, rows) <==>
              (exists h | h in rows :: OnGrid(h.horaInicio, h.horaFin, s)) && !Reservado(citas, negocio, At(fecha, s))
  {
    if rows != [] {
      var init, h := rows[..|rows| - 1], rows[|rows| - 1];
      DaySlotsMembership(fecha, negocio, citas, init, s);
      RowSlotsMembership(fecha, negocio, citas, h.horaInicio, h.horaFin, s);
      assert rows == init + [h];
      if exists g | g in rows :: OnGrid(g.horaInicio, g.horaFin, s) {
        var g :| g in rows && OnGrid(g.horaInicio, g.horaFin, s);
        if g != h {
          assert g in init;
        }
      }
    }
  }

  /** The active windows of the business on a weekday (Monday is 0). */
  function WindowsFor(negocio: NegocioId, horarios: seq<HorarioNegocio>, dia: int): (rows: seq<HorarioNegocio>)
    ensures forall h :: h in rows <==> h in horarios && h.negocio == negocio && h.diaSemana == dia && h.activo
  {
    Filter(horarios, WindowOf(negocio, dia))
  }

  /**
   * The answer of `disponibilidad` for `fecha_str` (`None` when the query
   * has no `fecha`) on the day `hoy`: the date and its free starts, or the
   * reason it was refused.
   */
  function DisponibilidadSpec(negocio: NegocioId, fechaStr: Option<string>, hoy: Date,
                              horarios: seq<HorarioNegocio>, citas: seq<Cita>): (r: Result<(Date, seq<TimeOfDay>), DisponibilidadError>)
    reads citas
    ensures r == Err(FechaRequerida) <==> fechaStr.None? || fechaStr.value == ""
    ensures r == Err(FormatoInvalido) <==> fechaStr.Some? && fechaStr.value != "" && ParseIsoDate(fechaStr.value).None?
    ensures r == Err(FechaNoFutura) <==>
              fechaStr.Some? && fechaStr.value != "" && ParseIsoDate(fechaStr.value).Some?
              && DateLe(ParseIsoDate(fechaStr.value).value, hoy)
    ensures r.Ok? ==> fechaStr.Some? && ParseIsoDate(fechaStr.value) == Some(r.value.0) && !DateLe(r.value.0, hoy)
  {
    if fechaStr.None? || fechaStr.value == "" then Err(FechaRequerida)
    else
      match ParseIsoDate(fechaStr.value)
      case None => Err(FormatoInvalido)
      case Some(fecha) =>
        if DateLe(fecha, hoy) then Err(FechaNoFutura)
        else Ok((fecha, DaySlots(fecha, negocio, citas, WindowsFor(negocio, horarios, Weekday(fecha)))))
  }

  /**
   * Every offered time is a grid point of an active window of the business
   * on the date's weekday at which no pending or confirmed booking starts,
   * and every such point is offered.
   */
  lemma DisponibilidadSlots(negocio: NegocioId, fechaStr: Option<string>, hoy: Date,
                            horarios: seq<HorarioNegocio>, citas: seq<Cita>, s: TimeOfDay)
    requires DisponibilidadSpec(negocio, fechaStr, hoy, horarios, citas).Ok?
    ensures var (fecha, slots) := DisponibilidadSpec(negocio, fechaStr, hoy, horarios, citas).value;
            s in slots <==>
              (exists h | h in horarios && h.negocio == negocio && h.diaSemana == Weekday(fecha) && h.activo
                 :: OnGrid(h.horaInicio, h.horaFin, s))
              && !Reservado(citas, negocio, At(fecha, s))
  {
    var fecha := ParseIsoDate(fechaStr.value).value;
    var rows := WindowsFor(negocio, horarios, Weekday(fecha));
    DaySlotsMembership(fecha, negocio, citas, rows, s);
  }

  /** With no active window on the date's weekday the list of starts is empty. */
  lemma NoWindowNoSlots(negocio: NegocioId, fechaStr: Option<string>, hoy: Date,
                        horarios: seq<HorarioNegocio>, citas: seq<Cita>)
    requires DisponibilidadSpec(negocio, fechaStr, hoy, horarios, citas).Ok?
    requires var fecha := DisponibilidadSpec(negocio, fechaStr, hoy, horarios, citas).value.0;
             forall h | h in horarios :: !(h.negocio == negocio && h.diaSemana == Weekday(fecha) && h.activo)
    ensures DisponibilidadSpec(negocio, fechaStr, hoy, horarios, citas).value.1 == []
  {
  }

  lemma DisponibilidadSpecOk(negocio: NegocioId, fechaStr: Option<string>, hoy: Date,
                             horarios: seq<HorarioNegocio>, citas: seq<Cita>, fecha: Date)
    requires fechaStr.Some? && fechaStr.value != "" && ParseIsoDate(fechaStr.value) == Some(fecha)
    requires !DateLe(fecha, hoy)
    ensures DisponibilidadSpec(negocio, fechaStr, hoy, horarios, citas)
            == Ok((fecha, DaySlots(fecha, negocio, citas, WindowsFor(negocio, horarios, Weekday(fecha)))))
  {
  }

  /**
   * Every window the scan visits is one the scan as written finishes. The
   * view scans only for a given, well-formed date after `hoy`; it answers
   * every other request before the scan.
   */
  predicate ScanTermina(negocio: NegocioId, fechaStr: Option<string>, hoy: Date, horarios: seq<HorarioNegocio>)
  {
    fechaStr.Some? && fechaStr.value != "" && ParseIsoDate(fechaStr.value).Some? &&
    !DateLe(ParseIsoDate(fechaStr.value).value, hoy) ==>
      var dia := Weekday(ParseIsoDate(fechaStr.value).value);
      forall h | h in horarios && h.negocio == negocio && h.diaSemana == dia && h.activo :: Termina(h)
  }

  /**
   * The inner loop of `disponibilidad` for one window `h` on `fecha`: from the
   * opening time, while before the closing time, append the time when no
   * pending or confirmed booking starts then, and step as written.
   */
  method ScanWindow(fecha: Date, negocio: NegocioId, citas: seq<Cita>, h: HorarioNegocio,
                    libres: seq<TimeOfDay>) returns (out: seq<TimeOfDay>)
    requires ValidDate(fecha) && Termina(h)
    ensures out == libres + RowSlots(fecha, negocio, citas, h.horaInicio, h.horaFin)
  {
    out := libres;
    var hora := h.horaInicio;
    while hora < h.horaFin
      invariant h.horaInicio <= hora && hora % Step == h.horaInicio % Step
      invariant out + RowSlots(fecha, negocio, citas, hora, h.horaFin)
                == libres + RowSlots(fecha, negocio, citas, h.horaInicio, h.horaFin)
      decreases h.horaFin - hora
    {
      ghost var before := out;
      RowSlotsStep(fecha, negocio, citas, hora, h.horaFin);
      if !Reservado(citas, negocio, At(fecha, hora)) {
        out := out + [hora];
      }
      GridGap(hora, LastGridPoint(h.horaInicio));
      ghost var head := out[|before|..];
      assert out == before + head;
      hora := NextAsWritten(hora);
      AppendAssoc(before, head, RowSlots(fecha, negocio, citas, hora, h.horaFin));
    }
  }

  /**
   * The outer loop of `disponibilidad`: the windows one after another, each
   * appending its free times to the same list.
   */
  method ScanDay(fecha: Date, negocio: NegocioId, citas: seq<Cita>, rows: seq<HorarioNegocio>)
    returns (libres: seq<TimeOfDay>)
    requires ValidDate(fecha)
    requires forall h | h in rows :: Termina(h)
    ensures libres == DaySlots(fecha, negocio, citas, rows)
  {
    libres := [];
    for i := 0 to |rows|
      invariant libres == DaySlots(fecha, negocio, citas, rows[..i])
    {
      var h := rows[i];
      libres := ScanWindow(fecha, negocio, citas, h, libres);
      assert rows[..i + 1] == rows[..i] + [h];
    }
    assert rows[..|rows|] == rows;
  }

  /**
   * `disponibilidad` for business `n`: the checks of the query string, then
   * the walk over each active window of the weekday with the step as written.
   * Where every such window finishes, it answers `DisponibilidadSpec`.
   */
  method Disponibilidad(n: Negocio, fechaStr: Option<string>, hoy: Date,
                        horarios: seq<HorarioNegocio>, citas: seq<Cita>) returns (r: Result<(Date, seq<TimeOfDay>), DisponibilidadError>)
    requires ScanTermina(n.id, fechaStr, hoy, horarios)
    ensures r == DisponibilidadSpec(n.id, fechaStr, hoy, horarios, citas)
  {
    if fechaStr.None? || fechaStr.value == "" {
      return Err(FechaRequerida);
    }
    var parsed := ParseIsoDate(fechaStr.value);
    if parsed.None? {
      return Err(FormatoInvalido);
    }
    var fecha := parsed.value;
    if DateLe(fecha, hoy) {
      return Err(FechaNoFutura);
    }
    var rows := WindowsFor(n.id, horarios, Weekday(fecha));
    DisponibilidadSpecOk(n.id, fechaStr, hoy, horarios, citas, fecha);
    if rows == [] {
      return Ok((fecha, []));
    }
    var libres := ScanDay(fecha, n.id, citas, rows);
    return Ok((fecha, libres));
  }
}
