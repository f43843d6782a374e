# Citalo booking API: a verified model of its rules

Citalo is a Django REST service where businesses (`Negocio`) publish services,
opening windows (`HorarioNegocio`) and schedule blocks, and clients book
appointments (`Cita`). Most of the repository is framework configuration. This
project models in Dafny the rules the code itself decides, and proves what
those rules promise:

- `models.py`: the user's full name, initials and profile completeness, e-mail
  normalisation on save, the unique-slug loop of `Negocio.save`, the
  subscription predicate, `Cita.save` (end time and default price), the
  booking states, and the typed decoding of platform settings.
- `serializers.py`: password confirmation, user creation and field-by-field
  update, the login checks, the specialty list, the formatted booking price,
  and booking validation and creation.
- `filters.py`: every custom filter method, as a selection over a sequence of
  rows. Filters across a one-to-many relation first yield one row per related
  row, and `.distinct()` then folds them back.
- `views.py`: the two object permissions, `cambiar_estado`, the per-business
  statistics, and the `disponibilidad` slot scan.

Modules follow the source files: `Models`, `Serializers`, `Filters`, `Views`
and `Availability` (the slot scan). They share helpers for Python's string
functions (`Text`), dates, instants and `strptime` (`Calendar`), and querysets
(`Seqs`). Rows the code changes in place (`Usuario`, `Negocio`, `Cita`) are
classes. Rows it only reads are datatypes. A foreign key is the referenced
row's id.

Representation choices:

- An instant is a whole number of seconds, with the local day numbered as
  Python's `date.toordinal`.
- A time of day is a number of seconds since midnight.
- Money is a whole number of cents.
- "Now" and "today" are inputs, as are `authenticate` and `slugify`'s output.

## Model

| member | source | states |
|---|---|---|
| Models.Usuario.constructor | Citalo/API/serializers.py:52 | `create_user` with only a username: every other profile field blank, active, no usable password, never logged in |
| Models.Usuario.NombreCompleto | Citalo/API/models.py:115-125 | "first last" when both names are set and trimmed, the single name when only one is set, "" when neither; the two-name result is stripped |
| Models.Usuario.Iniciales | Citalo/API/models.py:127-133 | upper-cased first letters of first and last name, each present iff that name is; with neither name, the first two characters of the username upper-cased; never longer than 2 |
| Models.Usuario.PerfilCompleto | Citalo/API/models.py:145-152 | holds exactly when first name, last name, e-mail and phone are non-empty and a birth date is set (no contract of its own; see Models.PerfilCompletoHasTwoInitials) |
| Models.PerfilCompletoHasTwoInitials | Citalo/API/models.py:145-152 | a complete profile (first name, last name, e-mail, phone and birth date all set) whose names are ASCII text always has two initials |
| Models.Usuario.Save | Citalo/API/models.py:154-163 | a non-empty e-mail is stored in lower case and an empty one is kept; the last-activity stamp becomes `now` exactly when the last login differs from the stored one |
| Models.LowerTwice | Citalo/API/models.py:156-157 | normalising an e-mail twice is normalising it once |
| Models.Negocio.Save | Citalo/API/models.py:287-298 | an existing slug is kept; an empty one becomes the first free slug of the base |
| Models.UniqueSlug | Citalo/API/models.py:291-297 | the loop ends with `base` when it is free, otherwise `base-n` for the least n >= 1 not taken by another business, and every earlier candidate is taken |
| Models.FirstFreeSlugUnique | Citalo/API/models.py:292-297 | the slug the loop settles on is determined by the base and the taken slugs |
| Models.CandidateInjective | Citalo/API/models.py:295 | different counters give different candidates `base-n` |
| Models.SuscripcionExpires | Citalo/API/models.py:300-306 | a subscription active at a later instant was active at any earlier one with the same row |
| Models.Negocio.SuscripcionActiva | Citalo/API/models.py:300-306 | holds exactly when the state is `activa`, an end date is set, and now is at or before it (no contract of its own; see Models.SuscripcionExpires) |
| Models.EstadoFromCode | Citalo/API/models.py:464-472 | a recognised key names the state whose key it is |
| Models.EstadoCodeRoundTrip | Citalo/API/models.py:464-472 | every state's key is recognised as that state |
| Models.Cita.Save | Citalo/API/models.py:537-547 | an unset end becomes start plus the service duration and a set one is kept; a falsy price (unset or 0) becomes the service price and a non-zero one is kept; both are set afterwards |
| Models.Cita.constructor | Citalo/API/models.py:476-514 | a new booking with the given business, client, employee, service, start and contact data, in state `pendiente`, with no end, price or cancellation stamp yet |
| Models.GetValor | Citalo/API/models.py:676-687 | integer: the value of `int()` and an error exactly when `int()` fails; boolean: true iff the lower-cased text is one of true/1/yes/on; any other type: the text unchanged |
| Models.GetValorIntegerRoundTrip | Citalo/API/models.py:678-679 | an integer setting stored as its decimal text decodes back to it |
| Models.GetValorBooleanIgnoresCase | Citalo/API/models.py:682-683 | a boolean setting written in ASCII decodes the same whatever the case of its text |
| Text.Strip | Citalo/API/serializers.py:172 | `str.strip`: the result has no surrounding whitespace and is the input minus its leading and trailing whitespace |
| Text.Split | Citalo/API/serializers.py:172 | `str.split(sep)`: one piece more than there are separators, and no piece contains the separator |
| Text.SplitJoin | Citalo/API/serializers.py:172 | joining the pieces of a split with the separator gives the text back |
| Text.ParseIntRoundTrip | Citalo/API/models.py:679 | `int()` reads back the decimal text of every integer |
| Text.ParseInt | Citalo/API/models.py:679 | blank or whitespace-only text is not a number, and a negative result comes only from text whose stripped form starts with `-` |
| Text.ParseIntShape | Citalo/API/models.py:679 | only an optional sign followed by digits and underscores is read as a number; text with any other character once stripped is refused |
| Text.NatToStringRoundTrip | Citalo/API/models.py:295 | the counter written in decimal reads back as the counter |
| Calendar.Weekday | Citalo/API/views.py:240 | `date.weekday()` is between 0 (Monday) and 6 |
| Calendar.WeekdayShift | Citalo/API/views.py:240 | the weekday advances by one per day modulo seven: the weekday of b is that of a shifted by their distance in days |
| Calendar.NewYear2024IsMonday | Citalo/API/views.py:240 | anchors the numbering: 1 January 2024, a Monday, has weekday 0 |
| Calendar.ParseIsoDate | Citalo/API/views.py:231-234 | `strptime(..., '%Y-%m-%d')` yields only dates that exist |
| Calendar.ParseIsoDateShape | Citalo/API/views.py:231-234 | only text of the form `%Y-%m-%d` is accepted: 8 to 10 characters, four year digits giving the year, a dash, then only digits, dashes and padding spaces; all else is refused |
| Calendar.ParseIsoFormat | Citalo/API/views.py:231-234 | a date written as `YYYY-MM-DD` parses back to itself |
| Calendar.OrdinalOrder | Citalo/API/views.py:236 | comparing dates as Python does agrees with comparing their day numbers |
| Calendar.DayOfAt | Citalo/API/views.py:252 | the instant of a date and time of day lies on that date (used by Views.CitaDeHoyEnElMes) |
| Seqs.Filter | Citalo/API/filters.py:30-34 | `queryset.filter`: no more rows, exactly the rows of the input the condition accepts |
| Seqs.FilterTwice | Citalo/API/filters.py:28-247 | filtering twice with the same condition is filtering once |
| Seqs.Distinct | Citalo/API/filters.py:73 | `.distinct()`: no repeated rows, the same rows as the input, and an input without repeats is unchanged |
| Seqs.ExpandDistinctFilter | Citalo/API/filters.py:73 | a join that yields each row once per matching related row, folded by `.distinct()`, keeps exactly the rows with at least one match; on a queryset without repeats it is the plain filter |
| Serializers.UpdatedNothing | Citalo/API/serializers.py:61-62 | an update with no data changes nothing |
| Serializers.UpdatedMerge | Citalo/API/serializers.py:61-62 | two successive updates are one update with the merged data, later values winning |
| Serializers.Updated | Citalo/API/serializers.py:61-62 | the profile after `setattr` of each profile key (no contract of its own; see Serializers.UpdatedFields) |
| Serializers.UpdatedFields | Citalo/API/serializers.py:61-62 | after the update, each profile key given in the data reads back its value and every other field keeps its old value |
| Serializers.FieldsDetermineProfile | Citalo/API/serializers.py:61-62 | two profiles with the same value for every profile key are equal, so Serializers.UpdatedFields determines the update completely |
| Serializers.Saved | Citalo/API/models.py:156-157 | after saving only the e-mail differs, now lower case, and it is empty iff it was |
| Serializers.SetAttr | Citalo/API/serializers.py:62 | `setattr` for one profile key changes that field only, leaving password and login stamps as they were |
| Serializers.SetAll | Citalo/API/serializers.py:61-62 | after the loop the profile is the old one updated with every key of the data; password and login stamps are untouched |
| Serializers.WithoutPasswords | Citalo/API/serializers.py:50-51 | popping the two password keys leaves exactly the other keys, each with its value |
| Serializers.UpdatedIgnoresPasswords | Citalo/API/serializers.py:58-59 | dropping the password keys does not change what the update writes |
| Serializers.ValidateUsuario | Citalo/API/serializers.py:43-47 | rejected exactly when both passwords are present and differ; otherwise the data is returned unchanged |
| Serializers.CreateUsuario | Citalo/API/serializers.py:49-55 | no password is an error, then a missing or empty username is an error; otherwise a new user with the given fields, the e-mail lower-cased, the password set and no login stamps |
| Serializers.UpdateUsuario | Citalo/API/serializers.py:57-68 | every non-password key is written and the profile saved; the password changes only when a non-empty one is given |
| Serializers.ValidateLogin | Citalo/API/serializers.py:89-103 | "missing credentials" exactly when a username or password is absent or empty; with both given: "invalid" exactly when `authenticate` finds no user, "inactive" exactly when it finds an inactive one, and acceptance exactly when it finds an active one, the data then gaining that user |
| Serializers.EspecialidadesList | Citalo/API/serializers.py:170-173 | no entries for empty text; otherwise entry i is the i-th comma-separated piece stripped, one entry per piece (commas plus one), each trimmed and comma-free |
| Serializers.EspecialidadesRoundTrip | Citalo/API/serializers.py:170-173 | trimmed, comma-free names stored comma-joined are listed back exactly |
| Serializers.FormatCentsInjective | Citalo/API/serializers.py:253 | different amounts are written differently |
| Serializers.FormatCents | Citalo/API/serializers.py:253 | the rendering ends in a digit of units, a dot and two digits |
| Serializers.PrecioFinalFormateado | Citalo/API/serializers.py:251-254 | a text exactly for a set, non-zero price, and then "€" followed by the amount; `None` for an unset or zero price |
| Serializers.ValidateCitaCreate | Citalo/API/serializers.py:325-335 | "must be future" exactly when the start is at or before now; "employee of another business" exactly when the start is future and a given employee works elsewhere; otherwise the data passes unchanged |
| Serializers.CreateCita | Citalo/API/serializers.py:337-340 | the new booking belongs to the requesting user whatever the input said, carries the given fields, is pending, and is saved with its end and the service price |
| Filters.FilterByName | Citalo/API/filters.py:28-34 | keeps exactly the users whose first name, last name or username contains the text, ignoring case |
| Filters.FilterByNameTwice | Citalo/API/filters.py:28-34 | the name filter is idempotent |
| Filters.FilterByLocation | Citalo/API/filters.py:36-40 | keeps exactly the users whose city or province contains the text, ignoring case |
| Filters.FilterByLocationTwice | Citalo/API/filters.py:36-40 | the location filter is idempotent |
| Filters.FilterByProximity | Citalo/API/filters.py:63-69 | keeps exactly the businesses whose city, province or address contains the text, ignoring case |
| Filters.FilterByProximityTwice | Citalo/API/filters.py:63-69 | the proximity filter is idempotent |
| Filters.ServicesFromPositive | Citalo/API/filters.py:73 | the join yields a business at least once iff one of its services costs at least the value |
| Filters.FilterByMinPrice | Citalo/API/filters.py:71-73 | no repeats, and exactly the businesses with a service priced at least the value |
| Filters.FilterByMinPriceTwice | Citalo/API/filters.py:71-73 | the minimum-price filter is idempotent |
| Filters.ServicesUpToPositive | Citalo/API/filters.py:77 | the join yields a business at least once iff one of its services costs at most the value |
| Filters.FilterByMaxPrice | Citalo/API/filters.py:75-77 | no repeats, and exactly the businesses with a service priced at most the value |
| Filters.FilterByMaxPriceTwice | Citalo/API/filters.py:75-77 | the maximum-price filter is idempotent |
| Filters.WindowsOnPositive | Citalo/API/filters.py:85-88 | the join yields a business iff it has an active window on the weekday |
| Filters.FilterWithAvailability | Citalo/API/filters.py:79-89 | false is the identity; true keeps, without repeats, exactly the businesses with an active window on today's weekday |
| Filters.FilterWithAvailabilityTwice | Citalo/API/filters.py:79-89 | the availability filter is idempotent |
| Filters.FilterWithResponseAsWritten | Citalo/API/filters.py:148-153 | as written, on a column that is never null: true keeps every review and false keeps none |
| Filters.UnansweredReviewListedAsAnswered | Citalo/API/filters.py:150-151 | a review with a blank response is listed among the answered ones |
| Filters.FilterWithResponse | Citalo/API/filters.py:148-153 | true keeps exactly the reviews with a non-blank response; false keeps exactly the ones with a blank response |
| Filters.FilterWithResponsePartition | Citalo/API/filters.py:148-153 | answered and unanswered reviews together account for every review once |
| Filters.FilterUpcomingDue | Citalo/API/filters.py:172-182 | false is the identity; true keeps exactly the pending invoices due no later than seven days from now, overdue ones included |
| Filters.DueSoonPersists | Citalo/API/filters.py:177-180 | an invoice due soon stays due soon as time passes |
| Filters.FilterUpcomingDueTwice | Citalo/API/filters.py:172-182 | the upcoming-due filter is idempotent |
| Filters.FilterActiveOnDate | Citalo/API/filters.py:211-221 | keeps exactly the active blocks starting no later than 23:59:59 of the day and ending no earlier than its midnight |
| Filters.ActiveOnOverlap | Citalo/API/filters.py:214-220 | for a block that ends after it starts, being kept means being active and sharing a second with the day |
| Filters.FilterByEmployeeName | Citalo/API/filters.py:237-243 | keeps exactly the employees whose user's first name, last name or username contains the text, ignoring case |
| Filters.FilterBySpecialty | Citalo/API/filters.py:245-247 | keeps exactly the employees whose specialties contain the text, ignoring case |
| Filters.ListedSpecialtyFound | Citalo/API/filters.py:245-247 | any part of an employee's specialties finds that employee |
| Views.OwnerOrReadOnly | Citalo/API/views.py:38-50 | safe methods always pass; a write passes exactly for the user behind the first of `propietario`, `usuario`, `cliente` the object has, and for an object with none of them exactly when the object is the requester |
| Views.BusinessOwnerOrEmployee | Citalo/API/views.py:57-70 | safe methods always pass; a write to an object without a business is refused, and to one with a business passes exactly for its owner or one of its active employees |
| Views.InactiveEmployeeRefused | Citalo/API/views.py:63-68 | a non-owner whose employee rows there are all inactive is refused writes |
| Views.QuienPuede | Citalo/API/views.py:401-411 | the role table of `cambiar_estado`: the client's cancellation for the client only; confirming, the business's cancellation, completing and no-show for staff; pending and in progress for anyone (no contract of its own; see Views.DecidirCambio) |
| Views.Permitido | Citalo/API/views.py:401-411 | whether the requester passes a role: anyone; the booking's client; the business owner or an active employee (no contract of its own; see Views.DecidirCambio) |
| Views.DecidirCambio | Citalo/API/views.py:401-411 | an unknown or missing state is invalid; a known one is accepted iff the requester passes its check: none for pending and in progress, being the client for the client's cancellation, being the owner or an active employee for confirming, the business's cancellation, completing and no-show |
| Views.ClientCancellationOnlyByClient | Citalo/API/views.py:405-406 | nobody but the booking's client, the owner included, may cancel it as the client |
| Views.ClientCannotConfirm | Citalo/API/views.py:408-411 | a client who is not staff cannot confirm or complete the booking but may mark it in progress |
| Views.CambiarEstado | Citalo/API/views.py:395-419 | a refused request changes nothing; an accepted one sets the state, stamps the cancellation date with now exactly for the two cancellations, and saves |
| Views.ContarEstado | Citalo/API/views.py:203-207 | a count by state never exceeds the number of bookings, and counting no state gives 0 |
| Views.ContarUnion | Citalo/API/views.py:207 | counting two disjoint groups of states together adds their counts |
| Views.ContarCero | Citalo/API/views.py:203-207 | a status count is 0 exactly when no booking is in one of the counted states |
| Views.ContarTodos | Citalo/API/views.py:203 | counting every state counts every booking |
| Views.EstadosPartition | Citalo/API/views.py:203-207 | pending, confirmed, completed and cancelled, with in-progress and no-show, add up to the total |
| Views.IngresosMes | Citalo/API/views.py:198-209 | the month's revenue is 0 when no completed booking of the month has a price, and never negative when no price is |
| Views.IngresosUna | Citalo/API/views.py:198-209 | a single booking contributes its final price exactly when it is completed in the month and has one, and 0 otherwise |
| Views.CitaDeHoyEnElMes | Citalo/API/views.py:200-204 | a booking that starts today falls in the month's revenue window, which begins on the first of the month |
| Views.IngresosAppend | Citalo/API/views.py:208-209 | the revenue of two lists of bookings together is the sum of their revenues |
| Views.Clientes | Citalo/API/views.py:211 | exactly the clients of the bookings, no more of them than bookings, and none only without bookings |
| Views.EstadisticasDe | Citalo/API/views.py:193-219 | refused exactly when the requester does not own the business; otherwise the total is the number of bookings, each status count is the count of bookings in that status (both cancellations together), the revenue is the month's revenue, the clients are the distinct clients, and the rating is the business's; the counts do not exceed the total, nor do the clients |
| Availability.RowSlots | Citalo/API/views.py:248-262 | the free grid points of one window, stepping until the closing time and never past midnight (the corrected scan) |
| Availability.RowSlotsBounds | Citalo/API/views.py:249-250 | every offered time lies between the opening time and the closing time |
| Availability.RowSlotsMembership | Citalo/API/views.py:250-259 | a time is offered for a window iff it is a grid point of the window and no pending or confirmed booking starts then; other bookings and bookings between grid points remove nothing |
| Availability.RowSlotsIncreasing | Citalo/API/views.py:248-262 | the times of one window come out strictly increasing |
| Availability.RowSlotsAllFree | Citalo/API/views.py:248-262 | without bookings a window yields ceil((close - open) / 30 min) times, the i-th at open + i * 30 min |
| Availability.NineToSix | Citalo/API/tests.py:271-293 | a 09:00 to 18:00 window offers 18 times, from 09:00 to 17:30 |
| Availability.NextAsWritten | Citalo/API/views.py:262 | the step as written keeps the time on its 30-minute grid and adds 30 minutes unless that passes midnight |
| Availability.WalkAsWritten | Citalo/API/views.py:249-262 | any number of steps as written keeps the time on its grid |
| Availability.LastGridPoint | Citalo/API/views.py:250-262 | the last grid point before midnight is on the grid, not before the opening time, and 30 minutes later passes midnight |
| Availability.WalkNeverCloses | Citalo/API/views.py:250-262 | when the closing time is after the last grid point before midnight, the time is before the closing time after any number of steps, so the loop never ends |
| Availability.NineToMidnightNeverEnds | Citalo/API/views.py:250-262 | a 09:00 to 23:59 window makes the loop as written run forever |
| Availability.WalkReachesClose | Citalo/API/views.py:250-262 | when the closing time is on or before the last grid point, the steps as written add 30 minutes each, without wrapping, until the closing time |
| Availability.DaySlotsMembership | Citalo/API/views.py:248-262 | a time is offered for the day iff it is a grid point of one of the windows and no pending or confirmed booking starts then |
| Availability.WindowsFor | Citalo/API/views.py:240-241 | exactly the business's active windows on the weekday |
| Availability.Reservado | Citalo/API/views.py:252-258 | a pending or confirmed booking of the business starts at that instant (no contract of its own; see Availability.RowSlotsMembership) |
| Availability.Termina | Citalo/API/views.py:250-262 | the windows on which the scan as written finishes: empty ones, and ones closing at or before the last grid point before midnight (no contract of its own; see Availability.WalkReachesClose and Availability.WalkNeverCloses) |
| Availability.DaySlots | Citalo/API/views.py:247-262 | the free times of the day, window after window (no contract of its own; see Availability.DaySlotsMembership) |
| Availability.DisponibilidadSpec | Citalo/API/views.py:221-265 | no or empty `fecha` is "date required"; text `strptime` refuses is "invalid format"; a date on or before today is "must be future"; otherwise the parsed date with its free times |
| Availability.DisponibilidadSlots | Citalo/API/views.py:240-262 | every offered time is a grid point of an active window of the business on the date's weekday with no pending or confirmed booking starting then, and every such point is offered |
| Availability.NoWindowNoSlots | Citalo/API/views.py:240-244 | with no active window on the weekday the list of times is empty |
| Availability.ScanWindow | Citalo/API/views.py:249-262 | the inner loop with the step as written appends exactly the free grid points of the window, on windows it finishes |
| Availability.ScanDay | Citalo/API/views.py:247-262 | the outer loop over the weekday's windows collects, window after window, exactly the free times of each |
| Availability.Disponibilidad | Citalo/API/views.py:221-265 | the view answers as the specification: the errors in order, then the free times window after window; only a well-formed date after today is scanned, and only then must every active window of its weekday finish |

## Left out

- ORM persistence, querysets, `get_object` and each view's `get_queryset` (which bookings a user may see at all) are not modelled. A view is given the rows it would load.
- Token authentication, `set_password` hashing and `validate_password` are not modelled. A set password is the symbolic `Hashed(text)`.
- `authenticate` is a function parameter of the login check. `slugify(nombre)` is the given base slug.
- Time zones are not modelled: `timezone.now()`, `make_aware` and the server's "today" are explicit inputs. Local wall-clock time is used throughout, without microseconds or daylight-saving gaps.
- The float and JSON branches of `get_valor` are not modelled (floating point and `json.loads`). They yield an undecoded marker.
- Case mapping (`lower`, `upper`, `icontains`) covers ASCII letters only. `int()` and `strptime` accept ASCII digits only, not other Unicode digits.
- Models.Usuario.Iniciales: the bound of two characters holds for the ASCII case mapping only. Python maps some letters to several (`'ß'.upper() == 'SS'`), so a first name "ß" gives three initials.
- Serializers.CreateUsuario: `create_user` also applies `normalize_username` (Unicode NFKC normalisation) to the username; the model keeps the username as given, because Unicode normalisation is not modelled.
- Models.GetValor: `int()` is modelled for surrounding whitespace, an optional sign, ASCII digits and single underscores between digits. Non-ASCII digits are not modelled.
- Serializers.FormatCents: shows a price as the database returns a two-place decimal (`12.50`). Other `Decimal` exponents are not modelled.
- Usuario fields the core never reads (avatar, biography, user type and so on) are not modelled. Negocio's category, verification and Stripe fields and HorarioNegocio's validity dates are not modelled either.
- `BooleanFilter` skips a filter method when the value is absent. The model takes the value as given.
- Availability.Disponibilidad: the `servicio` query parameter is read but never used, and is left out. Blocks, service duration, lead time and validity ranges are not consulted by the view, so they are not modelled.
- Availability.Disponibilidad: requires that the windows it actually scans finish, that is, the active windows of the weekday of a given, well-formed date after today. The scan as written never ends otherwise (see Findings). Every other request is answered before the scan and needs nothing. The wrap is modelled and proved, not assumed away.
- Views.EstadisticasDe: the bookings passed in are taken to be the business's own (`negocio.citas`). `calificacion_promedio` and prices are whole cents, not `Decimal`.
- Concurrent requests and double-booking races are not modelled.

## Findings

| source | as written | input that shows it | evidently intended | confidence | as-written member | corrected member |
|---|---|---|---|---|---|---|
| Citalo/API/views.py:250-262 | the time steps with `.time()`, which wraps past midnight, while the loop runs until the time reaches the closing time | a window from 09:00 to 23:59: the grid tops out at 23:30, wraps to 00:00 and never reaches 23:59, so the request never returns | stop stepping at midnight and offer the grid points before the closing time | high (not executed) | Availability.NineToMidnightNeverEnds | Availability.RowSlots |
| Citalo/API/filters.py:148-153 | `respuesta_negocio__isnull` on a text column that is never null (Citalo/API/models.py:583, blank when unanswered) | a review with response "": listed as answered with `true`, and `false` lists no review at all | answered means a non-blank response | high (not executed) | Filters.UnansweredReviewListedAsAnswered | Filters.FilterWithResponse |
