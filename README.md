# Timekeeping core of the `funcionarios` app, in Dafny

This project models the timekeeping core of a Django workforce application and proves properties about it. The core is made of these parts:

- **Nightly reconciliation** (`processar_pontos`). For each active employee and one date it decides which of six exclusive paths applies:
  - an approved full-day excuse;
  - no schedule in force;
  - a day off;
  - an unjustified absence;
  - a missing clock-in or clock-out;
  - a worked day.

  On a worked day it pairs break exits with returns greedily. It computes the expected gross and net shift, overnight shifts included, and rounds the signed delta half-to-even. It upserts at most one hour-bank row per employee-day, labelled by `get_description`, and resets the live status to OFFLINE.
- **The punch-clock view** (`bate_ponto_view`). It checks break exits against the daily count and duration limits, using the pause-accumulation loop. It then moves the live status along `status_map` and appends the event.
- **The minutes formatter** (`format_minutes`). It renders a signed minute count as `[-]HH:MM`.
- **The account hook** (`criar_user_para_funcionario`). It builds a matricula of "26" plus four random digits, redrawing until the username is free. It then builds the password and the e-mail address and links the new account to the employee.
- **The wipe command** (`limpar_registros`). It is gated by `--confirm` and clears events and ledger and sets every status to OFFLINE.
- **The models** these parts share. They cover the enumerations and defaults, the one-row-per-employee-day ledger, the `RegraDePausa` key and ordering, and `BancoDeHoras.__str__`.

The database is one object, `Store.Database`, and each table is one of its fields:

- employees: `map` keyed by primary key, plus their key order `ordem`;
- clock events: `seq`;
- hour bank: `map` keyed by (employee, date);
- schedule assignments: `seq`;
- excuses: `seq`;
- accounts: `map` keyed by username.

The commands and views are methods that reassign those fields. Each method is proved against pure functions (`Decide`, `LedgerAfter`, `PausaTotal`, `Verificar`, `PrimeiraLivre`, `TodosOffline`), and the properties are proved about those functions.

Time is exact integer arithmetic:

- a `Date` counts days since 1970-01-01, and `Weekday` numbers Monday as 0, as Python does;
- an `Instant` counts microseconds since the epoch;
- minute values are rounded once, where the source rounds.

Modules: `Wrappers`, `Text` (Python string primitives), `Clock`, `Models`, `Store`, `ProcessarPontos`, `Views`, `CustomFilters`, `Signals`, `LimparRegistros`.

### Reconciliation behaviour worth knowing

- **Unjustified absence.** The absence path upserts `-(expected gross)` whole minutes, labelled "Falta Injustificada".
- **Lunch.** Lunch is deducted from the expected net on every scheduled day, whatever the shift length.
- **Absence row truncation.** The absence row holds the expected gross truncated to whole minutes, because the integer column drops the fraction. Lunch is not subtracted there.
- **Zero delta.** A zero delta writes nothing and keeps any earlier row for that employee-day.
- **Excuse matching.** An excuse counts only when it starts on the date, is approved and is of type FALTA.
- **No calendar extras.** There are no holidays, no schedule priorities and no personal-break deduction.

## Model

| member | source | states |
|---|---|---|
| ProcessarPontos.FirstAfter | funcionarios/management/commands/processar_pontos.py:157 | the index of the first remaining return strictly later than the exit, or -1 exactly when every return is at or before it |
| ProcessarPontos.RemoveAt | funcionarios/management/commands/processar_pontos.py:160 | removing the matched return drops exactly that one occurrence (multiset difference) |
| ProcessarPontos.Pairing | funcionarios/management/commands/processar_pontos.py:155-160 | every pair's exit is strictly before its return, and there are at most min(#exits, #returns) pairs |
| ProcessarPontos.PairingUsesExitsOnce | funcionarios/management/commands/processar_pontos.py:155-160 | the paired exits form a sub-multiset of the exits |
| ProcessarPontos.PairingUsesReturnsOnce | funcionarios/management/commands/processar_pontos.py:157-160 | a return is consumed at most once: the paired returns form a sub-multiset of the returns |
| ProcessarPontos.SpanTotalPositive | funcionarios/management/commands/processar_pontos.py:159 | forward pairs add at least one microsecond each |
| ProcessarPontos.BreakTimeBounds | funcionarios/management/commands/processar_pontos.py:150-162 | the break total is never negative, counts at most min(#exits, #returns) pairs, and is 0 with no exits or no returns |
| ProcessarPontos.UnmatchedExitAddsNothing | funcionarios/management/commands/processar_pontos.py:157-158 | an exit with no later return contributes 0 |
| ProcessarPontos.PairingExample | funcionarios/management/commands/processar_pontos.py:150-162 | two breaks, 10:00-10:10 and 12:00-12:05, total 15 minutes |
| ProcessarPontos.CalculateBreakTime | funcionarios/management/commands/processar_pontos.py:150-162 | the loop that removes consumed returns computes the greedy pairing total of the typed timestamps, and it is not negative |
| ProcessarPontos.ExpectedGross | funcionarios/management/commands/processar_pontos.py:120-126 | the expected gross shift is under one day and ends at the scheduled exit time, moved to the next day when it is before the entry |
| ProcessarPontos.OvernightShiftExample | funcionarios/management/commands/processar_pontos.py:123-126 | a 22:00-06:00 shift is 480 minutes |
| ProcessarPontos.AbsenceMinutes | funcionarios/management/commands/processar_pontos.py:81-98 | the absence debit is at most 0 and is minus the expected gross in whole minutes, with the fraction dropped |
| ProcessarPontos.Delta | funcionarios/management/commands/processar_pontos.py:130 | the delta is the worked-minus-expected difference rounded to the nearest minute |
| ProcessarPontos.GetDescription | funcionarios/management/commands/processar_pontos.py:164-177 | lateness over 5 minutes gives "Atraso de N min" with N the rounded lateness; otherwise "Horas extras" iff delta > 0, "Saída antecipada" iff delta < 0, "Ajuste" iff delta = 0 |
| ProcessarPontos.ResolveEscala | funcionarios/management/commands/processar_pontos.py:53-62 | None iff no assignment covers the date (start <= d, and end >= d or open); otherwise a covering assignment with the latest start |
| ProcessarPontos.WorkedDay | funcionarios/management/commands/processar_pontos.py:104-142 | with a clock-in and a clock-out the path is a worked day; it carries a description iff the delta is non-zero, and never "Ajuste" |
| ProcessarPontos.LedgerAfter | funcionarios/management/commands/processar_pontos.py:41-139 | only the (employee, date) row can change: deleted when excused, set on absence or a non-zero delta, kept otherwise; rows stay keyed by their own employee and date |
| ProcessarPontos.AbonoTakesPrecedence | funcionarios/management/commands/processar_pontos.py:41-50 | the day is excused iff an approved FALTA excuse starts that day, whatever events or schedule exist |
| ProcessarPontos.SemEscalaIff | funcionarios/management/commands/processar_pontos.py:53-62 | "no schedule" iff not excused and no assignment covers the date |
| ProcessarPontos.FolgaIff | funcionarios/management/commands/processar_pontos.py:64-70 | "day off" iff not excused, a schedule is in force, and the weekday is not among its comma-split days |
| ProcessarPontos.FaltaInjustificadaIff | funcionarios/management/commands/processar_pontos.py:78-101 | unjustified absence iff a working day has no event of the employee on that date; the debit is AbsenceMinutes of the schedule |
| ProcessarPontos.DayKinds | funcionarios/management/commands/processar_pontos.py:104-105 | the day's events contain a kind iff some stored event of the employee on that date has that kind |
| ProcessarPontos.SemEntradaOuSaidaIff | funcionarios/management/commands/processar_pontos.py:104-109 | "missing punch" iff a working day has events but no ENTRADA or no SAIDA |
| ProcessarPontos.FirstAndLastOfKind | funcionarios/management/commands/processar_pontos.py:104-105 | in time order, the first and last timestamps of a kind are those of actual events and bound all events of that kind |
| ProcessarPontos.ClockInOutBounds | funcionarios/management/commands/processar_pontos.py:104-111 | the span runs from the earliest ENTRADA to the latest SAIDA of the day |
| ProcessarPontos.JornadaWrites | funcionarios/management/commands/processar_pontos.py:132-142 | on a worked day a zero delta leaves the ledger unchanged; a non-zero delta leaves exactly the row (employee, date, delta, description) |
| ProcessarPontos.ReprocessIdempotent | funcionarios/management/commands/processar_pontos.py:135-147 | applying the same day's decision twice gives the same ledger and status as once |
| ProcessarPontos.ReconcileDay | funcionarios/management/commands/processar_pontos.py:39-133 | the step-by-step lookups (excuse, assignment, weekday, events, clock-in/out, breaks, delta, description) compute the path `Decide` defines |
| ProcessarPontos.ApplyDecision | funcionarios/management/commands/processar_pontos.py:41-147 | the ledger becomes LedgerAfter; the status becomes OFFLINE on a worked day only and is written iff it was not already OFFLINE; nothing else changes |
| ProcessarPontos.ProcessEmployee | funcionarios/management/commands/processar_pontos.py:39-147 | `process_employee`: the path is `Decide` of the stored tables, and the ledger, the status and the rest of the database change as ApplyDecision states |
| ProcessarPontos.TargetDate | funcionarios/management/commands/processar_pontos.py:20-28 | no date gives yesterday; a valid date gives that date; an invalid one gives None |
| ProcessarPontos.Ativos | funcionarios/management/commands/processar_pontos.py:32 | exactly the employees with status ATIVO, in table order, each once |
| ProcessarPontos.Handle | funcionarios/management/commands/processar_pontos.py:19-37 | an invalid date changes nothing; otherwise every (active employee, target date) row becomes RowAfter of its decision, every other row is unchanged, and the statuses of exactly the active employees follow StatusAfter |
| ProcessarPontos.ProcessAll | funcionarios/management/commands/processar_pontos.py:34-35 | the loop over the active employees leaves each processed employee's row and status as its own decision says |
| Clock.Combine | funcionarios/management/commands/processar_pontos.py:120-121 | `datetime.combine`: the instant has the given date and time of day |
| Clock.Weekday | funcionarios/management/commands/processar_pontos.py:65 | `date.weekday()`, a number below 7; pinned down by WeekdayEpoch and WeekdaySuccessor |
| Clock.WeekdayEpoch | funcionarios/management/commands/processar_pontos.py:65 | day 0 is 1970-01-01 and a Thursday (weekday 3) |
| Clock.WeekdaySuccessor | funcionarios/management/commands/processar_pontos.py:65 | the next day has the next weekday, Sunday wrapping to Monday |
| Clock.WeekdayKnownMonday | funcionarios/management/commands/processar_pontos.py:65 | 2024-01-01 (day 19723) is a Monday (weekday 0) |
| Clock.WeekdayPeriodic | funcionarios/management/commands/processar_pontos.py:65 | the weekday repeats every seven days |
| Clock.RoundMinutes | funcionarios/management/commands/processar_pontos.py:130 | Python `round` to minutes: within half a minute, and even on an exact tie |
| Clock.RoundMinutesUnique | funcionarios/management/commands/processar_pontos.py:130 | the rounding is the only integer with those two properties |
| Models.NovoFuncionario | funcionarios/models.py:116-135 | a new employee has status ATIVO, live status OFFLINE and no account |
| Models.SplitDiasSemana | funcionarios/models.py:14-17 | splitting a comma-separated list of weekday digits on ',' gives one digit per day |
| Models.DiaDeTrabalhoIff | funcionarios/management/commands/processar_pontos.py:65-67 | for a well-formed day list, the weekday is a working day iff it is in the list |
| Models.SaldoLineAmount | funcionarios/models.py:211 | `__str__` prints the name, then the decimal text of abs(minutos), then " min (" |
| Models.SaldoLineLabel | funcionarios/models.py:210-211 | the label reads "Crédito" iff minutos > 0 (zero is "Débito") |
| Models.SalvarRegra | funcionarios/models.py:65-68 | saving a pause rule fails iff its (cargo, ordem) is taken; otherwise the table gains exactly that rule and stays ordered by (cargo, ordem) |
| Models.ParseTipo | funcionarios/models.py:333-342 | a recognised code is the code of the kind returned |
| Models.TipoCodesDistinct | funcionarios/models.py:333-342 | each of the eight event kinds is recognised from its own code |
| Store.AtMostOneRowPerDay | funcionarios/models.py:207 | two ledger rows with the same employee and date are the same row |
| Store.EventsOn | funcionarios/management/commands/processar_pontos.py:73-75 | exactly the stored events of the employee on that date |
| Store.DayEvents | funcionarios/management/commands/processar_pontos.py:73-76 | exactly those events, ordered by timestamp |
| Store.SortByTime | funcionarios/management/commands/processar_pontos.py:76 | `order_by('timestamp')`: sorted and a permutation of its input |
| Store.TimesOf | funcionarios/management/commands/processar_pontos.py:151-152 | the timestamps of exactly the events of one kind, ascending when the events are; count and order pinned by TimesOfCount and TimesOfAppend |
| Store.TimesOfCount | funcionarios/management/commands/processar_pontos.py:151-152 | one timestamp per event of the kind: as many as the `.count()` of that kind |
| Store.TimesOfAppend | funcionarios/management/commands/processar_pontos.py:151-152 | a new event of the kind appends its timestamp at the end; any other event changes nothing |
| Store.EventsOnMultiset | funcionarios/management/commands/processar_pontos.py:73-75 | each stored event of the employee on that date appears as often as it is stored, and no other event appears |
| Store.CountOf | funcionarios/views.py:139-141 | `.count()` of one kind: zero iff no event has that kind |
| Text.NatText | funcionarios/models.py:211 | `str(n)`: decimal digits with no leading zero |
| Text.DigitsValueOfNatText | funcionarios/models.py:211 | the decimal text of n reads back as n |
| Text.Pad2 | funcionarios/templatetags/custom_filters.py:22 | `%02d`: at least two digits, exactly two below 100, reading back as n |
| Text.SplitJoin | funcionarios/management/commands/processar_pontos.py:67 | `split(',')` undoes `','.join` of comma-free pieces |
| Text.JoinSplit | funcionarios/management/commands/processar_pontos.py:67 | `','.join` undoes `split(',')` |
| Text.Words | funcionarios/signals.py:31 | `str.split()`: non-empty whitespace-free words, none iff the text is all whitespace; WordsOfWord and WordsOfJoin pin down which words |
| Text.WordLengthOfWord | funcionarios/signals.py:31 | a run of non-space characters followed by a space or the end has exactly its own length as the first word |
| Text.WordsOfWord | funcionarios/signals.py:31 | a non-empty space-free word ended by a space or the end of the text is the first word, and splitting continues after it |
| Text.WordsOfJoin | funcionarios/signals.py:31 | `" ".join(ws).split() == ws` for non-empty space-free words |
| Text.LowerKeepsSpaces | funcionarios/signals.py:31 | lowering turns no character into or out of whitespace |
| Text.LowerConcat | funcionarios/signals.py:31 | lowering distributes over concatenation |
| Text.LowerAll | funcionarios/signals.py:31 | the list of the words, each lowered, in the same positions |
| Text.LowerJoin | funcionarios/signals.py:31 | lowering a space-joined text lowers each word and keeps the spaces |
| Text.Lower | funcionarios/signals.py:31 | `str.lower()` character by character |
| Text.LowerIdempotent | funcionarios/signals.py:31 | lowering twice is lowering once, and the result is lower case |
| Views.NovoStatus | funcionarios/views.py:176-187 | ENTRADA, VOLTA_PAUSA and VOLTA_ALMOCO give DISPONIVEL; SAIDA_PAUSA and SAIDA_ALMOCO give EM_PAUSA; SAIDA gives OFFLINE; any other kind keeps the status |
| Views.UltimoMapeado | funcionarios/views.py:176-187 | none exactly when no kind of the run is in `status_map`; otherwise a mapped kind at an index after which no kind is mapped, i.e. the last mapped one |
| Views.StatusFollowsLastMapped | funcionarios/views.py:176-187 | after a run of punches the live status is set by the last mapped kind, or is the starting status if none is mapped |
| Views.AcumularPausas | funcionarios/views.py:156-164 | the loop computes `PausaTotal`: an exit (re)opens a break, a return closes the open one and adds its span, a return with none open is ignored; the total is never negative on time-ordered events |
| Views.EventosDePausa | funcionarios/views.py:150-154 | exactly the programmed-break exits and returns, and time order is kept |
| Views.EventosDePausaMultiset | funcionarios/views.py:150-154 | each break exit or return is kept as often as it occurs, and every other event is dropped |
| Views.EventosDePausaAppend | funcionarios/views.py:150-154 | a new break exit or return is appended at the end; any other event changes nothing |
| Views.HeadPrecedes | funcionarios/views.py:150-154 | in a time-ordered list the first event is no later than any event taken from the rest |
| Views.PausasDoDia | funcionarios/views.py:150-154 | ordered by time; holds exactly the employee's break exits and returns of that date, each as often as it is stored |
| Views.ViewAndReportDisagree | funcionarios/views.py:159-164 | with exits at 10:00 and 10:05 and a return at 10:20, the view counts 15 minutes of break but the nightly pairing counts 20 |
| Views.VerificarAsWritten | funcionarios/views.py:124-148 | as written: an empty kind is refused, and a break exit never gets through (no role: refused; a role: the missing limit field is an error) |
| Views.Verificar | funcionarios/views.py:124-174 | an empty kind is refused; a break exit is accepted iff there is a role, fewer exits today than the maximum and less break time than the maximum; other kinds are accepted |
| Views.MissingLimitFieldsBlockBreaks | funcionarios/views.py:143-168 | a first break exit of an employee with a role is refused as written and accepted once the limits are readable |
| Views.BatePonto | funcionarios/views.py:120-192 | on refusal nothing changes; on acceptance exactly one event (employee, now, kind) is appended and the status follows `status_map` |
| Views.PausaLimitHolds | funcionarios/views.py:139-148 | an accepted break exit leaves at most the maximum number of exits that day |
| CustomFilters.FormatMinutes | funcionarios/templatetags/custom_filters.py:11-22 | None gives "00:00"; the output starts with '-' iff the amount is negative; at least five characters |
| CustomFilters.ParseHoursMinutes | funcionarios/templatetags/custom_filters.py:17-22 | the `HH:MM` part reads back as hours × 60 + minutes, with the minutes field below 60 and the hours not truncated |
| CustomFilters.ParseFormat | funcionarios/templatetags/custom_filters.py:14-22 | round trip: reading the output back gives sign × (hours × 60 + minutes) = the amount |
| CustomFilters.FormatNegation | funcionarios/templatetags/custom_filters.py:14-22 | for m > 0, format(-m) is "-" followed by format(m) |
| Signals.Matricula | funcionarios/signals.py:20-21 | a matricula is six digits, starts with "26", and its last four digits denote the draw |
| Signals.MatriculaInjective | funcionarios/signals.py:20-21 | different draws give different matriculas |
| Signals.PrimeiraLivre | funcionarios/signals.py:18-24 | the first draw whose matricula is not an existing username; every earlier draw is taken |
| Signals.GerarMatricula | funcionarios/signals.py:18-24 | the retry loop stops at that first free draw, and its matricula is not an existing username |
| Signals.Senha | funcionarios/signals.py:27-28 | the password is the matricula, then "@Cadastro", then digits that read back as the year |
| Signals.Endereco | funcionarios/signals.py:32-34 | the address starts with the first word and a dot |
| Signals.EnderecoLimpo | funcionarios/signals.py:31-34 | built from lower-case words, the address has no whitespace, is lower case and ends with "@suaempresa.com" |
| Signals.Email | funcionarios/signals.py:31-34 | no address iff the name is all whitespace; otherwise it is lower case, has no whitespace and ends with the domain; EmailOfWords gives the exact address |
| Signals.EmailOfWords | funcionarios/signals.py:31-34 | for a name of space-separated words, the address is the lower-cased first word, a dot, the lower-cased last word (nothing for one word) and "@suaempresa.com" |
| Signals.EmailIgnoresCase | funcionarios/signals.py:31 | the address does not depend on the case of the name |
| Signals.Desfecho | funcionarios/signals.py:15-34 | the four outcomes split the inputs: nothing happens iff the save is not a creation or the employee has an account; the draws run out iff all are taken; no account iff a draw is free but the name has no word; otherwise an account is created whose username is the matricula of the first free draw (fresh, six digits), with the name's e-mail and the derived password |
| Signals.CriarUserParaFuncionario | funcionarios/signals.py:13-43 | the outcome is `Desfecho`; on creation the account is added under its username and linked to the employee; otherwise nothing changes |
| Signals.Vincular | funcionarios/signals.py:37-43 | the account is stored under its username and the employee's `user` points to it |
| LimparRegistros.TodosOffline | funcionarios/management/commands/limpar_registros.py:36 | every employee becomes OFFLINE; the keys and every other field are unchanged |
| LimparRegistros.TodosOfflineIdempotent | funcionarios/management/commands/limpar_registros.py:36 | resetting the statuses twice is resetting them once |
| LimparRegistros.Limpar | funcionarios/management/commands/limpar_registros.py:14-37 | without `--confirm` nothing changes; with it the events and ledger end empty, all statuses are OFFLINE, and the counts are the old table sizes |
| LimparRegistros.LimparIdempotente | funcionarios/management/commands/limpar_registros.py:28-37 | a second confirmed run deletes nothing, reports zero events and rows, and leaves the same state |

## Left out

- Console output, `messages`, `render`/`redirect`, and the hook's debug `print` are not modelled. They have no effect on the stored state.
- `timezone.now()` and `date.today()` become parameters: `hoje` and `agora`, and `ano` for the password year. Dates are taken in one fixed time zone, and time-zone conversion is not modelled.
- `datetime.strptime` is not modelled. The date argument arrives already classified as absent, valid or invalid (`DateArgument`).
- Floating-point minutes are not modelled. Durations are exact microseconds, rounded or truncated once where the source rounds (`round`) or truncates (the integer column).
- ORM mechanics are not modelled: `update_or_create`, `.save()`, `update_fields`, cascades and transactions become whole-field updates of `Store.Database`.
- The hook's own `instance.save()` fires the hook again with `created` false. That second call does nothing and is not modelled separately.
- `Store.SortByTime`: events with equal timestamps keep their stored order, because the database order for ties is unspecified.
- `ProcessarPontos.Handle`: it visits employees in ascending primary key. `Funcionario` declares no ordering, so the real order is whatever the database returns. The result does not depend on the order, because each employee only touches their own row and status.
- `Signals.GerarMatricula`: `random.randint` becomes a finite sequence of draws. Where the source would keep drawing forever when every draw is taken, the model stops with `SorteiosEsgotados`.
- `Signals.Vincular`: `create_user` hashes the password; the model stores it as built. Password hashing is not part of this model.
- `Text.Lower`: it lowers ASCII and Latin-1 capitals only. Other Unicode case mappings are not modelled.
- `Views.BatePonto`: the break limits `max_pausas_diarias` and `duracao_max_pausas_minutos` are read from a role that does not have them (see Findings). The model takes them as a `LimitesPausa` parameter and uses the corrected checks.
- The admin, middleware, login/logout/dashboard views, forms, URLs, tests, load tests, the seed migration and the JavaScript CEP/CBO lookups are not part of this model.
- Personal details, address and bank fields of `Funcionario` are not part of this model. Only the fields the core reads or writes are kept.
- Holidays, priority schedules, personal-break deduction and a lunch threshold do not exist in the code, so they are not modelled.

## Findings

| source | as written | input that shows it | evidently intended | confidence | as-written member | corrected member |
|---|---|---|---|---|---|---|
| funcionarios/views.py:143-168 | the break checks read `max_pausas_diarias` and `duracao_max_pausas_minutos` from the employee's `Cargo`, which declares neither field (funcionarios/models.py:32-47), so the request fails before anything is written | an employee with a role posts `SAIDA_PAUSA` | the role carries the two limits; a break exit is accepted while today's exits and break time are below them | not executed; high, since no field of that name exists on the model | Views.VerificarAsWritten | Views.Verificar |
