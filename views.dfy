/**
 * The punch-clock view `bate_ponto_view`: an employee records an event of
 * the current instant; a programmed-break exit is first checked against the
 * daily break limits of the employee's role; on acceptance the live status
 * follows `status_map` and the event is appended.
 */
module Views {
  import opened Wrappers
  import opened Clock
  import opened Models
  import opened Store
  import ProcessarPontos

  // ---------------------------------------------------------------------
  // status_map

  /** `status_map`: the live status each mapped event kind sets. */
  const STATUS_MAP: map<string, StatusOperacional> :=
    map[ENTRADA := Disponivel, SAIDA_PAUSA := EmPausa, VOLTA_PAUSA := Disponivel,
        SAIDA_ALMOCO := EmPausa, VOLTA_ALMOCO := Disponivel, SAIDA := Offline]

  /**
   * `status_map.get(tipo_ponto, funcionario.status_operacional)`: clock-in
   * and the two returns make the employee available, the two exits put them
   * on a break, clock-out takes them offline, and every other kind (the
   * personal break among them) leaves the status as it was.
   */
  function NovoStatus(tipo: string, atual: StatusOperacional): (s: StatusOperacional)
    ensures s == Disponivel <==>
            tipo == ENTRADA || tipo == VOLTA_PAUSA || tipo == VOLTA_ALMOCO || (tipo !in STATUS_MAP && atual == Disponivel)
    ensures s == EmPausa <==>
            tipo == SAIDA_PAUSA || tipo == SAIDA_ALMOCO || (tipo !in STATUS_MAP && atual == EmPausa)
    ensures s == Offline <==> tipo == SAIDA || (tipo !in STATUS_MAP && atual == Offline)
    ensures tipo == SAIDA_PAUSA_PESSOAL || tipo == VOLTA_PAUSA_PESSOAL ==> s == atual
  {
    if tipo in STATUS_MAP then STATUS_MAP[tipo] else atual
  }

  /** The live status after a run of accepted events, the last one applied last. */
  function StatusAposEventos(tipos: seq<string>, inicial: StatusOperacional): StatusOperacional {
    if tipos == [] then inicial
    else NovoStatus(tipos[|tipos| - 1], StatusAposEventos(tipos[..|tipos| - 1], inicial))
  }

  /** Position i holds a kind `status_map` knows, and no later position does. */
  predicate UltimoEm(tipos: seq<string>, i: int) {
    0 <= i < |tipos| && tipos[i] in STATUS_MAP && forall j :: i < j < |tipos| ==> tipos[j] !in STATUS_MAP
  }

  /** A last mapped position stays the last one when an unmapped kind is appended. */
  lemma UltimoEmExtends(tipos: seq<string>, i: int)
    requires |tipos| > 0 && tipos[|tipos| - 1] !in STATUS_MAP
    requires UltimoEm(tipos[..|tipos| - 1], i)
    ensures UltimoEm(tipos, i)
  {
    assert forall j :: 0 <= j < |tipos| - 1 ==> tipos[..|tipos| - 1][j] == tipos[j];
  }

  /** The last event kind of a run that `status_map` knows, if any. */
  function UltimoMapeado(tipos: seq<string>): (r: Option<string>)
    ensures r.None? <==> forall i :: 0 <= i < |tipos| ==> tipos[i] !in STATUS_MAP
    ensures r.Some? ==> exists i :: UltimoEm(tipos, i) && tipos[i] == r.value
  {
    if tipos == [] then None
    else if tipos[|tipos| - 1] in STATUS_MAP then
      assert UltimoEm(tipos, |tipos| - 1);
      Some(tipos[|tipos| - 1])
    else
      var prefixo := tipos[..|tipos| - 1];
      var r := UltimoMapeado(prefixo);
      assert forall i :: 0 <= i < |prefixo| ==> prefixo[i] == tipos[i];
      assert r.Some? ==> exists i :: UltimoEm(tipos, i) && tipos[i] == r.value by {
        if r.Some? {
          var i :| UltimoEm(prefixo, i) && prefixo[i] == r.value;
          UltimoEmExtends(tipos, i);
        }
      }
      r
  }

  /**
   * The live status depends only on the last mapped event: it is what that
   * event sets, or the starting status when no event of the run is mapped.
   */
  lemma {:induction false} StatusFollowsLastMapped(tipos: seq<string>, inicial: StatusOperacional)
    ensures StatusAposEventos(tipos, inicial) ==
            match UltimoMapeado(tipos)
            case None => inicial
            case Some(t) => STATUS_MAP[t]
  {
    if tipos != [] {
      StatusFollowsLastMapped(tipos[..|tipos| - 1], inicial);
    }
  }

  // ---------------------------------------------------------------------
  // The break accumulation loop

  /**
   * The loop over today's programmed-break events in time order: an exit
   * (re)opens a break at its instant, overwriting any open one; a return
   * closes the open break and adds its span; a return with no open break
   * is ignored.
   */
  function PausaTotal(rs: seq<RegistroPonto>, aberta: Option<Instant>, acc: int): int {
    if rs == [] then acc
    else if rs[0].tipo == SAIDA_PAUSA then PausaTotal(rs[1..], Some(rs[0].timestamp), acc)
    else if rs[0].tipo == VOLTA_PAUSA && aberta.Some? then
      PausaTotal(rs[1..], None, acc + (rs[0].timestamp - aberta.value))
    else PausaTotal(rs[1..], aberta, acc)
  }

  /**
   * `duracao_total_pausas`, in microseconds: the loop computes the fold,
   * and on time-ordered events the total is never negative.
   */
  method AcumularPausas(registros: seq<RegistroPonto>) returns (total: int)
    ensures total == PausaTotal(registros, None, 0)
    ensures SortedByTime(registros) ==> total >= 0
  {
    total := 0;
    var ultimoInicio: Option<Instant> := None;
    for i := 0 to |registros|
      invariant PausaTotal(registros[i..], ultimoInicio, total) == PausaTotal(registros, None, 0)
      invariant SortedByTime(registros) ==> total >= 0
      invariant SortedByTime(registros) && ultimoInicio.Some? ==>
                  forall j :: i <= j < |registros| ==> ultimoInicio.value <= registros[j].timestamp
    {
      assert registros[i..][1..] == registros[i + 1..];
      var registro := registros[i];
      if registro.tipo == SAIDA_PAUSA {
        ultimoInicio := Some(registro.timestamp);
      } else if registro.tipo == VOLTA_PAUSA && ultimoInicio.Some? {
        total := total + (registro.timestamp - ultimoInicio.value);
        ultimoInicio := None;
      }
    }
  }

  /** In a time-ordered list, the first event comes no later than any event drawn from the rest. */
  lemma HeadPrecedes(rs: seq<RegistroPonto>, rest: seq<RegistroPonto>)
    requires |rs| > 0 && SortedByTime(rs)
    requires forall x :: x in rest ==> x in rs[1..]
    ensures forall j :: 0 <= j < |rest| ==> rs[0].timestamp <= rest[j].timestamp
  {
    forall j | 0 <= j < |rest| ensures rs[0].timestamp <= rest[j].timestamp {
      assert rest[j] in rest;
      var k :| 0 <= k < |rs[1..]| && rs[1..][k] == rest[j];
      assert rs[k + 1] == rest[j];
    }
  }

  /** The programmed-break exits and returns among a list of events, in the same order. */
  function EventosDePausa(rs: seq<RegistroPonto>): (r: seq<RegistroPonto>)
    ensures forall x :: x in r <==> x in rs && (x.tipo == SAIDA_PAUSA || x.tipo == VOLTA_PAUSA)
    ensures SortedByTime(rs) ==> SortedByTime(r)
  {
    if rs == [] then []
    else
      var rest := EventosDePausa(rs[1..]);
      assert forall x :: x in rs[1..] ==> x in rs;
      var r := if rs[0].tipo == SAIDA_PAUSA || rs[0].tipo == VOLTA_PAUSA then [rs[0]] + rest else rest;
      assert SortedByTime(rs) ==> SortedByTime(r) by {
        if SortedByTime(rs) {
          assert SortedByTime(rs[1..]);
          HeadPrecedes(rs, rest);
        }
      }
      r
  }

  /** Each break exit or return is kept as often as it occurs; every other event is dropped. */
  lemma {:induction false} EventosDePausaMultiset(rs: seq<RegistroPonto>)
    ensures forall x :: multiset(EventosDePausa(rs))[x] ==
                          if x.tipo == SAIDA_PAUSA || x.tipo == VOLTA_PAUSA then multiset(rs)[x] else 0
  {
    if rs != [] {
      assert rs == [rs[0]] + rs[1..];
      EventosDePausaMultiset(rs[1..]);
    }
  }

  /** `registros_pausa_hoje`: the employee's break exits and returns of the day, ordered by time. */
  function PausasDoDia(registros: seq<RegistroPonto>, f: FuncionarioId, d: Date): (r: seq<RegistroPonto>)
    ensures SortedByTime(r)
    ensures forall x :: x in r <==> x in registros && OnDay(x, f, d) && (x.tipo == SAIDA_PAUSA || x.tipo == VOLTA_PAUSA)
    ensures forall x :: (multiset(r)[x] ==
      if OnDay(x, f, d) && (x.tipo == SAIDA_PAUSA || x.tipo == VOLTA_PAUSA) then multiset(registros)[x] else 0)
  {
    var dia := DayEvents(registros, f, d);
    assert multiset(dia) == multiset(EventsOn(registros, f, d));
    EventsOnMultiset(registros, f, d);
    EventosDePausaMultiset(dia);
    EventosDePausa(dia)
  }

  /** `pausas_hoje`: the employee's programmed-break exits of the day. */
  function SaidasPausaHoje(registros: seq<RegistroPonto>, f: FuncionarioId, d: Date): nat {
    CountOf(EventsOn(registros, f, d), SAIDA_PAUSA)
  }

  /**
   * The view keeps the last exit before a return, the nightly report the
   * first: with exits at 10:00 and 10:05 and one return at 10:20 the view
   * counts 15 minutes of break and the report 20.
   */
  lemma ViewAndReportDisagree()
    ensures var saida1 := 600 * US_PER_MINUTE;
            var saida2 := 605 * US_PER_MINUTE;
            var volta := 620 * US_PER_MINUTE;
            && PausaTotal([RegistroPonto(1, saida1, SAIDA_PAUSA), RegistroPonto(1, saida2, SAIDA_PAUSA),
                           RegistroPonto(1, volta, VOLTA_PAUSA)], None, 0) == 15 * US_PER_MINUTE
            && ProcessarPontos.BreakTime([saida1, saida2], [volta]) == 20 * US_PER_MINUTE
  {
    var saida1 := 600 * US_PER_MINUTE;
    var saida2 := 605 * US_PER_MINUTE;
    var volta := 620 * US_PER_MINUTE;
    var rs := [RegistroPonto(1, saida1, SAIDA_PAUSA), RegistroPonto(1, saida2, SAIDA_PAUSA),
               RegistroPonto(1, volta, VOLTA_PAUSA)];
    assert VOLTA_PAUSA[0] != SAIDA_PAUSA[0];
    var tail := [RegistroPonto(1, volta, VOLTA_PAUSA)];
    assert rs[1..] == [RegistroPonto(1, saida2, SAIDA_PAUSA)] + tail;
    assert rs[1..][1..] == tail && tail[1..] == [];
    assert PausaTotal(tail, Some(saida2), 0) == PausaTotal([], None, volta - saida2);
    assert PausaTotal(rs, None, 0) == PausaTotal(rs[1..], Some(saida1), 0);
    assert PausaTotal(rs[1..], Some(saida1), 0) == PausaTotal(tail, Some(saida2), 0);
    assert ProcessarPontos.FirstAfter([volta], saida1) == 0;
    assert ProcessarPontos.RemoveAt([volta], 0) == [];
    assert ProcessarPontos.FirstAfter([], saida2) == -1;
    assert [saida1, saida2][1..] == [saida2];
    assert ProcessarPontos.Pairing([saida2], []) == [];
    assert ProcessarPontos.Pairing([saida1, saida2], [volta]) == [(saida1, volta)];
    assert ProcessarPontos.SpanTotal([(saida1, volta)]) == volta - saida1 + ProcessarPontos.SpanTotal([]);
  }

  // ---------------------------------------------------------------------
  // The refusal checks

  /** Why a punch is refused. */
  datatype Recusa =
    | SemTipo             // no event kind posted
    | SemCargo            // a break exit by an employee without a role
    | LimitePausas        // the day's break exits reached the role's maximum
    | LimiteTempo         // the day's break time reached the role's maximum
    | AtributoInexistente // the role has no such limit field (an unhandled error)

  /** The break limits a role is meant to carry. */
  datatype LimitesPausa = LimitesPausa(maxPausasDiarias: int, duracaoMaxPausasMinutos: int)

  /**
   * The checks as the view is written: the role is read for
   * `max_pausas_diarias`, a field `Cargo` does not have, so a break exit by
   * an employee with a role ends in an error and is never recorded.
   */
  function VerificarAsWritten(tipo: Option<string>, cargo: Option<CargoId>): (r: Option<Recusa>)
    ensures r == Some(SemTipo) <==> tipo.None? || tipo == Some("")
    ensures tipo == Some(SAIDA_PAUSA) ==> r.Some?
    ensures r == Some(AtributoInexistente) <==> tipo == Some(SAIDA_PAUSA) && cargo.Some?
    ensures r.None? <==> tipo.Some? && tipo.value != "" && tipo.value != SAIDA_PAUSA
  {
    if tipo.None? || tipo.value == "" then Some(SemTipo)
    else if tipo.value == SAIDA_PAUSA then
      if cargo.None? then Some(SemCargo) else Some(AtributoInexistente)
    else None
  }

  /**
   * The checks with the role's limits available: a missing kind is refused;
   * a break exit needs a role, fewer exits today than the maximum and less
   * break time today than the maximum; every other kind is accepted.
   */
  function Verificar(tipo: Option<string>, cargo: Option<CargoId>, limites: LimitesPausa,
                     saidasHoje: nat, pausaUs: int): (r: Option<Recusa>)
    ensures r == Some(SemTipo) <==> tipo.None? || tipo == Some("")
    ensures r != Some(AtributoInexistente)
    ensures tipo.Some? && tipo.value != "" && tipo.value != SAIDA_PAUSA ==> r.None?
    ensures tipo == Some(SAIDA_PAUSA) ==>
              (r.None? <==> && cargo.Some?
                            && saidasHoje < limites.maxPausasDiarias
                            && pausaUs < limites.duracaoMaxPausasMinutos * US_PER_MINUTE)
    ensures r == Some(LimitePausas) ==> saidasHoje >= limites.maxPausasDiarias
    ensures r == Some(LimiteTempo) ==> pausaUs >= limites.duracaoMaxPausasMinutos * US_PER_MINUTE
  {
    if tipo.None? || tipo.value == "" then Some(SemTipo)
    else if tipo.value == SAIDA_PAUSA then
      if cargo.None? then Some(SemCargo)
      else if saidasHoje >= limites.maxPausasDiarias then Some(LimitePausas)
      else if pausaUs >= limites.duracaoMaxPausasMinutos * US_PER_MINUTE then Some(LimiteTempo)
      else None
    else None
  }

  /**
   * The two versions apart: an employee with a role and no break yet today
   * is refused a break exit as the view is written, and accepted once the
   * role's limits are readable (any positive limits).
   */
  lemma MissingLimitFieldsBlockBreaks(cargo: CargoId, limites: LimitesPausa)
    requires limites.maxPausasDiarias > 0 && limites.duracaoMaxPausasMinutos > 0
    ensures VerificarAsWritten(Some(SAIDA_PAUSA), Some(cargo)) == Some(AtributoInexistente)
    ensures Verificar(Some(SAIDA_PAUSA), Some(cargo), limites, 0, 0).None?
  {
    assert SAIDA_PAUSA != "";
  }

  // ---------------------------------------------------------------------
  // bate_ponto_view

  /**
   * `bate_ponto_view` for employee `emp` at instant `agora`, with the
   * employee's role limits given: on refusal nothing changes; on
   * acceptance the status follows `status_map` and the event is appended.
   */
  method BatePonto(db: Database, emp: FuncionarioId, tipoPonto: Option<string>, agora: Instant, limites: LimitesPausa)
    returns (recusa: Option<Recusa>)
    requires db.Valid() && emp in db.funcionarios
    modifies db
    ensures db.Valid()
    ensures recusa == Verificar(tipoPonto, old(db.funcionarios[emp].cargo), limites,
                                SaidasPausaHoje(old(db.registros), emp, DateOf(agora)),
                                PausaTotal(PausasDoDia(old(db.registros), emp, DateOf(agora)), None, 0))
    ensures recusa.Some? ==> db.registros == old(db.registros) && db.funcionarios == old(db.funcionarios)
    ensures recusa.None? ==>
              && db.registros == old(db.registros) + [RegistroPonto(emp, agora, tipoPonto.value)]
              && db.funcionarios == old(db.funcionarios)[emp := old(db.funcionarios[emp]).(statusOperacional :=
                                      NovoStatus(tipoPonto.value, old(db.funcionarios[emp].statusOperacional)))]
    ensures db.banco == old(db.banco) && db.ordem == old(db.ordem) && db.atribuicoes == old(db.atribuicoes)
    ensures db.abonos == old(db.abonos) && db.usuarios == old(db.usuarios)
  {
    var hoje := DateOf(agora);
    var saidasHoje := SaidasPausaHoje(db.registros, emp, hoje);
    var pausasDoDia := PausasDoDia(db.registros, emp, hoje);
    var duracaoTotal := AcumularPausas(pausasDoDia);
    recusa := Verificar(tipoPonto, db.funcionarios[emp].cargo, limites, saidasHoje, duracaoTotal);
    if recusa.Some? {
      return;
    }
    var f := db.funcionarios[emp];
    db.funcionarios := db.funcionarios[emp := f.(statusOperacional := NovoStatus(tipoPonto.value, f.statusOperacional))];
    db.registros := db.registros + [RegistroPonto(emp, agora, tipoPonto.value)];
  }

  /** Appending an event of the day adds it at the end of the day's list. */
  lemma {:induction false} EventsOnAppend(rs: seq<RegistroPonto>, x: RegistroPonto, f: FuncionarioId, d: Date)
    ensures EventsOn(rs + [x], f, d) == EventsOn(rs, f, d) + (if OnDay(x, f, d) then [x] else [])
  {
    if rs == [] {
      assert rs + [x] == [x];
      assert [x][1..] == [];
    } else {
      assert (rs + [x])[1..] == rs[1..] + [x];
      EventsOnAppend(rs[1..], x, f, d);
    }
  }

  /** Appending a break exit or return appends it to the break events; any other event changes nothing. */
  lemma {:induction false} EventosDePausaAppend(rs: seq<RegistroPonto>, x: RegistroPonto)
    ensures EventosDePausa(rs + [x]) ==
            EventosDePausa(rs) + (if x.tipo == SAIDA_PAUSA || x.tipo == VOLTA_PAUSA then [x] else [])
  {
    if rs == [] {
      assert rs + [x] == [x];
      assert [x][1..] == [];
    } else {
      assert (rs + [x])[1..] == rs[1..] + [x];
      EventosDePausaAppend(rs[1..], x);
    }
  }

  /** Counting a kind over a list with one more event. */
  lemma {:induction false} CountOfAppend(rs: seq<RegistroPonto>, x: RegistroPonto, tipo: string)
    ensures CountOf(rs + [x], tipo) == CountOf(rs, tipo) + (if x.tipo == tipo then 1 else 0)
  {
    if rs == [] {
      assert rs + [x] == [x];
      assert [x][1..] == [];
    } else {
      assert (rs + [x])[1..] == rs[1..] + [x];
      CountOfAppend(rs[1..], x, tipo);
    }
  }

  /**
   * The daily limit holds: an accepted break exit leaves the employee with
   * at most the role's maximum number of break exits that day.
   */
  lemma PausaLimitHolds(registros: seq<RegistroPonto>, emp: FuncionarioId, agora: Instant,
                        cargo: Option<CargoId>, limites: LimitesPausa, pausaUs: int)
    requires Verificar(Some(SAIDA_PAUSA), cargo, limites, SaidasPausaHoje(registros, emp, DateOf(agora)), pausaUs).None?
    ensures SaidasPausaHoje(registros + [RegistroPonto(emp, agora, SAIDA_PAUSA)], emp, DateOf(agora))
            <= limites.maxPausasDiarias
  {
    var x := RegistroPonto(emp, agora, SAIDA_PAUSA);
    EventsOnAppend(registros, x, emp, DateOf(agora));
    CountOfAppend(EventsOn(registros, emp, DateOf(agora)), x, SAIDA_PAUSA);
  }
}
