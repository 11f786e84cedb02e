/**
 * The daily hour-bank reconciliation of the `processar_pontos` management
 * command: for one employee and one date it picks one of six exclusive
 * paths (excused, no schedule, day off, unjustified absence, missing
 * clock-in or clock-out, worked day), and on the ledger either deletes the
 * day's row, upserts it, or leaves it alone.
 */
module ProcessarPontos {
  import opened Wrappers
  import opened Text
  import opened Clock
  import opened Models
  import opened Store

  // ---------------------------------------------------------------------
  // calculate_break_time: greedy pairing of exits with later returns

  /** `next(v for v in voltas if v > t)`: index of the first return strictly after t, or -1. */
  function FirstAfter(voltas: seq<Instant>, t: Instant): (i: int)
    ensures -1 <= i < |voltas|
    ensures i >= 0 ==> voltas[i] > t && forall j :: 0 <= j < i ==> voltas[j] <= t
    ensures i == -1 ==> forall j :: 0 <= j < |voltas| ==> voltas[j] <= t
  {
    if voltas == [] then -1
    else if voltas[0] > t then 0
    else
      var k := FirstAfter(voltas[1..], t);
      assert forall j :: 0 < j < |voltas| ==> voltas[j] == voltas[1..][j - 1];
      if k < 0 then -1 else k + 1
  }

  function RemoveAt(s: seq<Instant>, i: nat): (r: seq<Instant>)
    requires i < |s|
    ensures |r| == |s| - 1
    ensures multiset(r) + multiset{s[i]} == multiset(s)
  {
    assert s == s[..i] + [s[i]] + s[i + 1..];
    s[..i] + s[i + 1..]
  }

  function Exits(ps: seq<(Instant, Instant)>): (r: seq<Instant>)
    ensures |r| == |ps| && forall k :: 0 <= k < |ps| ==> r[k] == ps[k].0
  {
    seq(|ps|, k requires 0 <= k < |ps| => ps[k].0)
  }

  function Returns(ps: seq<(Instant, Instant)>): (r: seq<Instant>)
    ensures |r| == |ps| && forall k :: 0 <= k < |ps| ==> r[k] == ps[k].1
  {
    seq(|ps|, k requires 0 <= k < |ps| => ps[k].1)
  }

  /**
   * The (exit, return) pairs `calculate_break_time` forms: each exit, in
   * order, takes the earliest return not yet taken that is strictly later;
   * an exit with no such return forms no pair. Every pair runs forwards in
   * time, and no exit or return is used twice.
   */
  function Pairing(saidas: seq<Instant>, voltas: seq<Instant>): (ps: seq<(Instant, Instant)>)
    ensures |ps| <= |saidas| && |ps| <= |voltas|
    ensures forall k :: 0 <= k < |ps| ==> ps[k].0 < ps[k].1
    decreases |saidas|
  {
    if saidas == [] then []
    else
      var i := FirstAfter(voltas, saidas[0]);
      if i < 0 then Pairing(saidas[1..], voltas)
      else [(saidas[0], voltas[i])] + Pairing(saidas[1..], RemoveAt(voltas, i))
  }

  lemma EndsOfCons(p: (Instant, Instant), ps: seq<(Instant, Instant)>)
    ensures multiset(Exits([p] + ps)) == multiset{p.0} + multiset(Exits(ps))
    ensures multiset(Returns([p] + ps)) == multiset{p.1} + multiset(Returns(ps))
  {
    assert Exits([p] + ps) == [p.0] + Exits(ps);
    assert Returns([p] + ps) == [p.1] + Returns(ps);
  }

  /** Pairing uses every exit at most once. */
  lemma {:induction false} PairingUsesExitsOnce(saidas: seq<Instant>, voltas: seq<Instant>)
    ensures multiset(Exits(Pairing(saidas, voltas))) <= multiset(saidas)
    decreases |saidas|
  {
    if saidas != [] {
      assert saidas == [saidas[0]] + saidas[1..];
      assert multiset(saidas) == multiset{saidas[0]} + multiset(saidas[1..]);
      var i := FirstAfter(voltas, saidas[0]);
      if i < 0 {
        PairingUsesExitsOnce(saidas[1..], voltas);
      } else {
        var rest := Pairing(saidas[1..], RemoveAt(voltas, i));
        PairingUsesExitsOnce(saidas[1..], RemoveAt(voltas, i));
        assert Pairing(saidas, voltas) == [(saidas[0], voltas[i])] + rest;
        EndsOfCons((saidas[0], voltas[i]), rest);
      }
    }
  }

  /** Pairing consumes every return at most once. */
  lemma {:induction false} PairingUsesReturnsOnce(saidas: seq<Instant>, voltas: seq<Instant>)
    ensures multiset(Returns(Pairing(saidas, voltas))) <= multiset(voltas)
    decreases |saidas|
  {
    if saidas != [] {
      var i := FirstAfter(voltas, saidas[0]);
      if i < 0 {
        PairingUsesReturnsOnce(saidas[1..], voltas);
      } else {
        var rest := Pairing(saidas[1..], RemoveAt(voltas, i));
        PairingUsesReturnsOnce(saidas[1..], RemoveAt(voltas, i));
        assert Pairing(saidas, voltas) == [(saidas[0], voltas[i])] + rest;
        EndsOfCons((saidas[0], voltas[i]), rest);
      }
    }
  }

  function SpanTotal(ps: seq<(Instant, Instant)>): int {
    if ps == [] then 0 else (ps[0].1 - ps[0].0) + SpanTotal(ps[1..])
  }

  /** Forward spans add up to at least one microsecond per pair. */
  lemma {:induction false} SpanTotalPositive(ps: seq<(Instant, Instant)>)
    requires forall k :: 0 <= k < |ps| ==> ps[k].0 < ps[k].1
    ensures SpanTotal(ps) >= |ps|
  {
    if ps != [] {
      SpanTotalPositive(ps[1..]);
    }
  }

  /** The break time of the day, in microseconds. */
  function BreakTime(saidas: seq<Instant>, voltas: seq<Instant>): int {
    SpanTotal(Pairing(saidas, voltas))
  }

  /** The total counts at most min(#exits, #returns) pairs and is never negative. */
  lemma BreakTimeBounds(saidas: seq<Instant>, voltas: seq<Instant>)
    ensures BreakTime(saidas, voltas) >= 0
    ensures |Pairing(saidas, voltas)| <= |saidas| && |Pairing(saidas, voltas)| <= |voltas|
    ensures saidas == [] || voltas == [] ==> BreakTime(saidas, voltas) == 0
  {
    SpanTotalPositive(Pairing(saidas, voltas));
  }

  /** An exit with no later return contributes nothing. */
  lemma UnmatchedExitAddsNothing(s: Instant, saidas: seq<Instant>, voltas: seq<Instant>)
    requires forall j :: 0 <= j < |voltas| ==> voltas[j] <= s
    ensures BreakTime([s] + saidas, voltas) == BreakTime(saidas, voltas)
  {
    assert ([s] + saidas)[1..] == saidas;
  }

  /**
   * Out-of-natural-order returns: exits at 10:00 and 12:00 with returns at
   * 10:10 and 12:05 pair as 10:00-10:10 and 12:00-12:05, fifteen minutes.
   */
  lemma PairingExample()
    ensures var m := US_PER_MINUTE;
            BreakTime([600 * m, 720 * m], [610 * m, 725 * m]) == 15 * m
  {
    var m := US_PER_MINUTE;
    var saidas, voltas := [600 * m, 720 * m], [610 * m, 725 * m];
    assert FirstAfter(voltas, saidas[0]) == 0;
    assert RemoveAt(voltas, 0) == [725 * m];
    assert saidas[1..] == [720 * m];
    assert FirstAfter([725 * m], 720 * m) == 0;
    assert RemoveAt([725 * m], 0) == [];
    assert Pairing([720 * m], [725 * m]) == [(720 * m, 725 * m)] + Pairing([], []);
    assert Pairing(saidas, voltas) == [(600 * m, 610 * m), (720 * m, 725 * m)];
    assert SpanTotal([(720 * m, 725 * m)]) == 5 * m;
  }

  /** `calculate_break_time(registros, tipo_saida, tipo_volta)`, in microseconds. */
  method CalculateBreakTime(registros: seq<RegistroPonto>, tipoSaida: string, tipoVolta: string) returns (total: int)
    ensures total == BreakTime(TimesOf(registros, tipoSaida), TimesOf(registros, tipoVolta))
    ensures total >= 0
  {
    var saidas := TimesOf(registros, tipoSaida);
    var voltas := TimesOf(registros, tipoVolta);
    ghost var voltas0 := voltas;
    total := 0;
    for k := 0 to |saidas|
      invariant total + BreakTime(saidas[k..], voltas) == BreakTime(saidas, voltas0)
      invariant total >= 0
    {
      var s := saidas[k];
      assert saidas[k..] == [s] + saidas[k + 1..];
      var i := FirstAfter(voltas, s);
      if i >= 0 {
        total := total + (voltas[i] - s);
        voltas := RemoveAt(voltas, i);
      }
    }
    assert saidas[|saidas|..] == [];
  }

  // ---------------------------------------------------------------------
  // Expected workload

  /**
   * Expected gross shift length in microseconds on date d: exit minus entry,
   * the exit moved to the next day when it is earlier than the entry. It is
   * the one length in [0, one day) that carries the entry time to the exit
   * time, whatever the date.
   */
  function ExpectedGross(e: Escala, d: Date): (us: int)
    ensures 0 <= us < US_PER_DAY
    ensures (e.horarioEntrada + us) % US_PER_DAY == e.horarioSaida
  {
    var entradaEsperada := Combine(d, e.horarioEntrada);
    var saidaEsperada := Combine(d, e.horarioSaida);
    if saidaEsperada < entradaEsperada then saidaEsperada + US_PER_DAY - entradaEsperada
    else saidaEsperada - entradaEsperada
  }

  /** A 22:00 to 06:00 shift is 480 minutes long. */
  lemma OvernightShiftExample(nome: string, dias: string, almoco: nat, d: Date)
    ensures ExpectedGross(Escala(nome, dias, 22 * 60 * US_PER_MINUTE, 6 * 60 * US_PER_MINUTE, almoco), d) == 480 * US_PER_MINUTE
  {
  }

  /** Expected net minutes, as microseconds: gross minus the lunch, always deducted. */
  function ExpectedNet(e: Escala, d: Date): int {
    ExpectedGross(e, d) - e.duracaoAlmocoMinutos * US_PER_MINUTE
  }

  /**
   * The minutes stored for an unjustified absence: minus the expected
   * gross, whole minutes only (the integer column drops the fraction).
   */
  function AbsenceMinutes(e: Escala, d: Date): (m: int)
    ensures m <= 0
    ensures -m * US_PER_MINUTE <= ExpectedGross(e, d) < (-m + 1) * US_PER_MINUTE
  {
    -(ExpectedGross(e, d) / US_PER_MINUTE)
  }

  /** Worked net time: first clock-in to last clock-out, less programmed breaks and lunch. */
  function WorkedNet(entrada: Instant, saida: Instant, pausa: int, almoco: int): int {
    (saida - entrada) - pausa - almoco
  }

  /** `round(worked net - expected net)` in minutes, ties to even. */
  function Delta(worked: int, expected: int): (delta: int)
    ensures US_PER_MINUTE * (2 * delta - 1) <= 2 * (worked - expected) <= US_PER_MINUTE * (2 * delta + 1)
  {
    RoundMinutes(worked - expected)
  }

  // ---------------------------------------------------------------------
  // get_description

  const ATRASO_PREFIX: string := "Atraso de "
  const HORAS_EXTRAS: string := "Horas extras"
  const SAIDA_ANTECIPADA: string := "Saída antecipada"
  const AJUSTE: string := "Ajuste"
  const FALTA_INJUSTIFICADA: string := "Falta Injustificada"
  /** Five minutes of tolerance before a late clock-in is reported. */
  const TOLERANCIA: int := 5 * US_PER_MINUTE

  /** Lateness of the actual clock-in time of day against the scheduled entry time. */
  function Atraso(entrada: Instant, horarioEntrada: TimeOfDay): int {
    TimeOf(entrada) - horarioEntrada
  }

  /**
   * `get_description`: lateness beyond the tolerance wins and is reported
   * in rounded minutes; otherwise the sign of the delta decides.
   */
  function GetDescription(delta: int, entrada: Instant, horarioEntrada: TimeOfDay): (r: string)
    ensures var late := Atraso(entrada, horarioEntrada);
            && (late > TOLERANCIA <==> |r| > |ATRASO_PREFIX| + 4 && r[..|ATRASO_PREFIX|] == ATRASO_PREFIX)
            && (late > TOLERANCIA ==>
                  RoundMinutes(late) >= 5 && r == ATRASO_PREFIX + NatText(RoundMinutes(late)) + " min")
            && (r == HORAS_EXTRAS <==> late <= TOLERANCIA && delta > 0)
            && (r == SAIDA_ANTECIPADA <==> late <= TOLERANCIA && delta < 0)
            && (r == AJUSTE <==> late <= TOLERANCIA && delta == 0)
  {
    var late := Atraso(entrada, horarioEntrada);
    assert HORAS_EXTRAS[0] != 'A' && SAIDA_ANTECIPADA[0] != 'A' && |AJUSTE| < |ATRASO_PREFIX|;
    assert SAIDA_ANTECIPADA != HORAS_EXTRAS && AJUSTE != HORAS_EXTRAS && AJUSTE != SAIDA_ANTECIPADA;
    if late > TOLERANCIA then
      var m := RoundMinutes(late);
      assert m >= 5 by {
        assert 60_000_000 * (2 * m + 1) >= 2 * late > 600_000_000;
      }
      var r := ATRASO_PREFIX + NatText(m) + " min";
      assert r[..|ATRASO_PREFIX|] == ATRASO_PREFIX;
      assert r[0] == 'A';
      r
    else if delta > 0 then HORAS_EXTRAS
    else if delta < 0 then SAIDA_ANTECIPADA
    else AJUSTE
  }

  // ---------------------------------------------------------------------
  // process_employee: the decision

  /** An approved full-day excuse whose period starts on date d. */
  predicate AbonaFalta(a: SolicitacaoAbono, f: FuncionarioId, d: Date) {
    a.funcionario == f && DateOf(a.dataInicio) == d && a.status == Aprovado && a.tipoAbono == Falta
  }

  predicate HasAbonoFalta(abonos: seq<SolicitacaoAbono>, f: FuncionarioId, d: Date) {
    exists i :: 0 <= i < |abonos| && AbonaFalta(abonos[i], f, d)
  }

  /**
   * The schedule assignment in force: among those covering d, the one with
   * the latest start (the first such in stored order on a tie).
   */
  function ResolveEscala(atribuicoes: seq<FuncionarioEscala>, f: FuncionarioId, d: Date): (r: Option<FuncionarioEscala>)
    ensures r.None? <==> forall i :: 0 <= i < |atribuicoes| ==> !Cobre(atribuicoes[i], f, d)
    ensures r.Some? ==> r.value in atribuicoes && Cobre(r.value, f, d)
    ensures r.Some? ==> forall i :: 0 <= i < |atribuicoes| && Cobre(atribuicoes[i], f, d) ==>
                          atribuicoes[i].dataInicio <= r.value.dataInicio
  {
    if atribuicoes == [] then None
    else
      var rest := ResolveEscala(atribuicoes[1..], f, d);
      assert forall i :: 0 < i < |atribuicoes| ==> atribuicoes[i] == atribuicoes[1..][i - 1];
      var a := atribuicoes[0];
      if Cobre(a, f, d) && (rest.None? || a.dataInicio >= rest.value.dataInicio) then Some(a)
      else rest
  }

  /** The six exclusive outcomes of processing one employee-day. */
  datatype Caminho =
    | Abonado
    | SemEscala
    | Folga
    | FaltaInjustificada(minutos: int)
    | SemEntradaOuSaida
    | Jornada(delta: int, descricao: Option<string>)

  /** What `process_employee` decides for employee f on date d. */
  function Decide(abonos: seq<SolicitacaoAbono>, atribuicoes: seq<FuncionarioEscala>,
                  registros: seq<RegistroPonto>, f: FuncionarioId, d: Date): Caminho
  {
    if HasAbonoFalta(abonos, f, d) then Abonado
    else match ResolveEscala(atribuicoes, f, d)
      case None => SemEscala
      case Some(a) =>
        if !IsDiaDeTrabalho(a.escala.diasSemana, Weekday(d)) then Folga
        else
          var dia := DayEvents(registros, f, d);
          if |dia| == 0 then FaltaInjustificada(AbsenceMinutes(a.escala, d))
          else if |TimesOf(dia, ENTRADA)| == 0 || |TimesOf(dia, SAIDA)| == 0 then SemEntradaOuSaida
          else WorkedDay(a.escala, dia, d)
  }

  /**
   * A day with both a clock-in and a clock-out: first ENTRADA to last
   * SAIDA, minus matched breaks and lunch, against the expected net shift;
   * a description only when the rounded delta is non-zero.
   */
  function WorkedDay(e: Escala, dia: seq<RegistroPonto>, d: Date): (c: Caminho)
    requires TimesOf(dia, ENTRADA) != [] && TimesOf(dia, SAIDA) != []
    ensures c.Jornada?
    ensures c.descricao.None? <==> c.delta == 0
    ensures c.descricao != Some(AJUSTE)
  {
    var entradas := TimesOf(dia, ENTRADA);
    var saidas := TimesOf(dia, SAIDA);
    var pausa := BreakTime(TimesOf(dia, SAIDA_PAUSA), TimesOf(dia, VOLTA_PAUSA));
    var almoco := BreakTime(TimesOf(dia, SAIDA_ALMOCO), TimesOf(dia, VOLTA_ALMOCO));
    var delta := Delta(WorkedNet(entradas[0], saidas[|saidas| - 1], pausa, almoco), ExpectedNet(e, d));
    Jornada(delta, if delta != 0 then Some(GetDescription(delta, entradas[0], e.horarioEntrada)) else None)
  }

  /** The ledger after the decision: delete, upsert or leave; no other row changes. */
  function LedgerAfter(banco: map<(FuncionarioId, Date), BancoDeHoras>, f: FuncionarioId, d: Date, c: Caminho)
    : (r: map<(FuncionarioId, Date), BancoDeHoras>)
    ensures forall k :: k != (f, d) ==> RowAt(r, k) == RowAt(banco, k)
    ensures RowAt(r, (f, d)) == RowAfter(RowAt(banco, (f, d)), f, d, c)
    ensures LedgerKeyed(banco) ==> LedgerKeyed(r)
  {
    match c
    case Abonado => banco - {(f, d)}
    case FaltaInjustificada(m) => banco[(f, d) := BancoDeHoras(f, d, m, FALTA_INJUSTIFICADA)]
    case Jornada(delta, Some(desc)) => banco[(f, d) := BancoDeHoras(f, d, delta, desc)]
    case _ => banco
  }

  /** The employee-day's row after the decision, given the row before. */
  function RowAfter(before: Option<BancoDeHoras>, f: FuncionarioId, d: Date, c: Caminho): Option<BancoDeHoras> {
    match c
    case Abonado => None
    case FaltaInjustificada(m) => Some(BancoDeHoras(f, d, m, FALTA_INJUSTIFICADA))
    case Jornada(delta, Some(desc)) => Some(BancoDeHoras(f, d, delta, desc))
    case _ => before
  }

  /** The live status after the decision: OFFLINE on a worked day, untouched otherwise. */
  function StatusAfter(s: StatusOperacional, c: Caminho): StatusOperacional {
    if c.Jornada? then Offline else s
  }

  // ---------------------------------------------------------------------
  // Properties of the decision

  /** An approved full-day excuse decides the day, whatever else is recorded, and only it does. */
  lemma AbonoTakesPrecedence(abonos: seq<SolicitacaoAbono>, atribuicoes: seq<FuncionarioEscala>,
                             registros: seq<RegistroPonto>, f: FuncionarioId, d: Date)
    ensures Decide(abonos, atribuicoes, registros, f, d) == Abonado <==> HasAbonoFalta(abonos, f, d)
  {
  }

  /** No schedule exactly when nothing excuses the day and no assignment covers it. */
  lemma SemEscalaIff(abonos: seq<SolicitacaoAbono>, atribuicoes: seq<FuncionarioEscala>,
                     registros: seq<RegistroPonto>, f: FuncionarioId, d: Date)
    ensures Decide(abonos, atribuicoes, registros, f, d) == SemEscala <==>
            !HasAbonoFalta(abonos, f, d) && forall i :: 0 <= i < |atribuicoes| ==> !Cobre(atribuicoes[i], f, d)
  {
  }

  /** A day off exactly when the assignment in force does not list the weekday. */
  lemma FolgaIff(abonos: seq<SolicitacaoAbono>, atribuicoes: seq<FuncionarioEscala>,
                 registros: seq<RegistroPonto>, f: FuncionarioId, d: Date)
    ensures Decide(abonos, atribuicoes, registros, f, d) == Folga <==>
            && !HasAbonoFalta(abonos, f, d)
            && ResolveEscala(atribuicoes, f, d).Some?
            && !IsDiaDeTrabalho(ResolveEscala(atribuicoes, f, d).value.escala.diasSemana, Weekday(d))
  {
  }

  predicate WorkingDay(abonos: seq<SolicitacaoAbono>, atribuicoes: seq<FuncionarioEscala>, f: FuncionarioId, d: Date) {
    && !HasAbonoFalta(abonos, f, d)
    && ResolveEscala(atribuicoes, f, d).Some?
    && IsDiaDeTrabalho(ResolveEscala(atribuicoes, f, d).value.escala.diasSemana, Weekday(d))
  }

  /**
   * An unjustified absence exactly when a working day has no event at all;
   * its row debits the whole expected gross shift, lunch included.
   */
  lemma FaltaInjustificadaIff(abonos: seq<SolicitacaoAbono>, atribuicoes: seq<FuncionarioEscala>,
                              registros: seq<RegistroPonto>, f: FuncionarioId, d: Date)
    ensures Decide(abonos, atribuicoes, registros, f, d).FaltaInjustificada? <==>
            WorkingDay(abonos, atribuicoes, f, d) && forall x :: x in registros ==> !OnDay(x, f, d)
    ensures Decide(abonos, atribuicoes, registros, f, d).FaltaInjustificada? ==>
            Decide(abonos, atribuicoes, registros, f, d).minutos ==
              AbsenceMinutes(ResolveEscala(atribuicoes, f, d).value.escala, d)
  {
    var dia := DayEvents(registros, f, d);
    if |dia| > 0 {
      assert dia[0] in dia;
    }
  }

  predicate HasEventOfKind(registros: seq<RegistroPonto>, f: FuncionarioId, d: Date, tipo: string) {
    exists x :: x in registros && OnDay(x, f, d) && x.tipo == tipo
  }

  /** The kinds of a day's events are those of the employee's stored events on that date. */
  lemma DayKinds(registros: seq<RegistroPonto>, f: FuncionarioId, d: Date, tipo: string)
    ensures TimesOf(DayEvents(registros, f, d), tipo) != [] <==> HasEventOfKind(registros, f, d, tipo)
  {
    var dia := DayEvents(registros, f, d);
    if TimesOf(dia, tipo) != [] {
      KindInList(dia, tipo);
      var x :| x in dia && x.tipo == tipo;
    }
    if HasEventOfKind(registros, f, d, tipo) {
      var x :| x in registros && OnDay(x, f, d) && x.tipo == tipo;
      ListHasKind(dia, x);
    }
  }

  lemma KindInList(rs: seq<RegistroPonto>, tipo: string)
    requires TimesOf(rs, tipo) != []
    ensures exists x :: x in rs && x.tipo == tipo
  {
    var ts := TimesOf(rs, tipo);
    assert ts[0] in ts;
    var i :| 0 <= i < |rs| && rs[i].tipo == tipo && rs[i].timestamp == ts[0];
    assert rs[i] in rs;
  }

  lemma ListHasKind(rs: seq<RegistroPonto>, x: RegistroPonto)
    requires x in rs
    ensures TimesOf(rs, x.tipo) != []
  {
    var i :| 0 <= i < |rs| && rs[i] == x;
    assert x.timestamp in TimesOf(rs, x.tipo);
  }

  /** Missing clock-in or clock-out exactly when a working day has events but no ENTRADA or no SAIDA. */
  lemma SemEntradaOuSaidaIff(abonos: seq<SolicitacaoAbono>, atribuicoes: seq<FuncionarioEscala>,
                             registros: seq<RegistroPonto>, f: FuncionarioId, d: Date)
    ensures Decide(abonos, atribuicoes, registros, f, d) == SemEntradaOuSaida <==>
            && WorkingDay(abonos, atribuicoes, f, d)
            && (exists x :: x in registros && OnDay(x, f, d))
            && (!HasEventOfKind(registros, f, d, ENTRADA) || !HasEventOfKind(registros, f, d, SAIDA))
  {
    var dia := DayEvents(registros, f, d);
    DayKinds(registros, f, d, ENTRADA);
    DayKinds(registros, f, d, SAIDA);
    if |dia| > 0 {
      assert dia[0] in dia;
    }
  }

  /**
   * In a time-ordered list of events, the first timestamp of a kind is the
   * earliest event of that kind and the last one the latest.
   */
  lemma {:induction false} FirstAndLastOfKind(dia: seq<RegistroPonto>, tipo: string)
    requires SortedByTime(dia) && TimesOf(dia, tipo) != []
    ensures var ts := TimesOf(dia, tipo);
            && (exists i :: 0 <= i < |dia| && dia[i].tipo == tipo && dia[i].timestamp == ts[0])
            && (exists i :: 0 <= i < |dia| && dia[i].tipo == tipo && dia[i].timestamp == ts[|ts| - 1])
            && (forall i :: 0 <= i < |dia| && dia[i].tipo == tipo ==> ts[0] <= dia[i].timestamp <= ts[|ts| - 1])
  {
    var ts := TimesOf(dia, tipo);
    assert ts[0] in ts;
    assert ts[|ts| - 1] in ts;
    forall i | 0 <= i < |dia| && dia[i].tipo == tipo
      ensures ts[0] <= dia[i].timestamp <= ts[|ts| - 1]
    {
      assert dia[i].timestamp in ts;
      var m :| 0 <= m < |ts| && ts[m] == dia[i].timestamp;
    }
  }

  /**
   * On a worked day the span runs from the earliest ENTRADA to the latest
   * SAIDA among the employee's events of that date.
   */
  lemma ClockInOutBounds(registros: seq<RegistroPonto>, f: FuncionarioId, d: Date)
    requires TimesOf(DayEvents(registros, f, d), ENTRADA) != []
    requires TimesOf(DayEvents(registros, f, d), SAIDA) != []
    ensures var entradas := TimesOf(DayEvents(registros, f, d), ENTRADA);
            forall x :: x in registros && OnDay(x, f, d) && x.tipo == ENTRADA ==> entradas[0] <= x.timestamp
    ensures var saidas := TimesOf(DayEvents(registros, f, d), SAIDA);
            forall x :: x in registros && OnDay(x, f, d) && x.tipo == SAIDA ==> x.timestamp <= saidas[|saidas| - 1]
  {
    var dia := DayEvents(registros, f, d);
    FirstAndLastOfKind(dia, ENTRADA);
    FirstAndLastOfKind(dia, SAIDA);
    forall x | x in registros && OnDay(x, f, d)
      ensures exists i :: 0 <= i < |dia| && dia[i] == x
    {
      assert x in dia;
    }
  }

  /**
   * A worked day writes a row exactly when the rounded delta is non-zero;
   * with a zero delta any earlier row stays as it was.
   */
  lemma JornadaWrites(c: Caminho, f: FuncionarioId, d: Date, banco: map<(FuncionarioId, Date), BancoDeHoras>)
    requires c.Jornada? && (c.descricao.None? <==> c.delta == 0)
    ensures c.delta == 0 ==> LedgerAfter(banco, f, d, c) == banco
    ensures c.delta != 0 ==> RowAt(LedgerAfter(banco, f, d, c), (f, d)) ==
                               Some(BancoDeHoras(f, d, c.delta, c.descricao.value))
  {
  }

  /**
   * Running the day again with the same inputs changes nothing more: the
   * decision does not read the ledger or the status, and applying it twice
   * is applying it once.
   */
  lemma ReprocessIdempotent(abonos: seq<SolicitacaoAbono>, atribuicoes: seq<FuncionarioEscala>,
                            registros: seq<RegistroPonto>, f: FuncionarioId, d: Date,
                            banco: map<(FuncionarioId, Date), BancoDeHoras>, status: StatusOperacional)
    ensures var c := Decide(abonos, atribuicoes, registros, f, d);
            && LedgerAfter(LedgerAfter(banco, f, d, c), f, d, c) == LedgerAfter(banco, f, d, c)
            && StatusAfter(StatusAfter(status, c), c) == StatusAfter(status, c)
  {
    var c := Decide(abonos, atribuicoes, registros, f, d);
    var once := LedgerAfter(banco, f, d, c);
    var twice := LedgerAfter(once, f, d, c);
    assert forall k :: RowAt(twice, k) == RowAt(once, k);
    assert forall k :: k in twice <==> k in once by {
      forall k ensures k in twice <==> k in once {
        assert RowAt(twice, k) == RowAt(once, k);
      }
    }
    assert forall k :: k in twice ==> twice[k] == once[k] by {
      forall k | k in twice ensures twice[k] == once[k] {
        assert RowAt(twice, k) == RowAt(once, k);
      }
    }
  }

  // ---------------------------------------------------------------------
  // process_employee and handle, on the database

  /**
   * The reading half of `process_employee`: the path the employee-day takes
   * and the values it computes, from the stored excuses, assignments and
   * events.
   */
  method ReconcileDay(abonos: seq<SolicitacaoAbono>, atribuicoes: seq<FuncionarioEscala>,
                      todos: seq<RegistroPonto>, f: FuncionarioId, d: Date) returns (c: Caminho)
    ensures c == Decide(abonos, atribuicoes, todos, f, d)
  {
    if HasAbonoFalta(abonos, f, d) {
      return Abonado;
    }
    var escalaInfo := ResolveEscala(atribuicoes, f, d);
    if escalaInfo.None? {
      return SemEscala;
    }
    var escala := escalaInfo.value.escala;
    if !IsDiaDeTrabalho(escala.diasSemana, Weekday(d)) {
      return Folga;
    }
    var registros := DayEvents(todos, f, d);
    if |registros| == 0 {
      return FaltaInjustificada(AbsenceMinutes(escala, d));
    }
    var entradas := TimesOf(registros, ENTRADA);
    var saidas := TimesOf(registros, SAIDA);
    if |entradas| == 0 || |saidas| == 0 {
      return SemEntradaOuSaida;
    }
    var entrada, saida := entradas[0], saidas[|saidas| - 1];
    var minutosPausa := CalculateBreakTime(registros, SAIDA_PAUSA, VOLTA_PAUSA);
    var minutosAlmoco := CalculateBreakTime(registros, SAIDA_ALMOCO, VOLTA_ALMOCO);
    var jornadaLiquida := WorkedNet(entrada, saida, minutosPausa, minutosAlmoco);
    var diferenca := Delta(jornadaLiquida, ExpectedNet(escala, d));
    var descricao: Option<string> := None;
    if diferenca != 0 {
      descricao := Some(GetDescription(diferenca, entrada, escala.horarioEntrada));
    }
    c := Jornada(diferenca, descricao);
  }

  /**
   * The writing half of `process_employee`: delete or upsert the
   * employee-day's row as the path says and, on a worked day, set the live
   * status to OFFLINE, saving it only if it was something else.
   */
  method ApplyDecision(db: Database, f: FuncionarioId, d: Date, c: Caminho) returns (statusWritten: bool)
    requires db.Valid() && f in db.funcionarios
    modifies db
    ensures db.Valid()
    ensures db.banco == LedgerAfter(old(db.banco), f, d, c)
    ensures statusWritten <==> c.Jornada? && old(db.funcionarios[f].statusOperacional) != Offline
    ensures db.funcionarios == old(db.funcionarios)[f := old(db.funcionarios[f]).(statusOperacional :=
                                 StatusAfter(old(db.funcionarios[f].statusOperacional), c))]
    ensures db.ordem == old(db.ordem)
    ensures db.registros == old(db.registros) && db.atribuicoes == old(db.atribuicoes)
    ensures db.abonos == old(db.abonos) && db.usuarios == old(db.usuarios)
  {
    statusWritten := false;
    match c {
      case Abonado =>
        db.banco := db.banco - {(f, d)};
      case FaltaInjustificada(minutos) =>
        db.banco := db.banco[(f, d) := BancoDeHoras(f, d, minutos, FALTA_INJUSTIFICADA)];
      case Jornada(diferenca, descricao) =>
        if descricao.Some? {
          db.banco := db.banco[(f, d) := BancoDeHoras(f, d, diferenca, descricao.value)];
        }
        if db.funcionarios[f].statusOperacional != Offline {
          db.funcionarios := db.funcionarios[f := db.funcionarios[f].(statusOperacional := Offline)];
          statusWritten := true;
        }
      case _ =>
    }
  }

  /** `process_employee(funcionario, target_date)`: decide the day, then apply it. */
  method ProcessEmployee(db: Database, f: FuncionarioId, d: Date) returns (c: Caminho, statusWritten: bool)
    requires db.Valid() && f in db.funcionarios
    modifies db
    ensures db.Valid()
    ensures c == Decide(db.abonos, db.atribuicoes, db.registros, f, d)
    ensures db.banco == LedgerAfter(old(db.banco), f, d, c)
    ensures statusWritten <==> c.Jornada? && old(db.funcionarios[f].statusOperacional) != Offline
    ensures db.funcionarios == old(db.funcionarios)[f := old(db.funcionarios[f]).(statusOperacional :=
                                 StatusAfter(old(db.funcionarios[f].statusOperacional), c))]
    ensures db.ordem == old(db.ordem)
    ensures db.registros == old(db.registros) && db.atribuicoes == old(db.atribuicoes)
    ensures db.abonos == old(db.abonos) && db.usuarios == old(db.usuarios)
  {
    c := ReconcileDay(db.abonos, db.atribuicoes, db.registros, f, d);
    statusWritten := ApplyDecision(db, f, d, c);
  }

  /** The `--date` option: absent (or empty), a valid YYYY-MM-DD date, or text that does not parse. */
  datatype DateArgument = NoDate | ValidDate(date: Date) | InvalidDate

  /** The date to process: the given one, yesterday by default, none when it does not parse. */
  function TargetDate(arg: DateArgument, hoje: Date): (r: Option<Date>)
    ensures r.None? <==> arg.InvalidDate?
    ensures arg.NoDate? ==> r == Some(hoje - 1)
    ensures arg.ValidDate? ==> r == Some(arg.date)
  {
    match arg
    case NoDate => Some(hoje - 1)
    case ValidDate(d) => Some(d)
    case InvalidDate => None
  }

  predicate IsActive(funcionarios: map<FuncionarioId, Funcionario>, f: FuncionarioId) {
    f in funcionarios && funcionarios[f].status == Ativo
  }

  /** `Funcionario.objects.filter(status='ATIVO')`: the active employees in table order. */
  function Ativos(ordem: seq<FuncionarioId>, funcionarios: map<FuncionarioId, Funcionario>): (r: seq<FuncionarioId>)
    ensures forall e :: e in r <==> e in ordem && IsActive(funcionarios, e)
    ensures StrictlyIncreasing(ordem) ==> StrictlyIncreasing(r)
  {
    if ordem == [] then []
    else
      var rest := Ativos(ordem[1..], funcionarios);
      assert forall e :: e in ordem[1..] ==> e in ordem;
      var r := if IsActive(funcionarios, ordem[0]) then [ordem[0]] + rest else rest;
      assert StrictlyIncreasing(ordem) ==> StrictlyIncreasing(r) by {
        if StrictlyIncreasing(ordem) {
          assert StrictlyIncreasing(ordem[1..]);
          forall j | 0 <= j < |rest| ensures ordem[0] < rest[j] {
            assert rest[j] in rest;
            var k :| 0 <= k < |ordem[1..]| && ordem[1..][k] == rest[j];
            assert ordem[k + 1] == rest[j];
          }
        }
      }
      r
  }

  /**
   * `handle`: an unparsable date processes nobody; otherwise every active
   * employee's day is processed, which touches only that employee's row
   * for the date and that employee's live status.
   */
  method Handle(db: Database, arg: DateArgument, hoje: Date) returns (target: Option<Date>)
    requires db.Valid()
    modifies db
    ensures db.Valid()
    ensures target == TargetDate(arg, hoje)
    ensures db.registros == old(db.registros) && db.atribuicoes == old(db.atribuicoes)
    ensures db.abonos == old(db.abonos) && db.usuarios == old(db.usuarios)
    ensures target.None? ==> db.banco == old(db.banco) && db.funcionarios == old(db.funcionarios)
    ensures target.Some? ==>
              forall k :: RowAt(db.banco, k) ==
                (if k.1 == target.value && IsActive(old(db.funcionarios), k.0)
                 then RowAfter(RowAt(old(db.banco), k), k.0, k.1, Decide(db.abonos, db.atribuicoes, db.registros, k.0, k.1))
                 else RowAt(old(db.banco), k))
    ensures target.Some? ==> db.funcionarios.Keys == old(db.funcionarios).Keys
    ensures target.Some? ==>
              forall e :: e in db.funcionarios ==>
                db.funcionarios[e] ==
                  (if IsActive(old(db.funcionarios), e)
                   then old(db.funcionarios)[e].(statusOperacional :=
                          StatusAfter(old(db.funcionarios)[e].statusOperacional,
                                      Decide(db.abonos, db.atribuicoes, db.registros, e, target.value)))
                   else old(db.funcionarios)[e])
  {
    target := TargetDate(arg, hoje);
    if target.None? {
      return;
    }
    var d := target.value;
    var ativos := Ativos(db.ordem, db.funcionarios);
    ghost var decisao := map e | e in ativos :: Decide(db.abonos, db.atribuicoes, db.registros, e, d);
    ProcessAll(db, ativos, d, decisao);
    BatchComplete(old(db.banco), db.banco, old(db.funcionarios), db.funcionarios, ativos,
                  db.abonos, db.atribuicoes, db.registros, d, decisao);
  }

  /** The loop of `handle`: `process_employee` for each listed employee in turn. */
  method ProcessAll(db: Database, ativos: seq<FuncionarioId>, d: Date, ghost decisao: map<FuncionarioId, Caminho>)
    requires db.Valid() && StrictlyIncreasing(ativos)
    requires forall e :: e in ativos ==> e in db.funcionarios
    requires forall e :: e in ativos ==> e in decisao && decisao[e] == Decide(db.abonos, db.atribuicoes, db.registros, e, d)
    modifies db
    ensures db.Valid()
    ensures BatchLedger(old(db.banco), db.banco, ativos, d, decisao)
    ensures BatchStatus(old(db.funcionarios), db.funcionarios, ativos, decisao)
    ensures db.ordem == old(db.ordem)
    ensures db.registros == old(db.registros) && db.atribuicoes == old(db.atribuicoes)
    ensures db.abonos == old(db.abonos) && db.usuarios == old(db.usuarios)
  {
    for i := 0 to |ativos|
      invariant db.Valid()
      invariant db.ordem == old(db.ordem)
      invariant db.registros == old(db.registros) && db.atribuicoes == old(db.atribuicoes)
      invariant db.abonos == old(db.abonos) && db.usuarios == old(db.usuarios)
      invariant db.funcionarios.Keys == old(db.funcionarios).Keys
      invariant BatchLedger(old(db.banco), db.banco, ativos[..i], d, decisao)
      invariant BatchStatus(old(db.funcionarios), db.funcionarios, ativos[..i], decisao)
    {
      NotYetProcessed(ativos, i);
      ProcessNext(db, ativos[i], d, ativos[..i], decisao, old(db.banco), old(db.funcionarios));
    }
    assert ativos[..|ativos|] == ativos;
  }

  lemma NotYetProcessed(ativos: seq<FuncionarioId>, i: nat)
    requires StrictlyIncreasing(ativos) && i < |ativos|
    ensures ativos[i] !in ativos[..i]
    ensures ativos[..i + 1] == ativos[..i] + [ativos[i]]
  {
    forall j | 0 <= j < i ensures ativos[..i][j] != ativos[i] {
      assert ativos[j] < ativos[i];
    }
  }

  /** One turn of the batch loop: processing one more employee extends what the batch has done. */
  method ProcessNext(db: Database, emp: FuncionarioId, d: Date, ghost done: seq<FuncionarioId>,
                     ghost decisao: map<FuncionarioId, Caminho>,
                     ghost banco0: map<(FuncionarioId, Date), BancoDeHoras>, ghost funcionarios0: map<FuncionarioId, Funcionario>)
    requires db.Valid() && emp in db.funcionarios && emp !in done
    requires emp in decisao && decisao[emp] == Decide(db.abonos, db.atribuicoes, db.registros, emp, d)
    requires BatchLedger(banco0, db.banco, done, d, decisao)
    requires BatchStatus(funcionarios0, db.funcionarios, done, decisao) && emp in funcionarios0
    modifies db
    ensures db.Valid()
    ensures BatchLedger(banco0, db.banco, done + [emp], d, decisao)
    ensures BatchStatus(funcionarios0, db.funcionarios, done + [emp], decisao)
    ensures db.funcionarios.Keys == old(db.funcionarios).Keys && db.ordem == old(db.ordem)
    ensures db.registros == old(db.registros) && db.atribuicoes == old(db.atribuicoes)
    ensures db.abonos == old(db.abonos) && db.usuarios == old(db.usuarios)
  {
    var c, _ := ProcessEmployee(db, emp, d);
    BatchLedgerStep(banco0, old(db.banco), db.banco, done, emp, d, decisao);
    BatchStatusStep(funcionarios0, old(db.funcionarios), db.funcionarios, done, emp, decisao);
  }

  /** Once every active employee was processed, rows and statuses are as the decisions say. */
  lemma BatchComplete(banco0: map<(FuncionarioId, Date), BancoDeHoras>, banco: map<(FuncionarioId, Date), BancoDeHoras>,
                      funcionarios0: map<FuncionarioId, Funcionario>, funcionarios: map<FuncionarioId, Funcionario>,
                      ativos: seq<FuncionarioId>, abonos: seq<SolicitacaoAbono>, atribuicoes: seq<FuncionarioEscala>,
                      registros: seq<RegistroPonto>, d: Date, decisao: map<FuncionarioId, Caminho>)
    requires BatchLedger(banco0, banco, ativos, d, decisao)
    requires BatchStatus(funcionarios0, funcionarios, ativos, decisao)
    requires forall e :: e in ativos <==> IsActive(funcionarios0, e)
    requires decisao == map e | e in ativos :: Decide(abonos, atribuicoes, registros, e, d)
    ensures forall k :: RowAt(banco, k) ==
              (if k.1 == d && IsActive(funcionarios0, k.0)
               then RowAfter(RowAt(banco0, k), k.0, k.1, Decide(abonos, atribuicoes, registros, k.0, k.1))
               else RowAt(banco0, k))
    ensures forall e :: e in funcionarios ==>
              funcionarios[e] ==
                (if IsActive(funcionarios0, e)
                 then funcionarios0[e].(statusOperacional :=
                        StatusAfter(funcionarios0[e].statusOperacional, Decide(abonos, atribuicoes, registros, e, d)))
                 else funcionarios0[e])
  {
    forall k
      ensures RowAt(banco, k) ==
              (if k.1 == d && IsActive(funcionarios0, k.0)
               then RowAfter(RowAt(banco0, k), k.0, k.1, Decide(abonos, atribuicoes, registros, k.0, k.1))
               else RowAt(banco0, k))
    {
      if k.1 == d && IsActive(funcionarios0, k.0) {
        assert decisao[k.0] == Decide(abonos, atribuicoes, registros, k.0, k.1);
      }
    }
  }

  /**
   * After the employees in `done` were processed for date `d`: their rows
   * for `d` are what their decisions make of the rows before; every other
   * row is as it was.
   */
  ghost predicate BatchLedger(banco0: map<(FuncionarioId, Date), BancoDeHoras>, banco: map<(FuncionarioId, Date), BancoDeHoras>,
                              done: seq<FuncionarioId>, d: Date, decisao: map<FuncionarioId, Caminho>)
  {
    && (forall e :: e in done ==> e in decisao)
    && forall k :: RowAt(banco, k) ==
         (if k.1 == d && k.0 in done then RowAfter(RowAt(banco0, k), k.0, k.1, decisao[k.0]) else RowAt(banco0, k))
  }

  /** After the employees in `done` were processed: their status is what their decisions make of it. */
  ghost predicate BatchStatus(funcionarios0: map<FuncionarioId, Funcionario>, funcionarios: map<FuncionarioId, Funcionario>,
                              done: seq<FuncionarioId>, decisao: map<FuncionarioId, Caminho>)
  {
    && (forall e :: e in done ==> e in decisao && e in funcionarios0)
    && funcionarios.Keys == funcionarios0.Keys
    && (forall e :: e in funcionarios && e !in done ==> funcionarios[e] == funcionarios0[e])
    && (forall e :: e in done ==>
          funcionarios[e] == funcionarios0[e].(statusOperacional := StatusAfter(funcionarios0[e].statusOperacional, decisao[e])))
  }

  lemma BatchLedgerStep(banco0: map<(FuncionarioId, Date), BancoDeHoras>, bancoAntes: map<(FuncionarioId, Date), BancoDeHoras>,
                        banco: map<(FuncionarioId, Date), BancoDeHoras>, done: seq<FuncionarioId>, emp: FuncionarioId,
                        d: Date, decisao: map<FuncionarioId, Caminho>)
    requires BatchLedger(banco0, bancoAntes, done, d, decisao)
    requires emp !in done && emp in decisao
    requires banco == LedgerAfter(bancoAntes, emp, d, decisao[emp])
    ensures BatchLedger(banco0, banco, done + [emp], d, decisao)
  {
    forall k
      ensures RowAt(banco, k) ==
              (if k.1 == d && k.0 in done + [emp] then RowAfter(RowAt(banco0, k), k.0, k.1, decisao[k.0]) else RowAt(banco0, k))
    {
      assert RowAt(bancoAntes, k) ==
             (if k.1 == d && k.0 in done then RowAfter(RowAt(banco0, k), k.0, k.1, decisao[k.0]) else RowAt(banco0, k));
    }
  }

  lemma BatchStatusStep(funcionarios0: map<FuncionarioId, Funcionario>, funcionariosAntes: map<FuncionarioId, Funcionario>,
                        funcionarios: map<FuncionarioId, Funcionario>, done: seq<FuncionarioId>, emp: FuncionarioId,
                        decisao: map<FuncionarioId, Caminho>)
    requires BatchStatus(funcionarios0, funcionariosAntes, done, decisao)
    requires emp !in done && emp in decisao && emp in funcionarios0
    requires funcionarios == funcionariosAntes[emp := funcionariosAntes[emp].(statusOperacional :=
                               StatusAfter(funcionariosAntes[emp].statusOperacional, decisao[emp]))]
    ensures BatchStatus(funcionarios0, funcionarios, done + [emp], decisao)
  {
  }
}
