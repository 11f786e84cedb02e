/**
 * The records of funcionarios/models.py that the timekeeping core reads and
 * writes, their enumerations and defaults, and the constraints the database
 * enforces on them.
 */
module Models {
  import opened Wrappers
  import opened Text
  import opened Clock

  type FuncionarioId = int
  type CargoId = int

  // ---------------------------------------------------------------------
  // Funcionario

  /** `Funcionario.STATUS_OPERACIONAL_CHOICES` */
  datatype StatusOperacional = Disponivel | EmPausa | Offline

  /** `Funcionario.STATUS_CHOICES` */
  datatype StatusFuncionario = Ativo | Ferias | Afastado | Desligado

  /**
   * The fields of an employee the core uses; personal, address and bank
   * data are not part of this model. `user` is the username of the linked
   * account, if any.
   */
  datatype Funcionario = Funcionario(
    nomeCompleto: string,
    status: StatusFuncionario,
    statusOperacional: StatusOperacional,
    cargo: Option<CargoId>,
    user: Option<string>)

  /** An employee as first saved: the declared defaults apply. */
  function NovoFuncionario(nomeCompleto: string, cargo: Option<CargoId>): (f: Funcionario)
    ensures f.status == Ativo && f.statusOperacional == Offline && f.user == None
    ensures f.nomeCompleto == nomeCompleto && f.cargo == cargo
  {
    Funcionario(nomeCompleto, Ativo, Offline, cargo, None)
  }

  // ---------------------------------------------------------------------
  // Escala and FuncionarioEscala

  /**
   * A work schedule. `diasSemana` is free text that is meant to hold a
   * comma-separated list of weekday digits, 0 for Monday to 6 for Sunday.
   */
  datatype Escala = Escala(
    nome: string,
    diasSemana: string,
    horarioEntrada: TimeOfDay,
    horarioSaida: TimeOfDay,
    duracaoAlmocoMinutos: nat)

  /** Whether `str(weekday)` is one of the pieces of `dias_semana.split(',')`. */
  predicate IsDiaDeTrabalho(diasSemana: string, weekday: nat)
    requires weekday < 7
  {
    [DigitChar(weekday)] in SplitComma(diasSemana)
  }

  predicate AreWeekdays(dias: seq<nat>) {
    |dias| >= 1 && forall i :: 0 <= i < |dias| ==> dias[i] < 7
  }

  function WeekdayPieces(dias: seq<nat>): (pieces: seq<string>)
    requires AreWeekdays(dias)
    ensures |pieces| == |dias|
    ensures forall i :: 0 <= i < |dias| ==> pieces[i] == [DigitChar(dias[i])]
  {
    seq(|dias|, i requires 0 <= i < |dias| => [DigitChar(dias[i])])
  }

  /** The well-formed `dias_semana` text for a list of weekdays, e.g. "0,1,2,3,4". */
  function DiasSemanaText(dias: seq<nat>): string
    requires AreWeekdays(dias)
  {
    JoinComma(WeekdayPieces(dias))
  }

  /** Splitting the text of a weekday list gives back one piece per weekday. */
  lemma SplitDiasSemana(dias: seq<nat>)
    requires AreWeekdays(dias)
    ensures SplitComma(DiasSemanaText(dias)) == WeekdayPieces(dias)
  {
    var pieces := WeekdayPieces(dias);
    forall i | 0 <= i < |pieces| ensures ',' !in pieces[i] {
      assert pieces[i] == [DigitChar(dias[i])];
    }
    SplitJoin(pieces);
  }

  /** On a well-formed `dias_semana`, the split-and-compare test is set membership. */
  lemma DiaDeTrabalhoIff(dias: seq<nat>, weekday: nat)
    requires AreWeekdays(dias) && weekday < 7
    ensures IsDiaDeTrabalho(DiasSemanaText(dias), weekday) <==> weekday in dias
  {
    var pieces := WeekdayPieces(dias);
    SplitDiasSemana(dias);
    if weekday in dias {
      var i :| 0 <= i < |dias| && dias[i] == weekday;
      assert pieces[i] == [DigitChar(weekday)];
    }
    if [DigitChar(weekday)] in pieces {
      var i :| 0 <= i < |pieces| && pieces[i] == [DigitChar(weekday)];
      assert pieces[i][0] == DigitChar(dias[i]);
      DigitCharInjective(dias[i], weekday);
    }
  }

  /** Links an employee to a schedule from `dataInicio`; no `dataFim` means open-ended. */
  datatype FuncionarioEscala = FuncionarioEscala(
    funcionario: FuncionarioId,
    escala: Escala,
    dataInicio: Date,
    dataFim: Option<Date>)

  /** `data_inicio <= d and (data_fim >= d or data_fim is null)` for this employee. */
  predicate Cobre(a: FuncionarioEscala, f: FuncionarioId, d: Date) {
    a.funcionario == f && a.dataInicio <= d && (a.dataFim.None? || a.dataFim.value >= d)
  }

  // ---------------------------------------------------------------------
  // BancoDeHoras

  /** One hour-bank row: signed minutes for one employee and one date. */
  datatype BancoDeHoras = BancoDeHoras(
    funcionario: FuncionarioId,
    data: Date,
    minutos: int,
    descricao: string)

  function SaldoLabel(minutos: int): string {
    if minutos > 0 then "Crédito" else "Débito"
  }

  /** `BancoDeHoras.__str__` for an employee called `nome`. */
  function BancoDeHorasText(b: BancoDeHoras, nome: string): string {
    SaldoLine(nome, b.minutos, DateText(b.data))
  }

  /** The shape of `__str__` with the date already rendered. */
  function SaldoLine(nome: string, minutos: int, data: string): string {
    (nome + ": ") + NatText(Abs(minutos)) + " min (" + (SaldoLabel(minutos) + ")") + (" em " + data)
  }

  /**
   * `__str__` starts with the name, then the decimal text of |minutos|
   * (which reads back as |minutos| by DigitsValueOfNatText), then " min (".
   */
  lemma SaldoLineAmount(nome: string, minutos: int, data: string)
    ensures var r := SaldoLine(nome, minutos, data);
            var k := |nome| + 2;
            var n := |NatText(Abs(minutos))|;
            && |r| >= k + n + 13
            && r[..k] == nome + ": "
            && r[k..k + n] == NatText(Abs(minutos))
            && r[k + n..k + n + 6] == " min ("
  {
    FieldsOf(nome + ": ", NatText(Abs(minutos)), " min (", SaldoLabel(minutos) + ")", " em " + data);
  }

  /** The label after the amount is "Crédito" exactly when minutos is positive, whatever the date. */
  lemma SaldoLineLabel(nome: string, minutos: int, data: string)
    ensures var r := SaldoLine(nome, minutos, data);
            var j := |nome| + 2 + |NatText(Abs(minutos))| + 6;
            |r| >= j + 7 && (r[j..j + 7] == "Crédito" <==> minutos > 0)
  {
    var r := SaldoLine(nome, minutos, data);
    var j := |nome| + 2 + |NatText(Abs(minutos))| + 6;
    var saldo := SaldoLabel(minutos) + ")";
    FieldsOf(nome + ": ", NatText(Abs(minutos)), " min (", saldo, " em " + data);
    assert r[j..j + |saldo|] == saldo;
    assert r[j..j + 7] == saldo[..7];
    assert "Débito)"[0] != "Crédito"[0];
  }

  /** Where each of five concatenated pieces sits in the whole. */
  lemma FieldsOf(a: string, b: string, c: string, d: string, e: string)
    ensures var r := a + b + c + d + e;
            && r[..|a|] == a
            && r[|a|..|a| + |b|] == b
            && r[|a| + |b|..|a| + |b| + |c|] == c
            && r[|a| + |b| + |c|..|a| + |b| + |c| + |d|] == d
  {
    var r := a + b + c + d + e;
    assert r == a + (b + (c + (d + e)));
  }

  // ---------------------------------------------------------------------
  // SolicitacaoAbono

  datatype TipoAbono = Falta | Atraso
  datatype StatusSolicitacao = Pendente | Aprovado | Recusado

  /** An absence-excuse request; the period is given as two instants. */
  datatype SolicitacaoAbono = SolicitacaoAbono(
    funcionario: FuncionarioId,
    tipoAbono: TipoAbono,
    dataInicio: Instant,
    dataFim: Instant,
    status: StatusSolicitacao)

  // ---------------------------------------------------------------------
  // RegraDePausa: unique per (cargo, ordem), listed in (cargo, ordem) order

  datatype RegraDePausa = RegraDePausa(cargo: CargoId, nome: string, ordem: nat, duracaoMinutos: nat)

  predicate MesmaChave(a: RegraDePausa, b: RegraDePausa) {
    a.cargo == b.cargo && a.ordem == b.ordem
  }

  predicate ChaveAntes(a: RegraDePausa, b: RegraDePausa) {
    a.cargo < b.cargo || (a.cargo == b.cargo && a.ordem < b.ordem)
  }

  /**
   * The rule table as the database keeps it: strictly increasing in
   * (cargo, ordem), which is both the `ordering` and `unique_together`.
   */
  predicate RegrasOrdenadas(rs: seq<RegraDePausa>) {
    forall i, j :: 0 <= i < j < |rs| ==> ChaveAntes(rs[i], rs[j])
  }

  datatype IntegrityError = ChaveDuplicada(cargo: CargoId, ordem: nat)

  /**
   * Saving a new rule: refused when the (cargo, ordem) pair is taken,
   * otherwise the table gains exactly that rule and keeps its order.
   */
  function SalvarRegra(rs: seq<RegraDePausa>, r: RegraDePausa): (res: Result<seq<RegraDePausa>, IntegrityError>)
    requires RegrasOrdenadas(rs)
    ensures res.Failure? <==> exists i :: 0 <= i < |rs| && MesmaChave(rs[i], r)
    ensures res.Success? ==> RegrasOrdenadas(res.value) && multiset(res.value) == multiset(rs) + multiset{r}
  {
    if rs == [] then Success([r])
    else if MesmaChave(rs[0], r) then Failure(ChaveDuplicada(r.cargo, r.ordem))
    else if ChaveAntes(r, rs[0]) then
      FirstBeforeOrdered(r, rs);
      Success([r] + rs)
    else
      assert rs == [rs[0]] + rs[1..];
      match SalvarRegra(rs[1..], r)
      case Failure(e) =>
        DuplicateInRest(rs, r);
        Failure(e)
      case Success(t) =>
        HeadStaysFirst(rs, r, t);
        Success([rs[0]] + t)
  }

  lemma DuplicateInRest(rs: seq<RegraDePausa>, r: RegraDePausa)
    requires |rs| > 0 && exists i :: 0 <= i < |rs[1..]| && MesmaChave(rs[1..][i], r)
    ensures exists i :: 0 <= i < |rs| && MesmaChave(rs[i], r)
  {
    var j :| 0 <= j < |rs[1..]| && MesmaChave(rs[1..][j], r);
    assert MesmaChave(rs[j + 1], r);
  }

  /** A rule whose key precedes the first of an ordered table can go in front. */
  lemma FirstBeforeOrdered(r: RegraDePausa, rs: seq<RegraDePausa>)
    requires RegrasOrdenadas(rs) && |rs| > 0 && ChaveAntes(r, rs[0])
    ensures RegrasOrdenadas([r] + rs)
    ensures forall i :: 0 <= i < |rs| ==> !MesmaChave(rs[i], r)
  {
    forall i | 0 < i < |rs| ensures ChaveAntes(r, rs[i]) {
      assert ChaveAntes(rs[0], rs[i]);
    }
  }

  /**
   * When the new rule goes after the first one, the first one still comes
   * before every rule of the rest with the new one inserted.
   */
  lemma HeadStaysFirst(rs: seq<RegraDePausa>, r: RegraDePausa, t: seq<RegraDePausa>)
    requires RegrasOrdenadas(rs) && |rs| > 0 && !MesmaChave(rs[0], r) && !ChaveAntes(r, rs[0])
    requires RegrasOrdenadas(t) && multiset(t) == multiset(rs[1..]) + multiset{r}
    requires forall i :: 0 <= i < |rs[1..]| ==> !MesmaChave(rs[1..][i], r)
    ensures RegrasOrdenadas([rs[0]] + t)
    ensures forall i :: 0 <= i < |rs| ==> !MesmaChave(rs[i], r)
  {
    forall j | 0 <= j < |t| ensures ChaveAntes(rs[0], t[j]) {
      var x := t[j];
      assert x in multiset(t);
      if x != r {
        assert x in multiset(rs[1..]);
        var k :| 0 <= k < |rs[1..]| && rs[1..][k] == x;
        assert ChaveAntes(rs[0], rs[k + 1]);
      }
    }
    forall i | 0 < i < |rs| ensures !MesmaChave(rs[i], r) {
      assert rs[i] == rs[1..][i - 1];
    }
  }

  // ---------------------------------------------------------------------
  // RegistroPonto

  const ENTRADA: string := "ENTRADA"
  const SAIDA: string := "SAIDA"
  const SAIDA_PAUSA: string := "SAIDA_PAUSA"
  const VOLTA_PAUSA: string := "VOLTA_PAUSA"
  const SAIDA_PAUSA_PESSOAL: string := "SAIDA_PAUSA_PESSOAL"
  const VOLTA_PAUSA_PESSOAL: string := "VOLTA_PAUSA_PESSOAL"
  const SAIDA_ALMOCO: string := "SAIDA_ALMOCO"
  const VOLTA_ALMOCO: string := "VOLTA_ALMOCO"

  /** `RegistroPonto.TIPO_REGISTRO_CHOICES`: the eight event kinds. */
  datatype TipoRegistro =
    | Entrada | Saida
    | SaidaPausa | VoltaPausa
    | SaidaPausaPessoal | VoltaPausaPessoal
    | SaidaAlmoco | VoltaAlmoco
  {
    /** The code stored in the `tipo` column. */
    function Code(): string {
      match this
      case Entrada => ENTRADA
      case Saida => SAIDA
      case SaidaPausa => SAIDA_PAUSA
      case VoltaPausa => VOLTA_PAUSA
      case SaidaPausaPessoal => SAIDA_PAUSA_PESSOAL
      case VoltaPausaPessoal => VOLTA_PAUSA_PESSOAL
      case SaidaAlmoco => SAIDA_ALMOCO
      case VoltaAlmoco => VOLTA_ALMOCO
    }
  }

  /**
   * Which of the eight choices a stored code is, if any. It records the
   * choice list and that its codes are distinct; the rest of the model keeps
   * `tipo` as text (see RegistroPonto) and compares it with the constants.
   */
  function ParseTipo(code: string): (t: Option<TipoRegistro>)
    ensures t.Some? ==> t.value.Code() == code
  {
    if code == ENTRADA then Some(Entrada)
    else if code == SAIDA then Some(Saida)
    else if code == SAIDA_PAUSA then Some(SaidaPausa)
    else if code == VOLTA_PAUSA then Some(VoltaPausa)
    else if code == SAIDA_PAUSA_PESSOAL then Some(SaidaPausaPessoal)
    else if code == VOLTA_PAUSA_PESSOAL then Some(VoltaPausaPessoal)
    else if code == SAIDA_ALMOCO then Some(SaidaAlmoco)
    else if code == VOLTA_ALMOCO then Some(VoltaAlmoco)
    else None
  }

  /** The eight codes are distinct: every choice parses back to itself. */
  lemma TipoCodesDistinct(t: TipoRegistro)
    ensures ParseTipo(t.Code()) == Some(t)
  {
  }

  /**
   * A clock event. `tipo` is kept as the stored text: the clock-in view
   * writes whatever code the form posted, which need not be a choice.
   */
  datatype RegistroPonto = RegistroPonto(funcionario: FuncionarioId, timestamp: Instant, tipo: string)
}
