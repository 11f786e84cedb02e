/**
 * The database tables the timekeeping core reads and writes, as one object
 * whose fields the operations reassign, and the queries the core runs on
 * them (filter by employee and date, `order_by('timestamp')`, filter by
 * event kind, count).
 */
module Store {
  import opened Wrappers
  import opened Clock
  import opened Models

  /** A login account (`django.contrib.auth` User): username, e-mail and password. */
  datatype Usuario = Usuario(username: string, email: string, password: string)

  /**
   * Every hour-bank row is stored under its own (funcionario, data): the
   * map has one key per employee-day, so `unique_together` holds by
   * construction.
   */
  ghost predicate LedgerKeyed(banco: map<(FuncionarioId, Date), BancoDeHoras>) {
    forall k :: k in banco ==> banco[k].funcionario == k.0 && banco[k].data == k.1
  }

  /** Two rows for the same employee-day are the same row. */
  lemma AtMostOneRowPerDay(banco: map<(FuncionarioId, Date), BancoDeHoras>, k1: (FuncionarioId, Date), k2: (FuncionarioId, Date))
    requires LedgerKeyed(banco) && k1 in banco && k2 in banco
    requires banco[k1].funcionario == banco[k2].funcionario && banco[k1].data == banco[k2].data
    ensures k1 == k2
  {
  }

  /** The row for one employee-day, if there is one. */
  function RowAt(banco: map<(FuncionarioId, Date), BancoDeHoras>, k: (FuncionarioId, Date)): Option<BancoDeHoras> {
    if k in banco then Some(banco[k]) else None
  }

  /** Keys listed in ascending order, each once. */
  predicate StrictlyIncreasing(ids: seq<FuncionarioId>) {
    forall i, j :: 0 <= i < j < |ids| ==> ids[i] < ids[j]
  }

  class Database {
    var funcionarios: map<FuncionarioId, Funcionario>
    /** The employee table's primary keys in the order a query returns them. */
    var ordem: seq<FuncionarioId>
    var registros: seq<RegistroPonto>
    var banco: map<(FuncionarioId, Date), BancoDeHoras>
    var atribuicoes: seq<FuncionarioEscala>
    var abonos: seq<SolicitacaoAbono>
    var usuarios: map<string, Usuario>

    ghost predicate Valid()
      reads this
    {
      && LedgerKeyed(banco)
      && StrictlyIncreasing(ordem)
      && (forall e :: e in ordem <==> e in funcionarios)
      && (forall u :: u in usuarios ==> usuarios[u].username == u)
    }

    constructor ()
      ensures Valid()
      ensures funcionarios == map[] && ordem == [] && registros == [] && banco == map[]
      ensures atribuicoes == [] && abonos == [] && usuarios == map[]
    {
      funcionarios := map[];
      ordem := [];
      registros := [];
      banco := map[];
      atribuicoes := [];
      abonos := [];
      usuarios := map[];
    }
  }

  // ---------------------------------------------------------------------
  // Queries over RegistroPonto

  predicate SortedByTime(rs: seq<RegistroPonto>) {
    forall i, j :: 0 <= i < j < |rs| ==> rs[i].timestamp <= rs[j].timestamp
  }

  predicate Ascending(ts: seq<Instant>) {
    forall i, j :: 0 <= i < j < |ts| ==> ts[i] <= ts[j]
  }

  /** Every element of a rearrangement of s plus x is at least b, when every element of s and x are. */
  lemma LowerBoundCarries(t: seq<RegistroPonto>, s: seq<RegistroPonto>, x: RegistroPonto, b: Instant)
    requires multiset(t) == multiset(s) + multiset{x}
    requires forall j :: 0 <= j < |s| ==> b <= s[j].timestamp
    requires b <= x.timestamp
    ensures forall j :: 0 <= j < |t| ==> b <= t[j].timestamp
  {
    forall j | 0 <= j < |t| ensures b <= t[j].timestamp {
      assert t[j] in multiset(t);
      if t[j] != x {
        assert t[j] in multiset(s);
      }
    }
  }

  /** An event no later than every event of a time-ordered list can go in front of it. */
  lemma ConsSorted(h: RegistroPonto, t: seq<RegistroPonto>)
    requires SortedByTime(t)
    requires forall j :: 0 <= j < |t| ==> h.timestamp <= t[j].timestamp
    ensures SortedByTime([h] + t)
  {
  }

  /** Insert x after every element whose timestamp is not later than x's. */
  function InsertByTime(x: RegistroPonto, s: seq<RegistroPonto>): (r: seq<RegistroPonto>)
    requires SortedByTime(s)
    ensures SortedByTime(r)
    ensures multiset(r) == multiset(s) + multiset{x}
  {
    if s == [] then [x]
    else if x.timestamp < s[0].timestamp then
      ConsSorted(x, s);
      [x] + s
    else
      var t := InsertByTime(x, s[1..]);
      assert s == [s[0]] + s[1..];
      LowerBoundCarries(t, s[1..], x, s[0].timestamp);
      ConsSorted(s[0], t);
      [s[0]] + t
  }

  /** `order_by('timestamp')`: a time-ordered rearrangement (events with equal timestamps keep their stored order). */
  function SortByTime(rs: seq<RegistroPonto>): (r: seq<RegistroPonto>)
    ensures SortedByTime(r)
    ensures multiset(r) == multiset(rs)
  {
    if rs == [] then []
    else
      assert rs == rs[..|rs| - 1] + [rs[|rs| - 1]];
      InsertByTime(rs[|rs| - 1], SortByTime(rs[..|rs| - 1]))
  }

  predicate OnDay(x: RegistroPonto, f: FuncionarioId, d: Date) {
    x.funcionario == f && DateOf(x.timestamp) == d
  }

  /** `RegistroPonto.objects.filter(funcionario=f, timestamp__date=d)`, in stored order. */
  function EventsOn(rs: seq<RegistroPonto>, f: FuncionarioId, d: Date): (r: seq<RegistroPonto>)
    ensures forall x :: x in r <==> x in rs && OnDay(x, f, d)
  {
    if rs == [] then []
    else if OnDay(rs[0], f, d) then [rs[0]] + EventsOn(rs[1..], f, d)
    else EventsOn(rs[1..], f, d)
  }

  /** Each of the employee's events of the day is kept as often as it is stored; the rest are dropped. */
  lemma {:induction false} EventsOnMultiset(rs: seq<RegistroPonto>, f: FuncionarioId, d: Date)
    ensures forall x :: multiset(EventsOn(rs, f, d))[x] == if OnDay(x, f, d) then multiset(rs)[x] else 0
  {
    if rs != [] {
      assert rs == [rs[0]] + rs[1..];
      EventsOnMultiset(rs[1..], f, d);
    }
  }

  /** The employee's events of the day in time order. */
  function DayEvents(rs: seq<RegistroPonto>, f: FuncionarioId, d: Date): (r: seq<RegistroPonto>)
    ensures SortedByTime(r)
    ensures forall x :: x in r <==> x in rs && OnDay(x, f, d)
  {
    var r := SortByTime(EventsOn(rs, f, d));
    assert forall x :: x in r <==> x in multiset(r);
    r
  }

  /** The timestamps of the events of one kind, `filter(tipo=...)`, in the given order. */
  function TimesOf(rs: seq<RegistroPonto>, tipo: string): (ts: seq<Instant>)
    ensures |ts| <= |rs|
    ensures SortedByTime(rs) ==> Ascending(ts)
    ensures forall t :: t in ts <==> exists i :: 0 <= i < |rs| && rs[i].tipo == tipo && rs[i].timestamp == t
  {
    if rs == [] then []
    else
      var rest := TimesOf(rs[1..], tipo);
      assert forall i :: 0 < i < |rs| ==> rs[i] == rs[1..][i - 1];
      assert SortedByTime(rs) ==> forall j :: 0 <= j < |rest| ==> rs[0].timestamp <= rest[j] by {
        if SortedByTime(rs) {
          forall j | 0 <= j < |rest| ensures rs[0].timestamp <= rest[j] {
            assert rest[j] in rest;
            var i :| 0 <= i < |rs[1..]| && rs[1..][i].tipo == tipo && rs[1..][i].timestamp == rest[j];
            assert rs[i + 1].timestamp == rest[j];
          }
        }
      }
      if rs[0].tipo == tipo then [rs[0].timestamp] + rest else rest
  }

  /** `filter(tipo=tipo).count()` */
  function CountOf(rs: seq<RegistroPonto>, tipo: string): (n: nat)
    ensures n <= |rs|
    ensures n == 0 <==> forall i :: 0 <= i < |rs| ==> rs[i].tipo != tipo
  {
    if rs == [] then 0
    else
      assert forall i :: 0 < i < |rs| ==> rs[i] == rs[1..][i - 1];
      (if rs[0].tipo == tipo then 1 else 0) + CountOf(rs[1..], tipo)
  }

  /** One timestamp per event of the kind: as many as `filter(tipo=tipo).count()`. */
  lemma {:induction false} TimesOfCount(rs: seq<RegistroPonto>, tipo: string)
    ensures |TimesOf(rs, tipo)| == CountOf(rs, tipo)
  {
    if rs != [] {
      TimesOfCount(rs[1..], tipo);
    }
  }

  /** Appending an event of the kind appends its timestamp; any other event changes nothing. */
  lemma {:induction false} TimesOfAppend(rs: seq<RegistroPonto>, x: RegistroPonto, tipo: string)
    ensures TimesOf(rs + [x], tipo) == TimesOf(rs, tipo) + (if x.tipo == tipo then [x.timestamp] else [])
  {
    if rs == [] {
      assert rs + [x] == [x];
      assert [x][1..] == [];
    } else {
      assert (rs + [x])[1..] == rs[1..] + [x];
      TimesOfAppend(rs[1..], x, tipo);
    }
  }
}
