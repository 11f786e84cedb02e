/**
 * The post-save hook that gives a newly created employee a login account:
 * a random six-digit matricula as username, retried until no account uses
 * it, a password built from the matricula and the current year, and an
 * e-mail address built from the employee's name.
 *
 * The random draws arrive as an input sequence and the current year as a
 * parameter.
 */
module Signals {
  import opened Wrappers
  import opened Text
  import opened Models
  import opened Store

  const PREFIXO_MATRICULA: string := "26"
  const MARCA_SENHA: string := "@Cadastro"
  const DOMINIO: string := "@suaempresa.com"

  /** What `random.randint(1000, 9999)` can return. */
  predicate Sorteio(n: nat) {
    1000 <= n <= 9999
  }

  predicate Sorteios(draws: seq<nat>) {
    forall k :: 0 <= k < |draws| ==> Sorteio(draws[k])
  }

  /**
   * The matricula for one four-digit draw: "26" then the draw. It is six
   * decimal digits, and its last four denote the draw.
   */
  function Matricula(quatro: nat): (m: string)
    requires Sorteio(quatro)
    ensures |m| == 6 && AllDigits(m) && m[..2] == PREFIXO_MATRICULA
    ensures DigitsValue(m[2..]) == quatro
  {
    NatTextFourDigits(quatro);
    DigitsValueOfNatText(quatro);
    var m := PREFIXO_MATRICULA + NatText(quatro);
    assert m[2..] == NatText(quatro);
    m
  }

  /** Different draws give different matriculas. */
  lemma MatriculaInjective(a: nat, b: nat)
    requires Sorteio(a) && Sorteio(b) && Matricula(a) == Matricula(b)
    ensures a == b
  {
    assert Matricula(a)[2..] == Matricula(b)[2..];
  }

  /**
   * The index of the first draw whose matricula no account uses as its
   * username, or |draws| when every draw is taken.
   */
  function PrimeiraLivre(draws: seq<nat>, usuarios: map<string, Usuario>): (i: nat)
    requires Sorteios(draws)
    ensures i <= |draws|
    ensures forall j :: 0 <= j < i ==> Matricula(draws[j]) in usuarios
    ensures i < |draws| ==> Matricula(draws[i]) !in usuarios
  {
    if draws == [] || Matricula(draws[0]) !in usuarios then 0
    else 1 + PrimeiraLivre(draws[1..], usuarios)
  }

  /**
   * The retry loop: draw until the matricula is not an existing username.
   * Returns None when the draws run out before a free one turns up.
   */
  method GerarMatricula(usuarios: map<string, Usuario>, draws: seq<nat>) returns (m: Option<string>)
    requires Sorteios(draws)
    ensures var i := PrimeiraLivre(draws, usuarios);
      m == (if i < |draws| then Some(Matricula(draws[i])) else None)
    ensures m.Some? ==> m.value !in usuarios
  {
    var k := 0;
    while k < |draws|
      invariant k <= |draws|
      invariant forall j :: 0 <= j < k ==> Matricula(draws[j]) in usuarios
    {
      var candidata := Matricula(draws[k]);
      if candidata !in usuarios {
        return Some(candidata);
      }
      k := k + 1;
    }
    return None;
  }

  /**
   * The initial password: the matricula, then "@Cadastro", then the year in
   * decimal.
   */
  function Senha(matricula: string, ano: nat): (s: string)
    ensures |s| > |matricula| + 9 && s[..|matricula|] == matricula
    ensures s[|matricula|..|matricula| + 9] == MARCA_SENHA
    ensures AllDigits(s[|matricula| + 9..]) && DigitsValue(s[|matricula| + 9..]) == ano
  {
    DigitsValueOfNatText(ano);
    var s := matricula + MARCA_SENHA + NatText(ano);
    assert s[|matricula| + 9..] == NatText(ano);
    s
  }

  /** The first word, a dot, the last word (empty for a single word) and the domain. */
  function Endereco(palavras: seq<string>): (e: string)
    requires |palavras| > 0
    ensures |e| > |palavras[0]| && e[..|palavras[0]| + 1] == palavras[0] + "."
  {
    var ultimo := if |palavras| > 1 then palavras[|palavras| - 1] else "";
    palavras[0] + "." + ultimo + DOMINIO
  }

  predicate Limpa(s: string) {
    NoSpace(s) && IsLowered(s)
  }

  lemma ConcatLimpa(a: string, b: string)
    requires Limpa(a) && Limpa(b)
    ensures Limpa(a + b)
  {
    assert forall i :: 0 <= i < |a + b| ==> (a + b)[i] == if i < |a| then a[i] else b[i - |a|];
  }

  /** An address built from clean words is clean and ends with the domain. */
  lemma EnderecoLimpo(palavras: seq<string>)
    requires |palavras| > 0
    requires forall i :: 0 <= i < |palavras| ==> Limpa(palavras[i])
    ensures Limpa(Endereco(palavras))
    ensures |Endereco(palavras)| > |DOMINIO|
    ensures Endereco(palavras)[|Endereco(palavras)| - |DOMINIO|..] == DOMINIO
  {
    var ultimo := if |palavras| > 1 then palavras[|palavras| - 1] else "";
    assert Limpa(".") && Limpa(ultimo);
    assert Limpa(DOMINIO);
    ConcatLimpa(palavras[0], ".");
    ConcatLimpa(palavras[0] + ".", ultimo);
    ConcatLimpa(palavras[0] + "." + ultimo, DOMINIO);
    var e := Endereco(palavras);
    assert e == (palavras[0] + "." + ultimo) + DOMINIO;
  }

  /**
   * The e-mail address built from the words of the lower-cased name. A
   * name with no word at all has no first word, and the hook fails there.
   */
  function Email(nome: string): (e: Option<string>)
    ensures e.None? <==> forall i :: 0 <= i < |nome| ==> IsSpace(nome[i])
    ensures e.Some? ==> NoSpace(e.value) && IsLowered(e.value)
    ensures e.Some? ==> |e.value| > |DOMINIO| && e.value[|e.value| - |DOMINIO|..] == DOMINIO
  {
    var baixo := Lower(nome);
    var palavras := Words(baixo);
    LowerIdempotent(nome);
    WordsOfLowered(baixo);
    assert forall i :: 0 <= i < |nome| ==> IsSpace(nome[i]) == IsSpace(baixo[i]);
    if palavras == [] then None
    else
      EnderecoLimpo(palavras);
      Some(Endereco(palavras))
  }

  /**
   * For a name made of words separated by single spaces, the address is the
   * lower-cased first word, a dot, the lower-cased last word (nothing for a
   * one-word name) and the domain.
   */
  lemma EmailOfWords(ws: seq<string>)
    requires |ws| > 0
    requires forall i :: 0 <= i < |ws| ==> ws[i] != [] && NoSpace(ws[i])
    ensures Email(JoinSpace(ws)) ==
            Some(Lower(ws[0]) + "." + (if |ws| > 1 then Lower(ws[|ws| - 1]) else "") + DOMINIO)
  {
    var baixas := LowerAll(ws);
    LowerJoin(ws);
    forall i | 0 <= i < |ws| ensures baixas[i] != [] && NoSpace(baixas[i]) {
      LowerKeepsSpaces(ws[i]);
    }
    WordsOfJoin(baixas);
    var ultimo := if |ws| > 1 then Lower(ws[|ws| - 1]) else "";
    assert Endereco(baixas) == Lower(ws[0]) + "." + ultimo + DOMINIO;
  }

  /** The address does not depend on the case of the name. */
  lemma EmailIgnoresCase(nome: string)
    ensures Email(Lower(nome)) == Email(nome)
  {
    LowerIdempotent(nome);
  }

  /** The outcome of the hook for one save. */
  datatype Criacao =
    | NaoSeAplica          // not a creation, or the employee already has an account
    | SorteiosEsgotados    // every draw was an existing username
    | NomeSemPalavras      // the name has no word to build the e-mail from
    | Criado(usuario: Usuario)

  /**
   * What the hook does for employee `f` given the existing accounts: nothing
   * unless `f` was just created without an account; otherwise an account
   * named by the first free draw, unless the draws run out or the name has
   * no word.
   */
  function Desfecho(f: Funcionario, created: bool, usuarios: map<string, Usuario>, draws: seq<nat>, ano: nat): (r: Criacao)
    requires Sorteios(draws)
    ensures r == NaoSeAplica <==> !created || f.user.Some?
    ensures r == SorteiosEsgotados <==> created && f.user.None? && forall j :: 0 <= j < |draws| ==> Matricula(draws[j]) in usuarios
    ensures r == NomeSemPalavras <==>
              created && f.user.None? && PrimeiraLivre(draws, usuarios) < |draws| && Email(f.nomeCompleto).None?
    ensures r.Criado? ==> r.usuario.username == Matricula(draws[PrimeiraLivre(draws, usuarios)])
    ensures r.Criado? ==> r.usuario.username !in usuarios && |r.usuario.username| == 6
    ensures r.Criado? ==> Email(f.nomeCompleto) == Some(r.usuario.email)
    ensures r.Criado? ==> r.usuario.password == Senha(r.usuario.username, ano)
  {
    var i := PrimeiraLivre(draws, usuarios);
    if !created || f.user.Some? then NaoSeAplica
    else if i == |draws| then SorteiosEsgotados
    else if Email(f.nomeCompleto).None? then NomeSemPalavras
    else
      var m := Matricula(draws[i]);
      Criado(Usuario(m, Email(f.nomeCompleto).value, Senha(m, ano)))
  }

  /**
   * `criar_user_para_funcionario`: on the creation of an employee with no
   * account, create the account and link it to the employee.
   */
  method CriarUserParaFuncionario(db: Database, id: FuncionarioId, created: bool, draws: seq<nat>, ano: nat)
    returns (r: Criacao)
    requires db.Valid() && id in db.funcionarios && Sorteios(draws)
    modifies db
    ensures db.Valid()
    ensures r == Desfecho(old(db.funcionarios[id]), created, old(db.usuarios), draws, ano)
    ensures r.Criado? ==> db.usuarios == old(db.usuarios)[r.usuario.username := r.usuario]
    ensures r.Criado? ==> db.funcionarios == old(db.funcionarios)[id := old(db.funcionarios[id]).(user := Some(r.usuario.username))]
    ensures !r.Criado? ==> db.usuarios == old(db.usuarios) && db.funcionarios == old(db.funcionarios)
    ensures db.ordem == old(db.ordem) && db.registros == old(db.registros) && db.banco == old(db.banco)
    ensures db.atribuicoes == old(db.atribuicoes) && db.abonos == old(db.abonos)
  {
    var f := db.funcionarios[id];
    if !created || f.user.Some? {
      return NaoSeAplica;
    }
    var matricula := GerarMatricula(db.usuarios, draws);
    if matricula.None? {
      return SorteiosEsgotados;
    }
    var senha := Senha(matricula.value, ano);
    var email := Email(f.nomeCompleto);
    if email.None? {
      return NomeSemPalavras;
    }
    r := Criado(Usuario(matricula.value, email.value, senha));
    Vincular(db, id, r.usuario);
  }

  /** `create_user` followed by `instance.user = novo_user; instance.save()`. */
  method Vincular(db: Database, id: FuncionarioId, novo: Usuario)
    requires db.Valid() && id in db.funcionarios
    modifies db
    ensures db.Valid()
    ensures db.usuarios == old(db.usuarios)[novo.username := novo]
    ensures db.funcionarios == old(db.funcionarios)[id := old(db.funcionarios[id]).(user := Some(novo.username))]
    ensures db.ordem == old(db.ordem) && db.registros == old(db.registros) && db.banco == old(db.banco)
    ensures db.atribuicoes == old(db.atribuicoes) && db.abonos == old(db.abonos)
  {
    db.usuarios := db.usuarios[novo.username := novo];
    db.funcionarios := db.funcionarios[id := db.funcionarios[id].(user := Some(novo.username))];
  }
}
