/**
 * The `limpar_registros` management command: unless `--confirm` is given it
 * only warns; with it, it deletes every clock event and every hour-bank row
 * and sets every employee's operational status to OFFLINE, reporting how
 * many rows each step touched.
 */
module LimparRegistros {
  import opened Wrappers
  import opened Models
  import opened Store

  /** The three counts the command reports. */
  datatype Contagem = Contagem(registros: nat, banco: nat, funcionarios: nat)

  /** Every employee with status OFFLINE and nothing else touched. */
  function TodosOffline(funcionarios: map<FuncionarioId, Funcionario>): (r: map<FuncionarioId, Funcionario>)
    ensures r.Keys == funcionarios.Keys
    ensures forall e :: e in r ==> r[e].statusOperacional == Offline
    ensures forall e :: e in r ==>
              && r[e].nomeCompleto == funcionarios[e].nomeCompleto
              && r[e].status == funcionarios[e].status
              && r[e].cargo == funcionarios[e].cargo
              && r[e].user == funcionarios[e].user
  {
    map e | e in funcionarios :: funcionarios[e].(statusOperacional := Offline)
  }

  /** Resetting statuses a second time changes nothing. */
  lemma TodosOfflineIdempotent(funcionarios: map<FuncionarioId, Funcionario>)
    ensures TodosOffline(TodosOffline(funcionarios)) == TodosOffline(funcionarios)
  {
    var once := TodosOffline(funcionarios);
    assert forall e :: e in once ==> once[e].(statusOperacional := Offline) == once[e];
  }

  /**
   * `Command.handle`. Without the flag nothing changes and nothing is
   * counted; with it, the event table and the ledger end empty, every
   * status is OFFLINE, and the counts are the old table sizes.
   */
  method Limpar(db: Database, confirm: bool) returns (contagem: Option<Contagem>)
    requires db.Valid()
    modifies db
    ensures db.Valid()
    ensures !confirm ==> contagem == None
    ensures !confirm ==> db.registros == old(db.registros) && db.banco == old(db.banco)
    ensures !confirm ==> db.funcionarios == old(db.funcionarios)
    ensures confirm ==> contagem == Some(Contagem(|old(db.registros)|, |old(db.banco)|, |old(db.funcionarios)|))
    ensures confirm ==> db.registros == [] && db.banco == map[]
    ensures confirm ==> db.funcionarios == TodosOffline(old(db.funcionarios))
    ensures db.ordem == old(db.ordem) && db.usuarios == old(db.usuarios)
    ensures db.atribuicoes == old(db.atribuicoes) && db.abonos == old(db.abonos)
  {
    if !confirm {
      return None;
    }
    var countRp := |db.registros|;
    db.registros := [];
    var countBh := |db.banco|;
    db.banco := map[];
    var countFunc := |db.funcionarios|;
    db.funcionarios := TodosOffline(db.funcionarios);
    return Some(Contagem(countRp, countBh, countFunc));
  }

  /** A second confirmed run finds nothing to delete and leaves the statuses as they are. */
  method LimparIdempotente(db: Database) returns (primeira: Option<Contagem>, segunda: Option<Contagem>)
    requires db.Valid()
    modifies db
    ensures segunda == Some(Contagem(0, 0, |old(db.funcionarios)|))
    ensures db.registros == [] && db.banco == map[]
    ensures db.funcionarios == TodosOffline(old(db.funcionarios))
  {
    primeira := Limpar(db, true);
    segunda := Limpar(db, true);
    TodosOfflineIdempotent(old(db.funcionarios));
  }
}
