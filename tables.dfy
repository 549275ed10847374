/** The two tables the controllers read and write, held by one mutable
    `Database` object: medications and medication types, each in insertion
    order with an auto-increment id counter, plus the day the record model
    was loaded (its date validators compare against that day). */
module Tables {
  import opened Common
  import opened MedicamentoModel

  /** A stored medication type. */
  datatype TipoMedicamento = TipoMedicamento(id: int, description: string, createdAt: Instant, updatedAt: Instant)

  /** `findByPk` on the medication table: the position of the row with this id. */
  function IndexOfMedicamento(meds: seq<Medicamento>, id: int): (r: Option<nat>)
    ensures r.Some? ==> r.value < |meds| && meds[r.value].id == id
    ensures r.None? <==> forall i :: 0 <= i < |meds| ==> meds[i].id != id
  {
    if meds == [] then None
    else if meds[0].id == id then Some(0)
    else
      match IndexOfMedicamento(meds[1..], id)
      case None => None
      case Some(i) => Some(i + 1)
  }

  /** `findByPk` on the type table. */
  function IndexOfTipo(tipos: seq<TipoMedicamento>, id: int): (r: Option<nat>)
    ensures r.Some? ==> r.value < |tipos| && tipos[r.value].id == id
    ensures r.None? <==> forall i :: 0 <= i < |tipos| ==> tipos[i].id != id
  {
    if tipos == [] then None
    else if tipos[0].id == id then Some(0)
    else
      match IndexOfTipo(tipos[1..], id)
      case None => None
      case Some(i) => Some(i + 1)
  }

  predicate TipoExists(tipos: seq<TipoMedicamento>, id: int) {
    IndexOfTipo(tipos, id).Some?
  }

  /** Every medication row meets the record bounds, has an id issued by the
      counter and unique, and references an existing type (the foreign key). */
  predicate MedicamentosWellFormed(meds: seq<Medicamento>, tipos: seq<TipoMedicamento>, nextId: int) {
    && nextId > 0
    && (forall i :: 0 <= i < |meds| ==>
          StoredInvariant(meds[i]) && 0 < meds[i].id < nextId && TipoExists(tipos, meds[i].codTipoMed))
    && (forall i, j :: 0 <= i < j < |meds| ==> meds[i].id != meds[j].id)
  }

  /** Every type row has a 1..255 character description that is not all
      spaces, an id issued by the counter and unique, and no two descriptions
      are equal ignoring case. */
  predicate TiposWellFormed(tipos: seq<TipoMedicamento>, nextId: int) {
    && nextId > 0
    && (forall i :: 0 <= i < |tipos| ==> 0 < tipos[i].id < nextId && 1 <= |tipos[i].description| <= 255 && !Blank(tipos[i].description))
    && (forall i, j :: 0 <= i < j < |tipos| ==>
          tipos[i].id != tipos[j].id && !SameIgnoringCase(tipos[i].description, tipos[j].description))
  }

  class Database {
    var medicamentos: seq<Medicamento>
    var tipos: seq<TipoMedicamento>
    var nextMedicamentoId: int
    var nextTipoId: int
    const loadDate: Instant

    ghost predicate Valid()
      reads this
    {
      && MedicamentosWellFormed(medicamentos, tipos, nextMedicamentoId)
      && TiposWellFormed(tipos, nextTipoId)
    }

    /** Empty tables, counters at 1. */
    constructor (loadDate: Instant)
      ensures Valid()
      ensures medicamentos == [] && tipos == []
      ensures nextMedicamentoId == 1 && nextTipoId == 1
      ensures this.loadDate == loadDate
    {
      medicamentos := [];
      tipos := [];
      nextMedicamentoId := 1;
      nextTipoId := 1;
      this.loadDate := loadDate;
    }

    /** `INSERT` into the medication table of a row carrying the next id,
        meeting the record bounds and referencing an existing type. */
    method InsertMedicamento(rec: Medicamento)
      requires Valid()
      requires rec.id == nextMedicamentoId && StoredInvariant(rec) && TipoExists(tipos, rec.codTipoMed)
      modifies this
      ensures Valid()
      ensures medicamentos == old(medicamentos) + [rec] && nextMedicamentoId == old(nextMedicamentoId) + 1
      ensures tipos == old(tipos) && nextTipoId == old(nextTipoId)
    {
      medicamentos, nextMedicamentoId := medicamentos + [rec], nextMedicamentoId + 1;
    }

    /** `UPDATE` of the medication row at position `i`, keeping its id. */
    method ReplaceMedicamento(i: nat, m': Medicamento)
      requires Valid()
      requires i < |medicamentos| && m'.id == medicamentos[i].id
      requires StoredInvariant(m') && TipoExists(tipos, m'.codTipoMed)
      modifies this
      ensures Valid()
      ensures medicamentos == old(medicamentos)[i := m'] && nextMedicamentoId == old(nextMedicamentoId)
      ensures tipos == old(tipos) && nextTipoId == old(nextTipoId)
    {
      ReplaceKeepsWellFormed(medicamentos, tipos, nextMedicamentoId, i, m');
      medicamentos := medicamentos[i := m'];
    }

    /** `DELETE` of the medication row at position `i`. */
    method RemoveMedicamento(i: nat)
      requires Valid() && i < |medicamentos|
      modifies this
      ensures Valid()
      ensures medicamentos == old(medicamentos)[..i] + old(medicamentos)[i + 1..]
      ensures nextMedicamentoId == old(nextMedicamentoId)
      ensures tipos == old(tipos) && nextTipoId == old(nextTipoId)
    {
      RemoveKeepsWellFormed(medicamentos, tipos, nextMedicamentoId, i);
      medicamentos := medicamentos[..i] + medicamentos[i + 1..];
    }

    /** `INSERT` into the type table with the next id, for a row that keeps
        both tables well formed. */
    method InsertTipo(description: string, now: Instant) returns (t: TipoMedicamento)
      requires Valid()
      requires var t := TipoMedicamento(nextTipoId, description, now, now);
        && MedicamentosWellFormed(medicamentos, tipos + [t], nextMedicamentoId)
        && TiposWellFormed(tipos + [t], nextTipoId + 1)
      modifies this
      ensures Valid()
      ensures t == TipoMedicamento(old(nextTipoId), description, now, now)
      ensures tipos == old(tipos) + [t] && nextTipoId == old(nextTipoId) + 1
      ensures medicamentos == old(medicamentos) && nextMedicamentoId == old(nextMedicamentoId)
    {
      t := TipoMedicamento(nextTipoId, description, now, now);
      tipos, nextTipoId := tipos + [t], nextTipoId + 1;
    }

    /** `UPDATE` or `DELETE` on the type table that leaves both tables well
        formed: the type table becomes `tipos'`. */
    method SetTipos(tipos': seq<TipoMedicamento>)
      requires Valid()
      requires MedicamentosWellFormed(medicamentos, tipos', nextMedicamentoId) && TiposWellFormed(tipos', nextTipoId)
      modifies this
      ensures Valid()
      ensures tipos == tipos' && nextTipoId == old(nextTipoId)
      ensures medicamentos == old(medicamentos) && nextMedicamentoId == old(nextMedicamentoId)
    {
      tipos := tipos';
    }
  }

  /** Replacing a row by one with the same id that meets the bounds and
      references an existing type keeps the medication table well formed. */
  lemma ReplaceKeepsWellFormed(meds: seq<Medicamento>, tipos: seq<TipoMedicamento>, nextId: int, i: nat, m': Medicamento)
    requires MedicamentosWellFormed(meds, tipos, nextId)
    requires i < |meds| && m'.id == meds[i].id
    requires StoredInvariant(m') && TipoExists(tipos, m'.codTipoMed)
    ensures MedicamentosWellFormed(meds[i := m'], tipos, nextId)
  {
  }

  /** Removing a row keeps the medication table well formed. */
  lemma RemoveKeepsWellFormed(meds: seq<Medicamento>, tipos: seq<TipoMedicamento>, nextId: int, i: nat)
    requires MedicamentosWellFormed(meds, tipos, nextId)
    requires i < |meds|
    ensures MedicamentosWellFormed(meds[..i] + meds[i + 1..], tipos, nextId)
  {
    var s := meds[..i] + meds[i + 1..];
    assert forall k :: 0 <= k < |s| ==> s[k] == if k < i then meds[k] else meds[k + 1];
  }
}
