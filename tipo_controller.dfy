/** The medication-type handlers: the searchable, paged list with a count of
    medications per type; lookup by id, optionally with the type's
    medications; create and update with a case-insensitive duplicate check;
    delete guarded by the medications that reference the type; and the paged
    list of one type's medications. */
module TipoController {
  import opened Common
  import opened Replies
  import opened MedicamentoModel
  import opened Pagination
  import opened Tables

  /** The medications that reference type `id`, in table order. */
  function OfTipo(meds: seq<Medicamento>, id: int): (rows: seq<Medicamento>)
    ensures forall m :: m in rows <==> m in meds && m.codTipoMed == id
  {
    Filter(meds, OfTipoFn(id))
  }

  function OfTipoFn(id: int): Medicamento -> bool {
    (m: Medicamento) => m.codTipoMed == id
  }

  /** The JSON the type model renders: its four columns and no association. */
  datatype TipoJson = TipoJson(id: int, description: string, createdAt: Instant, updatedAt: Instant)

  function TipoToJson(t: TipoMedicamento): TipoJson {
    TipoJson(t.id, t.description, t.createdAt, t.updatedAt)
  }

  // ---------------------------------------------------------------------------
  // GET /

  datatype TipoListQuery = TipoListQuery(page: Option<int>, limit: Option<int>, search: Option<string>)

  /** A row of the list: the rendered type and how many medications reference it. */
  datatype TipoRow = TipoRow(tipo: TipoJson, totalMedicamentos: nat)

  datatype TipoListPage = TipoListPage(tiposMedicamento: seq<TipoRow>, pagination: PageInfo)

  /** `description ILIKE '%search%'`; an empty search selects every type. */
  predicate DescriptionMatches(t: TipoMedicamento, search: string) {
    search == "" || ContainsIgnoringCase(t.description, search)
  }

  function SearchFn(search: string): TipoMedicamento -> bool {
    t => DescriptionMatches(t, search)
  }

  function TipoRowOf(t: TipoMedicamento, meds: seq<Medicamento>): TipoRow {
    TipoRow(TipoToJson(t), |OfTipo(meds, t.id)|)
  }

  function TipoRowsOf(shown: seq<TipoMedicamento>, meds: seq<Medicamento>): (rows: seq<TipoRow>)
    ensures |rows| == |shown|
    ensures forall k :: 0 <= k < |shown| ==> rows[k] == TipoRowOf(shown[k], meds)
  {
    seq(|shown|, k requires 0 <= k < |shown| => TipoRowOf(shown[k], meds))
  }

  /** The list handler: matching types newest first, one page of them, each
      with its medication count, and the page count over all matching types. */
  function GetAll(tipos: seq<TipoMedicamento>, meds: seq<Medicamento>, q: TipoListQuery): (r: Reply<TipoListPage>)
    requires q.page.GetOr(DefaultPage) >= 1 && q.limit.GetOr(DefaultLimit) > 0
    ensures r.Ok? && r.status == 200
    ensures var page, limit, search := q.page.GetOr(DefaultPage), q.limit.GetOr(DefaultLimit), q.search.GetOr("");
            var selected := Filter(tipos, SearchFn(search));
            var shown := Window(Reverse(selected), Offset(page, limit), limit);
            && r.data.pagination == PageInfoOf(page, limit, |selected|)
            && |r.data.tiposMedicamento| == |shown| <= limit
            && (forall k :: 0 <= k < |shown| ==>
                  && r.data.tiposMedicamento[k] == TipoRowOf(shown[k], meds)
                  && shown[k] in tipos
                  && DescriptionMatches(shown[k], search))
  {
    var page, limit, search := q.page.GetOr(DefaultPage), q.limit.GetOr(DefaultLimit), q.search.GetOr("");
    var selected := Filter(tipos, SearchFn(search));
    var shown := Window(Reverse(selected), Offset(page, limit), limit);
    WindowOfReversed(selected, Offset(page, limit), limit);
    Ok(200, TipoListPage(TipoRowsOf(shown, meds), PageInfoOf(page, limit, |selected|)))
  }

  // ---------------------------------------------------------------------------
  // GET /:id

  /** The columns loaded for each medication when the type's medications are included. */
  datatype MedicamentoSummary = MedicamentoSummary(id: int, descripcion: string, marca: string, stock: int, fechaVencimiento: Instant)

  function SummaryOf(m: Medicamento): MedicamentoSummary {
    MedicamentoSummary(m.id, m.descripcion, m.marca, m.stock, m.fechaVencimiento)
  }

  /** What the handler loads: the type and, when requested, its medications. */
  datatype TipoDetail = TipoDetail(tipo: TipoMedicamento, medicamentos: Option<seq<MedicamentoSummary>>)

  /** The lookup: 404 when absent; the medications are loaded exactly when
      `includeMedicamentos` is the string "true". */
  function GetById(tipos: seq<TipoMedicamento>, meds: seq<Medicamento>, id: int, includeMedicamentos: Option<string>)
    : (r: Reply<TipoDetail>)
    ensures r.Err? <==> !TipoExists(tipos, id)
    ensures r.Err? ==> r.error == NotFound
    ensures r.Ok? ==>
      && r.status == 200 && r.data.tipo.id == id && r.data.tipo in tipos
      && (r.data.medicamentos.Some? <==> includeMedicamentos == Some("true"))
      && (r.data.medicamentos.Some? ==>
            var rows := OfTipo(meds, id);
            |r.data.medicamentos.value| == |rows| &&
            forall k :: 0 <= k < |rows| ==> r.data.medicamentos.value[k] == SummaryOf(rows[k]))
  {
    match IndexOfTipo(tipos, id)
    case None => Err(NotFound)
    case Some(i) =>
      var rows := OfTipo(meds, id);
      var included :=
        if includeMedicamentos == Some("true")
        then Some(seq(|rows|, k requires 0 <= k < |rows| => SummaryOf(rows[k])))
        else None;
      Ok(200, TipoDetail(tipos[i], included))
  }

  /** The reply body as serialised: the type model's own rendering, which has
      no place for an association, so loaded medications are dropped. */
  function RenderDetailAsWritten(d: TipoDetail): TipoJson {
    TipoToJson(d.tipo)
  }

  /** As serialised, `includeMedicamentos=true` changes nothing in the reply,
      even for a type that has medications. */
  lemma IncludeMedicamentosLostAsWritten(tipos: seq<TipoMedicamento>, meds: seq<Medicamento>, id: int)
    requires TipoExists(tipos, id)
    ensures var withRows := GetById(tipos, meds, id, Some("true"));
            var without := GetById(tipos, meds, id, None);
            && RenderDetailAsWritten(withRows.data) == RenderDetailAsWritten(without.data)
            && withRows.data.medicamentos.Some?
  {
  }

  /** The reply body with the association kept. */
  datatype TipoDetailJson = TipoDetailJson(tipo: TipoJson, medicamentos: Option<seq<MedicamentoSummary>>)

  function RenderDetail(d: TipoDetail): (j: TipoDetailJson)
    ensures j.tipo == TipoToJson(d.tipo) && j.medicamentos == d.medicamentos
  {
    TipoDetailJson(TipoToJson(d.tipo), d.medicamentos)
  }

  /** Rendered with the association, the reply lists a type's medications
      exactly when they were requested, and all of them. */
  lemma IncludeMedicamentosRendered(tipos: seq<TipoMedicamento>, meds: seq<Medicamento>, id: int, includeMedicamentos: Option<string>, m: Medicamento)
    requires TipoExists(tipos, id)
    requires includeMedicamentos == Some("true")
    requires m in meds && m.codTipoMed == id
    ensures var j := RenderDetail(GetById(tipos, meds, id, includeMedicamentos).data);
            j.medicamentos.Some? && SummaryOf(m) in j.medicamentos.value
  {
    var rows := OfTipo(meds, id);
    var k :| 0 <= k < |rows| && rows[k] == m;
    assert GetById(tipos, meds, id, includeMedicamentos).data.medicamentos.value[k] == SummaryOf(m);
  }

  // ---------------------------------------------------------------------------
  // POST /, PUT /:id, DELETE /:id

  /** The duplicate lookup of the create and update handlers, with the
      description taken literally: a type (other than `except` when given)
      whose description equals `pattern` ignoring case. */
  function FindByDescription(tipos: seq<TipoMedicamento>, pattern: string, except: Option<int>): (r: Option<nat>)
    ensures r.Some? ==> r.value < |tipos| && SameIgnoringCase(tipos[r.value].description, pattern)
                        && (except.Some? ==> tipos[r.value].id != except.value)
    ensures r.None? <==> forall i :: 0 <= i < |tipos| && (except.None? || tipos[i].id != except.value) ==>
                          !SameIgnoringCase(tipos[i].description, pattern)
  {
    if tipos == [] then None
    else if SameIgnoringCase(tipos[0].description, pattern) && (except.None? || tipos[0].id != except.value) then Some(0)
    else
      match FindByDescription(tipos[1..], pattern, except)
      case None => None
      case Some(i) => Some(i + 1)
  }

  /** The duplicate lookup as the handlers issue it: `findOne` with
      `description ILIKE pattern` (and `id <> except` when given), where the
      trimmed description is the pattern itself, so its `%`, `_` and
      backslashes act as wildcards and escapes. */
  function FindByDescriptionAsWritten(tipos: seq<TipoMedicamento>, pattern: string, except: Option<int>): (r: Option<nat>)
    ensures r.Some? ==> r.value < |tipos| && ILikeMatch(tipos[r.value].description, pattern)
                        && (except.Some? ==> tipos[r.value].id != except.value)
    ensures r.None? <==> forall i :: 0 <= i < |tipos| && (except.None? || tipos[i].id != except.value) ==>
                          !ILikeMatch(tipos[i].description, pattern)
  {
    if tipos == [] then None
    else if ILikeMatch(tipos[0].description, pattern) && (except.None? || tipos[0].id != except.value) then Some(0)
    else
      match FindByDescriptionAsWritten(tipos[1..], pattern, except)
      case None => None
      case Some(i) => Some(i + 1)
  }

  /** A description with no `%`, `_` or backslash is matched literally by
      ILIKE, so there the lookup as written and the literal one agree. */
  lemma {:induction false} LookupsAgreeWithoutWildcards(tipos: seq<TipoMedicamento>, d: string, except: Option<int>)
    requires forall i :: 0 <= i < |d| ==> d[i] != '%' && d[i] != '_' && d[i] != '\\'
    ensures FindByDescriptionAsWritten(tipos, d, except) == FindByDescription(tipos, d, except)
    decreases |tipos|
  {
    if tipos != [] {
      var pattern := Lower(d);
      assert forall i :: 0 <= i < |pattern| ==> pattern[i] != '%' && pattern[i] != '_' && pattern[i] != '\\';
      LikeMatchLiteral(Lower(tipos[0].description), pattern);
      LookupsAgreeWithoutWildcards(tipos[1..], d, except);
    }
  }

  /** As written, `%` and `_` in a new description refuse a description no
      type has, and a backslash lets through one a type already has. With
      the type "Gel" stored, "%" and "G_l" are refused as duplicates; with
      "1\\2" stored, "1\\2" is not found. */
  lemma DuplicateCheckAsWrittenMisreadsPatterns()
    ensures var gel := [TipoMedicamento(1, "Gel", 0, 0)];
      && FindByDescriptionAsWritten(gel, "%", None).Some? && FindByDescription(gel, "%", None).None?
      && FindByDescriptionAsWritten(gel, "G_l", None).Some? && FindByDescription(gel, "G_l", None).None?
    ensures var slash := [TipoMedicamento(1, "1\\2", 0, 0)];
      && FindByDescriptionAsWritten(slash, "1\\2", None).None? && FindByDescription(slash, "1\\2", None).Some?
  {
    assert Lower("Gel") == "gel";
    assert Lower("%") == "%";
    assert Lower("G_l") == "g_l";
    assert Lower("1\\2") == "1\\2";
    assert LikeMatch("gel", "%") by {
      assert LikeMatch("", "%");
      assert LikeMatch("l", "%");
      assert LikeMatch("el", "%");
    }
    assert LikeMatch("gel", "g_l");
    assert !LikeMatch("1\\2", "1\\2") by {
      assert !LikeMatch("\\2", "\\2");
    }
  }

  /** The type model's validators on `description`: not empty, 1..255 characters. */
  function DescriptionErrors(d: string): (errs: seq<FieldError>)
    ensures errs == [] <==> 1 <= |d| <= 255 && !Blank(d)
  {
    Tag("description", StringAttributeErrors(d, 255))
  }

  /** Types with the same ids in the same places know the same type ids. */
  lemma SameIdsSameTipos(tipos: seq<TipoMedicamento>, tipos': seq<TipoMedicamento>)
    requires |tipos| == |tipos'|
    requires forall k :: 0 <= k < |tipos| ==> tipos[k].id == tipos'[k].id
    ensures forall x :: TipoExists(tipos, x) <==> TipoExists(tipos', x)
  {
    forall x ensures TipoExists(tipos, x) <==> TipoExists(tipos', x) {
      if TipoExists(tipos, x) {
        var i := IndexOfTipo(tipos, x).value;
        assert tipos'[i].id == x;
      }
      if TipoExists(tipos', x) {
        var i := IndexOfTipo(tipos', x).value;
        assert tipos[i].id == x;
      }
    }
  }

  /** Appending a type with the next id and a valid description that matches
      no existing one ignoring case keeps both tables well formed. */
  lemma AppendTipoKeepsWellFormed(meds: seq<Medicamento>, tipos: seq<TipoMedicamento>, nextMed: int, nextTipo: int, t: TipoMedicamento)
    requires MedicamentosWellFormed(meds, tipos, nextMed) && TiposWellFormed(tipos, nextTipo)
    requires t.id == nextTipo && 1 <= |t.description| <= 255 && !Blank(t.description)
    requires FindByDescription(tipos, t.description, None).None?
    ensures MedicamentosWellFormed(meds, tipos + [t], nextMed) && TiposWellFormed(tipos + [t], nextTipo + 1)
  {
    var tipos' := tipos + [t];
    forall x | TipoExists(tipos, x) ensures TipoExists(tipos', x) {
      var i := IndexOfTipo(tipos, x).value;
      assert tipos'[i].id == x;
    }
    forall i, j | 0 <= i < j < |tipos'|
      ensures tipos'[i].id != tipos'[j].id && !SameIgnoringCase(tipos'[i].description, tipos'[j].description)
    {
      if j == |tipos| {
        assert tipos'[i] == tipos[i];
      }
    }
  }

  /** Giving a type a valid description that matches no other type ignoring
      case keeps both tables well formed. */
  lemma RenameTipoKeepsWellFormed(meds: seq<Medicamento>, tipos: seq<TipoMedicamento>, nextMed: int, nextTipo: int, i: nat, d: string, now: Instant)
    requires MedicamentosWellFormed(meds, tipos, nextMed) && TiposWellFormed(tipos, nextTipo)
    requires i < |tipos| && 1 <= |d| <= 255 && !Blank(d)
    requires FindByDescription(tipos, d, Some(tipos[i].id)).None?
    ensures var tipos' := tipos[i := tipos[i].(description := d, updatedAt := now)];
      MedicamentosWellFormed(meds, tipos', nextMed) && TiposWellFormed(tipos', nextTipo)
  {
    var tipos' := tipos[i := tipos[i].(description := d, updatedAt := now)];
    SameIdsSameTipos(tipos, tipos');
    forall a, b | 0 <= a < b < |tipos'|
      ensures tipos'[a].id != tipos'[b].id && !SameIgnoringCase(tipos'[a].description, tipos'[b].description)
    {
      if a == i {
        assert !SameIgnoringCase(tipos[b].description, d);
      } else if b == i {
        assert !SameIgnoringCase(tipos[a].description, d);
      }
    }
  }

  /** The create handler once the description is trimmed: the description is
      checked against every type ignoring case, then validated, then inserted. */
  method CreateTrimmed(db: Database, d: string, now: Instant) returns (r: Reply<TipoMedicamento>)
    requires db.Valid()
    modifies db
    ensures db.Valid()
    ensures db.medicamentos == old(db.medicamentos) && db.nextMedicamentoId == old(db.nextMedicamentoId)
    ensures if FindByDescription(old(db.tipos), d, None).Some? then
        r == Err(DuplicateDescription) && db.tipos == old(db.tipos) && db.nextTipoId == old(db.nextTipoId)
      else if DescriptionErrors(d) != [] then
        r == Err(Validation(DescriptionErrors(d))) && db.tipos == old(db.tipos) && db.nextTipoId == old(db.nextTipoId)
      else
        var t := TipoMedicamento(old(db.nextTipoId), d, now, now);
        r == Ok(201, t) && db.tipos == old(db.tipos) + [t] && db.nextTipoId == old(db.nextTipoId) + 1
  {
    var duplicate := FindByDescription(db.tipos, d, None);
    if duplicate.Some? {
      return Err(DuplicateDescription);
    }
    var errors := DescriptionErrors(d);
    if errors != [] {
      return Err(Validation(errors));
    }
    assert 1 <= |d| <= 255 && !Blank(d);
    var row := TipoMedicamento(db.nextTipoId, d, now, now);
    assert MedicamentosWellFormed(db.medicamentos, db.tipos + [row], db.nextMedicamentoId)
        && TiposWellFormed(db.tipos + [row], db.nextTipoId + 1) by {
      AppendTipoKeepsWellFormed(db.medicamentos, db.tipos, db.nextMedicamentoId, db.nextTipoId, row);
    }
    var t := db.InsertTipo(d, now);
    r := Ok(201, t);
  }

  /** Create: the description as sent, trimmed. */
  method Create(db: Database, description: string, now: Instant) returns (r: Reply<TipoMedicamento>)
    requires db.Valid()
    modifies db
    ensures db.Valid()
    ensures db.medicamentos == old(db.medicamentos) && db.nextMedicamentoId == old(db.nextMedicamentoId)
    ensures var d := Trim(description);
      if FindByDescription(old(db.tipos), d, None).Some? then
        r == Err(DuplicateDescription) && db.tipos == old(db.tipos) && db.nextTipoId == old(db.nextTipoId)
      else if DescriptionErrors(d) != [] then
        r == Err(Validation(DescriptionErrors(d))) && db.tipos == old(db.tipos) && db.nextTipoId == old(db.nextTipoId)
      else
        var t := TipoMedicamento(old(db.nextTipoId), d, now, now);
        r == Ok(201, t) && db.tipos == old(db.tipos) + [t] && db.nextTipoId == old(db.nextTipoId) + 1
  {
    r := CreateTrimmed(db, Trim(description), now);
  }

  /** Update: 404; a non-empty description is trimmed and checked against the
      other types ignoring case; an absent or empty one keeps the old value;
      the row is validated and written only when the description changes. */
  method Update(db: Database, id: int, description: Option<string>, now: Instant) returns (r: Reply<TipoMedicamento>)
    requires db.Valid()
    modifies db
    ensures db.Valid()
    ensures db.medicamentos == old(db.medicamentos) && db.nextMedicamentoId == old(db.nextMedicamentoId)
    ensures db.nextTipoId == old(db.nextTipoId)
    ensures match IndexOfTipo(old(db.tipos), id)
      case None => r == Err(NotFound) && db.tipos == old(db.tipos)
      case Some(i) =>
        var t := old(db.tipos)[i];
        var given := description.Some? && description.value != "";
        var d := if given then Trim(description.value) else t.description;
        if given && FindByDescription(old(db.tipos), d, Some(id)).Some? then
          r == Err(DuplicateDescription) && db.tipos == old(db.tipos)
        else if d == t.description then
          r == Ok(200, t) && db.tipos == old(db.tipos)
        else if DescriptionErrors(d) != [] then
          r == Err(Validation(DescriptionErrors(d))) && db.tipos == old(db.tipos)
        else
          r == Ok(200, t.(description := d, updatedAt := now)) && db.tipos == old(db.tipos)[i := t.(description := d, updatedAt := now)]
  {
    var found := IndexOfTipo(db.tipos, id);
    if found.None? {
      return Err(NotFound);
    }
    var i := found.value;
    var t := db.tipos[i];
    var given := description.Some? && description.value != "";
    var d := t.description;
    if given {
      d := Trim(description.value);
      if FindByDescription(db.tipos, d, Some(id)).Some? {
        return Err(DuplicateDescription);
      }
    }
    if d == t.description {
      return Ok(200, t);
    }
    var errors := DescriptionErrors(d);
    if errors != [] {
      return Err(Validation(errors));
    }
    var t' := t.(description := d, updatedAt := now);
    RenameTipoKeepsWellFormed(db.medicamentos, db.tipos, db.nextMedicamentoId, db.nextTipoId, i, d, now);
    db.SetTipos(db.tipos[i := t']);
    r := Ok(200, t');
  }

  /** Delete: 404; refused with the count while medications reference the
      type; otherwise the row is removed. */
  method Delete(db: Database, id: int) returns (r: Reply<()>)
    requires db.Valid()
    modifies db
    ensures db.Valid()
    ensures db.medicamentos == old(db.medicamentos) && db.nextMedicamentoId == old(db.nextMedicamentoId)
    ensures db.nextTipoId == old(db.nextTipoId)
    ensures match IndexOfTipo(old(db.tipos), id)
      case None => r == Err(NotFound) && db.tipos == old(db.tipos)
      case Some(i) =>
        var n := |OfTipo(db.medicamentos, id)|;
        if n > 0 then r == Err(HasMedicamentos(n)) && db.tipos == old(db.tipos)
        else r == Ok(200, ()) && db.tipos == old(db.tipos)[..i] + old(db.tipos)[i + 1..]
  {
    var found := IndexOfTipo(db.tipos, id);
    if found.None? {
      return Err(NotFound);
    }
    var i := found.value;
    var n := |OfTipo(db.medicamentos, id)|;
    if n > 0 {
      return Err(HasMedicamentos(n));
    }
    RemoveTipoKeepsReferences(db.medicamentos, db.tipos, db.nextMedicamentoId, db.nextTipoId, i);
    db.SetTipos(db.tipos[..i] + db.tipos[i + 1..]);
    r := Ok(200, ());
  }

  /** A type with no referencing medications is referenced by no row. */
  lemma NoReferences(meds: seq<Medicamento>, id: int)
    requires |OfTipo(meds, id)| == 0
    ensures forall k :: 0 <= k < |meds| ==> meds[k].codTipoMed != id
  {
    assert OfTipo(meds, id) == [];
  }

  /** Removing a type keeps the type table well formed. */
  lemma RemoveTipoKeepsTipos(tipos: seq<TipoMedicamento>, nextTipo: int, i: nat)
    requires TiposWellFormed(tipos, nextTipo) && i < |tipos|
    ensures TiposWellFormed(tipos[..i] + tipos[i + 1..], nextTipo)
  {
    var s := tipos[..i] + tipos[i + 1..];
    assert forall k :: 0 <= k < |s| ==> s[k] == if k < i then tipos[k] else tipos[k + 1];
  }

  /** Removing a type leaves every other type id known. */
  lemma RemoveTipoKeepsOthers(tipos: seq<TipoMedicamento>, i: nat)
    requires i < |tipos|
    ensures forall x :: TipoExists(tipos, x) && x != tipos[i].id ==> TipoExists(tipos[..i] + tipos[i + 1..], x)
  {
    var s := tipos[..i] + tipos[i + 1..];
    forall x | TipoExists(tipos, x) && x != tipos[i].id ensures TipoExists(s, x) {
      var j := IndexOfTipo(tipos, x).value;
      if j < i {
        assert s[j] == tipos[j];
      } else {
        assert s[j - 1] == tipos[j];
      }
    }
  }

  /** Removing a type no medication references keeps both tables well formed. */
  lemma RemoveTipoKeepsReferences(meds: seq<Medicamento>, tipos: seq<TipoMedicamento>, nextMed: int, nextTipo: int, i: nat)
    requires MedicamentosWellFormed(meds, tipos, nextMed) && TiposWellFormed(tipos, nextTipo)
    requires i < |tipos| && |OfTipo(meds, tipos[i].id)| == 0
    ensures MedicamentosWellFormed(meds, tipos[..i] + tipos[i + 1..], nextMed)
    ensures TiposWellFormed(tipos[..i] + tipos[i + 1..], nextTipo)
  {
    RemoveTipoKeepsTipos(tipos, nextTipo, i);
    NoReferences(meds, tipos[i].id);
    RemoveTipoKeepsOthers(tipos, i);
  }

  // ---------------------------------------------------------------------------
  // GET /:id/medicamentos

  datatype ByTipoPage = ByTipoPage(tipoMedicamento: TipoJson, medicamentos: seq<Medicamento>, pagination: PageInfo)

  /** One type's medications, newest first, paged; 404 when the type is absent. */
  function GetMedicamentosByTipo(tipos: seq<TipoMedicamento>, meds: seq<Medicamento>, id: int, page: Option<int>, limit: Option<int>)
    : (r: Reply<ByTipoPage>)
    requires page.GetOr(DefaultPage) >= 1 && limit.GetOr(DefaultLimit) > 0
    ensures r.Err? <==> !TipoExists(tipos, id)
    ensures r.Err? ==> r.error == NotFound
    ensures r.Ok? ==>
      var p, l := page.GetOr(DefaultPage), limit.GetOr(DefaultLimit);
      && r.status == 200
      && r.data.tipoMedicamento.id == id
      && r.data.pagination == PageInfoOf(p, l, |OfTipo(meds, id)|)
      && r.data.medicamentos == Window(Reverse(OfTipo(meds, id)), Offset(p, l), l)
      && (forall m :: m in r.data.medicamentos ==> m in meds && m.codTipoMed == id)
  {
    match IndexOfTipo(tipos, id)
    case None => Err(NotFound)
    case Some(i) =>
      var p, l := page.GetOr(DefaultPage), limit.GetOr(DefaultLimit);
      var rows := OfTipo(meds, id);
      var shown := Window(Reverse(rows), Offset(p, l), l);
      WindowOfReversed(rows, Offset(p, l), l);
      Ok(200, ByTipoPage(TipoToJson(tipos[i]), shown, PageInfoOf(p, l, |rows|)))
  }

  /** The count the type list shows for a type is the total the type's
      medication list reports, and the number a delete of that type reports. */
  lemma CountsAgree(tipos: seq<TipoMedicamento>, meds: seq<Medicamento>, q: TipoListQuery, k: nat, page: Option<int>, limit: Option<int>)
    requires q.page.GetOr(DefaultPage) >= 1 && q.limit.GetOr(DefaultLimit) > 0
    requires page.GetOr(DefaultPage) >= 1 && limit.GetOr(DefaultLimit) > 0
    requires k < |GetAll(tipos, meds, q).data.tiposMedicamento|
    ensures var row := GetAll(tipos, meds, q).data.tiposMedicamento[k];
            var r := GetMedicamentosByTipo(tipos, meds, row.tipo.id, page, limit);
            && r.Ok?
            && r.data.pagination.totalItems == row.totalMedicamentos == |OfTipo(meds, row.tipo.id)|
  {
    var search := q.search.GetOr("");
    var selected := Filter(tipos, SearchFn(search));
    var shown := Window(Reverse(selected), Offset(q.page.GetOr(DefaultPage), q.limit.GetOr(DefaultLimit)), q.limit.GetOr(DefaultLimit));
    var t := shown[k];
    var j :| 0 <= j < |tipos| && tipos[j] == t;
    assert tipos[j].id == t.id;
  }
}
