/** The medication handlers: the filtered, paged list; lookup by id; create,
    update and delete; the stock adjustment; and the two reports. Each
    handler reads or changes a `Database` and answers a `Reply`. Payload rows
    are records; they are rendered by `ToJson` when the reply is serialised. */
module MedicamentoController {
  import opened Common
  import opened Replies
  import opened MedicamentoModel
  import opened Pagination
  import opened Ordering
  import opened Tables

  // ---------------------------------------------------------------------------
  // The list query and its WHERE clause

  /** The query string of the list endpoint; an absent parameter is `None`.
      `codTipoMed` is `Some` when the parameter is a non-empty string, holding
      the integer it denotes. */
  datatype ListQuery = ListQuery(
    page: Option<int>,
    limit: Option<int>,
    search: Option<string>,
    marca: Option<string>,
    codTipoMed: Option<int>,
    lowStock: Option<string>,
    nearExpiry: Option<string>,
    expired: Option<string>)

  /** One operator object of a WHERE clause, on one column. */
  datatype Condition =
    | Like(pattern: string)          // `%pattern%`, case-sensitive
    | Eq(value: int)
    | Lte(bound: int)
    | Between(low: int, high: int)  // inclusive at both ends
    | Lt(bound: int)

  /** The WHERE object: at most one condition per column. */
  type Where = map<Attribute, Condition>

  /** A string column's value ("" for the other columns). */
  function TextOf(m: Medicamento, a: Attribute): string {
    match a
    case Descripcion => m.descripcion
    case Presentacion => m.presentacion
    case Marca => m.marca
    case _ => ""
  }

  /** A numeric or date column's value (0 for the string columns). */
  function NumberOf(m: Medicamento, a: Attribute): int {
    match a
    case FechaFabricacion => m.fechaFabricacion
    case FechaVencimiento => m.fechaVencimiento
    case Stock => m.stock
    case PrecioVentaUni => m.precioVentaUni
    case PrecioVentaPres => m.precioVentaPres
    case CodTipoMed => m.codTipoMed
    case _ => 0
  }

  predicate Holds(m: Medicamento, a: Attribute, c: Condition) {
    match c
    case Like(p) => Contains(TextOf(m, a), p)
    case Eq(v) => NumberOf(m, a) == v
    case Lte(b) => NumberOf(m, a) <= b
    case Between(lo, hi) => lo <= NumberOf(m, a) <= hi
    case Lt(b) => NumberOf(m, a) < b
  }

  /** A row satisfies a WHERE object when it satisfies every condition in it. */
  predicate Matches(m: Medicamento, w: Where) {
    forall a :: a in w ==> Holds(m, a, w[a])
  }

  function MatchesFn(w: Where): Medicamento -> bool {
    m => Matches(m, w)
  }

  /** `from <= fechaVencimiento <= from + days`, the BETWEEN window of the queries. */
  predicate InWindow(m: Medicamento, from: Instant, days: int) {
    from <= m.fechaVencimiento <= from + days * DayMs
  }

  /** One assignment of the builder, present when its parameter is given. */
  function Clause(given: bool, a: Attribute, c: Condition): seq<(Attribute, Condition)> {
    if given then [(a, c)] else []
  }

  /** The assignments the builder makes, in program order. */
  function Clauses(q: ListQuery, now: Instant): seq<(Attribute, Condition)> {
    Clause(q.search.GetOr("") != "", Descripcion, Like(q.search.GetOr(""))) +
    Clause(q.marca.GetOr("") != "", Marca, Like(q.marca.GetOr(""))) +
    Clause(q.codTipoMed.Some?, CodTipoMed, Eq(q.codTipoMed.GetOr(0))) +
    Clause(q.lowStock == Some("true"), Stock, Lte(LowStockThreshold)) +
    Clause(q.nearExpiry == Some("true"), FechaVencimiento, Between(now, now + NearExpiryDays * DayMs)) +
    Clause(q.expired == Some("true"), FechaVencimiento, Lt(now))
  }

  /** Performs assignments on an object in order; a later one to the same key replaces the earlier. */
  function Assign(w: Where, cs: seq<(Attribute, Condition)>): Where
    decreases |cs|
  {
    if cs == [] then w else Assign(w[cs[0].0 := cs[0].1], cs[1..])
  }

  lemma {:induction false} AssignAppend(w: Where, xs: seq<(Attribute, Condition)>, ys: seq<(Attribute, Condition)>)
    ensures Assign(w, xs + ys) == Assign(Assign(w, xs), ys)
    decreases |xs|
  {
    if xs != [] {
      assert (xs + ys)[1..] == xs[1..] + ys;
      AssignAppend(w[xs[0].0 := xs[0].1], xs[1..], ys);
    } else {
      assert xs + ys == ys;
    }
  }

  /** One conditional assignment. */
  function Put(w: Where, given: bool, a: Attribute, c: Condition): Where {
    if given then w[a := c] else w
  }

  lemma AssignClause(w: Where, given: bool, a: Attribute, c: Condition)
    ensures Assign(w, Clause(given, a, c)) == Put(w, given, a, c)
  {
    if given {
      assert Assign(w, [(a, c)]) == Assign(w[a := c], []);
    }
  }

  /** The WHERE object of a list request. */
  function WhereOf(q: ListQuery, now: Instant): Where {
    Assign(map[], Clauses(q, now))
  }

  /** Folding the assignment list is performing the six conditional assignments in turn. */
  lemma WhereOfSteps(q: ListQuery, now: Instant)
    ensures WhereOf(q, now) ==
      var w1 := Put(map[], q.search.GetOr("") != "", Descripcion, Like(q.search.GetOr("")));
      var w2 := Put(w1, q.marca.GetOr("") != "", Marca, Like(q.marca.GetOr("")));
      var w3 := Put(w2, q.codTipoMed.Some?, CodTipoMed, Eq(q.codTipoMed.GetOr(0)));
      var w4 := Put(w3, q.lowStock == Some("true"), Stock, Lte(LowStockThreshold));
      var w5 := Put(w4, q.nearExpiry == Some("true"), FechaVencimiento, Between(now, now + NearExpiryDays * DayMs));
      Put(w5, q.expired == Some("true"), FechaVencimiento, Lt(now))
  {
    var c1 := Clause(q.search.GetOr("") != "", Descripcion, Like(q.search.GetOr("")));
    var c2 := Clause(q.marca.GetOr("") != "", Marca, Like(q.marca.GetOr("")));
    var c3 := Clause(q.codTipoMed.Some?, CodTipoMed, Eq(q.codTipoMed.GetOr(0)));
    var c4 := Clause(q.lowStock == Some("true"), Stock, Lte(LowStockThreshold));
    var c5 := Clause(q.nearExpiry == Some("true"), FechaVencimiento, Between(now, now + NearExpiryDays * DayMs));
    var c6 := Clause(q.expired == Some("true"), FechaVencimiento, Lt(now));
    var w0: Where := map[];
    AssignAppend(w0, c1 + c2 + c3 + c4 + c5, c6);
    AssignAppend(w0, c1 + c2 + c3 + c4, c5);
    AssignAppend(w0, c1 + c2 + c3, c4);
    AssignAppend(w0, c1 + c2, c3);
    AssignAppend(w0, c1, c2);
    AssignClause(w0, q.search.GetOr("") != "", Descripcion, Like(q.search.GetOr("")));
    var w1 := Assign(w0, c1);
    AssignClause(w1, q.marca.GetOr("") != "", Marca, Like(q.marca.GetOr("")));
    var w2 := Assign(w1, c2);
    AssignClause(w2, q.codTipoMed.Some?, CodTipoMed, Eq(q.codTipoMed.GetOr(0)));
    var w3 := Assign(w2, c3);
    AssignClause(w3, q.lowStock == Some("true"), Stock, Lte(LowStockThreshold));
    var w4 := Assign(w3, c4);
    AssignClause(w4, q.nearExpiry == Some("true"), FechaVencimiento, Between(now, now + NearExpiryDays * DayMs));
    var w5 := Assign(w4, c5);
    AssignClause(w5, q.expired == Some("true"), FechaVencimiento, Lt(now));
  }

  /** Which conditions the WHERE object holds: one per given filter, and on
      the expiry column the `expired` condition when both expiry flags are
      given, because it is assigned last. */
  lemma WhereOfEntries(q: ListQuery, now: Instant)
    ensures var w := WhereOf(q, now);
      && w.Keys <= {Descripcion, Marca, CodTipoMed, Stock, FechaVencimiento}
      && (Descripcion in w <==> q.search.GetOr("") != "")
      && (Descripcion in w ==> w[Descripcion] == Like(q.search.value))
      && (Marca in w <==> q.marca.GetOr("") != "")
      && (Marca in w ==> w[Marca] == Like(q.marca.value))
      && (CodTipoMed in w <==> q.codTipoMed.Some?)
      && (CodTipoMed in w ==> w[CodTipoMed] == Eq(q.codTipoMed.value))
      && (Stock in w <==> q.lowStock == Some("true"))
      && (Stock in w ==> w[Stock] == Lte(LowStockThreshold))
      && (FechaVencimiento in w <==> q.nearExpiry == Some("true") || q.expired == Some("true"))
      && (q.expired == Some("true") ==> w[FechaVencimiento] == Lt(now))
      && (q.nearExpiry == Some("true") && q.expired != Some("true") ==>
            w[FechaVencimiento] == Between(now, now + NearExpiryDays * DayMs))
  {
    WhereOfSteps(q, now);
  }

  /** The filters of a list request, stated on the row directly. */
  predicate ListFilter(q: ListQuery, now: Instant, m: Medicamento) {
    && (q.search.GetOr("") != "" ==> Contains(m.descripcion, q.search.GetOr("")))
    && (q.marca.GetOr("") != "" ==> Contains(m.marca, q.marca.GetOr("")))
    && (q.codTipoMed.Some? ==> m.codTipoMed == q.codTipoMed.value)
    && (q.lowStock == Some("true") ==> IsLowStock(m))
    && (q.expired == Some("true") ==> IsExpired(m, now))
    && (q.nearExpiry == Some("true") && q.expired != Some("true") ==> InWindow(m, now, NearExpiryDays))
  }

  function ListFilterFn(q: ListQuery, now: Instant): Medicamento -> bool {
    m => ListFilter(q, now, m)
  }

  /** A row satisfies the built WHERE object exactly when it passes every given
      filter; the parameters that are absent, empty, or not the string "true"
      constrain nothing. */
  lemma WhereOfMeaning(q: ListQuery, now: Instant, m: Medicamento)
    ensures Matches(m, WhereOf(q, now)) <==> ListFilter(q, now, m)
  {
    WhereOfEntries(q, now);
    var w := WhereOf(q, now);
    if ListFilter(q, now, m) {
      forall a | a in w ensures Holds(m, a, w[a]) {
        assert a in {Descripcion, Marca, CodTipoMed, Stock, FechaVencimiento};
      }
    }
  }

  /** With both `nearExpiry` and `expired` set to "true" the near-expiry window
      is dropped, not intersected: the request means the same as `expired` alone. */
  lemma ExpiredReplacesNearExpiry(q: ListQuery, now: Instant, m: Medicamento)
    requires q.nearExpiry == Some("true") && q.expired == Some("true")
    ensures WhereOf(q, now) == WhereOf(q.(nearExpiry := None), now)
    ensures ListFilter(q, now, m) <==> ListFilter(q.(nearExpiry := None), now, m)
  {
    var q' := q.(nearExpiry := None);
    WhereOfEntries(q, now);
    WhereOfEntries(q', now);
    var w, w' := WhereOf(q, now), WhereOf(q', now);
    assert w.Keys == w'.Keys;
    forall a | a in w ensures w[a] == w'[a] {
      assert a in {Descripcion, Marca, CodTipoMed, Stock, FechaVencimiento};
    }
  }

  /** The imperative builder of the list handler: one conditional assignment per parameter. */
  method BuildWhere(q: ListQuery, now: Instant) returns (w: Where)
    ensures forall m :: Matches(m, w) <==> ListFilter(q, now, m)
    ensures w == WhereOf(q, now)
  {
    w := map[];
    var search := q.search.GetOr("");
    if search != "" {
      w := w[Descripcion := Like(search)];
    }
    var marca := q.marca.GetOr("");
    if marca != "" {
      w := w[Marca := Like(marca)];
    }
    if q.codTipoMed.Some? {
      w := w[CodTipoMed := Eq(q.codTipoMed.value)];
    }
    if q.lowStock == Some("true") {
      w := w[Stock := Lte(LowStockThreshold)];
    }
    if q.nearExpiry == Some("true") {
      w := w[FechaVencimiento := Between(now, now + NearExpiryDays * DayMs)];
    }
    if q.expired == Some("true") {
      w := w[FechaVencimiento := Lt(now)];
    }
    WhereOfSteps(q, now);
    forall m ensures Matches(m, w) <==> ListFilter(q, now, m) {
      WhereOfMeaning(q, now, m);
    }
  }

  // ---------------------------------------------------------------------------
  // GET / and GET /:id

  datatype ListPage = ListPage(medicamentos: seq<Medicamento>, pagination: PageInfo)

  /** The rows a list request selects, in table order. */
  function ListSelection(meds: seq<Medicamento>, q: ListQuery, now: Instant): seq<Medicamento> {
    Filter(meds, ListFilterFn(q, now))
  }

  /** Newest first: rows are appended as they are created, so descending
      creation time is reverse table order. */
  function NewestFirst(meds: seq<Medicamento>): seq<Medicamento> {
    Reverse(meds)
  }

  /** The list handler: the selected rows newest first, the requested page of
      them, and the page count over all selected rows. */
  method GetAll(db: Database, q: ListQuery, now: Instant) returns (r: Reply<ListPage>)
    requires q.page.GetOr(DefaultPage) >= 1 && q.limit.GetOr(DefaultLimit) > 0
    ensures r.Ok? && r.status == 200
    ensures var page, limit := q.page.GetOr(DefaultPage), q.limit.GetOr(DefaultLimit);
            var selected := ListSelection(db.medicamentos, q, now);
            && r.data.medicamentos == Window(NewestFirst(selected), Offset(page, limit), limit)
            && r.data.pagination == PageInfoOf(page, limit, |selected|)
    ensures forall m :: m in r.data.medicamentos ==> m in db.medicamentos && ListFilter(q, now, m)
  {
    var page := q.page.GetOr(DefaultPage);
    var limit := q.limit.GetOr(DefaultLimit);
    var offset := Offset(page, limit);
    var w := BuildWhere(q, now);
    FilterAgree(db.medicamentos, MatchesFn(w), ListFilterFn(q, now));
    var selected := Filter(db.medicamentos, MatchesFn(w));
    var rows := Window(NewestFirst(selected), offset, limit);
    r := Ok(200, ListPage(rows, PageInfoOf(page, limit, |selected|)));
    WindowOfReversed(selected, offset, limit);
  }

  /** `findByPk`, 404 when absent. */
  function GetById(meds: seq<Medicamento>, id: int): (r: Reply<Medicamento>)
    ensures r.Ok? <==> exists i :: 0 <= i < |meds| && meds[i].id == id
    ensures r.Ok? ==> r.status == 200 && r.data.id == id && r.data in meds
    ensures r.Err? ==> r.error == NotFound && r.Status() == 404
  {
    match IndexOfMedicamento(meds, id)
    case None => Err(NotFound)
    case Some(i) => Ok(200, meds[i])
  }

  // ---------------------------------------------------------------------------
  // POST /, PUT /:id, DELETE /:id

  /** The body of a create request as the handler reads it. Prices are cents. */
  datatype NewMedicamento = NewMedicamento(
    descripcion: string,
    fechaFabricacion: Instant,
    fechaVencimiento: Instant,
    presentacion: string,
    stock: Option<int>,
    precioVentaUni: int,
    precioVentaPres: int,
    marca: string,
    codTipoMed: int)

  /** The row a create writes: the body's values, stock 0 when absent, both timestamps `now`. */
  function NewRecord(b: NewMedicamento, id: int, now: Instant): Medicamento {
    Medicamento(id, b.descripcion, b.fechaFabricacion, b.fechaVencimiento, b.presentacion,
                b.stock.GetOr(0), b.precioVentaUni, b.precioVentaPres, b.marca, b.codTipoMed, now, now)
  }

  /** Create: unknown type first, then every attribute validator, then the insert. */
  method Create(db: Database, b: NewMedicamento, now: Instant) returns (r: Reply<Medicamento>)
    requires db.Valid()
    modifies db
    ensures db.Valid()
    ensures db.tipos == old(db.tipos) && db.nextTipoId == old(db.nextTipoId)
    ensures var rec := NewRecord(b, old(db.nextMedicamentoId), now);
            var errors := RecordErrors(rec, AllAttributes, db.loadDate);
            if !TipoExists(db.tipos, b.codTipoMed) then
              r == Err(UnknownTipo) && db.medicamentos == old(db.medicamentos) && db.nextMedicamentoId == old(db.nextMedicamentoId)
            else if errors != [] then
              r == Err(Validation(errors)) && db.medicamentos == old(db.medicamentos) && db.nextMedicamentoId == old(db.nextMedicamentoId)
            else
              && r == Ok(201, rec)
              && db.medicamentos == old(db.medicamentos) + [rec]
              && db.nextMedicamentoId == old(db.nextMedicamentoId) + 1
  {
    if !TipoExists(db.tipos, b.codTipoMed) {
      return Err(UnknownTipo);
    }
    var rec := NewRecord(b, db.nextMedicamentoId, now);
    var errors := RecordErrors(rec, AllAttributes, db.loadDate);
    if errors != [] {
      return Err(Validation(errors));
    }
    RecordErrorsEmptyIff(rec, db.loadDate);
    db.InsertMedicamento(rec);
    r := Ok(201, rec);
  }

  /** A created row reads back by its id with the body's values. */
  lemma CreatedReadsBack(meds: seq<Medicamento>, b: NewMedicamento, id: int, now: Instant)
    requires forall i :: 0 <= i < |meds| ==> meds[i].id < id
    ensures var r := GetById(meds + [NewRecord(b, id, now)], id);
      && r.Ok?
      && r.data.descripcion == b.descripcion && r.data.presentacion == b.presentacion && r.data.marca == b.marca
      && r.data.fechaFabricacion == b.fechaFabricacion && r.data.fechaVencimiento == b.fechaVencimiento
      && r.data.stock == b.stock.GetOr(0) && r.data.codTipoMed == b.codTipoMed
      && r.data.precioVentaUni == b.precioVentaUni && r.data.precioVentaPres == b.precioVentaPres
  {
    var s := meds + [NewRecord(b, id, now)];
    assert s[|meds|].id == id;
    var i := IndexOfMedicamento(s, id).value;
    assert i == |meds|;
  }

  /** The body of an update request: every key optional. */
  datatype MedicamentoPatch = MedicamentoPatch(
    descripcion: Option<string>,
    fechaFabricacion: Option<Instant>,
    fechaVencimiento: Option<Instant>,
    presentacion: Option<string>,
    stock: Option<int>,
    precioVentaUni: Option<int>,
    precioVentaPres: Option<int>,
    marca: Option<string>,
    codTipoMed: Option<int>)

  /** The row with the given keys of the patch set. */
  function Patched(m: Medicamento, p: MedicamentoPatch): Medicamento {
    m.(descripcion := p.descripcion.GetOr(m.descripcion),
       fechaFabricacion := p.fechaFabricacion.GetOr(m.fechaFabricacion),
       fechaVencimiento := p.fechaVencimiento.GetOr(m.fechaVencimiento),
       presentacion := p.presentacion.GetOr(m.presentacion),
       stock := p.stock.GetOr(m.stock),
       precioVentaUni := p.precioVentaUni.GetOr(m.precioVentaUni),
       precioVentaPres := p.precioVentaPres.GetOr(m.precioVentaPres),
       marca := p.marca.GetOr(m.marca),
       codTipoMed := p.codTipoMed.GetOr(m.codTipoMed))
  }

  /** The attributes whose value differs: the ones a save writes and validates. */
  function Changed(m: Medicamento, m': Medicamento): (c: set<Attribute>)
    ensures forall a :: a !in c ==> TextOf(m, a) == TextOf(m', a) && NumberOf(m, a) == NumberOf(m', a)
  {
    set a | a in AllAttributes && (TextOf(m, a) != TextOf(m', a) || NumberOf(m, a) != NumberOf(m', a))
  }

  /** The row an update leaves: patched, and `updatedAt` renewed only when a value changed. */
  function Updated(m: Medicamento, p: MedicamentoPatch, now: Instant): Medicamento {
    var m' := Patched(m, p);
    if Changed(m, m') == {} then m else m'.(updatedAt := now)
  }

  /** The validation of an update as the record model does it: only the changed
      attributes are validated, so the expiry-after-manufacture rule, declared
      on `fechaVencimiento`, does not run when only `fechaFabricacion` changes. */
  function UpdateErrorsAsWritten(m: Medicamento, p: MedicamentoPatch, loadDate: Instant): seq<FieldError> {
    var m' := Patched(m, p);
    RecordErrors(m', Changed(m, m'), loadDate)
  }

  /** The date order checked on the row as it will be stored, also when only
      the manufacture date changes. */
  function UpdateErrors(m: Medicamento, p: MedicamentoPatch, loadDate: Instant): seq<FieldError> {
    var m' := Patched(m, p);
    UpdateErrorsAsWritten(m, p, loadDate) +
    (if FechaVencimiento !in Changed(m, m') && m'.fechaVencimiento <= m'.fechaFabricacion
     then [FieldError("fechaVencimiento", IsAfterFabricacion)] else [])
  }

  /** A row whose changed attributes pass their validators, whose other
      attributes are those of a row meeting the bounds, and whose date order
      holds when the expiry date is not among the changed, meets the bounds. */
  lemma ValidatedOrKept(m: Medicamento, m': Medicamento, c: set<Attribute>, loadDate: Instant)
    requires StoredInvariant(m)
    requires RecordErrors(m', c, loadDate) == []
    requires forall a :: a !in c ==> TextOf(m, a) == TextOf(m', a) && NumberOf(m, a) == NumberOf(m', a)
    requires FechaVencimiento !in c ==> m'.fechaVencimiento > m'.fechaFabricacion
    ensures StoredInvariant(m')
  {
    ErrorsOverEmpty(m', Attributes, c, loadDate);
    assert 1 <= |m'.descripcion| <= 500 && !Blank(m'.descripcion) by {
      if Descripcion in c {
        assert Attributes[0] == Descripcion;
      } else {
        assert TextOf(m, Descripcion) == TextOf(m', Descripcion);
      }
    }
    assert 1 <= |m'.presentacion| <= 100 && !Blank(m'.presentacion) by {
      if Presentacion in c {
        assert Attributes[3] == Presentacion;
      } else {
        assert TextOf(m, Presentacion) == TextOf(m', Presentacion);
      }
    }
    assert 1 <= |m'.marca| <= 100 && !Blank(m'.marca) by {
      if Marca in c {
        assert Attributes[7] == Marca;
      } else {
        assert TextOf(m, Marca) == TextOf(m', Marca);
      }
    }
    assert m'.stock >= 0 by {
      if Stock in c {
        assert Attributes[4] == Stock;
      } else {
        assert NumberOf(m, Stock) == NumberOf(m', Stock);
      }
    }
    assert m'.precioVentaUni >= 0 by {
      if PrecioVentaUni in c {
        assert Attributes[5] == PrecioVentaUni;
      } else {
        assert NumberOf(m, PrecioVentaUni) == NumberOf(m', PrecioVentaUni);
      }
    }
    assert m'.precioVentaPres >= 0 by {
      if PrecioVentaPres in c {
        assert Attributes[6] == PrecioVentaPres;
      } else {
        assert NumberOf(m, PrecioVentaPres) == NumberOf(m', PrecioVentaPres);
      }
    }
    assert m'.fechaVencimiento > m'.fechaFabricacion by {
      if FechaVencimiento in c {
        assert Attributes[2] == FechaVencimiento;
        assert AttributeErrors(m', FechaVencimiento, loadDate) == [];
      }
    }
  }

  /** An update that passes validation stores a row that meets the record bounds. */
  lemma UpdateKeepsInvariant(m: Medicamento, p: MedicamentoPatch, loadDate: Instant)
    requires StoredInvariant(m)
    requires UpdateErrors(m, p, loadDate) == []
    ensures StoredInvariant(Patched(m, p))
  {
    var m' := Patched(m, p);
    var c := Changed(m, m');
    assert RecordErrors(m', c, loadDate) == [];
    ValidatedOrKept(m, m', c, loadDate);
  }

  /** The row an accepted update stores keeps its id and meets the record bounds. */
  lemma UpdatedKeepsInvariant(m: Medicamento, p: MedicamentoPatch, now: Instant, loadDate: Instant)
    requires StoredInvariant(m)
    requires UpdateErrors(m, p, loadDate) == []
    ensures Updated(m, p, now).id == m.id && StoredInvariant(Updated(m, p, now))
  {
    UpdateKeepsInvariant(m, p, loadDate);
  }

  /** A stored row that expired on day 10, made on day 0, and a patch that
      moves only its manufacture date to day 15. */
  const ExpiredRow := Medicamento(1, "Ibuprofeno", 0, 10 * DayMs, "Caja", 5, 100, 1000, "Genfar", 1, 0, 0)
  const LateFabricacion := MedicamentoPatch(None, Some(15 * DayMs), None, None, None, None, None, None, None)

  lemma ExpiredRowStored()
    ensures StoredInvariant(ExpiredRow)
  {
    var m := ExpiredRow;
    assert m.descripcion[0] == 'I' && m.presentacion[0] == 'C' && m.marca[0] == 'G';
  }

  lemma LateFabricacionChangesOnlyIt()
    ensures Patched(ExpiredRow, LateFabricacion) == ExpiredRow.(fechaFabricacion := 15 * DayMs)
    ensures Changed(ExpiredRow, Patched(ExpiredRow, LateFabricacion)) == {FechaFabricacion}
  {
    var m, m' := ExpiredRow, Patched(ExpiredRow, LateFabricacion);
    assert m' == m.(fechaFabricacion := 15 * DayMs);
    forall a ensures a in Changed(m, m') <==> a == FechaFabricacion {
      match a
      case FechaFabricacion =>
        assert NumberOf(m, a) != NumberOf(m', a);
      case _ =>
    }
  }

  /** Validating the changed attributes alone lets an update store an expiry
      date that is not after the manufacture date: moving the manufacture date
      of a record that expired before the server started (day 20) past its
      expiry. */
  lemma AsWrittenUpdateStoresInvertedDates()
    ensures var loadDate := 20 * DayMs;
      && StoredInvariant(ExpiredRow)
      && UpdateErrorsAsWritten(ExpiredRow, LateFabricacion, loadDate) == []
      && !StoredInvariant(Patched(ExpiredRow, LateFabricacion))
      && UpdateErrors(ExpiredRow, LateFabricacion, loadDate) != []
  {
    ExpiredRowStored();
    LateFabricacionChangesOnlyIt();
    var m' := Patched(ExpiredRow, LateFabricacion);
    assert Attributes[1] == FechaFabricacion;
    ErrorsOverNone(m', Attributes, {FechaFabricacion}, 20 * DayMs);
  }

  /** Update: 404; an unknown non-zero type; the validators; the foreign key
      (a type 0 skips the handler's check and fails at the database); then the write. */
  method Update(db: Database, id: int, p: MedicamentoPatch, now: Instant) returns (r: Reply<Medicamento>)
    requires db.Valid()
    modifies db
    ensures db.Valid()
    ensures db.tipos == old(db.tipos) && db.nextTipoId == old(db.nextTipoId)
    ensures db.nextMedicamentoId == old(db.nextMedicamentoId)
    ensures match IndexOfMedicamento(old(db.medicamentos), id)
      case None => r == Err(NotFound) && db.medicamentos == old(db.medicamentos)
      case Some(i) =>
        var m := old(db.medicamentos)[i];
        var m' := Updated(m, p, now);
        var errors := UpdateErrors(m, p, db.loadDate);
        if p.codTipoMed.Some? && p.codTipoMed.value != 0 && !TipoExists(db.tipos, p.codTipoMed.value) then
          r == Err(UnknownTipo) && db.medicamentos == old(db.medicamentos)
        else if errors != [] then
          r == Err(Validation(errors)) && db.medicamentos == old(db.medicamentos)
        else if !TipoExists(db.tipos, m'.codTipoMed) then
          r == Err(UnknownTipo) && db.medicamentos == old(db.medicamentos)
        else
          r == Ok(200, m') && db.medicamentos == old(db.medicamentos)[i := m']
  {
    var found := IndexOfMedicamento(db.medicamentos, id);
    if found.None? {
      return Err(NotFound);
    }
    var i := found.value;
    var m := db.medicamentos[i];
    if p.codTipoMed.Some? && p.codTipoMed.value != 0 && !TipoExists(db.tipos, p.codTipoMed.value) {
      return Err(UnknownTipo);
    }
    var errors := UpdateErrors(m, p, db.loadDate);
    if errors != [] {
      return Err(Validation(errors));
    }
    var m' := Updated(m, p, now);
    if !TipoExists(db.tipos, m'.codTipoMed) {
      return Err(UnknownTipo);
    }
    UpdatedKeepsInvariant(m, p, now, db.loadDate);
    db.ReplaceMedicamento(i, m');
    r := Ok(200, m');
  }

  /** Delete: 404, or the row is removed and nothing else changes. */
  method Delete(db: Database, id: int) returns (r: Reply<()>)
    requires db.Valid()
    modifies db
    ensures db.Valid()
    ensures db.tipos == old(db.tipos) && db.nextTipoId == old(db.nextTipoId)
    ensures db.nextMedicamentoId == old(db.nextMedicamentoId)
    ensures match IndexOfMedicamento(old(db.medicamentos), id)
      case None => r == Err(NotFound) && db.medicamentos == old(db.medicamentos)
      case Some(i) => r == Ok(200, ()) && db.medicamentos == old(db.medicamentos)[..i] + old(db.medicamentos)[i + 1..]
  {
    var found := IndexOfMedicamento(db.medicamentos, id);
    if found.None? {
      return Err(NotFound);
    }
    var i := found.value;
    db.RemoveMedicamento(i);
    r := Ok(200, ());
  }

  /** After a delete the id is no longer found. */
  lemma DeletedNotFound(meds: seq<Medicamento>, i: nat)
    requires i < |meds|
    requires forall a, b :: 0 <= a < b < |meds| ==> meds[a].id != meds[b].id
    ensures GetById(meds[..i] + meds[i + 1..], meds[i].id) == Err(NotFound)
  {
    var s := meds[..i] + meds[i + 1..];
    forall k | 0 <= k < |s| ensures s[k].id != meds[i].id {
      if k < i {
        assert s[k] == meds[k];
      } else {
        assert s[k] == meds[k + 1];
      }
    }
  }

  // ---------------------------------------------------------------------------
  // PUT /:id/stock

  /** The cases of the handler's switch on `operation`; any value other than
      "add" and "subtract" falls through to the `set` case. */
  datatype StockOperation = Add | Subtract | SetTo

  function OperationOf(operation: string): StockOperation {
    if operation == "add" then Add
    else if operation == "subtract" then Subtract
    else SetTo
  }

  /** The stock after an operation, or `None` when a subtraction would go below
      zero. Setting puts the amount in place of the stock. */
  function StockAfter(current: int, amount: int, op: StockOperation): (r: Option<int>)
    ensures r.None? <==> op == Subtract && amount > current
    ensures op == Subtract && r.Some? ==> r.value >= 0 && r.value + amount == current
    ensures op == Add ==> r.Some? && r.value - current == amount
    ensures op == SetTo ==> r == Some(amount)
  {
    match op
    case Add => Some(current + amount)
    case Subtract => if current - amount < 0 then None else Some(current - amount)
    case SetTo => Some(amount)
  }

  /** The `data` of a stock reply. */
  datatype StockReport = StockReport(id: int, stockAnterior: int, stockNuevo: int, operacion: string)

  /** The report as the handler builds it: `stockAnterior` is read from the
      record after the update has written the new stock. */
  function StockReportAsWritten(after: Medicamento, newStock: int, operation: string): StockReport {
    StockReport(after.id, after.stock, newStock, operation)
  }

  /** As built, the report never shows the previous stock: for stock 100 and
      "add" 5 it reports 105 as both the previous and the new stock. */
  lemma StockReportAsWrittenLosesPrevious(m: Medicamento, amount: int, operation: string)
    requires StockAfter(m.stock, amount, OperationOf(operation)).Some?
    ensures var n := StockAfter(m.stock, amount, OperationOf(operation)).value;
            var rep := StockReportAsWritten(m.(stock := n), n, operation);
            rep.stockAnterior == rep.stockNuevo
    ensures var m0 := m.(stock := 100);
            StockReportAsWritten(m0.(stock := 105), StockAfter(100, 5, Add).value, "add").stockAnterior != m0.stock
  {
  }

  /** The stock handler. A subtraction below zero is refused with 400; an
      addition or a set that leaves a negative stock fails the record
      validator, which only the generic handler catches (500). */
  method UpdateStock(db: Database, id: int, amount: int, operation: Option<string>, now: Instant)
    returns (r: Reply<StockReport>)
    requires db.Valid()
    modifies db
    ensures db.Valid()
    ensures db.tipos == old(db.tipos) && db.nextTipoId == old(db.nextTipoId)
    ensures db.nextMedicamentoId == old(db.nextMedicamentoId)
    ensures var op := operation.GetOr("set");
      match IndexOfMedicamento(old(db.medicamentos), id)
      case None => r == Err(NotFound) && db.medicamentos == old(db.medicamentos)
      case Some(i) =>
        var m := old(db.medicamentos)[i];
        match StockAfter(m.stock, amount, OperationOf(op))
        case None => r == Err(NegativeStock) && db.medicamentos == old(db.medicamentos)
        case Some(n) =>
          if n < 0 then
            r == Err(Internal) && db.medicamentos == old(db.medicamentos)
          else
            && r == Ok(200, StockReport(m.id, m.stock, n, op))
            && db.medicamentos == old(db.medicamentos)[i := if n == m.stock then m else m.(stock := n, updatedAt := now)]
  {
    var found := IndexOfMedicamento(db.medicamentos, id);
    if found.None? {
      return Err(NotFound);
    }
    var i := found.value;
    var m := db.medicamentos[i];
    var op := operation.GetOr("set");
    var newStock: int;
    match OperationOf(op) {
      case Add =>
        newStock := m.stock + amount;
      case Subtract =>
        newStock := m.stock - amount;
        if newStock < 0 {
          return Err(NegativeStock);
        }
      case SetTo =>
        newStock := amount;
    }
    if newStock < 0 {
      return Err(Internal);
    }
    if newStock != m.stock {
      assert StoredInvariant(m) && TipoExists(db.tipos, m.codTipoMed);
      db.ReplaceMedicamento(i, m.(stock := newStock, updatedAt := now));
    }
    r := Ok(200, StockReport(m.id, m.stock, newStock, op));
  }

  // ---------------------------------------------------------------------------
  // GET /reportes/dashboard

  datatype Estadisticas = Estadisticas(
    totalMedicamentos: nat,
    stockBajo: nat,
    proximosVencer: nat,
    vencidos: nat,
    valorInventario: int)

  /** A row of the low-stock top list: the four projected columns. */
  datatype StockRow = StockRow(id: int, descripcion: string, stock: int, marca: string)

  datatype Dashboard = Dashboard(estadisticas: Estadisticas, topLowStock: seq<StockRow>)

  function LowStockFn(): Medicamento -> bool {
    m => IsLowStock(m)
  }

  function InWindowFn(from: Instant, days: int): Medicamento -> bool {
    m => InWindow(m, from, days)
  }

  function ExpiredFn(today: Instant): Medicamento -> bool {
    m => IsExpired(m, today)
  }

  /** SUM(precioVentaUni), 0 for an empty table. */
  function SumPrecioVentaUni(meds: seq<Medicamento>): int {
    if meds == [] then 0 else meds[0].precioVentaUni + SumPrecioVentaUni(meds[1..])
  }

  /** The inventory value is the plain sum of unit prices: it adds over
      concatenation and does not weigh a row by its stock. */
  lemma {:induction false} InventoryValueAdds(a: seq<Medicamento>, b: seq<Medicamento>)
    ensures SumPrecioVentaUni(a + b) == SumPrecioVentaUni(a) + SumPrecioVentaUni(b)
  {
    if a != [] {
      assert (a + b)[0] == a[0];
      assert (a + b)[1..] == a[1..] + b;
      InventoryValueAdds(a[1..], b);
    } else {
      assert a + b == b;
    }
  }

  lemma {:induction false} InventoryValueIgnoresStock(a: seq<Medicamento>, b: seq<Medicamento>)
    requires |a| == |b|
    requires forall i :: 0 <= i < |a| ==> a[i].precioVentaUni == b[i].precioVentaUni
    ensures SumPrecioVentaUni(a) == SumPrecioVentaUni(b)
  {
    if a != [] {
      InventoryValueIgnoresStock(a[1..], b[1..]);
    }
  }

  /** The five rows of least stock, fewest first; no row left out has less stock. */
  function TopLowStock(meds: seq<Medicamento>): (top: seq<Medicamento>)
    ensures |top| == Min(5, |meds|)
    ensures forall i, j :: 0 <= i < j < |top| ==> top[i].stock <= top[j].stock
    ensures multiset(top) <= multiset(meds)
    ensures forall x, y :: x in top && y in multiset(meds) - multiset(top) ==> x.stock <= y.stock
  {
    var top := Smallest(meds, StockAsc, 5);
    assert forall x :: KeyOf(x, StockAsc) == x.stock;
    top
  }

  function StockRowOf(m: Medicamento): StockRow {
    StockRow(m.id, m.descripcion, m.stock, m.marca)
  }

  /** Each filtered count of the dashboard is the number of positions whose
      row meets the condition. */
  lemma SelectionCounts(meds: seq<Medicamento>, today: Instant)
    ensures |Filter(meds, LowStockFn())| == |set i | 0 <= i < |meds| && IsLowStock(meds[i])|
    ensures |Filter(meds, InWindowFn(today, NearExpiryDays))| ==
            |set i | 0 <= i < |meds| && InWindow(meds[i], today, NearExpiryDays)|
    ensures |Filter(meds, ExpiredFn(today))| == |set i | 0 <= i < |meds| && IsExpired(meds[i], today)|
  {
    LowStockCount(meds);
    NearExpiryCount(meds, today);
    ExpiredCount(meds, today);
  }

  lemma LowStockCount(meds: seq<Medicamento>)
    ensures |Filter(meds, LowStockFn())| == |set i | 0 <= i < |meds| && IsLowStock(meds[i])|
  {
    assert IndicesWhere(meds, LowStockFn(), |meds|) == set i | 0 <= i < |meds| && IsLowStock(meds[i]);
    FilterCount(meds, LowStockFn());
  }

  lemma NearExpiryCount(meds: seq<Medicamento>, today: Instant)
    ensures |Filter(meds, InWindowFn(today, NearExpiryDays))| ==
            |set i | 0 <= i < |meds| && InWindow(meds[i], today, NearExpiryDays)|
  {
    assert IndicesWhere(meds, InWindowFn(today, NearExpiryDays), |meds|) ==
           set i | 0 <= i < |meds| && InWindow(meds[i], today, NearExpiryDays);
    FilterCount(meds, InWindowFn(today, NearExpiryDays));
  }

  lemma ExpiredCount(meds: seq<Medicamento>, today: Instant)
    ensures |Filter(meds, ExpiredFn(today))| == |set i | 0 <= i < |meds| && IsExpired(meds[i], today)|
  {
    assert IndicesWhere(meds, ExpiredFn(today), |meds|) == set i | 0 <= i < |meds| && IsExpired(meds[i], today);
    FilterCount(meds, ExpiredFn(today));
  }

  /** The counters of the dashboard at instant `today`: the rows of low stock,
      the rows expiring in the next 30 days (today included), the rows
      already expired, and the sum of unit prices. */
  function StatsOf(meds: seq<Medicamento>, today: Instant): (e: Estadisticas)
    ensures e.totalMedicamentos == |meds|
    ensures e.stockBajo == |set i | 0 <= i < |meds| && IsLowStock(meds[i])|
    ensures e.proximosVencer == |set i | 0 <= i < |meds| && InWindow(meds[i], today, NearExpiryDays)|
    ensures e.vencidos == |set i | 0 <= i < |meds| && IsExpired(meds[i], today)|
    ensures e.stockBajo <= |meds|
    ensures e.proximosVencer + e.vencidos <= |meds|
    ensures e.valorInventario == SumPrecioVentaUni(meds)
  {
    var proximos := Filter(meds, InWindowFn(today, NearExpiryDays));
    var vencidos := Filter(meds, ExpiredFn(today));
    FilterDisjointCounts(meds, InWindowFn(today, NearExpiryDays), ExpiredFn(today));
    SelectionCounts(meds, today);
    Estadisticas(|meds|, |Filter(meds, LowStockFn())|, |proximos|, |vencidos|, SumPrecioVentaUni(meds))
  }

  /** The projected rows of the five rows of least stock, fewest first. */
  function TopLowStockRows(meds: seq<Medicamento>): (rows: seq<StockRow>)
    ensures |rows| == Min(5, |meds|)
    ensures forall i, j :: 0 <= i < j < |rows| ==> rows[i].stock <= rows[j].stock
    ensures forall k :: 0 <= k < |rows| ==> rows[k] == StockRowOf(TopLowStock(meds)[k])
  {
    var top := TopLowStock(meds);
    seq(|top|, k requires 0 <= k < |top| => StockRowOf(top[k]))
  }

  /** The dashboard at instant `today`. */
  function GetDashboard(meds: seq<Medicamento>, today: Instant): (d: Dashboard)
    ensures d.estadisticas.totalMedicamentos == |meds|
    ensures d.estadisticas.stockBajo == |set i | 0 <= i < |meds| && IsLowStock(meds[i])|
    ensures d.estadisticas.proximosVencer == |set i | 0 <= i < |meds| && InWindow(meds[i], today, NearExpiryDays)|
    ensures d.estadisticas.vencidos == |set i | 0 <= i < |meds| && IsExpired(meds[i], today)|
    ensures d.estadisticas.stockBajo <= |meds|
    ensures d.estadisticas.proximosVencer + d.estadisticas.vencidos <= |meds|
    ensures d.estadisticas.valorInventario == SumPrecioVentaUni(meds)
    ensures |d.topLowStock| == Min(5, |meds|)
    ensures forall i, j :: 0 <= i < j < |d.topLowStock| ==> d.topLowStock[i].stock <= d.topLowStock[j].stock
    ensures forall k :: 0 <= k < |d.topLowStock| ==> d.topLowStock[k] == StockRowOf(TopLowStock(meds)[k])
  {
    Dashboard(StatsOf(meds, today), TopLowStockRows(meds))
  }

  /** The dashboard's near-expiry window includes today itself; the record's
      `isNearExpiry` flag does not. Otherwise they agree. */
  lemma DashboardWindowVsFlag(m: Medicamento, today: Instant)
    ensures InWindow(m, today, NearExpiryDays) <==> IsNearExpiry(m, today) || m.fechaVencimiento == today
  {
    NearExpiryWindow(m, today);
  }

  /** A row meeting a condition makes its count positive: its position is in
      the set whose size `StatsOf` gives as that count. */
  lemma DashboardCounts(meds: seq<Medicamento>, today: Instant, m: Medicamento)
    requires m in meds
    ensures var d := GetDashboard(meds, today).estadisticas;
      && (IsLowStock(m) ==> d.stockBajo > 0)
      && (InWindow(m, today, NearExpiryDays) ==> d.proximosVencer > 0)
      && (IsExpired(m, today) ==> d.vencidos > 0)
  {
    var k :| 0 <= k < |meds| && meds[k] == m;
    if IsLowStock(m) {
      assert k in set i | 0 <= i < |meds| && IsLowStock(meds[i]);
    }
    if InWindow(m, today, NearExpiryDays) {
      assert k in set i | 0 <= i < |meds| && InWindow(meds[i], today, NearExpiryDays);
    }
    if IsExpired(m, today) {
      assert k in set i | 0 <= i < |meds| && IsExpired(meds[i], today);
    }
  }

  // ---------------------------------------------------------------------------
  // GET /reportes/vencimientos

  datatype Parametros = Parametros(diasConsultados: int, fechaConsulta: Instant)

  datatype ExpiryReport = ExpiryReport(proximosVencer: seq<Medicamento>, vencidos: seq<Medicamento>, parametros: Parametros)

  /** The rows expiring within `d` days of `today`, soonest first. */
  function ProximosVencer(meds: seq<Medicamento>, today: Instant, d: int): (rows: seq<Medicamento>)
    ensures forall m :: m in rows <==> m in meds && today <= m.fechaVencimiento <= today + d * DayMs
    ensures forall i, j :: 0 <= i < j < |rows| ==> rows[i].fechaVencimiento <= rows[j].fechaVencimiento
    ensures multiset(rows) <= multiset(meds)
    ensures multiset(rows) == multiset(Filter(meds, InWindowFn(today, d)))
  {
    var selected := Filter(meds, InWindowFn(today, d));
    SortByMembers(selected, FechaVencimientoAsc);
    SortBy(selected, FechaVencimientoAsc)
  }

  /** The rows expired before `today`, most recently expired first. */
  function Vencidos(meds: seq<Medicamento>, today: Instant): (rows: seq<Medicamento>)
    ensures forall m :: m in rows <==> m in meds && m.fechaVencimiento < today
    ensures forall i, j :: 0 <= i < j < |rows| ==> rows[i].fechaVencimiento >= rows[j].fechaVencimiento
    ensures multiset(rows) <= multiset(meds)
    ensures multiset(rows) == multiset(Filter(meds, ExpiredFn(today)))
  {
    var selected := Filter(meds, ExpiredFn(today));
    SortByMembers(selected, FechaVencimientoDesc);
    var rows := SortBy(selected, FechaVencimientoDesc);
    assert forall i, j :: 0 <= i < j < |rows| ==> KeyOf(rows[i], FechaVencimientoDesc) <= KeyOf(rows[j], FechaVencimientoDesc);
    rows
  }

  /** The expiry report for a horizon of `dias` days, 30 when absent; the
      horizon is echoed with the instant of the query. */
  function GetVencimientos(meds: seq<Medicamento>, dias: Option<int>, today: Instant): (rep: ExpiryReport)
    ensures rep.parametros == Parametros(dias.GetOr(30), today)
    ensures rep.proximosVencer == ProximosVencer(meds, today, dias.GetOr(30))
    ensures rep.vencidos == Vencidos(meds, today)
  {
    var d := dias.GetOr(30);
    ExpiryReport(ProximosVencer(meds, today, d), Vencidos(meds, today), Parametros(d, today))
  }

  /** No row is in both lists of the expiry report, and together they are no
      more rows than the table has. */
  lemma VencimientosDisjoint(meds: seq<Medicamento>, dias: Option<int>, today: Instant)
    ensures var rep := GetVencimientos(meds, dias, today);
      && (forall m :: !(m in rep.proximosVencer && m in rep.vencidos))
      && |rep.proximosVencer| + |rep.vencidos| <= |meds|
  {
    var d := dias.GetOr(30);
    var rep := GetVencimientos(meds, dias, today);
    FilterDisjointCounts(meds, InWindowFn(today, d), ExpiredFn(today));
    assert multiset(rep.proximosVencer) <= multiset(Filter(meds, InWindowFn(today, d)));
  }
}
