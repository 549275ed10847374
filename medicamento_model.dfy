/** The medication record: its stored fields, the three classifications
    computed from it at read time, its JSON rendering, and the attribute
    validators the record model runs before a write. */
module MedicamentoModel {
  import opened Common
  import opened Replies

  /** A stored medication. Dates are instants, prices integer cents. */
  datatype Medicamento = Medicamento(
    id: int,
    descripcion: string,
    fechaFabricacion: Instant,
    fechaVencimiento: Instant,
    presentacion: string,
    stock: int,
    precioVentaUni: int,
    precioVentaPres: int,
    marca: string,
    codTipoMed: int,
    createdAt: Instant,
    updatedAt: Instant)

  /** Default threshold of `isLowStock`, and the fixed one of the queries. */
  const LowStockThreshold: int := 10

  /** Horizon, in days, of `isNearExpiry`. */
  const NearExpiryDays: int := 30

  // ---------------------------------------------------------------------------
  // Classification

  predicate IsExpired(m: Medicamento, now: Instant) {
    m.fechaVencimiento < now
  }

  /** Whole days until expiry, rounded up. */
  function DaysToExpiry(m: Medicamento, now: Instant): int {
    CeilDiv(m.fechaVencimiento - now, DayMs)
  }

  predicate IsNearExpiry(m: Medicamento, now: Instant) {
    var diffDays := DaysToExpiry(m, now);
    diffDays <= NearExpiryDays && diffDays > 0
  }

  predicate IsLowStock(m: Medicamento, threshold: int := LowStockThreshold) {
    m.stock <= threshold
  }

  /** Rounding up to whole days changes nothing: near expiry means expiring
      after now and at most 30 days of milliseconds ahead. */
  lemma NearExpiryWindow(m: Medicamento, now: Instant)
    ensures IsNearExpiry(m, now) <==> 0 < m.fechaVencimiento - now <= NearExpiryDays * DayMs
  {
    var x := m.fechaVencimiento - now;
    var d := DaysToExpiry(m, now);
    assert (d - 1) * DayMs < x <= d * DayMs;
    if d > 0 {
      MulMonotone(0, d - 1, DayMs);
    }
    if x > 0 && d <= 0 {
      MulMonotone(d, 0, DayMs);
    }
    if d <= NearExpiryDays {
      MulMonotone(d, NearExpiryDays, DayMs);
    }
    if x <= NearExpiryDays * DayMs {
      CeilDivLeast(x, DayMs, NearExpiryDays);
    }
  }

  /** Expired and near expiry never hold together; expiring exactly now is neither. */
  lemma ExpiryFlagsExclusive(m: Medicamento, now: Instant)
    ensures !(IsExpired(m, now) && IsNearExpiry(m, now))
    ensures m.fechaVencimiento == now ==> !IsExpired(m, now) && !IsNearExpiry(m, now)
  {
    NearExpiryWindow(m, now);
  }

  /** Low stock is downward closed in the stock, for any threshold, and the
      default threshold is 10. */
  lemma LowStockMonotone(m: Medicamento, m': Medicamento, threshold: int)
    requires IsLowStock(m, threshold) && m'.stock <= m.stock
    ensures IsLowStock(m', threshold)
    ensures IsLowStock(m') <==> m'.stock <= 10
  {
  }

  // ---------------------------------------------------------------------------
  // JSON rendering

  /** The object `toJSON` builds: every stored field plus the three flags.
      The joined type is not part of the model. */
  datatype MedicamentoJson = MedicamentoJson(
    id: int,
    descripcion: string,
    fechaFabricacion: Instant,
    fechaVencimiento: Instant,
    presentacion: string,
    stock: int,
    precioVentaUni: int,
    precioVentaPres: int,
    marca: string,
    codTipoMed: int,
    isExpired: bool,
    isNearExpiry: bool,
    isLowStock: bool,
    createdAt: Instant,
    updatedAt: Instant)

  /** The stored fields of a rendering. */
  function StoredFields(j: MedicamentoJson): Medicamento {
    Medicamento(j.id, j.descripcion, j.fechaFabricacion, j.fechaVencimiento, j.presentacion,
                j.stock, j.precioVentaUni, j.precioVentaPres, j.marca, j.codTipoMed,
                j.createdAt, j.updatedAt)
  }

  /** `toJSON`, evaluated at instant `now`: the stored fields unchanged and
      the flags computed from the same record at that instant. */
  function ToJson(m: Medicamento, now: Instant): (j: MedicamentoJson)
    ensures StoredFields(j) == m
    ensures j.isExpired == IsExpired(m, now)
    ensures j.isNearExpiry == IsNearExpiry(m, now)
    ensures j.isLowStock == IsLowStock(m)
  {
    MedicamentoJson(m.id, m.descripcion, m.fechaFabricacion, m.fechaVencimiento, m.presentacion,
                    m.stock, m.precioVentaUni, m.precioVentaPres, m.marca, m.codTipoMed,
                    IsExpired(m, now), IsNearExpiry(m, now), IsLowStock(m),
                    m.createdAt, m.updatedAt)
  }

  // ---------------------------------------------------------------------------
  // Attribute validators of the record model

  datatype Attribute =
    Descripcion | FechaFabricacion | FechaVencimiento | Presentacion | Stock |
    PrecioVentaUni | PrecioVentaPres | Marca | CodTipoMed

  /** The attributes in declaration order. */
  const Attributes: seq<Attribute> :=
    [Descripcion, FechaFabricacion, FechaVencimiento, Presentacion, Stock,
     PrecioVentaUni, PrecioVentaPres, Marca, CodTipoMed]

  function AttributeName(a: Attribute): string {
    match a
    case Descripcion => "descripcion"
    case FechaFabricacion => "fechaFabricacion"
    case FechaVencimiento => "fechaVencimiento"
    case Presentacion => "presentacion"
    case Stock => "stock"
    case PrecioVentaUni => "precioVentaUni"
    case PrecioVentaPres => "precioVentaPres"
    case Marca => "marca"
    case CodTipoMed => "codTipoMed"
  }

  /** `notEmpty` and `len: [1, max]` on a string attribute. `notEmpty`
      refuses a string of spaces as well as the empty one. */
  function StringAttributeErrors(s: string, max: int): seq<Rule> {
    (if Blank(s) then [NotEmpty] else []) + (if 1 <= |s| <= max then [] else [Len])
  }

  /** The validators declared on one attribute that `m` fails, in declaration
      order. `loadDate` is the day the model module was loaded: the
      "not future" and "must be future" bounds compare against it, not
      against the time of the write. */
  function AttributeErrors(m: Medicamento, a: Attribute, loadDate: Instant): seq<Rule> {
    match a
    case Descripcion => StringAttributeErrors(m.descripcion, 500)
    case FechaFabricacion => if m.fechaFabricacion < loadDate then [] else [IsBefore]
    case FechaVencimiento =>
      (if m.fechaVencimiento > loadDate then [] else [IsAfter]) +
      (if m.fechaVencimiento <= m.fechaFabricacion then [IsAfterFabricacion] else [])
    case Presentacion => StringAttributeErrors(m.presentacion, 100)
    case Stock => if m.stock >= 0 then [] else [MinValue]
    case PrecioVentaUni => if m.precioVentaUni >= 0 then [] else [MinValue]
    case PrecioVentaPres => if m.precioVentaPres >= 0 then [] else [MinValue]
    case Marca => StringAttributeErrors(m.marca, 100)
    case CodTipoMed => []
  }

  /** Errors of the attributes of `order` that belong to `attrs`, in `order`. */
  function ErrorsOver(m: Medicamento, order: seq<Attribute>, attrs: set<Attribute>, loadDate: Instant): seq<FieldError> {
    if order == [] then []
    else
      (if order[0] in attrs then Tag(AttributeName(order[0]), AttributeErrors(m, order[0], loadDate)) else []) +
      ErrorsOver(m, order[1..], attrs, loadDate)
  }

  /** Validation before a write of the attributes `attrs`: the record model
      runs the validators of the attributes being saved and collects every
      failure. A create saves all attributes. */
  function RecordErrors(m: Medicamento, attrs: set<Attribute>, loadDate: Instant): seq<FieldError> {
    ErrorsOver(m, Attributes, attrs, loadDate)
  }

  lemma {:induction false} ErrorsOverEmpty(m: Medicamento, order: seq<Attribute>, attrs: set<Attribute>, loadDate: Instant)
    ensures ErrorsOver(m, order, attrs, loadDate) == [] <==>
            forall i :: 0 <= i < |order| && order[i] in attrs ==> AttributeErrors(m, order[i], loadDate) == []
  {
    if order != [] {
      ErrorsOverEmpty(m, order[1..], attrs, loadDate);
      assert forall i :: 1 <= i < |order| ==> order[i] == order[1..][i - 1];
    }
  }

  /** What every stored record satisfies whenever it was written: the bounds
      that do not depend on the day of the write. */
  predicate StoredInvariant(m: Medicamento) {
    && 1 <= |m.descripcion| <= 500 && !Blank(m.descripcion)
    && 1 <= |m.presentacion| <= 100 && !Blank(m.presentacion)
    && 1 <= |m.marca| <= 100 && !Blank(m.marca)
    && m.stock >= 0
    && m.precioVentaUni >= 0
    && m.precioVentaPres >= 0
    && m.fechaVencimiento > m.fechaFabricacion
  }

  /** A record all of whose attribute validators pass on load day `loadDate`. */
  predicate RecordValid(m: Medicamento, loadDate: Instant) {
    StoredInvariant(m) && m.fechaFabricacion < loadDate < m.fechaVencimiento
  }

  const AllAttributes: set<Attribute> :=
    {Descripcion, FechaFabricacion, FechaVencimiento, Presentacion, Stock,
     PrecioVentaUni, PrecioVentaPres, Marca, CodTipoMed}

  /** An attribute listed in `order` and selected in `attrs` fails no validator
      when the collected errors are empty. */
  lemma ErrorsOverPasses(m: Medicamento, order: seq<Attribute>, attrs: set<Attribute>, loadDate: Instant, a: Attribute)
    requires ErrorsOver(m, order, attrs, loadDate) == []
    requires a in order && a in attrs
    ensures AttributeErrors(m, a, loadDate) == []
  {
    ErrorsOverEmpty(m, order, attrs, loadDate);
  }

  /** No error is collected when every listed and selected attribute passes. */
  lemma ErrorsOverNone(m: Medicamento, order: seq<Attribute>, attrs: set<Attribute>, loadDate: Instant)
    requires forall a :: a in order && a in attrs ==> AttributeErrors(m, a, loadDate) == []
    ensures ErrorsOver(m, order, attrs, loadDate) == []
  {
    ErrorsOverEmpty(m, order, attrs, loadDate);
  }

  /** Validating every attribute succeeds exactly when each attribute's
      validators pass (the type reference has none). */
  lemma RecordErrorsEmptyPerAttribute(m: Medicamento, loadDate: Instant)
    ensures RecordErrors(m, AllAttributes, loadDate) == [] <==>
      && AttributeErrors(m, Descripcion, loadDate) == []
      && AttributeErrors(m, FechaFabricacion, loadDate) == []
      && AttributeErrors(m, FechaVencimiento, loadDate) == []
      && AttributeErrors(m, Presentacion, loadDate) == []
      && AttributeErrors(m, Stock, loadDate) == []
      && AttributeErrors(m, PrecioVentaUni, loadDate) == []
      && AttributeErrors(m, PrecioVentaPres, loadDate) == []
      && AttributeErrors(m, Marca, loadDate) == []
  {
    if RecordErrors(m, AllAttributes, loadDate) == [] {
      ErrorsOverPasses(m, Attributes, AllAttributes, loadDate, Descripcion);
      ErrorsOverPasses(m, Attributes, AllAttributes, loadDate, FechaFabricacion);
      ErrorsOverPasses(m, Attributes, AllAttributes, loadDate, FechaVencimiento);
      ErrorsOverPasses(m, Attributes, AllAttributes, loadDate, Presentacion);
      ErrorsOverPasses(m, Attributes, AllAttributes, loadDate, Stock);
      ErrorsOverPasses(m, Attributes, AllAttributes, loadDate, PrecioVentaUni);
      ErrorsOverPasses(m, Attributes, AllAttributes, loadDate, PrecioVentaPres);
      ErrorsOverPasses(m, Attributes, AllAttributes, loadDate, Marca);
    } else if && AttributeErrors(m, Descripcion, loadDate) == []
              && AttributeErrors(m, FechaFabricacion, loadDate) == []
              && AttributeErrors(m, FechaVencimiento, loadDate) == []
              && AttributeErrors(m, Presentacion, loadDate) == []
              && AttributeErrors(m, Stock, loadDate) == []
              && AttributeErrors(m, PrecioVentaUni, loadDate) == []
              && AttributeErrors(m, PrecioVentaPres, loadDate) == []
              && AttributeErrors(m, Marca, loadDate) == []
    {
      forall a | a in Attributes && a in AllAttributes
        ensures AttributeErrors(m, a, loadDate) == []
      {
        match a
        case CodTipoMed =>
        case _ =>
      }
      ErrorsOverNone(m, Attributes, AllAttributes, loadDate);
    }
  }

  /** Validating every attribute succeeds exactly for the records that meet
      the declared bounds: lengths, non-negative stock and prices,
      manufacture before load day, expiry after load day and after manufacture. */
  lemma RecordErrorsEmptyIff(m: Medicamento, loadDate: Instant)
    ensures RecordErrors(m, AllAttributes, loadDate) == [] <==> RecordValid(m, loadDate)
  {
    RecordErrorsEmptyPerAttribute(m, loadDate);
  }
}
