/** The request-body schemas and the validation middleware. A body is what
    the JSON parser produced: each key absent or carrying a value of the
    key's type (a non-string where a string is expected, and unknown keys,
    are not modelled). Numbers are exact reals. */
module Validators {
  import opened Common
  import opened Replies
  import opened MedicamentoModel

  datatype TipoBody = TipoBody(description: Option<string>)

  datatype MedicamentoBody = MedicamentoBody(
    descripcion: Option<string>,
    fechaFabricacion: Option<Instant>,
    fechaVencimiento: Option<Instant>,
    presentacion: Option<string>,
    stock: Option<real>,
    precioVentaUni: Option<real>,
    precioVentaPres: Option<real>,
    marca: Option<string>,
    codTipoMed: Option<real>)

  /** A body paired with the schema a route validates it against. */
  datatype Request =
    | TipoCreate(tipo: TipoBody)
    | TipoUpdate(tipo: TipoBody)
    | MedicamentoCreate(body: MedicamentoBody)
    | MedicamentoUpdate(body: MedicamentoBody)

  // ---------------------------------------------------------------------------
  // Key rules

  /** `Joi.string().min(1).max(max)`, optionally `.required()`. The empty
      string fails the base check and no further rule of the key runs. */
  function StringKey(v: Option<string>, required: bool, max: int): seq<Rule> {
    match v
    case None => if required then [AnyRequired] else []
    case Some(s) =>
      if s == "" then [StringEmpty]
      else (if |s| < 1 then [StringMin] else []) + (if |s| > max then [StringMax] else [])
  }

  predicate IsInteger(x: real) {
    x.Floor as real == x
  }

  /** `Math.round(x * 100) / 100`: in its converting mode Joi rounds a
      number that has a `precision(2)` rule before running the other rules,
      and never reports the precision rule itself. */
  function Round2(x: real): real {
    ((x * 100.0 + 0.5).Floor as real) / 100.0
  }

  /** `.positive()` after that rounding holds from half a cent on. */
  lemma Round2Positive(x: real)
    ensures Round2(x) > 0.0 <==> x >= 0.005
  {
    var k := (x * 100.0 + 0.5).Floor;
    assert k as real <= x * 100.0 + 0.5 < k as real + 1.0;
    if x >= 0.005 {
      assert x * 100.0 >= 0.5;
      assert k >= 1;
    } else {
      assert x * 100.0 < 0.5;
      assert k <= 0;
    }
  }

  /** `Joi.number().integer().min(0)`: both rules are checked and reported. */
  function StockKey(v: Option<real>): seq<Rule> {
    match v
    case None => []
    case Some(x) => (if IsInteger(x) then [] else [NumberInteger]) + (if x >= 0.0 then [] else [NumberMin])
  }

  /** `Joi.number().positive().precision(2)`, optionally required. */
  function PriceKey(v: Option<real>, required: bool): seq<Rule> {
    match v
    case None => if required then [AnyRequired] else []
    case Some(x) => if Round2(x) > 0.0 then [] else [NumberPositive]
  }

  /** `Joi.number().integer().positive()`, optionally required. */
  function CodTipoMedKey(v: Option<real>, required: bool): seq<Rule> {
    match v
    case None => if required then [AnyRequired] else []
    case Some(x) => (if IsInteger(x) then [] else [NumberInteger]) + (if x > 0.0 then [] else [NumberPositive])
  }

  /** `Joi.date().max('now')` / `.min('now')`: 'now' is read when the body is validated. */
  function DateKey(v: Option<Instant>, required: bool, notAfterNow: bool, now: Instant): seq<Rule> {
    match v
    case None => if required then [AnyRequired] else []
    case Some(t) =>
      if notAfterNow then (if t <= now then [] else [DateMax])
      else (if t >= now then [] else [DateMin])
  }

  /** The rules key `a` of a medication body fails. `required` selects the
      create schema, where every key but `stock` is required. */
  function KeyRules(b: MedicamentoBody, a: Attribute, required: bool, now: Instant): seq<Rule> {
    match a
    case Descripcion => StringKey(b.descripcion, required, 500)
    case FechaFabricacion => DateKey(b.fechaFabricacion, required, true, now)
    case FechaVencimiento => DateKey(b.fechaVencimiento, required, false, now)
    case Presentacion => StringKey(b.presentacion, required, 100)
    case Stock => StockKey(b.stock)
    case PrecioVentaUni => PriceKey(b.precioVentaUni, required)
    case PrecioVentaPres => PriceKey(b.precioVentaPres, required)
    case Marca => StringKey(b.marca, required, 100)
    case CodTipoMed => CodTipoMedKey(b.codTipoMed, required)
  }

  /** Errors of the keys in `order`, in that order (Joi walks the keys in
      the order the schema declares them). */
  function KeyErrors(b: MedicamentoBody, order: seq<Attribute>, required: bool, now: Instant): seq<FieldError> {
    if order == [] then []
    else Tag(AttributeName(order[0]), KeyRules(b, order[0], required, now)) + KeyErrors(b, order[1..], required, now)
  }

  /** The custom rule: expiry must come after manufacture, checked only when
      both dates are present (in the create schema both are required). */
  predicate DateOrderBroken(b: MedicamentoBody) {
    b.fechaVencimiento.Some? && b.fechaFabricacion.Some? &&
    b.fechaVencimiento.value <= b.fechaFabricacion.value
  }

  const DateOrderError: FieldError := FieldError("", CustomDateOrder)

  /** All errors of a medication body. Key errors are errors of the object's
      base check and stop it before its own rules, so the custom date-order
      rule is only reached by a body whose keys all pass. */
  function MedicamentoErrors(b: MedicamentoBody, required: bool, now: Instant): seq<FieldError> {
    var keyErrors := KeyErrors(b, Attributes, required, now);
    if keyErrors != [] then keyErrors
    else if DateOrderBroken(b) then [DateOrderError]
    else []
  }

  /** Every violation of `req`, as `schema.validate(body, { abortEarly: false })` reports them. */
  function Violations(req: Request, now: Instant): seq<FieldError> {
    match req
    case TipoCreate(t) => Tag("description", StringKey(t.description, true, 255))
    case TipoUpdate(t) => Tag("description", StringKey(t.description, false, 255))
    case MedicamentoCreate(b) => MedicamentoErrors(b, true, now)
    case MedicamentoUpdate(b) => MedicamentoErrors(b, false, now)
  }

  // ---------------------------------------------------------------------------
  // The middleware

  /** What `validateSchema(schema)(req, res, next)` does: call `next` with the
      request as it came in, or answer 400 with the list of violations. */
  datatype Outcome = CallNext | Rejected(error: ErrorKind)

  function ValidateSchema(req: Request, now: Instant): (o: Outcome)
    ensures o.CallNext? <==> Violations(req, now) == []
    ensures o.Rejected? ==> o.error == Validation(Violations(req, now)) && StatusOf(o.error) == 400
  {
    var errors := Violations(req, now);
    if errors != [] then Rejected(Validation(errors)) else CallNext
  }

  // ---------------------------------------------------------------------------
  // The schemas stated as plain bounds

  predicate OptionalLength(v: Option<string>, required: bool, max: int) {
    (v.None? ==> !required) && (v.Some? ==> 1 <= |v.value| <= max)
  }

  /** What a medication body must satisfy: the field bounds of the schema,
      with prices accepted from half a cent on, and expiry after manufacture
      when both are given. */
  predicate AcceptableMedicamento(b: MedicamentoBody, required: bool, now: Instant) {
    && OptionalLength(b.descripcion, required, 500)
    && OptionalLength(b.presentacion, required, 100)
    && OptionalLength(b.marca, required, 100)
    && (b.fechaFabricacion.None? ==> !required)
    && (b.fechaFabricacion.Some? ==> b.fechaFabricacion.value <= now)
    && (b.fechaVencimiento.None? ==> !required)
    && (b.fechaVencimiento.Some? ==> b.fechaVencimiento.value >= now)
    && (b.stock.Some? ==> IsInteger(b.stock.value) && b.stock.value >= 0.0)
    && (b.precioVentaUni.None? ==> !required)
    && (b.precioVentaUni.Some? ==> b.precioVentaUni.value >= 0.005)
    && (b.precioVentaPres.None? ==> !required)
    && (b.precioVentaPres.Some? ==> b.precioVentaPres.value >= 0.005)
    && (b.codTipoMed.None? ==> !required)
    && (b.codTipoMed.Some? ==> IsInteger(b.codTipoMed.value) && b.codTipoMed.value > 0.0)
    && (b.fechaFabricacion.Some? && b.fechaVencimiento.Some? ==>
          b.fechaVencimiento.value > b.fechaFabricacion.value)
  }

  predicate Acceptable(req: Request, now: Instant) {
    match req
    case TipoCreate(t) => OptionalLength(t.description, true, 255)
    case TipoUpdate(t) => OptionalLength(t.description, false, 255)
    case MedicamentoCreate(b) => AcceptableMedicamento(b, true, now)
    case MedicamentoUpdate(b) => AcceptableMedicamento(b, false, now)
  }

  lemma {:induction false} KeyErrorsEmpty(b: MedicamentoBody, order: seq<Attribute>, required: bool, now: Instant)
    ensures KeyErrors(b, order, required, now) == [] <==>
            forall i :: 0 <= i < |order| ==> KeyRules(b, order[i], required, now) == []
  {
    if order != [] {
      KeyErrorsEmpty(b, order[1..], required, now);
      assert forall i :: 1 <= i < |order| ==> order[i] == order[1..][i - 1];
    }
  }

  lemma KeysPass(b: MedicamentoBody, required: bool, now: Instant)
    ensures KeyErrors(b, Attributes, required, now) == [] <==>
      && KeyRules(b, Descripcion, required, now) == []
      && KeyRules(b, FechaFabricacion, required, now) == []
      && KeyRules(b, FechaVencimiento, required, now) == []
      && KeyRules(b, Presentacion, required, now) == []
      && KeyRules(b, Stock, required, now) == []
      && KeyRules(b, PrecioVentaUni, required, now) == []
      && KeyRules(b, PrecioVentaPres, required, now) == []
      && KeyRules(b, Marca, required, now) == []
      && KeyRules(b, CodTipoMed, required, now) == []
  {
    KeyErrorsEmpty(b, Attributes, required, now);
    assert Attributes[0] == Descripcion && Attributes[1] == FechaFabricacion && Attributes[2] == FechaVencimiento;
    assert Attributes[3] == Presentacion && Attributes[4] == Stock && Attributes[5] == PrecioVentaUni;
    assert Attributes[6] == PrecioVentaPres && Attributes[7] == Marca && Attributes[8] == CodTipoMed;
  }

  /** One key's rules pass exactly when the key meets its plain bound. */
  lemma KeyRulesEmpty(b: MedicamentoBody, a: Attribute, required: bool, now: Instant)
    ensures KeyRules(b, a, required, now) == [] <==>
      match a
      case Descripcion => OptionalLength(b.descripcion, required, 500)
      case FechaFabricacion =>
        (b.fechaFabricacion.None? ==> !required) && (b.fechaFabricacion.Some? ==> b.fechaFabricacion.value <= now)
      case FechaVencimiento =>
        (b.fechaVencimiento.None? ==> !required) && (b.fechaVencimiento.Some? ==> b.fechaVencimiento.value >= now)
      case Presentacion => OptionalLength(b.presentacion, required, 100)
      case Stock => b.stock.Some? ==> IsInteger(b.stock.value) && b.stock.value >= 0.0
      case PrecioVentaUni =>
        (b.precioVentaUni.None? ==> !required) && (b.precioVentaUni.Some? ==> b.precioVentaUni.value >= 0.005)
      case PrecioVentaPres =>
        (b.precioVentaPres.None? ==> !required) && (b.precioVentaPres.Some? ==> b.precioVentaPres.value >= 0.005)
      case Marca => OptionalLength(b.marca, required, 100)
      case CodTipoMed =>
        (b.codTipoMed.None? ==> !required) && (b.codTipoMed.Some? ==> IsInteger(b.codTipoMed.value) && b.codTipoMed.value > 0.0)
  {
    match a
    case PrecioVentaUni => if b.precioVentaUni.Some? { Round2Positive(b.precioVentaUni.value); }
    case PrecioVentaPres => if b.precioVentaPres.Some? { Round2Positive(b.precioVentaPres.value); }
    case _ =>
  }

  lemma MedicamentoErrorsEmpty(b: MedicamentoBody, required: bool, now: Instant)
    ensures MedicamentoErrors(b, required, now) == [] <==> AcceptableMedicamento(b, required, now)
  {
    KeysPass(b, required, now);
    KeyRulesEmpty(b, Descripcion, required, now);
    KeyRulesEmpty(b, FechaFabricacion, required, now);
    KeyRulesEmpty(b, FechaVencimiento, required, now);
    KeyRulesEmpty(b, Presentacion, required, now);
    KeyRulesEmpty(b, Stock, required, now);
    KeyRulesEmpty(b, PrecioVentaUni, required, now);
    KeyRulesEmpty(b, PrecioVentaPres, required, now);
    KeyRulesEmpty(b, Marca, required, now);
    KeyRulesEmpty(b, CodTipoMed, required, now);
  }

  /** The middleware lets a request through exactly when it meets its schema's bounds. */
  lemma ValidateSchemaAccepts(req: Request, now: Instant)
    ensures ValidateSchema(req, now).CallNext? <==> Acceptable(req, now)
  {
    match req
    case TipoCreate(t) =>
    case TipoUpdate(t) =>
    case MedicamentoCreate(b) => MedicamentoErrorsEmpty(b, true, now);
    case MedicamentoUpdate(b) => MedicamentoErrorsEmpty(b, false, now);
  }

  lemma {:induction false} KeyErrorsCollect(b: MedicamentoBody, order: seq<Attribute>, required: bool, now: Instant, i: nat, r: Rule)
    requires i < |order| && r in KeyRules(b, order[i], required, now)
    ensures FieldError(AttributeName(order[i]), r) in KeyErrors(b, order, required, now)
  {
    var head := Tag(AttributeName(order[0]), KeyRules(b, order[0], required, now));
    assert KeyErrors(b, order, required, now) == head + KeyErrors(b, order[1..], required, now);
    if i > 0 {
      assert order[1..][i - 1] == order[i];
      KeyErrorsCollect(b, order[1..], required, now, i - 1, r);
    } else {
      var rules := KeyRules(b, order[0], required, now);
      var k :| 0 <= k < |rules| && rules[k] == r;
      assert Tag(AttributeName(order[0]), rules)[k] == FieldError(AttributeName(order[0]), r);
    }
  }

  /** Validation does not stop at the first error: every rule that any key
      of a medication body fails is reported for that key, and the
      date-order error is only ever reported alone. */
  lemma MedicamentoErrorsCollectAll(b: MedicamentoBody, required: bool, now: Instant, a: Attribute, r: Rule)
    ensures r in KeyRules(b, a, required, now) ==>
            FieldError(AttributeName(a), r) in MedicamentoErrors(b, required, now)
    ensures DateOrderError in MedicamentoErrors(b, required, now) ==>
            MedicamentoErrors(b, required, now) == [DateOrderError]
  {
    var i: nat := match a
      case Descripcion => 0 case FechaFabricacion => 1 case FechaVencimiento => 2
      case Presentacion => 3 case Stock => 4 case PrecioVentaUni => 5
      case PrecioVentaPres => 6 case Marca => 7 case CodTipoMed => 8;
    assert Attributes[i] == a;
    if r in KeyRules(b, a, required, now) {
      KeyErrorsCollect(b, Attributes, required, now, i, r);
    }
    if DateOrderError in KeyErrors(b, Attributes, required, now) {
      KeyErrorFields(b, Attributes, required, now);
    }
  }

  lemma {:induction false} KeyErrorFields(b: MedicamentoBody, order: seq<Attribute>, required: bool, now: Instant)
    ensures forall e :: e in KeyErrors(b, order, required, now) ==> e.field != ""
  {
    if order != [] {
      KeyErrorFields(b, order[1..], required, now);
      var head := Tag(AttributeName(order[0]), KeyRules(b, order[0], required, now));
      assert forall e :: e in head ==> e.field == AttributeName(order[0]);
    }
  }

  /** In the create schema, a body whose keys all pass has both dates, so the
      custom rule always compares two dates there. */
  lemma CreateKeysPassHaveDates(b: MedicamentoBody, now: Instant)
    requires KeyErrors(b, Attributes, true, now) == []
    ensures b.fechaFabricacion.Some? && b.fechaVencimiento.Some?
    ensures MedicamentoErrors(b, true, now) == [] <==> b.fechaVencimiento.value > b.fechaFabricacion.value
  {
    KeysPass(b, true, now);
  }
}
