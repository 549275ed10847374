# Medication inventory: a Dafny model

This project models the core of a small medication-inventory service, an
Express API over two Sequelize tables: medications (`Medicamento`) and
medication types (`TipoMedicamento`). It proves properties of that model.

The modules follow the program's structure:

- `Common`: options, instants in milliseconds, ceiling division, JavaScript
  `trim`, ASCII case folding (ILIKE), substring search (LIKE), filtering and
  reversal of sequences.
- `Replies`: the reply of a handler, with its success payload or its error
  kind, and the one table from error kind to HTTP status.
- `MedicamentoModel`: the medication record. It covers the three flags
  computed at read time (`isExpired`, `isNearExpiry`, `isLowStock`), the
  `toJSON` rendering, and the attribute validators the record model runs
  before a write.
- `Validators`: the Joi request schemas of both resources, with the
  `abortEarly: false` error collection, and the `validateSchema` middleware.
- `Pagination`: page/limit to LIMIT/OFFSET, and the `pagination` object of
  list replies.
- `Ordering`: `ORDER BY` on one integer key, as a stable insertion sort.
- `Tables`: the two tables, held by one mutable `Database` object. Every
  write goes through one of its methods, which keep the tables well formed:
  unique ids, the foreign key from medication to type, record bounds, and
  type descriptions unique ignoring case.
- `MedicamentoController`: the medication handlers. These are the filtered
  and paged list (with the imperative WHERE builder), lookup, create, update,
  delete, the stock adjustment, the dashboard and the expiry report.
- `TipoController`: the type handlers. These are the searched list with
  medication counts, lookup with optional medications, create, update and
  delete (refused while referenced), and the medications of one type.

Handlers that change the tables are module-level methods that take the `Database` object and modify it (`modifies db`); every write inside them goes through one of its methods. Each states the
reply and the whole new state for every branch of the source. Read-only
handlers are functions on table snapshots. I/O, the clock and the database
engine are parameters: every "now" is an argument.

## Model

| member | source | states |
|---|---|---|
| MedicamentoModel.NearExpiryWindow | models/Medicamento.js:25-31 | A record is near expiry exactly when its expiry lies strictly after now and at most 30 days after it. |
| MedicamentoModel.ExpiryFlagsExclusive | models/Medicamento.js:18-31 | No record is both expired and near expiry. A record expiring exactly now is neither. |
| MedicamentoModel.LowStockMonotone | models/Medicamento.js:34-36 | Low stock is kept when stock decreases. With the default threshold it means stock <= 10. |
| MedicamentoModel.ToJson | models/Medicamento.js:39-58 | The rendering carries every stored field unchanged. Its three flags equal the classifications of the same record at the same instant. |
| MedicamentoModel.RecordErrorsEmptyPerAttribute | models/Medicamento.js:68-189 | Validating all attributes reports nothing exactly when each attribute's own validators pass. The type reference has no validator of its own. |
| MedicamentoModel.RecordErrorsEmptyIff | models/Medicamento.js:68-189 | A full-record validation reports nothing exactly when these hold: every string is non-blank (not only spaces, as `notEmpty` demands) and meets its length bound, the numbers meet the non-negativity bounds, the dates meet the date-order bounds, and manufacture precedes the load day, which precedes expiry. |
| Validators.Round2Positive | validators/index.js:83-101 | After `precision(2)` rounding, a price is positive exactly when it is at least half a cent. |
| Validators.ValidateSchema | validators/index.js:221-240 | The middleware calls `next` exactly when the body has no violation. Otherwise it answers 400 with every violation. |
| Validators.KeyRulesEmpty | validators/index.js:32-123 | A key of a medication body passes its rules exactly when it meets that key's plain bounds (length, integer, sign, date limit, presence). |
| Validators.KeysPass | validators/index.js:32-123 | All keys pass exactly when every key meets its bounds. |
| Validators.MedicamentoErrorsEmpty | validators/index.js:32-217 | A medication body, for create or update, is accepted exactly when it meets the field bounds and, when both dates are given, expiry follows manufacture. |
| Validators.ValidateSchemaAccepts | validators/index.js:5-27 | For all four schemas, the middleware accepts a request exactly when the request meets the bounds of its schema. |
| Validators.MedicamentoErrorsCollectAll | validators/index.js:124-129 | Every failed rule of every key is reported. The date-order error is only ever reported alone, because the custom rule runs only when no key failed. |
| Validators.CreateKeysPassHaveDates | validators/index.js:44-60 | In the create schema, a body whose keys pass has both dates. It is then accepted exactly when expiry follows manufacture. |
| Pagination.PageInfoOf | controllers/medicamentoController.js:73-84 | The page count is the least n with count <= n * limit. The page, the limit and the total are echoed. |
| Pagination.Window | controllers/medicamentoController.js:61-71 | A LIMIT/OFFSET page has at most `limit` rows, namely the rows of the ordered result starting at the offset. |
| Pagination.RowOnItsPage | controllers/medicamentoController.js:19 | Every row of a result appears on page `k / limit + 1` at position `k % limit`, and that page is within the reported page count. |
| Pagination.PagesPastTheEndEmpty | controllers/medicamentoController.js:73 | A page beyond the reported page count is empty. |
| Ordering.SortBy | controllers/medicamentoController.js:444 | The result is sorted by the key and is a permutation of its input. |
| Ordering.Smallest | controllers/medicamentoController.js:396-405 | `ORDER BY k LIMIT n` gives min(n, size) rows, sorted, drawn from the input, none ordered after a row it left out. |
| Tables.IndexOfMedicamento | controllers/medicamentoController.js:102 | `findByPk` finds a row with the id exactly when one exists. |
| Tables.IndexOfTipo | controllers/tipoMedicamentoController.js:72 | `findByPk` on the type table finds a row with the id exactly when one exists. |
| Tables.Database.constructor | migrations/0001-create-medicamentos.js:5-83 | Both tables start empty, with the id counters at 1, and well formed. |
| Tables.Database.InsertMedicamento | controllers/medicamentoController.js:145 | The insert appends the row with the next id and advances the counter. The tables stay well formed. |
| Tables.Database.ReplaceMedicamento | controllers/medicamentoController.js:218 | The update replaces one row and keeps its id. Nothing else changes, and the tables stay well formed. |
| Tables.Database.RemoveMedicamento | controllers/medicamentoController.js:276 | The destroy removes one row. Nothing else changes, and the tables stay well formed. |
| Tables.Database.InsertTipo | controllers/tipoMedicamentoController.js:118-120 | The insert appends a type with the next id and both timestamps set to now. The tables stay well formed. |
| Tables.Database.SetTipos | controllers/tipoMedicamentoController.js:185-245 | A write of the type table that keeps both tables well formed, and changes only that table. |
| Tables.RemoveKeepsWellFormed | controllers/medicamentoController.js:276 | Deleting a medication keeps unique ids, record bounds and the foreign key. |
| MedicamentoController.WhereOfSteps | controllers/medicamentoController.js:22-59 | The WHERE object is the result of six conditional assignments in program order. A later one to the same column replaces the earlier. |
| MedicamentoController.WhereOfMeaning | controllers/medicamentoController.js:22-59 | A row satisfies the WHERE object exactly when it passes every given filter. An absent, empty or non-"true" parameter constrains nothing. |
| MedicamentoController.ExpiredReplacesNearExpiry | controllers/medicamentoController.js:46-59 | With both `nearExpiry` and `expired` set, the near-expiry window is overwritten, so the request means `expired` alone. |
| MedicamentoController.BuildWhere | controllers/medicamentoController.js:22-59 | The imperative builder produces the WHERE object whose meaning is exactly the requested filters. |
| MedicamentoController.GetAll | controllers/medicamentoController.js:6-95 | The reply is the requested page of the filtered rows, newest first, with the page count over all filtered rows. Every row shown is in the table and passes the filters. |
| MedicamentoController.GetById | controllers/medicamentoController.js:98-129 | The reply is 200 with the row exactly when the id exists, and 404 otherwise. |
| MedicamentoController.Create | controllers/medicamentoController.js:132-188 | An unknown type gives 400. Failing attribute validators give 400 with all their errors; a blank string is one such failure. Otherwise the row is appended with the next id and returned with 201. The tables stay well formed. |
| MedicamentoController.CreatedReadsBack | controllers/medicamentoController.js:145-156 | A created row is found by its id with the values of the body. |
| MedicamentoController.UpdateKeepsInvariant | models/Medicamento.js:94-111 | With the corrected validation, a patch that passes keeps the stored bounds, including expiry after manufacture. |
| MedicamentoController.AsWrittenUpdateStoresInvertedDates | models/Medicamento.js:105-109 | As written, a patch of only `fechaFabricacion` to a date after the stored expiry passes validation and stores a record whose expiry precedes its manufacture. |
| MedicamentoController.Update | controllers/medicamentoController.js:191-260 | Models the corrected behaviour (second row of Findings): the patched record is validated as a whole, so expiry after manufacture is checked even when only one date changes. The handler checks in source order: 404, an unknown non-zero type, validation errors, then the foreign key. Otherwise the row is replaced by the patched record with the same id and answered with 200. The tables stay well formed. |
| MedicamentoController.Delete | controllers/medicamentoController.js:263-290 | The handler answers 404 or removes exactly that row. |
| MedicamentoController.DeletedNotFound | controllers/medicamentoController.js:263-290 | After a delete the id is no longer found. |
| MedicamentoController.StockAfter | controllers/medicamentoController.js:308-325 | A subtraction is refused exactly when it exceeds the stock, and otherwise leaves a non-negative stock reduced by the amount. An addition adds the amount. Any other operation sets the stock to the amount. |
| MedicamentoController.StockReportAsWrittenLosesPrevious | controllers/medicamentoController.js:327-338 | As written, the report's previous stock always equals its new stock. For stock 100 and "add" 5 it reports 105 as the previous stock. |
| MedicamentoController.UpdateStock | controllers/medicamentoController.js:293-347 | The handler answers 404, or 400 for a subtraction below zero, or 500 when an add or set leaves a negative stock. Otherwise it writes the new stock (only when it changed). It models the corrected behaviour (first row of Findings): the reply reports the stock before and after the update. |
| MedicamentoController.InventoryValueAdds | controllers/medicamentoController.js:387-393 | The inventory value is additive over disjoint parts of the table. |
| MedicamentoController.InventoryValueIgnoresStock | controllers/medicamentoController.js:387-393 | The inventory value depends only on the unit prices, not on the stock held. |
| MedicamentoController.TopLowStock | controllers/medicamentoController.js:396-405 | The top list has min(5, size) rows in ascending stock, drawn from the table, and none has more stock than a row left out. |
| MedicamentoController.StatsOf | controllers/medicamentoController.js:357-393 | The total is the table size. Each of the low-stock, near-expiry and expired counts is the number of positions of the table whose row meets that condition; the near-expiry and expired counts together are at most the size. The value is the sum of unit prices. |
| MedicamentoController.GetDashboard | controllers/medicamentoController.js:350-428 | The dashboard carries those statistics, with the three counts exactly the number of rows meeting each condition, and the projected top-5 low-stock rows in ascending stock. |
| MedicamentoController.SelectionCounts | controllers/medicamentoController.js:357-381 | The size of each `count` query's result (low stock, within 30 days of expiry, expired) is the number of table positions whose row meets the condition. |
| MedicamentoController.DashboardWindowVsFlag | controllers/medicamentoController.js:366-372 | The dashboard's window counts a row exactly when the row is flagged near expiry or expires at the instant of the query. |
| MedicamentoController.DashboardCounts | controllers/medicamentoController.js:357-381 | Each count is positive whenever some row meets its condition; it follows from the exact counts of `StatsOf`. |
| MedicamentoController.ProximosVencer | controllers/medicamentoController.js:436-445 | The rows expiring within the horizon are exactly those in the table, soonest first; as a multiset they are the filtered table, so each occurs exactly as often as in the table. |
| MedicamentoController.Vencidos | controllers/medicamentoController.js:450-459 | The expired rows are exactly those in the table, most recently expired first; as a multiset they are the filtered table, so each occurs exactly as often as in the table. |
| MedicamentoController.GetVencimientos | controllers/medicamentoController.js:431-485 | The report uses a 30-day horizon when `dias` is absent and echoes the horizon with the instant of the query. |
| MedicamentoController.VencimientosDisjoint | controllers/medicamentoController.js:436-459 | No row is in both lists. Together the lists hold at most the table's size. |
| TipoController.OfTipo | controllers/tipoMedicamentoController.js:277-282 | The medications of a type are exactly the rows referencing it. |
| TipoController.GetAll | controllers/tipoMedicamentoController.js:6-55 | The reply is the requested page of the types whose description contains the search ignoring case, newest first. Each type comes with its medication count, and the page count is over all matching types. |
| TipoController.GetById | controllers/tipoMedicamentoController.js:58-95 | The reply is 404 exactly when the type is absent. The medications are loaded exactly when `includeMedicamentos` is "true", and then all of them. |
| TipoController.IncludeMedicamentosLostAsWritten | models/TIpoMedicamento.js:18-25 | As serialised, the reply with `includeMedicamentos=true` is identical to the one without, although the medications were loaded. |
| TipoController.IncludeMedicamentosRendered | controllers/tipoMedicamentoController.js:61-86 | Rendered with the association kept, every medication of the type appears when requested. |
| TipoController.FindByDescription | controllers/tipoMedicamentoController.js:103-109 | The corrected duplicate check (fourth row of Findings), with the description taken literally: it finds a type whose description equals the pattern ignoring case, and other than the excluded id, exactly when one exists. |
| TipoController.FindByDescriptionAsWritten | controllers/tipoMedicamentoController.js:103-109 | `findOne` with `description ILIKE pattern`: it finds a type, other than the excluded id, whose description the pattern matches with `%`, `_` and backslash escapes, exactly when one exists. |
| TipoController.LookupsAgreeWithoutWildcards | controllers/tipoMedicamentoController.js:167-176 | For a description with no `%`, `_` or backslash, the lookup as written and the literal one return the same type. |
| TipoController.DuplicateCheckAsWrittenMisreadsPatterns | controllers/tipoMedicamentoController.js:103-109 | With "Gel" stored, the lookup as written finds "%" and "G_l" though no type has them; with `1\2` stored, it misses `1\2`. The literal lookup answers the other way in each case. |
| Common.LikeMatchLiteral | controllers/tipoMedicamentoController.js:106 | A LIKE pattern without `%`, `_` or backslash matches exactly the text equal to it. |
| TipoController.DescriptionErrors | models/TIpoMedicamento.js:35-47 | The description validators pass exactly when it has 1 to 255 characters and is not blank (not only spaces). |
| TipoController.CreateTrimmed | controllers/tipoMedicamentoController.js:103-139 | A duplicate ignoring case gives 400 and a bad length gives 400. Otherwise the type is appended with the next id and returned with 201. The tables stay well formed. |
| TipoController.Create | controllers/tipoMedicamentoController.js:98-147 | The same as CreateTrimmed, for the description as sent, trimmed. |
| TipoController.Update | controllers/tipoMedicamentoController.js:150-214 | The handler answers 404, or 400 for a duplicate among the other types. An absent or empty description keeps the old one, and an unchanged description writes nothing. Otherwise the row is renamed and its timestamp updated. The tables stay well formed. |
| TipoController.Delete | controllers/tipoMedicamentoController.js:217-259 | The handler answers 404, or 400 with the count while medications reference the type. Otherwise it removes exactly that row. |
| TipoController.RemoveTipoKeepsReferences | controllers/tipoMedicamentoController.js:236-245 | Removing an unreferenced type keeps the foreign key of every medication and the type table well formed. |
| TipoController.GetMedicamentosByTipo | controllers/tipoMedicamentoController.js:262-307 | The reply is 404 exactly when the type is absent. Otherwise it holds the requested page of that type's medications, newest first, with the page count over all of them. |
| TipoController.CountsAgree | controllers/tipoMedicamentoController.js:22-42 | The count shown for a type in the list equals the total of that type's medication listing. |
| Common.Trim | controllers/tipoMedicamentoController.js:106 | `trim` leaves no space at either end and never lengthens. |
| Common.TrimIdempotent | controllers/tipoMedicamentoController.js:119 | Trimming twice is trimming once. |
| Common.Filter | controllers/medicamentoController.js:61-71 | A WHERE over a table keeps only rows satisfying it and every row satisfying it, each at most as often as in the table. |
| Common.FilterMultiplicity | controllers/medicamentoController.js:61-71 | A row satisfying the WHERE occurs in the result exactly as often as in the table; any other row never occurs. |
| Common.FilterAppend | controllers/medicamentoController.js:61-71 | Filtering a concatenation is concatenating the filtered parts, so the result keeps the table's order. |
| Common.FilterCount | controllers/medicamentoController.js:357-381 | The number of rows a WHERE keeps is the number of table positions whose row satisfies it. |

## Left out

- HTTP, routing, JSON parsing and the process: handlers take their parsed inputs and return a reply value. Message texts are not modelled; errors carry a rule or a kind.
- The clock: every "now" is a parameter. The record validators compare dates against the day the model module was loaded (`Database.loadDate`), as Sequelize evaluates `new Date()` once at definition.
- Calendar arithmetic: `setDate(getDate() + 30)` is modelled as 30 * 86 400 000 ms. Time zones and daylight-saving shifts are not modelled.
- Floating point: Joi numbers are exact reals, stored prices are integer cents, and the DECIMAL-to-float conversion of `parseFloat` is not modelled.
- `parseInt` of query strings: page, limit, `codTipoMed`, `dias` and the stock `amount` arrive as integers. A non-numeric value (NaN) is not modelled.
- MedicamentoController.GetAll: requires page >= 1 and limit > 0. A zero or negative page or limit (a negative OFFSET, an error in the database) is not modelled.
- TipoController.GetAll: requires page >= 1 and limit > 0, for the same reason.
- TipoController.GetMedicamentosByTipo: requires page >= 1 and limit > 0, for the same reason.
- Joi's handling of unknown keys, type coercion of strings to numbers or dates, and bodies whose values have the wrong JSON type.
- Medication search and `marca` filter use `Op.like`, which is case-sensitive in PostgreSQL; the model keeps that case sensitivity.
- `%` and `_` typed inside a medication or type search string act as LIKE/ILIKE wildcards. They are treated as literal characters.
- TipoController.CreateTrimmed: uses the corrected, literal duplicate check `FindByDescription`, not the ILIKE pattern the source builds from the description (fourth row of Findings).
- TipoController.Create: the same, through `CreateTrimmed`.
- TipoController.Update: uses the literal duplicate check `FindByDescription`, for the same reason.
- Common.LikeMatch: a pattern ending in a lone backslash is an error in PostgreSQL; here it matches a literal backslash.
- DATEONLY columns: `fechaFabricacion` and `fechaVencimiento` are calendar days, and comparisons against them (the date validators, the dashboard and expiry queries, the read-time flags) work on those days. The model keeps every date as an instant in milliseconds, so the day boundary is not modelled: in the source a row expiring today counts as near expiry and not yet as expired.
- String lengths: the model counts Unicode characters. Joi `max` counts UTF-16 code units, so a character outside the Basic Multilingual Plane (an emoji, say) counts 2 for Joi and 1 in the model, and a string at the bound can pass here and fail in Joi. Sequelize `len` (validator.js `isLength`) counts such a character once, as the model does, but does not count the variation selectors U+FE0E and U+FE0F, which the model counts.
- ILIKE case folding covers ASCII letters only.
- Common.Trim: its contract states no space at either end, not that exactly the outer spaces are removed. The dropped characters are shown to be spaces by the lemmas `TrimStartSpec` and `TrimEndSpec`.
- The joined `tipoMedicamento` object included with medication rows, and the `toJSON` of the projected top-5 rows: payloads carry the records, and the joined type is not rendered.
- `findAndCountAll` with a `hasMany` include may over-count joined rows without `distinct`. The model counts types.
- `ORDER BY createdAt DESC` is modelled as reverse insertion order. The order among rows with equal sort keys is not claimed.
- Concurrency between requests, and transactions: each handler runs alone on the tables.
- The stock route has no request validator, so `amount` is taken as given.
- The generic 500 handler of each route: only the error paths the handlers answer themselves are modelled (the negative stock that fails the record validator is one).
- migrations and seeders beyond the initial empty tables, and server startup.

## Findings

| source | as written | input that shows it | evidently intended | confidence | as-written member | corrected member |
|---|---|---|---|---|---|---|
| controllers/medicamentoController.js:327-336 | `stockAnterior` is read from the record after `update` has written the new stock | stock 100, operation "add", amount 5: reply says stockAnterior 105, stockNuevo 105 | stockAnterior is the stock before the update (100) | not executed | MedicamentoController.StockReportAsWrittenLosesPrevious | MedicamentoController.UpdateStock |
| models/Medicamento.js:105-109 | `isAfterFabricacion` sits on `fechaVencimiento`, and an update validates only the changed attributes | stored fabrication day 0, expiry day 10, load day 20; PUT with only fechaFabricacion = day 15 passes and stores expiry before fabrication | the merged record keeps expiry after fabrication | not executed | MedicamentoController.AsWrittenUpdateStoresInvertedDates | MedicamentoController.Update |
| models/TIpoMedicamento.js:18-25 | the type's `toJSON` returns only its own four columns | GET /tipos/1?includeMedicamentos=true for a type with medications returns no medications | the loaded medications appear in the reply | not executed | TipoController.IncludeMedicamentosLostAsWritten | TipoController.IncludeMedicamentosRendered |
| controllers/tipoMedicamentoController.js:103-109 | the trimmed description is passed as the ILIKE pattern of the duplicate check, so `%`, `_` and backslash in it are wildcards and escapes | with type "Gel" stored, POST description "%" or "G_l" is refused as a duplicate; with `1\2` stored, POST `1\2` is accepted and stored twice | a type is a duplicate exactly when its description equals the new one ignoring case | not executed | TipoController.DuplicateCheckAsWrittenMisreadsPatterns | TipoController.FindByDescription |
