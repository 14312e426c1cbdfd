# Companies, invoices and industries REST routes — a Dafny model

The service exposes CRUD routes over four tables: `companies`, `invoices`, `industries`
and the link table `company_industry`. Each route handler runs one or a few SQL statements and
reshapes the rows into a JSON document. This project models the three route files.

- `tables.dfy` (module `Tables`) holds the row types and the `Database` class. The class has one
  `seq` field per table, in the order the store returns the rows. `Valid()` says that the
  primary keys are unique: `companies.code`, `industries.code` and `invoices.id`. It also holds
  the JavaScript truthiness test `Truthy` and the handler outcome
  `Response<T> = Ok(doc) | NotFound | BadRequest | Failed(fault)`. The 404 and 400 errors the
  handlers throw are `NotFound` and `BadRequest`; `Failed` is every other failure a handler passes
  to `next(err)`, of which only the three faults in `Fault` are modelled.
- `companies.dfy` (module `Companies`) models `routes/companies.js`. The list and the detail
  projection are functions over the tables. Create, update and delete are methods that reassign
  `db.companies`.
- `invoices.dfy` (module `Invoices`) models `routes/invoices.js`. The list, the join and the split of
  the joined row are functions. Create, update of `amt` and delete are methods on `db.invoices`.
- `industries.dfy` (module `Industries`) models `routes/industries.js`. The `reduce` over the
  left-join rows is a method with a loop that updates an accumulator map. It is proved against
  reference definitions: the first row of each name (`IsFirst`) and the truthy codes of its rows
  (`CompanyCodes`). Industry create and link create are methods on `db.industries` and
  `db.links`.

Every SQL statement is modelled by its effect on the table sequences. `slugify` is foreign code,
so it is a parameter `slug: string -> string` and nothing is assumed about it. When `slugify`
gets a non-string argument it throws, which is modelled as `Failed(SlugOfUndefined)`. The
serial id of a new invoice and the current date are parameters. The id must be fresh.

The model follows the route code where it differs from what its comments suggest:
- A group's `companies` skips every falsy `comp_code`, so the empty string is skipped as well as NULL.
- The NotFound branch of the link route can never be taken.
- An industry created without a code fails rather than deriving one (see Findings).

## Model

| member | source | states |
|---|---|---|
| Companies.List | routes/companies.js:13-16 | one `(code, name)` pair per company row, in store order |
| Companies.WithCode | routes/companies.js:38-42 | the rows selected by code are exactly the table's rows with that code |
| Companies.InvoiceIds | routes/companies.js:45-49 | an id is listed exactly when some invoice of the company has it |
| Companies.IndustryNames | routes/companies.js:50-56 | a name is listed exactly when some link of the company points at an industry with that name |
| Companies.Get | routes/companies.js:36-70 | NotFound exactly when no row has the code; otherwise code, name and description are copied from a row with that code, and `invoices`/`industries` are the company's ids and industry names in store order |
| Companies.Create | routes/companies.js:87-103 | the key is the body `code` when truthy, else `slug(name)`; an absent name fails as slugify throws; a taken key fails with nothing inserted; otherwise exactly the row `(key, name, description)` is appended and returned |
| Companies.Rename | routes/companies.js:124-130 | the UPDATE replaces name and description of the rows with the code, keeps their code and position, and leaves every other row as it was |
| Companies.Update | routes/companies.js:121-136 | NotFound and no change exactly when the code is absent; otherwise the table is the renamed one and the returned row is `(code, name, description)` |
| Companies.Without | routes/companies.js:153-155 | the DELETE keeps exactly the rows with another code; rows removed plus rows kept is the old size |
| Companies.Delete | routes/companies.js:152-162 | NotFound, with the table unchanged, exactly when no row was removed; otherwise the one company with that code is gone and the result is `{status: "deleted"}` |
| Companies.WithoutAbsent | routes/companies.js:153-155 | a DELETE whose code matches no row leaves the table as it was |
| Companies.CodeUnique | routes/companies.js:153-160 | with unique codes a code selects at most one row, and exactly one when present |
| Companies.WithoutKeepsUnique | routes/companies.js:153-155 | deleting keeps the company codes unique |
| Companies.InvoiceIdsAppend | routes/companies.js:45-49 | the invoice ids of a concatenated table are those of each part, in order (store order, no re-sorting or dedup) |
| Companies.IndustryNamesAppend | routes/companies.js:50-56 | the industry names follow link order |
| Companies.NamesWithCodeUnique | routes/companies.js:50-56 | with unique industry codes each link contributes at most one name |
| Companies.CreateThenGet | routes/companies.js:89-103 | a company just created is found by its key with the name and description it was given |
| Companies.UpdateThenGet | routes/companies.js:124-136 | after an update the detail shows the new name and description and the same invoices and industries |
| Companies.RenameKeepsOthers | routes/companies.js:124-130 | an update leaves the rows of every other code unchanged |
| Companies.WithoutKeepsOthers | routes/companies.js:153-155 | after a delete no row has the code and the rows of every other code are unchanged |
| Companies.DeleteThenGet | routes/companies.js:153-162 | a deleted company is NotFound; every other company's detail is what it was |
| Invoices.List | routes/invoices.js:13-17 | one `(id, comp_code)` pair per invoice row, in store order |
| Invoices.RowsFor | routes/invoices.js:35-42 | an invoice joins to exactly the companies whose code is its `comp_code` |
| Invoices.Join | routes/invoices.js:35-42 | a joined row exists exactly for each invoice with the id and each company with its `comp_code` |
| Invoices.Split | routes/invoices.js:48-59 | the detail made from the joined row of invoice `v` and company `c` `Describes` `v` nested with `c`: the invoice fields unchanged, `company.code` the invoice's `comp_code`, name and description from `c` |
| Invoices.Get | routes/invoices.js:33-59 | NotFound exactly when no invoice with the id joins to a company; otherwise id, amt, paid, add_date and paid_date are copied, `company.code` is the invoice's own `comp_code` and name/description come from that company |
| Invoices.Create | routes/invoices.js:76-95 | NotFound and no insert exactly when `comp_code` is absent or names no company; otherwise exactly one row `(id, comp_code, amt, false, today, NULL)` is appended and returned |
| Invoices.SetAmount | routes/invoices.js:116-122 | the UPDATE changes only `amt` of the rows with the id; all other fields and rows are unchanged |
| Invoices.Update | routes/invoices.js:113-128 | NotFound and no change exactly when the id is absent; otherwise the table has the new amount and the returned row is the old row with the new `amt` |
| Invoices.RemoveId | routes/invoices.js:145-147 | the DELETE keeps exactly the rows with another id, and shrinks the table exactly when the id is present |
| Invoices.Delete | routes/invoices.js:143-154 | NotFound, with the table unchanged, exactly when no row was removed; otherwise the one invoice with that id is gone, the table is one row shorter, and the result is `{status: "deleted"}` |
| Invoices.RemoveIdAbsent | routes/invoices.js:145-147 | a DELETE whose id matches no row leaves the table as it was |
| Invoices.RemoveIdCount | routes/invoices.js:145-147 | the rows the DELETE keeps and the rows with the id make up the whole table |
| Invoices.IdUnique | routes/invoices.js:145-152 | with unique ids an id selects at most one row, and exactly one when present |
| Invoices.RemoveKeepsUnique | routes/invoices.js:145-147 | deleting keeps the invoice ids unique |
| Invoices.JoinAmount | routes/invoices.js:116-122 | after the amount update the joined rows for an id are the old ones with the new amount |
| Invoices.UpdateThenGet | routes/invoices.js:116-126 | after an update the detail is found exactly when it was before, and is the old detail with the new amount |
| Invoices.CreateThenGet | routes/invoices.js:88-95 | an invoice just created is found by its id, with its own fields and its company's name and description |
| Invoices.CreateShowsInCompany | routes/invoices.js:88-95 | a created invoice is listed last among its company's invoice ids |
| Invoices.DeleteThenGet | routes/invoices.js:145-154 | a deleted invoice is NotFound |
| Industries.CompanyCodesMembers | routes/industries.js:33-35 | a code is in a group's list exactly when a row with that name carries it and it is truthy |
| Industries.Aggregate | routes/industries.js:21-38 | corrected (see Findings): every row's name is a key and every key is some row's name; a group's code is that of the first row with its name; every group has a `companies` list equal to its rows' truthy codes in row order |
| Industries.GroupedStep | routes/industries.js:23-35 | one step of the reduce turns the grouping of the first `i` rows into that of the first `i + 1` rows |
| Industries.NoRowsNoCodes | routes/industries.js:29-35 | a group whose rows all have a falsy `comp_code` gets the empty list |
| Industries.LinkedRows | routes/industries.js:14-19 | every joined row of an industry carries its name and code |
| Industries.RowsOf | routes/industries.js:14-19 | the left join gives every industry at least one row, with its name and code |
| Industries.LeftJoin | routes/industries.js:14-19 | the left join has at least one row per industry; with `LeftJoinCovers`, `LeftJoinFrom`, `LeftJoinFirst` and `LeftJoinCodes` its rows are exactly those of the industries, first rows follow table order and the companies are the linked ones |
| Industries.LeftJoinFrom | routes/industries.js:14-19 | every row of the left join carries the name and code of some industry |
| Industries.LeftJoinCovers | routes/industries.js:14-19 | every industry, linked or not, has a row with its name in the left join |
| Industries.LeftJoinFirst | routes/industries.js:14-26 | the first joined row of a name comes from the first industry with that name |
| Industries.LeftJoinCodes | routes/industries.js:14-35 | the truthy codes of a name's joined rows are the companies linked to that name's industries |
| Industries.List | routes/industries.js:14-40 | corrected (see Findings), over the tables: every industry name is a key and nothing else is; a group's code is that of the first industry with the name; its companies are those linked to that name's industries |
| Industries.Create | routes/industries.js:50-65 | as written: a falsy code fails with the ReferenceError and inserts nothing; a taken code fails; otherwise exactly `(code, industry)` is inserted and returned |
| Industries.CreateWithSlug | routes/industries.js:50-65 | corrected: a falsy code is replaced by `slug(industry)`; then as above |
| Industries.Insert | routes/industries.js:59-63 | a taken code fails with nothing inserted; otherwise exactly the row is appended and returned |
| Industries.LinkCompany | routes/industries.js:76-96 | BadRequest and no insert exactly when `company_code` is falsy; otherwise exactly the pair is appended and returned; never NotFound |
| Industries.AggregateAsWritten | routes/industries.js:21-38 | as written: `Object.prototype.companies` is set exactly when some row is named `__proto__`; a name becomes an own key exactly when, at its first row, no inherited property answers it (not a method name or `__proto__`, and not "companies" once a `__proto__` row came before); every own key has the code of its first row, and lacks its own `companies` field exactly when a `__proto__` row came before that first row |
| Industries.AsWrittenStep | routes/industries.js:24-36 | one row of the reduce as written keeps that state description true: a lookup miss creates an own entry with the row's code, only a `__proto__` row sets `Object.prototype.companies`, and existing own entries keep their codes |
| Industries.InheritedNameDropped | routes/industries.js:21-40 | an industry named "constructor" is listed by the corrected reduce and missing as written |
| Industries.PrototypePolluted | routes/industries.js:21-40 | as written, for rows named `__proto__`, "companies" and "Tech": "companies" is missing and "Tech" is sent as `{code}` without `companies` |
| Industries.PrototypeHarmless | routes/industries.js:21-40 | the corrected reduce lists both "companies" and "Tech" of those rows, with their companies |

## Findings

| source | as written | input that shows it | evidently intended | confidence | as-written member | corrected member |
|---|---|---|---|---|---|---|
| routes/industries.js:52 | with a falsy `code` the handler calls `slugify(name, …)`, but `name` is not declared in that handler, so it throws a ReferenceError and nothing is inserted | body `{"industry": "Tech"}` without `code` | derive the code from `industry` | high; not executed | Industries.Create | Industries.CreateWithSlug |
| routes/industries.js:21-38 | the accumulator is a plain `{}`, so for a name such as `constructor` the lookup `collection[ind]` finds an inherited method and is truthy; no own entry is made, the companies array is attached to that shared builtin, and the industry is missing from the response. A row named `__proto__` makes the handler set `Object.prototype.companies`, after which a "companies" row is dropped too and every group created later is sent without its `companies` | one industry named `constructor`; or rows named `__proto__`, "companies" and "Tech" | every industry name is an own key of the listing | medium; not executed | Industries.AggregateAsWritten | Industries.Aggregate |

## Left out

- Express routing, `req`/`res`, `next(err)` and the `ExpressError` class. Each handler returns a `Response` instead. HTTP status codes and the text of the error messages are not modelled.
- The database client and SQL text. Each statement is modelled by its effect on the table sequences.
- Row order: without `ORDER BY` the store promises no order. The model takes insertion order, keeps an updated row in place, and reads the joins in nested-loop order.
- `slugify` is a parameter with no assumed properties, so idempotence and its character set are not modelled.
- Store constraints other than the three primary keys: foreign keys, a key on `company_industry`, NOT NULL columns, and the unique company name. A link insert always succeeds, and deleting a company leaves its invoices and links in place.
- Serial id generation and the `add_date` default. Both are parameters (`freshId`, `today`).
- Route ids are strings in the handlers. The model takes `int` ids, so a non-numeric id, which makes the store throw, is not modelled.
- Body fields of other JSON types (a numeric `code`, say) are not modelled. An absent `amt` or `industry` is not modelled either; the model takes them as present.
- `amt` is an `int`, not the store's numeric type.
- The JSON key order of the industry listing. The listing is a `map`.
- The arrays the handler as written attaches to builtins, `Object.prototype.companies` included, persist across requests. The model starts each request from a clean `Object.prototype`.
- async/await and the race between invoice create's company check and its insert.
- Industries.AggregateAsWritten: states which names become own keys, their codes and whether their own `companies` field is present, not the contents of the `companies` arrays it builds.
