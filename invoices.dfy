/** The `/invoices` routes: list, detail by id, create, update of the amount and delete. */
module Invoices {
  import opened Tables
  import Companies

  /** One element of the list `GET /invoices` returns. */
  datatype Summary = Summary(id: int, compCode: string)

  /** The company summary nested in an invoice detail. */
  datatype CompanyRef = CompanyRef(code: string, name: Option<string>, description: Option<string>)

  /** The document `GET /invoices/:id` returns. */
  datatype Detail = Detail(id: int, amt: int, paid: bool, addDate: string, paidDate: Option<string>,
                           company: CompanyRef)

  /** A row of `invoices inner join companies on companies.code = invoices.comp_code`,
      with the columns the detail query selects. */
  datatype Joined = Joined(id: int, amt: int, paid: bool, addDate: string, paidDate: Option<string>,
                           compCode: string, name: Option<string>, description: Option<string>)

  /** `select id, comp_code from invoices`: one pair per row, in store order. */
  function List(invoices: seq<Invoice>): (r: seq<Summary>)
    ensures |r| == |invoices|
    ensures forall i :: 0 <= i < |r| ==> r[i] == Summary(invoices[i].id, invoices[i].compCode)
  {
    if invoices == [] then [] else [Summary(invoices[0].id, invoices[0].compCode)] + List(invoices[1..])
  }

  function JoinRow(v: Invoice, c: Company): Joined
  {
    Joined(v.id, v.amt, v.paid, v.addDate, v.paidDate, v.compCode, c.name, c.description)
  }

  /** The joined rows of one invoice: one per company whose code is its `comp_code`. */
  function RowsFor(v: Invoice, cs: seq<Company>): (r: seq<Joined>)
    ensures forall row :: row in r <==> exists j :: 0 <= j < |cs| && cs[j].code == v.compCode && row == JoinRow(v, cs[j])
  {
    if cs == [] then []
    else
      var rest := RowsFor(v, cs[1..]);
      assert forall j :: 0 <= j < |cs| - 1 ==> cs[1..][j] == cs[j + 1];
      (if cs[0].code == v.compCode then [JoinRow(v, cs[0])] else []) + rest
  }

  /** The rows of the detail query for `id`, in store order. */
  function Join(vs: seq<Invoice>, cs: seq<Company>, id: int): (r: seq<Joined>)
    ensures forall row :: row in r <==>
      exists i, j :: 0 <= i < |vs| && 0 <= j < |cs| && vs[i].id == id && cs[j].code == vs[i].compCode &&
                     row == JoinRow(vs[i], cs[j])
  {
    if vs == [] then []
    else
      var rest := Join(vs[1..], cs, id);
      assert forall i :: 0 <= i < |vs| - 1 ==> vs[1..][i] == vs[i + 1];
      (if vs[0].id == id then RowsFor(vs[0], cs) else []) + rest
  }

  /** The split of one joined row into the invoice and its nested company. */
  function Split(row: Joined): (r: Detail)
    ensures forall v, c :: row == JoinRow(v, c) ==> Describes(r, v, c)
  {
    Detail(row.id, row.amt, row.paid, row.addDate, row.paidDate,
           CompanyRef(row.compCode, row.name, row.description))
  }

  /** `d` shows invoice `v` unchanged, nested with the code of `v`'s company and the name and
      description of company `c`. */
  predicate Describes(d: Detail, v: Invoice, c: Company)
  {
    d.id == v.id && d.amt == v.amt && d.paid == v.paid && d.addDate == v.addDate &&
    d.paidDate == v.paidDate && d.company.code == v.compCode &&
    d.company.name == c.name && d.company.description == c.description
  }

  /** Some invoice with this id joins to a company with its `comp_code`. */
  predicate Joins(vs: seq<Invoice>, cs: seq<Company>, id: int)
  {
    exists i, j :: 0 <= i < |vs| && 0 <= j < |cs| && vs[i].id == id && cs[j].code == vs[i].compCode
  }

  /** GET /invoices/:id: NotFound unless an invoice with that id joins to a company. */
  function Get(invoices: seq<Invoice>, companies: seq<Company>, id: int): (r: Response<Detail>)
    ensures r.Ok? || r.NotFound?
    ensures r.NotFound? <==> !Joins(invoices, companies, id)
    ensures r.Ok? ==>
      exists i, j :: 0 <= i < |invoices| && 0 <= j < |companies| && invoices[i].id == id &&
                     companies[j].code == invoices[i].compCode && Describes(r.doc, invoices[i], companies[j])
  {
    var rows := Join(invoices, companies, id);
    if |rows| > 0 then
      assert rows[0] in rows;
      Ok(Split(rows[0]))
    else
      assert !Joins(invoices, companies, id) by {
        forall i, j | 0 <= i < |invoices| && 0 <= j < |companies| && invoices[i].id == id
          ensures companies[j].code != invoices[i].compCode
        {
          assert companies[j].code == invoices[i].compCode ==> JoinRow(invoices[i], companies[j]) in rows;
        }
      }
      NotFound
  }

  /** POST /invoices: NotFound, inserting nothing, unless `comp_code` names a company
      (an absent `comp_code` is sent as NULL and matches no row); otherwise one row with the
      store's defaults is added and returned. */
  method Create(db: Database, compCode: Option<string>, amt: int, freshId: int, today: string)
    returns (r: Response<Invoice>)
    requires db.Valid()
    requires !HasInvoice(db.invoices, freshId)
    modifies db`invoices
    ensures db.Valid()
    ensures r.Ok? || r.NotFound?
    ensures r.NotFound? <==> compCode.None? || !HasCompany(db.companies, compCode.value)
    ensures r.NotFound? ==> db.invoices == old(db.invoices)
    ensures r.Ok? ==>
      r.doc == Invoice(freshId, compCode.value, amt, false, today, None) &&
      db.invoices == old(db.invoices) + [r.doc]
  {
    var found := if compCode.Some? then Companies.WithCode(db.companies, compCode.value) else [];
    if |found| == 0 {
      if compCode.Some? {
        forall k | 0 <= k < |db.companies| ensures db.companies[k].code != compCode.value {
          assert db.companies[k] in db.companies;
        }
      }
      return NotFound;
    }
    assert found[0] in found;
    var row := Invoice(freshId, compCode.value, amt, false, today, None);
    db.invoices := db.invoices + [row];
    r := Ok(row);
  }

  /** `update invoices set amt = $2 where id = $1`. */
  function SetAmount(vs: seq<Invoice>, id: int, amt: int): (r: seq<Invoice>)
    ensures |r| == |vs|
    ensures forall i :: 0 <= i < |vs| ==> r[i] == if vs[i].id == id then vs[i].(amt := amt) else vs[i]
  {
    if vs == [] then []
    else [if vs[0].id == id then vs[0].(amt := amt) else vs[0]] + SetAmount(vs[1..], id, amt)
  }

  /** POST /invoices/:id: only `amt` of that invoice changes. */
  method Update(db: Database, id: int, amt: int) returns (r: Response<Invoice>)
    requires db.Valid()
    modifies db`invoices
    ensures db.Valid()
    ensures r.Ok? || r.NotFound?
    ensures r.NotFound? <==> !HasInvoice(old(db.invoices), id)
    ensures r.NotFound? ==> db.invoices == old(db.invoices)
    ensures r.Ok? ==> db.invoices == SetAmount(old(db.invoices), id, amt)
    ensures r.Ok? ==>
      exists i :: 0 <= i < |old(db.invoices)| && old(db.invoices)[i].id == id &&
                  r.doc == old(db.invoices)[i].(amt := amt)
  {
    ghost var before := db.invoices;
    db.invoices := SetAmount(db.invoices, id, amt);
    var returned := WithId(db.invoices, id);
    if |returned| == 0 {
      forall i | 0 <= i < |before| ensures before[i].id != id {
        assert db.invoices[i] in db.invoices;
      }
      assert db.invoices == before;
      return NotFound;
    }
    assert returned[0] in returned;
    r := Ok(returned[0]);
  }

  /** The rows with this id, in store order. */
  function WithId(vs: seq<Invoice>, id: int): (r: seq<Invoice>)
    ensures forall v :: v in r <==> v in vs && v.id == id
  {
    if vs == [] then [] else (if vs[0].id == id then [vs[0]] else []) + WithId(vs[1..], id)
  }

  /** `delete from invoices where id = $1`. */
  function RemoveId(vs: seq<Invoice>, id: int): (r: seq<Invoice>)
    ensures forall v :: v in r <==> v in vs && v.id != id
    ensures |r| <= |vs|
    ensures |r| == |vs| <==> !HasInvoice(vs, id)
  {
    if vs == [] then []
    else
      var rest := RemoveId(vs[1..], id);
      assert HasInvoice(vs, id) <==> vs[0].id == id || HasInvoice(vs[1..], id) by {
        if HasInvoice(vs, id) && vs[0].id != id {
          var k :| 0 <= k < |vs| && vs[k].id == id;
          assert vs[1..][k - 1].id == id;
        }
        if HasInvoice(vs[1..], id) {
          var k :| 0 <= k < |vs[1..]| && vs[1..][k].id == id;
          assert vs[k + 1].id == id;
        }
      }
      (if vs[0].id == id then [] else [vs[0]]) + rest
  }

  /** DELETE /invoices/:id: NotFound when the delete removed no row. */
  method Delete(db: Database, id: int) returns (r: Response<Status>)
    requires db.Valid()
    modifies db`invoices
    ensures db.Valid()
    ensures db.invoices == RemoveId(old(db.invoices), id)
    ensures r.Ok? || r.NotFound?
    ensures r.NotFound? <==> !HasInvoice(old(db.invoices), id)
    ensures r.NotFound? ==> db.invoices == old(db.invoices)
    ensures r.Ok? ==> r.doc == Deleted && |db.invoices| == |old(db.invoices)| - 1
  {
    var before := |db.invoices|;
    if !HasInvoice(db.invoices, id) {
      RemoveIdAbsent(db.invoices, id);
    }
    IdUnique(db.invoices, id);
    RemoveIdCount(db.invoices, id);
    RemoveKeepsUnique(db.invoices, id);
    db.invoices := RemoveId(db.invoices, id);
    var rowCount := before - |db.invoices|;
    if rowCount == 0 {
      return NotFound;
    }
    r := Ok(Deleted);
  }

  // ---- lemmas ------------------------------------------------------------

  /** A delete whose id matches no row leaves the table as it was. */
  lemma {:induction false} RemoveIdAbsent(vs: seq<Invoice>, id: int)
    requires !HasInvoice(vs, id)
    ensures RemoveId(vs, id) == vs
  {
    if vs != [] {
      assert !HasInvoice(vs[1..], id) by {
        forall k | 0 <= k < |vs[1..]| ensures vs[1..][k].id != id {
          assert vs[1..][k] == vs[k + 1];
        }
      }
      RemoveIdAbsent(vs[1..], id);
    }
  }

  /** The rows the delete keeps and the rows it removes make up the table. */
  lemma {:induction false} RemoveIdCount(vs: seq<Invoice>, id: int)
    ensures |RemoveId(vs, id)| + |WithId(vs, id)| == |vs|
  {
    if vs != [] {
      RemoveIdCount(vs[1..], id);
    }
  }

  /** With unique ids, an id selects at most one row, and exactly one when present. */
  lemma {:induction false} IdUnique(vs: seq<Invoice>, id: int)
    requires UniqueInvoiceIds(vs)
    ensures |WithId(vs, id)| <= 1
    ensures HasInvoice(vs, id) <==> |WithId(vs, id)| == 1
  {
    if vs != [] {
      UniqueTail(vs, (v: Invoice) => v.id);
      IdUnique(vs[1..], id);
      if vs[0].id == id {
        assert WithId(vs[1..], id) == [] by {
          forall v | v in vs[1..] ensures v.id != id {
            var k :| 0 <= k < |vs[1..]| && vs[1..][k] == v;
            assert vs[k + 1] == v;
          }
        }
      }
      if HasInvoice(vs, id) && vs[0].id != id {
        var k :| 0 <= k < |vs| && vs[k].id == id;
        assert vs[1..][k - 1].id == id;
      }
      if HasInvoice(vs[1..], id) {
        var k :| 0 <= k < |vs[1..]| && vs[1..][k].id == id;
        assert vs[k + 1].id == id;
      }
    }
  }

  /** Deleting rows keeps the remaining ids unique. */
  lemma {:induction false} RemoveKeepsUnique(vs: seq<Invoice>, id: int)
    requires UniqueInvoiceIds(vs)
    ensures UniqueInvoiceIds(RemoveId(vs, id))
  {
    if vs != [] {
      var tail := vs[1..];
      UniqueTail(vs, (v: Invoice) => v.id);
      RemoveKeepsUnique(tail, id);
      var rest := RemoveId(tail, id);
      if vs[0].id != id {
        forall x | x in rest ensures x.id != vs[0].id {
          var k :| 0 <= k < |tail| && tail[k] == x;
          assert vs[k + 1] == x;
        }
        var r := [vs[0]] + rest;
        forall i, j | 0 <= i < j < |r| ensures r[i].id != r[j].id {
          assert r[j] == rest[j - 1] && rest[j - 1] in rest;
          if i > 0 {
            assert r[i] == rest[i - 1];
          }
        }
      }
    }
  }

  /** Every joined row with the amount replaced. */
  function WithAmount(rows: seq<Joined>, amt: int): (r: seq<Joined>)
    ensures |r| == |rows|
    ensures forall k :: 0 <= k < |rows| ==> r[k] == rows[k].(amt := amt)
  {
    if rows == [] then [] else [rows[0].(amt := amt)] + WithAmount(rows[1..], amt)
  }

  lemma {:induction false} RowsForAmount(v: Invoice, cs: seq<Company>, amt: int)
    ensures RowsFor(v.(amt := amt), cs) == WithAmount(RowsFor(v, cs), amt)
  {
    if cs != [] {
      RowsForAmount(v, cs[1..], amt);
    }
  }

  lemma {:induction false} JoinAmount(vs: seq<Invoice>, cs: seq<Company>, id: int, amt: int)
    ensures Join(SetAmount(vs, id, amt), cs, id) == WithAmount(Join(vs, cs, id), amt)
  {
    if vs != [] {
      JoinAmount(vs[1..], cs, id, amt);
      assert SetAmount(vs, id, amt)[1..] == SetAmount(vs[1..], id, amt);
      if vs[0].id == id {
        RowsForAmount(vs[0], cs, amt);
      }
    }
  }

  /** After an update of the amount, the detail shows the new amount and is otherwise the
      detail from before. */
  lemma UpdateThenGet(vs: seq<Invoice>, cs: seq<Company>, id: int, amt: int)
    ensures Get(SetAmount(vs, id, amt), cs, id).NotFound? == Get(vs, cs, id).NotFound?
    ensures Get(vs, cs, id).Ok? ==>
      Get(SetAmount(vs, id, amt), cs, id) == Ok(Get(vs, cs, id).doc.(amt := amt))
  {
    JoinAmount(vs, cs, id, amt);
  }

  /** An invoice just created is found by its id, with its company. */
  lemma CreateThenGet(vs: seq<Invoice>, cs: seq<Company>, v: Invoice, k: nat)
    requires !HasInvoice(vs, v.id)
    requires UniqueCompanyCodes(cs)
    requires k < |cs| && cs[k].code == v.compCode
    ensures Get(vs + [v], cs, v.id).Ok?
    ensures Describes(Get(vs + [v], cs, v.id).doc, v, cs[k])
  {
    var all := vs + [v];
    assert JoinRow(v, cs[k]) in Join(all, cs, v.id) by {
      assert all[|vs|] == v;
    }
    var rows := Join(all, cs, v.id);
    assert rows[0] in rows;
    var i, j :| 0 <= i < |all| && 0 <= j < |cs| && all[i].id == v.id && cs[j].code == all[i].compCode &&
                rows[0] == JoinRow(all[i], cs[j]);
    assert forall t :: 0 <= t < |vs| ==> all[t] == vs[t];
    assert i == |vs|;
    assert j == k;
  }

  /** A created invoice is listed last in its company's detail. */
  lemma CreateShowsInCompany(vs: seq<Invoice>, v: Invoice)
    ensures Companies.InvoiceIds(vs + [v], v.compCode) == Companies.InvoiceIds(vs, v.compCode) + [v.id]
  {
    Companies.InvoiceIdsAppend(vs, [v], v.compCode);
  }

  /** A deleted invoice is no longer found. */
  lemma DeleteThenGet(vs: seq<Invoice>, cs: seq<Company>, id: int)
    ensures Get(RemoveId(vs, id), cs, id) == NotFound
  {
    var rest := RemoveId(vs, id);
    forall i | 0 <= i < |rest| ensures rest[i].id != id {
      assert rest[i] in rest;
    }
  }
}
