/** The `/companies` routes: list, detail by code, create, update and delete. */
module Companies {
  import opened Tables

  /** One element of the list `GET /companies` returns. */
  datatype Summary = Summary(code: string, name: Option<string>)

  /** The document `GET /companies/:code` returns. */
  datatype Detail = Detail(code: string, name: Option<string>, description: Option<string>,
                           invoices: seq<int>, industries: seq<string>)

  /** `select code, name from companies`: one pair per row, in store order. */
  function List(companies: seq<Company>): (r: seq<Summary>)
    ensures |r| == |companies|
    ensures forall i :: 0 <= i < |r| ==> r[i] == Summary(companies[i].code, companies[i].name)
  {
    if companies == [] then [] else [Summary(companies[0].code, companies[0].name)] + List(companies[1..])
  }

  /** `select ... from companies where code = $1`: the matching rows in store order. */
  function WithCode(cs: seq<Company>, code: string): (r: seq<Company>)
    ensures forall c :: c in r <==> c in cs && c.code == code
    ensures |r| <= |cs|
  {
    if cs == [] then []
    else (if cs[0].code == code then [cs[0]] else []) + WithCode(cs[1..], code)
  }

  /** `select id from invoices where comp_code = $1`, each row mapped to its id. */
  function InvoiceIds(vs: seq<Invoice>, code: string): (r: seq<int>)
    ensures forall x :: x in r <==> exists i :: 0 <= i < |vs| && vs[i].compCode == code && vs[i].id == x
    ensures |r| <= |vs|
  {
    if vs == [] then []
    else
      var rest := InvoiceIds(vs[1..], code);
      assert forall i :: 0 <= i < |vs| - 1 ==> vs[1..][i] == vs[i + 1];
      (if vs[0].compCode == code then [vs[0].id] else []) + rest
  }

  /** The names of the industries whose code is `indCode`. */
  function NamesWithCode(ds: seq<Industry>, indCode: string): (r: seq<string>)
    ensures forall n :: n in r <==> exists j :: 0 <= j < |ds| && ds[j].code == indCode && ds[j].industry == n
  {
    if ds == [] then []
    else
      var rest := NamesWithCode(ds[1..], indCode);
      assert forall j :: 0 <= j < |ds| - 1 ==> ds[1..][j] == ds[j + 1];
      (if ds[0].code == indCode then [ds[0].industry] else []) + rest
  }

  /** `select industry from industries inner join company_industry on ind.code = ci.ind_code
      where ci.comp_code = $1`, each row mapped to its name: for every link of the company,
      in link order, the name of the industry it points at. */
  function IndustryNames(ds: seq<Industry>, links: seq<Link>, code: string): (r: seq<string>)
    ensures forall n :: n in r <==>
      exists i, j :: 0 <= i < |links| && 0 <= j < |ds| &&
        links[i].compCode == code && ds[j].code == links[i].indCode && ds[j].industry == n
  {
    if links == [] then []
    else
      var rest := IndustryNames(ds, links[1..], code);
      assert forall i :: 0 <= i < |links| - 1 ==> links[1..][i] == links[i + 1];
      (if links[0].compCode == code then NamesWithCode(ds, links[0].indCode) else []) + rest
  }

  /** GET /companies/:code. */
  function Get(companies: seq<Company>, invoices: seq<Invoice>, industries: seq<Industry>,
               links: seq<Link>, code: string): (r: Response<Detail>)
    ensures r.Ok? || r.NotFound?
    ensures r.NotFound? <==> !HasCompany(companies, code)
    ensures r.Ok? ==>
      exists i :: 0 <= i < |companies| && companies[i].code == code && r.doc.code == code &&
                  r.doc.name == companies[i].name && r.doc.description == companies[i].description
    ensures r.Ok? ==> r.doc.invoices == InvoiceIds(invoices, code)
    ensures r.Ok? ==> r.doc.industries == IndustryNames(industries, links, code)
  {
    var rows := WithCode(companies, code);
    if |rows| > 0 then
      assert rows[0] in companies;
      Ok(Detail(rows[0].code, rows[0].name, rows[0].description,
                InvoiceIds(invoices, code), IndustryNames(industries, links, code)))
    else
      assert forall i :: 0 <= i < |companies| ==> companies[i].code != code by {
        forall i | 0 <= i < |companies| ensures companies[i].code != code {
          assert companies[i] in companies;
        }
      }
      NotFound
  }

  /** POST /companies: the body's `code` when truthy, else `slug(name)`; slugify throws on an
      absent name. The insert fails on a duplicate primary key. */
  method Create(db: Database, slug: string -> string, code: Option<string>, name: Option<string>,
                description: Option<string>) returns (r: Response<Company>)
    requires db.Valid()
    modifies db`companies
    ensures db.Valid()
    ensures !Truthy(code) && name.None? ==> r == Failed(SlugOfUndefined) && db.companies == old(db.companies)
    ensures Truthy(code) || name.Some? ==>
      var key := if Truthy(code) then code.value else slug(name.value);
      if HasCompany(old(db.companies), key) then
        r == Failed(DuplicateKey) && db.companies == old(db.companies)
      else
        r == Ok(Company(key, name, description)) &&
        db.companies == old(db.companies) + [Company(key, name, description)]
  {
    var key: string;
    if Truthy(code) {
      key := code.value;
    } else if name.None? {
      return Failed(SlugOfUndefined);
    } else {
      key := slug(name.value);
    }
    if HasCompany(db.companies, key) {
      return Failed(DuplicateKey);
    }
    var row := Company(key, name, description);
    db.companies := db.companies + [row];
    r := Ok(row);
  }

  /** `UPDATE companies SET name = $2, description = $3 WHERE code = $1`. */
  function Rename(cs: seq<Company>, code: string, name: Option<string>, description: Option<string>):
    (r: seq<Company>)
    ensures |r| == |cs|
    ensures forall i :: 0 <= i < |cs| ==>
      r[i] == if cs[i].code == code then Company(code, name, description) else cs[i]
  {
    if cs == [] then []
    else [if cs[0].code == code then Company(code, name, description) else cs[0]]
         + Rename(cs[1..], code, name, description)
  }

  /** PUT /companies/:code. */
  method Update(db: Database, code: string, name: Option<string>, description: Option<string>)
    returns (r: Response<Company>)
    requires db.Valid()
    modifies db`companies
    ensures db.Valid()
    ensures r.Ok? || r.NotFound?
    ensures r.NotFound? <==> !HasCompany(old(db.companies), code)
    ensures r.NotFound? ==> db.companies == old(db.companies)
    ensures r.Ok? ==> r.doc == Company(code, name, description) &&
                      db.companies == Rename(old(db.companies), code, name, description)
  {
    ghost var before := db.companies;
    RenameSelects(before, code, name, description);
    RenameFinds(before, code, name, description);
    RenameKeepsUnique(before, code, name, description);
    db.companies := Rename(db.companies, code, name, description);
    // the rows `RETURNING` yields: those with the code, after the update
    var returned := WithCode(db.companies, code);
    if |returned| == 0 {
      RenameAbsent(before, code, name, description);
      return NotFound;
    }
    assert returned[0] in returned;
    r := Ok(returned[0]);
  }

  /** `delete from companies where code = $1`. */
  function Without(cs: seq<Company>, code: string): (r: seq<Company>)
    ensures forall c :: c in r <==> c in cs && c.code != code
    ensures |r| + |WithCode(cs, code)| == |cs|
  {
    if cs == [] then []
    else (if cs[0].code == code then [] else [cs[0]]) + Without(cs[1..], code)
  }

  /** DELETE /companies/:code: NotFound when the delete removed no row. */
  method Delete(db: Database, code: string) returns (r: Response<Status>)
    requires db.Valid()
    modifies db`companies
    ensures db.Valid()
    ensures db.companies == Without(old(db.companies), code)
    ensures r.Ok? || r.NotFound?
    ensures r.NotFound? <==> !HasCompany(old(db.companies), code)
    ensures r.NotFound? ==> db.companies == old(db.companies)
    ensures r.Ok? ==> r.doc == Deleted && |db.companies| == |old(db.companies)| - 1
  {
    var before := |db.companies|;
    if !HasCompany(db.companies, code) {
      WithoutAbsent(db.companies, code);
    }
    CodeUnique(db.companies, code);
    WithoutKeepsUnique(db.companies, code);
    db.companies := Without(db.companies, code);
    var rowCount := before - |db.companies|;
    if rowCount == 0 {
      return NotFound;
    }
    r := Ok(Deleted);
  }

  // ---- lemmas ------------------------------------------------------------

  /** After the update, every row with the code is the renamed row. */
  lemma RenameSelects(cs: seq<Company>, code: string, name: Option<string>, description: Option<string>)
    ensures forall c :: c in WithCode(Rename(cs, code, name, description), code) ==> c == Company(code, name, description)
  {
    var renamed := Rename(cs, code, name, description);
    forall c | c in WithCode(renamed, code) ensures c == Company(code, name, description) {
      var i :| 0 <= i < |renamed| && renamed[i] == c;
    }
  }

  /** After the update, some row has the code exactly when one had it before. */
  lemma RenameFinds(cs: seq<Company>, code: string, name: Option<string>, description: Option<string>)
    ensures HasCompany(cs, code) <==> WithCode(Rename(cs, code, name, description), code) != []
  {
    var renamed := Rename(cs, code, name, description);
    var selected := WithCode(renamed, code);
    if HasCompany(cs, code) {
      var i :| 0 <= i < |cs| && cs[i].code == code;
      assert renamed[i] in selected;
    }
    if selected != [] {
      assert selected[0] in selected;
      var i :| 0 <= i < |renamed| && renamed[i] == selected[0];
      assert cs[i].code == code;
    }
  }

  /** The update keeps every row's code, so the codes stay unique. */
  lemma RenameKeepsUnique(cs: seq<Company>, code: string, name: Option<string>, description: Option<string>)
    requires UniqueCompanyCodes(cs)
    ensures UniqueCompanyCodes(Rename(cs, code, name, description))
  {
    var renamed := Rename(cs, code, name, description);
    assert forall i :: 0 <= i < |cs| ==> renamed[i].code == cs[i].code;
  }

  /** An update whose code matches no row leaves the table as it was. */
  lemma RenameAbsent(cs: seq<Company>, code: string, name: Option<string>, description: Option<string>)
    requires !HasCompany(cs, code)
    ensures Rename(cs, code, name, description) == cs
  {
    assert forall i :: 0 <= i < |cs| ==> Rename(cs, code, name, description)[i] == cs[i];
  }

  /** With unique codes, a code selects at most one row, and exactly one when present. */
  lemma {:induction false} CodeUnique(cs: seq<Company>, code: string)
    requires UniqueCompanyCodes(cs)
    ensures |WithCode(cs, code)| <= 1
    ensures HasCompany(cs, code) <==> |WithCode(cs, code)| == 1
  {
    if cs != [] {
      CodeUnique(cs[1..], code);
      if cs[0].code == code {
        assert WithCode(cs[1..], code) == [] by {
          forall c | c in cs[1..] ensures c.code != code {
            var k :| 0 <= k < |cs[1..]| && cs[1..][k] == c;
            assert cs[k + 1] == c;
          }
        }
      }
      if HasCompany(cs, code) && cs[0].code != code {
        var k :| 0 <= k < |cs| && cs[k].code == code;
        assert cs[1..][k - 1].code == code;
      }
      if HasCompany(cs[1..], code) {
        var k :| 0 <= k < |cs[1..]| && cs[1..][k].code == code;
        assert cs[k + 1].code == code;
      }
    }
  }

  /** Deleting rows keeps the remaining codes unique. */
  lemma {:induction false} WithoutKeepsUnique(cs: seq<Company>, code: string)
    requires UniqueCompanyCodes(cs)
    ensures UniqueCompanyCodes(Without(cs, code))
  {
    if cs != [] {
      UniqueTail(cs, (c: Company) => c.code);
      WithoutKeepsUnique(cs[1..], code);
      var rest := Without(cs[1..], code);
      if cs[0].code != code {
        forall x | x in rest ensures x.code != cs[0].code {
          var k :| 0 <= k < |cs[1..]| && cs[1..][k] == x;
          assert cs[k + 1] == x;
        }
        UniqueCons(cs[0], rest);
      }
    }
  }

  lemma UniqueCons(c: Company, rest: seq<Company>)
    requires UniqueCompanyCodes(rest)
    requires forall x :: x in rest ==> x.code != c.code
    ensures UniqueCompanyCodes([c] + rest)
  {
    var r := [c] + rest;
    forall i, j | 0 <= i < j < |r| ensures r[i].code != r[j].code {
      assert r[j] == rest[j - 1] && rest[j - 1] in rest;
      if i > 0 {
        assert r[i] == rest[i - 1];
      }
    }
  }

  /** A code no row has selects nothing. */
  /** A delete whose code matches no row leaves the table as it was. */
  lemma {:induction false} WithoutAbsent(cs: seq<Company>, code: string)
    requires !HasCompany(cs, code)
    ensures Without(cs, code) == cs
  {
    if cs != [] {
      assert !HasCompany(cs[1..], code) by {
        forall k | 0 <= k < |cs[1..]| ensures cs[1..][k].code != code {
          assert cs[1..][k] == cs[k + 1];
        }
      }
      WithoutAbsent(cs[1..], code);
    }
  }

  lemma {:induction false} WithCodeAbsent(cs: seq<Company>, code: string)
    requires !HasCompany(cs, code)
    ensures WithCode(cs, code) == []
  {
    if cs != [] {
      assert !HasCompany(cs[1..], code) by {
        forall k | 0 <= k < |cs[1..]| ensures cs[1..][k].code != code {
          assert cs[1..][k] == cs[k + 1];
        }
      }
      WithCodeAbsent(cs[1..], code);
    }
  }

  /** Selecting from a concatenation selects from each part, in order. */
  lemma {:induction false} WithCodeAppend(a: seq<Company>, b: seq<Company>, code: string)
    ensures WithCode(a + b, code) == WithCode(a, code) + WithCode(b, code)
  {
    if a != [] {
      WithCodeAppend(a[1..], b, code);
      assert (a + b)[1..] == a[1..] + b;
    } else {
      assert a + b == b;
    }
  }

  /** A new invoice joins the end of its company's invoice list, and no other list. */
  lemma {:induction false} InvoiceIdsAppend(a: seq<Invoice>, b: seq<Invoice>, code: string)
    ensures InvoiceIds(a + b, code) == InvoiceIds(a, code) + InvoiceIds(b, code)
  {
    if a != [] {
      InvoiceIdsAppend(a[1..], b, code);
      assert (a + b)[1..] == a[1..] + b;
    } else {
      assert a + b == b;
    }
  }

  /** A new link adds the names of its industry at the end of its company's industry list. */
  lemma {:induction false} IndustryNamesAppend(ds: seq<Industry>, a: seq<Link>, b: seq<Link>, code: string)
    ensures IndustryNames(ds, a + b, code) == IndustryNames(ds, a, code) + IndustryNames(ds, b, code)
  {
    if a != [] {
      IndustryNamesAppend(ds, a[1..], b, code);
      assert (a + b)[1..] == a[1..] + b;
    } else {
      assert a + b == b;
    }
  }

  /** With unique industry codes, a link names at most one industry. */
  lemma {:induction false} NamesWithCodeUnique(ds: seq<Industry>, indCode: string)
    requires UniqueIndustryCodes(ds)
    ensures |NamesWithCode(ds, indCode)| <= 1
  {
    if ds != [] {
      NamesWithCodeUnique(ds[1..], indCode);
      UniqueTail(ds, (d: Industry) => d.code);
      if ds[0].code == indCode {
        forall j | 0 <= j < |ds[1..]| ensures ds[1..][j].code != indCode {
          assert ds[1..][j] == ds[j + 1];
        }
        NamesAbsent(ds[1..], indCode);
      }
    }
  }

  /** An industry code no row has names nothing. */
  lemma {:induction false} NamesAbsent(ds: seq<Industry>, indCode: string)
    requires forall j :: 0 <= j < |ds| ==> ds[j].code != indCode
    ensures NamesWithCode(ds, indCode) == []
  {
    if ds != [] {
      forall j | 0 <= j < |ds[1..]| ensures ds[1..][j].code != indCode {
        assert ds[1..][j] == ds[j + 1];
      }
      NamesAbsent(ds[1..], indCode);
    }
  }

  /** Creating a company by name alone and fetching it by the derived code gives back its
      name and description. */
  lemma CreateThenGet(cs: seq<Company>, vs: seq<Invoice>, ds: seq<Industry>, links: seq<Link>, c: Company)
    requires !HasCompany(cs, c.code)
    ensures Get(cs + [c], vs, ds, links, c.code) ==
      Ok(Detail(c.code, c.name, c.description, InvoiceIds(vs, c.code), IndustryNames(ds, links, c.code)))
  {
    WithCodeAppend(cs, [c], c.code);
    WithCodeAbsent(cs, c.code);
    assert WithCode([c], c.code) == [c];
  }

  /** After an update, the detail of that company shows the new name and description and
      the same invoices and industries. */
  lemma UpdateThenGet(cs: seq<Company>, vs: seq<Invoice>, ds: seq<Industry>, links: seq<Link>,
                      code: string, name: Option<string>, description: Option<string>)
    requires HasCompany(cs, code)
    ensures Get(Rename(cs, code, name, description), vs, ds, links, code) ==
      Ok(Detail(code, name, description, InvoiceIds(vs, code), IndustryNames(ds, links, code)))
  {
    var rs := Rename(cs, code, name, description);
    var k :| 0 <= k < |cs| && cs[k].code == code;
    assert rs[k].code == code;
    var rows := WithCode(rs, code);
    assert rs[k] in rows;
    assert rows[0] in rows;
    var m :| 0 <= m < |rs| && rs[m] == rows[0];
  }

  /** An update touches no other company's detail. */
  lemma {:induction false} RenameKeepsOthers(cs: seq<Company>, code: string, other: string,
                                             name: Option<string>, description: Option<string>)
    requires other != code
    ensures WithCode(Rename(cs, code, name, description), other) == WithCode(cs, other)
  {
    if cs != [] {
      RenameKeepsOthers(cs[1..], code, other, name, description);
      assert Rename(cs, code, name, description)[1..] == Rename(cs[1..], code, name, description);
    }
  }

  /** After a delete the code is gone, and every other company's detail is unchanged. */
  lemma {:induction false} WithoutKeepsOthers(cs: seq<Company>, code: string, other: string)
    ensures WithCode(Without(cs, code), code) == []
    ensures other != code ==> WithCode(Without(cs, code), other) == WithCode(cs, other)
  {
    if cs != [] {
      WithoutKeepsOthers(cs[1..], code, other);
      var head := if cs[0].code == code then [] else [cs[0]];
      var rest := Without(cs[1..], code);
      assert Without(cs, code) == head + rest;
      assert cs == [cs[0]] + cs[1..];
      WithCodeAppend(head, rest, code);
      WithCodeAppend(head, rest, other);
      WithCodeAppend([cs[0]], cs[1..], other);
    }
  }

  /** Fetching a deleted company gives NotFound; fetching another gives what it gave before. */
  lemma DeleteThenGet(cs: seq<Company>, vs: seq<Invoice>, ds: seq<Industry>, links: seq<Link>,
                      code: string, other: string)
    ensures Get(Without(cs, code), vs, ds, links, code) == NotFound
    ensures other != code ==> Get(Without(cs, code), vs, ds, links, other) == Get(cs, vs, ds, links, other)
  {
    WithoutKeepsOthers(cs, code, other);
  }
}
