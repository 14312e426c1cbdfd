/** The `/industries` routes: the listing grouped by industry name, industry create and
    the company-to-industry link. */
module Industries {
  import opened Tables

  /** A row of `industries left join company_industry on code = ind_code`; `compCode` is
      NULL for an industry no link points at. */
  datatype Row = Row(industry: string, code: string, compCode: Option<string>)

  /** What the listing holds for one industry name, `{code, companies}`; `companies` is
      absent until the handler sets it. */
  datatype Group = Group(code: string, companies: Option<seq<string>>)

  /** The entry `POST /industries` returns, `{industry, code}`. */
  datatype Entry = Entry(industry: string, code: string)

  /** Row `k` is the first row with this industry name. */
  predicate IsFirst(rows: seq<Row>, name: string, k: int)
  {
    0 <= k < |rows| && rows[k].industry == name && forall j :: 0 <= j < k ==> rows[j].industry != name
  }

  /** Industry `j` is the first one in the table with this name. */
  predicate IsFirstIndustry(ds: seq<Industry>, name: string, j: int)
  {
    0 <= j < |ds| && ds[j].industry == name && forall i :: 0 <= i < j ==> ds[i].industry != name
  }

  /** In row order, the `comp_code` of every row with this industry name whose `comp_code`
      is truthy. */
  function CompanyCodes(rows: seq<Row>, name: string): seq<string>
  {
    if rows == [] then [] else Step(rows[0], name) + CompanyCodes(rows[1..], name)
  }

  /** What one row adds to the company list of a name. */
  function Step(row: Row, name: string): seq<string>
  {
    if row.industry == name && Truthy(row.compCode) then [row.compCode.value] else []
  }

  /** GET /industries, the `reduce` over the joined rows: one key per industry name in the
      rows and no other; the code of the first row with that name; and, in row order, every
      truthy `comp_code` of that name's rows. */
  method Aggregate(rows: seq<Row>) returns (listing: map<string, Group>)
    ensures forall k :: 0 <= k < |rows| ==> rows[k].industry in listing
    ensures forall name :: name in listing ==>
      exists k :: IsFirst(rows, name, k) && listing[name].code == rows[k].code
    ensures forall name :: name in listing ==> listing[name].companies == Some(CompanyCodes(rows, name))
  {
    listing := map[];
    var i := 0;
    while i < |rows|
      invariant GroupedUpTo(rows, i, listing)
    {
      var entry := rows[i];
      var ind := entry.industry;
      ghost var before := CompanyCodes(rows[..i], ind);
      CompanyCodesSnoc(rows, i, ind);
      // `collection[ind]`: the group object the three steps below update in place
      var group: Group;
      if ind !in listing {
        NoRowsNoCodes(rows[..i], ind);
        group := Group(entry.code, None);
      } else {
        group := listing[ind];
      }
      if group.companies.None? {
        group := group.(companies := Some([]));
      }
      assert group.companies == Some(before);
      if Truthy(entry.compCode) {
        group := group.(companies := Some(group.companies.value + [entry.compCode.value]));
      } else {
        assert before + [] == before;
      }
      GroupedStep(rows, i, listing, group);
      listing := listing[ind := group];
      i := i + 1;
    }
    assert rows[..i] == rows;
  }

  /** The listing after the first `i` rows: a key for each name among them and no other, the
      code of that name's first row, and the truthy codes of its rows so far. */
  ghost predicate GroupedUpTo(rows: seq<Row>, i: int, listing: map<string, Group>)
  {
    && 0 <= i <= |rows|
    && (forall k :: 0 <= k < i ==> rows[k].industry in listing)
    && (forall name :: name in listing ==>
          exists k :: k < i && IsFirst(rows, name, k) && listing[name].code == rows[k].code)
    && (forall name :: name in listing ==> listing[name].companies == Some(CompanyCodes(rows[..i], name)))
  }

  /** Replacing the group of row `i`'s name by one that keeps (or, for a new name, takes)
      the row's code and has the codes of the first `i + 1` rows extends the listing by row `i`. */
  lemma GroupedStep(rows: seq<Row>, i: int, listing: map<string, Group>, group: Group)
    requires GroupedUpTo(rows, i, listing) && i < |rows|
    requires rows[i].industry in listing ==> group.code == listing[rows[i].industry].code
    requires rows[i].industry !in listing ==> group.code == rows[i].code
    requires group.companies == Some(CompanyCodes(rows[..i + 1], rows[i].industry))
    ensures GroupedUpTo(rows, i + 1, listing[rows[i].industry := group])
  {
    var ind := rows[i].industry;
    var next := listing[ind := group];
    if ind !in listing {
      assert IsFirst(rows, ind, i);
    }
    forall name | name in next ensures next[name].companies == Some(CompanyCodes(rows[..i + 1], name)) {
      if name != ind {
        CompanyCodesSnoc(rows, i, name);
        assert CompanyCodes(rows[..i], name) + [] == CompanyCodes(rows[..i], name);
      }
    }
  }

  /** The rows the left join gives for industry `d` from the links that point at it. */
  function LinkedRows(d: Industry, links: seq<Link>): (r: seq<Row>)
    ensures forall k :: 0 <= k < |r| ==> r[k].industry == d.industry && r[k].code == d.code
  {
    if links == [] then []
    else (if links[0].indCode == d.code then [Row(d.industry, d.code, Some(links[0].compCode))] else [])
         + LinkedRows(d, links[1..])
  }

  /** The rows of the left join for one industry: its linked rows, or one row with a NULL
      `comp_code` when no link points at it. */
  function RowsOf(d: Industry, links: seq<Link>): (r: seq<Row>)
    ensures r != []
    ensures forall k :: 0 <= k < |r| ==> r[k].industry == d.industry && r[k].code == d.code
  {
    var linked := LinkedRows(d, links);
    if linked == [] then [Row(d.industry, d.code, None)] else linked
  }

  /** `select industry, code, comp_code from industries left join company_industry on
      code = ind_code`, taken industry by industry in table order. */
  function LeftJoin(ds: seq<Industry>, links: seq<Link>): (r: seq<Row>)
    ensures |r| >= |ds|
  {
    if ds == [] then [] else RowsOf(ds[0], links) + LeftJoin(ds[1..], links)
  }

  /** In link order, the truthy company code of every link to the industry with this code. */
  function CodesLinkedTo(code: string, links: seq<Link>): seq<string>
  {
    if links == [] then []
    else (if links[0].indCode == code && links[0].compCode != "" then [links[0].compCode] else [])
         + CodesLinkedTo(code, links[1..])
  }

  /** For every industry with this name, in table order, the companies linked to it. */
  function LinkedCodes(ds: seq<Industry>, links: seq<Link>, name: string): seq<string>
  {
    if ds == [] then []
    else (if ds[0].industry == name then CodesLinkedTo(ds[0].code, links) else [])
         + LinkedCodes(ds[1..], links, name)
  }

  /** GET /industries over the tables: every industry name is a key and nothing else is; its
      code is that of the first industry with the name; its companies are those linked to the
      industries of that name. */
  method List(industries: seq<Industry>, links: seq<Link>) returns (listing: map<string, Group>)
    ensures forall j :: 0 <= j < |industries| ==> industries[j].industry in listing
    ensures forall name :: name in listing ==>
      exists j :: IsFirstIndustry(industries, name, j) && listing[name].code == industries[j].code
    ensures forall name :: name in listing ==>
      listing[name].companies == Some(LinkedCodes(industries, links, name))
  {
    var rows := LeftJoin(industries, links);
    listing := Aggregate(rows);
    forall j | 0 <= j < |industries| ensures industries[j].industry in listing {
      LeftJoinCovers(industries, links, j);
    }
    forall name | name in listing
      ensures exists j :: IsFirstIndustry(industries, name, j) && listing[name].code == industries[j].code
    {
      var k :| IsFirst(rows, name, k) && listing[name].code == rows[k].code;
      LeftJoinFirst(industries, links, name, k);
    }
    forall name | name in listing ensures listing[name].companies == Some(LinkedCodes(industries, links, name)) {
      LeftJoinCodes(industries, links, name);
    }
  }

  /** POST /industries as written: with a falsy `code` the handler evaluates `name`, which
      is not declared, and throws before anything is inserted. */
  method Create(db: Database, code: Option<string>, industry: string) returns (r: Response<Entry>)
    requires db.Valid()
    modifies db`industries
    ensures db.Valid()
    ensures !Truthy(code) ==> r == Failed(UndefinedIdentifier) && db.industries == old(db.industries)
    ensures Truthy(code) && HasIndustry(old(db.industries), code.value) ==>
      r == Failed(DuplicateKey) && db.industries == old(db.industries)
    ensures Truthy(code) && !HasIndustry(old(db.industries), code.value) ==>
      r == Ok(Entry(industry, code.value)) && db.industries == old(db.industries) + [Industry(code.value, industry)]
  {
    if !Truthy(code) {
      return Failed(UndefinedIdentifier);
    }
    r := Insert(db, code.value, industry);
  }

  /** POST /industries as evidently intended: a falsy `code` is derived from the industry's
      own name. */
  method CreateWithSlug(db: Database, slug: string -> string, code: Option<string>, industry: string)
    returns (r: Response<Entry>)
    requires db.Valid()
    modifies db`industries
    ensures db.Valid()
    ensures var key := if Truthy(code) then code.value else slug(industry);
      if HasIndustry(old(db.industries), key) then
        r == Failed(DuplicateKey) && db.industries == old(db.industries)
      else
        r == Ok(Entry(industry, key)) && db.industries == old(db.industries) + [Industry(key, industry)]
  {
    var key := if Truthy(code) then code.value else slug(industry);
    r := Insert(db, key, industry);
  }

  /** `insert into industries (code, industry) values ($1, $2) returning industry, code`. */
  method Insert(db: Database, code: string, industry: string) returns (r: Response<Entry>)
    requires db.Valid()
    modifies db`industries
    ensures db.Valid()
    ensures HasIndustry(old(db.industries), code) ==> r == Failed(DuplicateKey) && db.industries == old(db.industries)
    ensures !HasIndustry(old(db.industries), code) ==>
      r == Ok(Entry(industry, code)) && db.industries == old(db.industries) + [Industry(code, industry)]
  {
    if HasIndustry(db.industries, code) {
      return Failed(DuplicateKey);
    }
    db.industries := db.industries + [Industry(code, industry)];
    r := Ok(Entry(industry, code));
  }

  /** PUT /industries/:industry_code: BadRequest, inserting nothing, when `company_code` is
      falsy; otherwise the pair is inserted and returned. The handler's NotFound branch tests
      the query result object, which is always truthy, so it is never taken. */
  method LinkCompany(db: Database, industryCode: string, companyCode: Option<string>)
    returns (r: Response<Link>)
    requires db.Valid()
    modifies db`links
    ensures db.Valid()
    ensures !r.NotFound?
    ensures !Truthy(companyCode) ==> r == BadRequest && db.links == old(db.links)
    ensures Truthy(companyCode) ==>
      r == Ok(Link(companyCode.value, industryCode)) &&
      db.links == old(db.links) + [Link(companyCode.value, industryCode)]
  {
    if Truthy(companyCode) {
      var row := Link(companyCode.value, industryCode);
      db.links := db.links + [row];
      r := Ok(row);
    } else {
      r := BadRequest;
    }
  }

  // ---- lemmas ------------------------------------------------------------

  /** The companies of a concatenation are those of each part, in order. */
  lemma {:induction false} CompanyCodesAppend(a: seq<Row>, b: seq<Row>, name: string)
    ensures CompanyCodes(a + b, name) == CompanyCodes(a, name) + CompanyCodes(b, name)
  {
    if a == [] {
      assert a + b == b;
    } else {
      var s, x, y := Step(a[0], name), CompanyCodes(a[1..], name), CompanyCodes(b, name);
      assert CompanyCodes(a + b, name) == s + CompanyCodes(a[1..] + b, name) by {
        assert (a + b)[1..] == a[1..] + b;
      }
      CompanyCodesAppend(a[1..], b, name);
      ConcatAssoc(s, x, y);
    }
  }

  lemma ConcatAssoc(s: seq<string>, x: seq<string>, y: seq<string>)
    ensures s + (x + y) == (s + x) + y
  {
  }

  /** One more row adds its own company, if any, at the end. */
  lemma CompanyCodesSnoc(rows: seq<Row>, i: int, name: string)
    requires 0 <= i < |rows|
    ensures CompanyCodes(rows[..i + 1], name) == CompanyCodes(rows[..i], name) + Step(rows[i], name)
  {
    assert rows[..i + 1] == rows[..i] + [rows[i]];
    CompanyCodesAppend(rows[..i], [rows[i]], name);
    assert CompanyCodes([rows[i]], name) == Step(rows[i], name) + CompanyCodes([], name);
  }

  /** A code is in a group's list exactly when some row of that name carries it, truthy. */
  lemma {:induction false} CompanyCodesMembers(rows: seq<Row>, name: string, x: string)
    ensures x in CompanyCodes(rows, name) <==>
      exists k :: 0 <= k < |rows| && rows[k].industry == name && rows[k].compCode == Some(x) && x != ""
  {
    if rows != [] {
      CompanyCodesMembers(rows[1..], name, x);
      assert forall k :: 0 <= k < |rows| - 1 ==> rows[1..][k] == rows[k + 1];
    }
  }

  /** A group whose rows all have a falsy `comp_code` gets an empty company list. */
  lemma {:induction false} NoRowsNoCodes(rows: seq<Row>, name: string)
    requires forall k :: 0 <= k < |rows| && rows[k].industry == name ==> !Truthy(rows[k].compCode)
    ensures CompanyCodes(rows, name) == []
  {
    if rows != [] {
      assert forall k :: 0 <= k < |rows| - 1 ==> rows[1..][k] == rows[k + 1];
      NoRowsNoCodes(rows[1..], name);
    }
  }

  lemma {:induction false} LinkedRowsCodes(d: Industry, links: seq<Link>, name: string)
    ensures CompanyCodes(LinkedRows(d, links), name) == if d.industry == name then CodesLinkedTo(d.code, links) else []
  {
    if links != [] {
      LinkedRowsCodes(d, links[1..], name);
      var head := if links[0].indCode == d.code then [Row(d.industry, d.code, Some(links[0].compCode))] else [];
      CompanyCodesAppend(head, LinkedRows(d, links[1..]), name);
    }
  }

  lemma RowsOfCodes(d: Industry, links: seq<Link>, name: string)
    ensures CompanyCodes(RowsOf(d, links), name) == if d.industry == name then CodesLinkedTo(d.code, links) else []
  {
    LinkedRowsCodes(d, links, name);
  }

  /** The left join's companies for a name are those linked to that name's industries. */
  lemma {:induction false} LeftJoinCodes(ds: seq<Industry>, links: seq<Link>, name: string)
    ensures CompanyCodes(LeftJoin(ds, links), name) == LinkedCodes(ds, links, name)
  {
    if ds != [] {
      LeftJoinCodes(ds[1..], links, name);
      CompanyCodesAppend(RowsOf(ds[0], links), LeftJoin(ds[1..], links), name);
      RowsOfCodes(ds[0], links, name);
    }
  }

  /** The left join of a nonempty table: the first industry's rows, then the rest. */
  lemma LeftJoinCons(ds: seq<Industry>, links: seq<Link>)
    requires ds != []
    ensures LeftJoin(ds, links) == RowsOf(ds[0], links) + LeftJoin(ds[1..], links)
  {
  }

  /** Every industry, linked or not, gives the left join a row with its name. */
  lemma {:induction false} LeftJoinCovers(ds: seq<Industry>, links: seq<Link>, j: int)
    requires 0 <= j < |ds|
    ensures exists k :: 0 <= k < |LeftJoin(ds, links)| && LeftJoin(ds, links)[k].industry == ds[j].industry
  {
    var head := RowsOf(ds[0], links);
    var tail := LeftJoin(ds[1..], links);
    var rows := LeftJoin(ds, links);
    LeftJoinCons(ds, links);
    if j == 0 {
      assert rows[0] == head[0];
    } else {
      LeftJoinCovers(ds[1..], links, j - 1);
      var k :| 0 <= k < |tail| && tail[k].industry == ds[1..][j - 1].industry;
      assert rows[|head| + k] == tail[k] && ds[1..][j - 1] == ds[j];
    }
  }

  /** Every row of the left join carries the name and code of some industry. */
  lemma {:induction false} LeftJoinFrom(ds: seq<Industry>, links: seq<Link>, k: int)
    requires 0 <= k < |LeftJoin(ds, links)|
    ensures exists j :: 0 <= j < |ds| && LeftJoin(ds, links)[k].industry == ds[j].industry &&
                        LeftJoin(ds, links)[k].code == ds[j].code
  {
    var head := RowsOf(ds[0], links);
    var tail := LeftJoin(ds[1..], links);
    assert LeftJoin(ds, links) == head + tail;
    if k < |head| {
      assert LeftJoin(ds, links)[k] == head[k];
    } else {
      LeftJoinFrom(ds[1..], links, k - |head|);
      var j :| 0 <= j < |ds[1..]| && tail[k - |head|].industry == ds[1..][j].industry &&
               tail[k - |head|].code == ds[1..][j].code;
      assert LeftJoin(ds, links)[k] == tail[k - |head|] && ds[1..][j] == ds[j + 1];
    }
  }

  /** The first joined row with a name comes from the first industry with that name. */
  lemma {:induction false} LeftJoinFirst(ds: seq<Industry>, links: seq<Link>, name: string, k: int)
    requires IsFirst(LeftJoin(ds, links), name, k)
    ensures exists j :: IsFirstIndustry(ds, name, j) && LeftJoin(ds, links)[k].code == ds[j].code
  {
    assert ds != [];
    var head := RowsOf(ds[0], links);
    var tail := LeftJoin(ds[1..], links);
    LeftJoinCons(ds, links);
    if ds[0].industry == name {
      FirstOfHead(head, tail, name, k);
      assert IsFirstIndustry(ds, name, 0);
    } else {
      FirstOfTail(head, tail, name, k);
      LeftJoinFirst(ds[1..], links, name, k - |head|);
      var j :| IsFirstIndustry(ds[1..], name, j) && tail[k - |head|].code == ds[1..][j].code;
      assert IsFirstIndustry(ds, name, j + 1) by {
        forall i | 0 <= i < j + 1 ensures ds[i].industry != name {
          if i > 0 {
            assert ds[i] == ds[1..][i - 1];
          }
        }
      }
    }
  }

  /** When the first block of rows starts with the name, the first row of the name is row 0. */
  lemma FirstOfHead(head: seq<Row>, tail: seq<Row>, name: string, k: int)
    requires head != [] && head[0].industry == name
    requires IsFirst(head + tail, name, k)
    ensures k == 0 && (head + tail)[k] == head[0]
  {
    assert (head + tail)[0] == head[0];
  }

  /** When no row of the first block has the name, the first row of the name is in the rest. */
  lemma FirstOfTail(head: seq<Row>, tail: seq<Row>, name: string, k: int)
    requires forall t :: 0 <= t < |head| ==> head[t].industry != name
    requires IsFirst(head + tail, name, k)
    ensures k >= |head| && IsFirst(tail, name, k - |head|) && (head + tail)[k] == tail[k - |head|]
  {
    var rows := head + tail;
    assert forall t :: 0 <= t < |tail| ==> rows[|head| + t] == tail[t];
  }

  // ---- the listing as written: a plain object as the accumulator -----------

  /** The names a plain JavaScript object inherits from `Object.prototype`: its methods, and
      the `__proto__` accessor, which yields `Object.prototype` itself. */
  const InheritedNames: set<string> :=
    {"constructor", "hasOwnProperty", "isPrototypeOf", "propertyIsEnumerable", "toLocaleString",
     "toString", "valueOf", "__defineGetter__", "__defineSetter__", "__lookupGetter__", "__lookupSetter__",
     "__proto__"}

  /** Some row before row `k` is named `__proto__`: by then the reduce as written has set
      `Object.prototype.companies`. */
  predicate PollutedBefore(rows: seq<Row>, k: int)
  {
    exists p :: 0 <= p < k && p < |rows| && rows[p].industry == "__proto__"
  }

  /** Whether the reduce as written makes the name of row `k`, its first row, an own key: the
      lookup `collection[ind]` misses only when no inherited property answers it, and once
      `Object.prototype.companies` is set the name "companies" is answered by that array. */
  predicate OwnSlot(rows: seq<Row>, k: int)
    requires 0 <= k < |rows|
  {
    rows[k].industry !in InheritedNames && !(rows[k].industry == "companies" && PollutedBefore(rows, k))
  }

  /** The `reduce` exactly as written, over the part of the JavaScript heap it touches.
      `collection` starts as `{}`, so `collection[ind]` for an inherited name finds the inherited
      property (a method, or `Object.prototype` itself for `__proto__`), which is truthy: no own
      entry is made and the name is missing from the object sent back, whose own properties are
      `own`. The `companies` array is then looked up on that shared object: an array set on an
      inherited method is in `attached`, and the one a `__proto__` row sets on
      `Object.prototype` is `proto`. Once `proto` is set every object inherits it, so a group
      created afterwards finds it, gets no `companies` field of its own, and its companies are
      pushed onto `proto`. */
  method AggregateAsWritten(rows: seq<Row>)
    returns (own: map<string, Group>, attached: map<string, seq<string>>, proto: Option<seq<string>>)
    ensures proto.Some? <==> PollutedBefore(rows, |rows|)
    ensures forall k :: 0 <= k < |rows| && IsFirst(rows, rows[k].industry, k) ==>
      (rows[k].industry in own <==> OwnSlot(rows, k))
    ensures forall name :: name in own ==>
      exists k :: IsFirst(rows, name, k) && OwnSlot(rows, k) && own[name].code == rows[k].code &&
                  (own[name].companies.None? <==> PollutedBefore(rows, k))
  {
    own, attached, proto := map[], map[], None;
    var i := 0;
    while i < |rows|
      invariant 0 <= i <= |rows|
      invariant AsWrittenUpTo(rows, i, own, proto)
    {
      ghost var own0, proto0 := own, proto;
      var entry := rows[i];
      var ind := entry.industry;
      // `collection[ind]`: an own entry, an inherited property, or undefined
      var found := ind in own || ind in InheritedNames || (ind == "companies" && proto.Some?);
      if !found {
        own := own[ind := Group(entry.code, None)];
      }
      if ind in own {
        if own[ind].companies.None? && proto.None? {
          own := own[ind := own[ind].(companies := Some([]))];
        }
        if Truthy(entry.compCode) {
          if own[ind].companies.Some? {
            own := own[ind := own[ind].(companies := Some(own[ind].companies.value + [entry.compCode.value]))];
          } else {
            proto := Some(proto.value + [entry.compCode.value]);
          }
        }
      } else if ind == "__proto__" {
        if proto.None? {
          proto := Some([]);
        }
        if Truthy(entry.compCode) {
          proto := Some(proto.value + [entry.compCode.value]);
        }
      } else if ind in InheritedNames {
        if ind !in attached && proto.None? {
          attached := attached[ind := []];
        }
        if Truthy(entry.compCode) {
          if ind in attached {
            attached := attached[ind := attached[ind] + [entry.compCode.value]];
          } else {
            proto := Some(proto.value + [entry.compCode.value]);
          }
        }
      } else if Truthy(entry.compCode) {
        // `collection.companies` is the inherited array, and so is its own `companies`
        proto := Some(proto.value + [entry.compCode.value]);
      }
      AsWrittenStep(rows, i, own0, proto0, own, proto);
      i := i + 1;
    }
  }

  /** The state of the reduce as written after the first `i` rows: which names are own keys,
      with what code and whether their `companies` field is their own, and whether
      `Object.prototype.companies` is set. */
  ghost predicate AsWrittenUpTo(rows: seq<Row>, i: int, own: map<string, Group>, proto: Option<seq<string>>)
    requires 0 <= i <= |rows|
  {
    (proto.Some? <==> PollutedBefore(rows, i)) && OwnSlots(rows, i, own) &&
    Answered(rows, i, own, proto) && Origins(rows, i, own)
  }

  /** Among the first `i` rows, a name's first row makes it an own key exactly when its slot is free. */
  ghost predicate OwnSlots(rows: seq<Row>, i: int, own: map<string, Group>)
    requires 0 <= i <= |rows|
  {
    forall k :: 0 <= k < i && IsFirst(rows, rows[k].industry, k) ==> (rows[k].industry in own <==> OwnSlot(rows, k))
  }

  /** Every name among the first `i` rows that is no own key is answered by an inherited property. */
  ghost predicate Answered(rows: seq<Row>, i: int, own: map<string, Group>, proto: Option<seq<string>>)
    requires 0 <= i <= |rows|
  {
    forall k :: 0 <= k < i && rows[k].industry !in own ==>
      rows[k].industry in InheritedNames || (rows[k].industry == "companies" && proto.Some?)
  }

  /** Every own key was created by its first row among the first `i`, with that row's code, and
      has no own `companies` exactly when `Object.prototype.companies` was set before that row. */
  ghost predicate Origins(rows: seq<Row>, i: int, own: map<string, Group>)
    requires 0 <= i <= |rows|
  {
    forall name :: name in own ==>
      exists k :: 0 <= k < i && IsFirst(rows, name, k) && OwnSlot(rows, k) && own[name].code == rows[k].code &&
                  (own[name].companies.None? <==> PollutedBefore(rows, k))
  }

  /** One row of the reduce as written, taking (`own`, `proto`) to (`own'`, `proto'`). Its lookup
      misses exactly when no own entry and no inherited property answers the name; then an entry
      is created with the row's code, and it gets its own `companies` unless
      `Object.prototype.companies` already answers. An existing entry keeps its code, and gets its
      own `companies` only if `Object.prototype.companies` is unset. Only a `__proto__` row sets
      `Object.prototype.companies`. */
  ghost predicate AsWrittenRow(rows: seq<Row>, i: int, own: map<string, Group>, proto: Option<seq<string>>,
                               own': map<string, Group>, proto': Option<seq<string>>)
    requires 0 <= i < |rows|
  {
    var ind := rows[i].industry;
    (proto'.Some? <==> proto.Some? || ind == "__proto__") &&
    own'.Keys == (if ind in own || ind in InheritedNames || (ind == "companies" && proto.Some?)
                  then own.Keys else own.Keys + {ind}) &&
    (forall name :: name in own && name != ind ==> own'[name] == own[name]) &&
    (ind in own ==>
       own'[ind].code == own[ind].code &&
       (own'[ind].companies.None? <==> own[ind].companies.None? && proto.Some?)) &&
    (ind in own' && ind !in own ==>
       own'[ind].code == rows[i].code && (own'[ind].companies.None? <==> proto.Some?))
  }

  lemma AsWrittenStep(rows: seq<Row>, i: int, own: map<string, Group>, proto: Option<seq<string>>,
                      own': map<string, Group>, proto': Option<seq<string>>)
    requires 0 <= i < |rows|
    requires AsWrittenUpTo(rows, i, own, proto)
    requires AsWrittenRow(rows, i, own, proto, own', proto')
    ensures AsWrittenUpTo(rows, i + 1, own', proto')
  {
    assert PollutedBefore(rows, i + 1) <==> PollutedBefore(rows, i) || rows[i].industry == "__proto__";
    StepOwnSlots(rows, i, own, proto, own', proto');
    StepOrigins(rows, i, own, proto, own', proto');
  }

  lemma StepOwnSlots(rows: seq<Row>, i: int, own: map<string, Group>, proto: Option<seq<string>>,
                     own': map<string, Group>, proto': Option<seq<string>>)
    requires 0 <= i < |rows|
    requires AsWrittenUpTo(rows, i, own, proto)
    requires AsWrittenRow(rows, i, own, proto, own', proto')
    ensures OwnSlots(rows, i + 1, own')
  {
    var ind := rows[i].industry;
    forall k | 0 <= k < i + 1 && IsFirst(rows, rows[k].industry, k)
      ensures rows[k].industry in own' <==> OwnSlot(rows, k)
    {
      if k < i && rows[k].industry == ind {
        assert ind in own || ind in InheritedNames || (ind == "companies" && proto.Some?);
      }
    }
  }

  lemma StepOrigins(rows: seq<Row>, i: int, own: map<string, Group>, proto: Option<seq<string>>,
                    own': map<string, Group>, proto': Option<seq<string>>)
    requires 0 <= i < |rows|
    requires AsWrittenUpTo(rows, i, own, proto)
    requires AsWrittenRow(rows, i, own, proto, own', proto')
    ensures Origins(rows, i + 1, own')
  {
    var ind := rows[i].industry;
    forall name | name in own'
      ensures exists k :: 0 <= k < i + 1 && IsFirst(rows, name, k) && OwnSlot(rows, k) &&
                          own'[name].code == rows[k].code && (own'[name].companies.None? <==> PollutedBefore(rows, k))
    {
      if name in own {
        var k :| 0 <= k < i && IsFirst(rows, name, k) && OwnSlot(rows, k) && own[name].code == rows[k].code &&
                 (own[name].companies.None? <==> PollutedBefore(rows, k));
        assert PollutedBefore(rows, k) ==> PollutedBefore(rows, i);
      } else {
        // the lookup missed, so no earlier row had this name
        assert name == ind;
        assert IsFirst(rows, name, i);
      }
    }
  }

  /** An industry named "constructor": listed by the corrected aggregation, missing from the
      listing as written. */
  method InheritedNameDropped() returns (asWritten: map<string, Group>, intended: map<string, Group>)
    ensures "constructor" !in asWritten
    ensures "constructor" in intended && intended["constructor"] == Group("ctor", Some(["acme"]))
  {
    var rows := [Row("constructor", "ctor", Some("acme"))];
    var attached, proto;
    asWritten, attached, proto := AggregateAsWritten(rows);
    intended := Aggregate(rows);
    var k :| IsFirst(rows, "constructor", k) && intended["constructor"].code == rows[k].code;
    assert CompanyCodes(rows, "constructor") == ["acme"];
  }

  /** Three rows, a `__proto__` row followed by rows named "companies" and "Tech". */
  const PollutingRows := [Row("__proto__", "p", None), Row("companies", "c", None), Row("Tech", "t", Some("acme"))]

  /** As written, the listing of `PollutingRows` lacks "companies", and "Tech" is sent without a
      `companies` field, its company pushed onto `Object.prototype.companies`. */
  method PrototypePolluted() returns (asWritten: map<string, Group>)
    ensures "companies" !in asWritten
    ensures "Tech" in asWritten && asWritten["Tech"] == Group("t", None)
  {
    var rows := PollutingRows;
    var attached, proto;
    asWritten, attached, proto := AggregateAsWritten(rows);
    assert rows[0].industry == "__proto__";
    assert IsFirst(rows, "companies", 1) && !OwnSlot(rows, 1);
    assert IsFirst(rows, "Tech", 2) && OwnSlot(rows, 2);
    var t :| IsFirst(rows, "Tech", t) && OwnSlot(rows, t) && asWritten["Tech"].code == rows[t].code &&
             (asWritten["Tech"].companies.None? <==> PollutedBefore(rows, t));
    assert t == 2;
  }

  /** The corrected aggregation lists both names of `PollutingRows` with their companies. */
  method PrototypeHarmless() returns (intended: map<string, Group>)
    ensures "companies" in intended && intended["companies"] == Group("c", Some([]))
    ensures "Tech" in intended && intended["Tech"] == Group("t", Some(["acme"]))
  {
    var rows := PollutingRows;
    intended := Aggregate(rows);
    var tail := rows[1..];
    assert tail[1..][1..] == [];
    assert CompanyCodes(tail[1..], "Tech") == ["acme"] && CompanyCodes(tail[1..], "companies") == [];
    assert CompanyCodes(tail, "Tech") == ["acme"] && CompanyCodes(tail, "companies") == [];
    assert CompanyCodes(rows, "Tech") == ["acme"] && CompanyCodes(rows, "companies") == [];
    assert IsFirst(rows, "companies", 1) && IsFirst(rows, "Tech", 2);
    var c :| IsFirst(rows, "companies", c) && intended["companies"].code == rows[c].code;
    var d :| IsFirst(rows, "Tech", d) && intended["Tech"].code == rows[d].code;
    assert c == 1 && d == 2;
  }
}
